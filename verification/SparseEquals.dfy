/**
 Comparing two sparse tensors by merging their coordinate streams (src/tensor.cpp:993-1108).
 Values are real numbers, so rounding is not modelled.
 */
module SparseEquals {

  datatype Entry<C> = Entry(coord: C, value: real)

  /** What iteration and dimensions show of a tensor. */
  datatype Tensor<C> = Tensor(componentType: nat, dimensions: seq<nat>, entries: seq<Entry<C>>)

  predicate IsZero(a: real) {
    a == 0.0
  }

  function Abs(a: real): real {
    if a < 0.0 then -a else a
  }

  /**
   A relative difference of at most 10e-6. The quotient by a zero is infinite, or not a number when both are zero, and
   only the infinite one exceeds the bound.
   */
  predicate ScalarEquals(a: real, b: real) {
    if a == 0.0 then b == 0.0 else Abs((a - b) / a) <= 0.00001
  }

  /** Zero is equal to zero only, on either side. */
  lemma ZeroEqualsZeroOnly(a: real, b: real)
    ensures a == 0.0 || b == 0.0 ==> (ScalarEquals(a, b) <==> a == b)
  {
    if a != 0.0 && b == 0.0 {
      assert (a - b) / a == 1.0;
    }
  }

  const TOLERANCE := 0.00001

  function Smaller(a: real, b: real): real {
    if Abs(a) < Abs(b) then Abs(a) else Abs(b)
  }

  function Larger(a: real, b: real): real {
    if Abs(a) < Abs(b) then Abs(b) else Abs(a)
  }

  /** The difference lies between the tolerances that the two values allow. */
  predicate Borderline(a: real, b: real) {
    TOLERANCE * Smaller(a, b) < Abs(a - b) <= TOLERANCE * Larger(a, b)
  }

  /** The difference is within the tolerance that the larger value allows. */
  predicate Close(a: real, b: real) {
    Abs(a - b) <= TOLERANCE * Larger(a, b)
  }

  predicate SmallerBorderline(a: real, b: real) {
    Borderline(a, b) && Abs(a) < Abs(b)
  }

  lemma AbsOfQuotient(x: real, a: real)
    requires a != 0.0
    ensures Abs(x / a) * Abs(a) == Abs(x)
  {
    var q := x / a;
    assert q * a == x;
    if q >= 0.0 {
      if a > 0.0 {
        NonNegativeProduct(q, a);
      } else {
        NonNegativeProduct(q, -a);
      }
    } else if a > 0.0 {
      NonNegativeProduct(-q, a);
    } else {
      NonNegativeProduct(-q, -a);
    }
  }

  lemma NonNegativeProduct(x: real, y: real)
    requires x >= 0.0 && y >= 0.0
    ensures x * y >= 0.0
  {
  }

  lemma ScaledOrder(x: real, y: real, m: real)
    requires m > 0.0
    ensures x <= y <==> x * m <= y * m
  {
    if x <= y {
      NonNegativeProduct(y - x, m);
    } else {
      assert (x - y) * m > 0.0;
    }
  }

  /** Equality is a tolerance relative to the left value. */
  lemma EqualsByTolerance(a: real, b: real)
    requires a != 0.0
    ensures ScalarEquals(a, b) <==> Abs(a - b) <= TOLERANCE * Abs(a)
  {
    var q, m := Abs((a - b) / a), Abs(a);
    AbsOfQuotient(a - b, a);
    QuotientWithin(q, TOLERANCE, m, Abs(a - b));
  }

  lemma QuotientWithin(q: real, t: real, m: real, p: real)
    requires m > 0.0 && q * m == p
    ensures q <= t <==> p <= t * m
  {
    ScaledOrder(q, t, m);
  }

  /** The relation is symmetric exactly outside the borderline. */
  lemma SymmetricUnlessBorderline(a: real, b: real)
    ensures (ScalarEquals(a, b) <==> ScalarEquals(b, a)) <==> !Borderline(a, b)
  {
    ZeroEqualsZeroOnly(a, b);
    ZeroEqualsZeroOnly(b, a);
    if a != 0.0 && b != 0.0 {
      EqualsByTolerance(a, b);
      EqualsByTolerance(b, a);
      assert Abs(a - b) == Abs(b - a);
      ScaledOrder(Abs(a), Abs(b), TOLERANCE);
    }
  }

  lemma EqualsIsClose(a: real, b: real)
    ensures ScalarEquals(a, b) <==> Close(a, b) && !SmallerBorderline(a, b)
  {
    ZeroEqualsZeroOnly(a, b);
    if a != 0.0 {
      EqualsByTolerance(a, b);
    }
  }

  ghost predicate StrictOrder<C(!new)>(less: (C, C) -> bool) {
    && (forall x :: !less(x, x))
    && (forall x, y, z :: less(x, y) && less(y, z) ==> less(x, z))
    && (forall x, y :: x != y ==> less(x, y) || less(y, x))
  }

  ghost predicate Increasing<C>(s: seq<Entry<C>>, less: (C, C) -> bool) {
    forall i, j {:trigger s[i], s[j]} :: 0 <= i < j < |s| ==> less(s[i].coord, s[j].coord)
  }

  /** The value at a coordinate; what is not stored is zero. */
  function ValueAt<C(==)>(s: seq<Entry<C>>, c: C): real {
    if s == [] then 0.0 else if s[0].coord == c then s[0].value else ValueAt(s[1..], c)
  }

  /** The tensors agree at every coordinate. */
  ghost predicate DenseEqual<C(!new)>(a: seq<Entry<C>>, b: seq<Entry<C>>) {
    forall c: C :: ScalarEquals(ValueAt(a, c), ValueAt(b, c))
  }

  lemma {:induction false} NotStored<C>(s: seq<Entry<C>>, c: C)
    requires forall i :: 0 <= i < |s| ==> s[i].coord != c
    ensures ValueAt(s, c) == 0.0
  {
    if s != [] {
      NotStored(s[1..], c);
    }
  }

  /** Behind its head a stream holds larger coordinates only. */
  lemma NotBehind<C(!new)>(s: seq<Entry<C>>, less: (C, C) -> bool, c: C)
    requires StrictOrder(less) && Increasing(s, less) && s != [] && (s[0].coord == c || less(c, s[0].coord))
    ensures ValueAt(s[1..], c) == 0.0
    ensures s[0].coord != c ==> ValueAt(s, c) == 0.0
  {
    var rest := s[1..];
    forall i | 0 <= i < |rest|
      ensures rest[i].coord != c
    {
      assert less(s[0].coord, s[i + 1].coord);
    }
    NotStored(rest, c);
  }

  /** An explicit zero may be skipped. */
  lemma SkipLeft<C(!new)>(a: seq<Entry<C>>, b: seq<Entry<C>>, less: (C, C) -> bool)
    requires StrictOrder(less) && Increasing(a, less) && a != [] && IsZero(a[0].value)
    ensures DenseEqual(a, b) <==> DenseEqual(a[1..], b)
  {
    NotBehind(a, less, a[0].coord);
    assert forall c :: ValueAt(a, c) == ValueAt(a[1..], c);
  }

  lemma SkipRight<C(!new)>(a: seq<Entry<C>>, b: seq<Entry<C>>, less: (C, C) -> bool)
    requires StrictOrder(less) && Increasing(b, less) && b != [] && IsZero(b[0].value)
    ensures DenseEqual(a, b) <==> DenseEqual(a, b[1..])
  {
    NotBehind(b, less, b[0].coord);
    assert forall c :: ValueAt(b, c) == ValueAt(b[1..], c);
  }

  lemma Matched<C(!new)>(a: seq<Entry<C>>, b: seq<Entry<C>>, less: (C, C) -> bool)
    requires StrictOrder(less) && Increasing(a, less) && Increasing(b, less) && a != [] && b != [] &&
      a[0].coord == b[0].coord
    ensures DenseEqual(a, b) <==> ScalarEquals(a[0].value, b[0].value) && DenseEqual(a[1..], b[1..])
  {
    var c0 := a[0].coord;
    NotBehind(a, less, c0);
    NotBehind(b, less, c0);
    if DenseEqual(a, b) {
      assert ScalarEquals(ValueAt(a, c0), ValueAt(b, c0));
      forall c
        ensures ScalarEquals(ValueAt(a[1..], c), ValueAt(b[1..], c))
      {
        assert c != c0 ==> ScalarEquals(ValueAt(a, c), ValueAt(b, c));
      }
    } else {
      var c :| !ScalarEquals(ValueAt(a, c), ValueAt(b, c));
      assert c != c0 ==> !ScalarEquals(ValueAt(a[1..], c), ValueAt(b[1..], c));
    }
  }

  /** Different coordinates with values other than zero: the smaller one is not stored on the other side. */
  lemma Unmatched<C(!new)>(a: seq<Entry<C>>, b: seq<Entry<C>>, less: (C, C) -> bool)
    requires StrictOrder(less) && Increasing(a, less) && Increasing(b, less) && a != [] && b != [] &&
      a[0].coord != b[0].coord
    requires !IsZero(a[0].value) && !IsZero(b[0].value)
    ensures !DenseEqual(a, b)
  {
    if less(a[0].coord, b[0].coord) {
      NotBehind(b, less, a[0].coord);
      ZeroEqualsZeroOnly(a[0].value, 0.0);
      assert !ScalarEquals(ValueAt(a, a[0].coord), ValueAt(b, a[0].coord));
    } else {
      NotBehind(a, less, b[0].coord);
      assert !ScalarEquals(ValueAt(a, b[0].coord), ValueAt(b, b[0].coord));
    }
  }

  lemma OneSided<C(!new)>(a: seq<Entry<C>>, b: seq<Entry<C>>)
    requires (a == []) != (b == []) && (a != [] ==> !IsZero(a[0].value)) && (b != [] ==> !IsZero(b[0].value))
    ensures !DenseEqual(a, b)
  {
    var c := if a != [] then a[0].coord else b[0].coord;
    ZeroEqualsZeroOnly(ValueAt(a, c), ValueAt(b, c));
    assert !ScalarEquals(ValueAt(a, c), ValueAt(b, c));
  }

  lemma SuffixIncreasing<C>(s: seq<Entry<C>>, less: (C, C) -> bool, i: nat)
    requires Increasing(s, less) && i <= |s|
    ensures Increasing(s[i..], less)
  {
    var rest := s[i..];
    forall j, k {:trigger rest[j], rest[k]} | 0 <= j < k < |rest|
      ensures less(rest[j].coord, rest[k].coord)
    {
      assert rest[j] == s[i + j] && rest[k] == s[i + k];
    }
  }

  /** The streams are merged; the answer is that of comparing every coordinate. */
  method EqualsTyped<C(==,!new)>(a: seq<Entry<C>>, b: seq<Entry<C>>, ghost less: (C, C) -> bool) returns (r: bool)
    requires StrictOrder(less) && Increasing(a, less) && Increasing(b, less)
    ensures r <==> DenseEqual(a, b)
  {
    var i, j := 0, 0;
    assert a[0..] == a && b[0..] == b;
    while i < |a| && j < |b|
      invariant i <= |a| && j <= |b| && (DenseEqual(a, b) <==> DenseEqual(a[i..], b[j..]))
      decreases |a| - i + |b| - j
    {
      SuffixIncreasing(a, less, i);
      SuffixIncreasing(b, less, j);
      assert a[i..][1..] == a[i + 1..] && b[j..][1..] == b[j + 1..];
      if a[i].coord != b[j].coord {
        if IsZero(a[i].value) {
          SkipLeft(a[i..], b[j..], less);
          i := i + 1;
          continue;
        } else if IsZero(b[j].value) {
          SkipRight(a[i..], b[j..], less);
          j := j + 1;
          continue;
        }
        Unmatched(a[i..], b[j..], less);
        return false;
      }
      Matched(a[i..], b[j..], less);
      if !ScalarEquals(a[i].value, b[j].value) {
        return false;
      }
      i, j := i + 1, j + 1;
    }
    while i < |a|
      invariant i <= |a| && j <= |b| && (i < |a| ==> j == |b|) && (DenseEqual(a, b) <==> DenseEqual(a[i..], b[j..]))
    {
      SuffixIncreasing(a, less, i);
      assert a[i..][1..] == a[i + 1..];
      if !IsZero(a[i].value) {
        OneSided(a[i..], b[j..]);
        return false;
      }
      SkipLeft(a[i..], b[j..], less);
      i := i + 1;
    }
    while j < |b|
      invariant i == |a| && j <= |b| && (DenseEqual(a, b) <==> DenseEqual(a[i..], b[j..]))
    {
      SuffixIncreasing(b, less, j);
      assert b[j..][1..] == b[j + 1..];
      if !IsZero(b[j].value) {
        OneSided(a[i..], b[j..]);
        return false;
      }
      SkipRight(a[i..], b[j..], less);
      j := j + 1;
    }
    r := true;
  }

  /** Tensors are equal when types and dimensions are, and the values at every coordinate. */
  method Equals<C(==,!new)>(a: Tensor<C>, b: Tensor<C>, ghost less: (C, C) -> bool) returns (r: bool)
    requires StrictOrder(less) && Increasing(a.entries, less) && Increasing(b.entries, less)
    ensures r <==>
      a.componentType == b.componentType && a.dimensions == b.dimensions && DenseEqual(a.entries, b.entries)
  {
    if a.componentType != b.componentType || |a.dimensions| != |b.dimensions| {
      return false;
    }
    for mode := 0 to |a.dimensions|
      invariant a.dimensions[..mode] == b.dimensions[..mode]
    {
      if a.dimensions[mode] != b.dimensions[mode] {
        return false;
      }
    }
    assert a.dimensions[..|a.dimensions|] == b.dimensions[..|b.dimensions|];
    r := EqualsTyped(a.entries, b.entries, less);
  }

  // ---------- symmetry ----------

  ghost predicate AllClose<C(!new)>(a: seq<Entry<C>>, b: seq<Entry<C>>) {
    forall c: C :: Close(ValueAt(a, c), ValueAt(b, c))
  }

  /** At some coordinate the values are borderline, and the one of a is the smaller. */
  ghost predicate SmallerSomewhere<C(!new)>(a: seq<Entry<C>>, b: seq<Entry<C>>) {
    exists c: C :: SmallerBorderline(ValueAt(a, c), ValueAt(b, c))
  }

  lemma EqualWhere<C(!new)>(a: seq<Entry<C>>, b: seq<Entry<C>>)
    ensures DenseEqual(a, b) <==> AllClose(a, b) && !SmallerSomewhere(a, b)
  {
    forall c: C
      ensures ScalarEquals(ValueAt(a, c), ValueAt(b, c)) <==>
        Close(ValueAt(a, c), ValueAt(b, c)) && !SmallerBorderline(ValueAt(a, c), ValueAt(b, c))
    {
      EqualsIsClose(ValueAt(a, c), ValueAt(b, c));
    }
  }

  /** Tensors are equal in one order only exactly when all values are close and one tensor alone has a smaller
   * borderline value. */
  lemma TensorSymmetry<C(!new)>(a: seq<Entry<C>>, b: seq<Entry<C>>)
    ensures (DenseEqual(a, b) <==> DenseEqual(b, a)) <==>
      !(AllClose(a, b) && SmallerSomewhere(a, b) != SmallerSomewhere(b, a))
  {
    EqualWhere(a, b);
    EqualWhere(b, a);
    forall c: C
      ensures Close(ValueAt(a, c), ValueAt(b, c)) <==> Close(ValueAt(b, c), ValueAt(a, c))
    {
    }
  }

  /** One stored value is enough: at any coordinate, 100000 and 99999 are equal in this order only. */
  lemma TensorEqualityIsNotSymmetric<C(!new)>(c0: C)
    ensures var a, b := [Entry(c0, 100000.0)], [Entry(c0, 99999.0)]; DenseEqual(a, b) && !DenseEqual(b, a)
  {
    var a, b := [Entry(c0, 100000.0)], [Entry(c0, 99999.0)];
    EqualsByTolerance(100000.0, 99999.0);
    EqualsByTolerance(99999.0, 100000.0);
    forall c
      ensures ScalarEquals(ValueAt(a, c), ValueAt(b, c))
    {
      assert a[1..] == [] && b[1..] == [];
    }
    assert ValueAt(a, c0) == 100000.0 && ValueAt(b, c0) == 99999.0;
    assert !ScalarEquals(ValueAt(b, c0), ValueAt(a, c0));
  }
}
