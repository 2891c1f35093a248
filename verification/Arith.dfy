/** Facts about products, remainders, powers of two and finite sets of numbers. */
module Arith {

  function Pow2(k: nat): (r: nat)
    ensures r >= 1
  {
    if k == 0 then 1 else 2 * Pow2(k - 1)
  }

  lemma {:induction false} Pow2Add(a: nat, b: nat)
    ensures Pow2(a + b) == Pow2(a) * Pow2(b)
  {
    if a > 0 {
      Pow2Add(a - 1, b);
      MulAssoc(2, Pow2(a - 1), Pow2(b));
    }
  }

  lemma WordSizes()
    ensures Pow2(8) == 0x100 && Pow2(16) == 0x1_0000 && Pow2(32) == 0x1_0000_0000
    ensures Pow2(64) == 0x1_0000_0000_0000_0000
  {
    assert Pow2(4) == 16;
    Pow2Add(4, 4);
    Pow2Add(8, 8);
    Pow2Add(16, 16);
    Pow2Add(32, 32);
  }

  lemma MulAssoc(a: int, b: int, c: int)
    ensures a * (b * c) == (a * b) * c
  {
  }

  lemma MulGrows(k: int, m: int)
    requires m >= 1
    ensures k >= 1 ==> k * m >= m
    ensures k <= -1 ==> k * m <= -m
  {
    if k >= 1 {
      assert k * m == m + (k - 1) * m;
    } else if k <= -1 {
      assert k * m == -m + (k + 1) * m;
    }
  }

  /** Division with remainder is unique. */
  lemma DivModUnique(x: int, m: int, q: int, r: int)
    requires m >= 1 && x == q * m + r && 0 <= r < m
    ensures x / m == q && x % m == r
  {
    var d := x / m;
    assert (q - d) * m == x % m - r;
    MulGrows(q - d, m);
  }

  lemma MulMod(q: int, m: int)
    requires m >= 1
    ensures q * m % m == 0
  {
    DivModUnique(q * m, m, q, 0);
  }

  lemma AddMultiple(x: int, q: int, m: int)
    requires m >= 1
    ensures (x + q * m) % m == x % m
  {
    assert x + q * m == (x / m + q) * m + x % m;
    DivModUnique(x + q * m, m, x / m + q, x % m);
  }

  lemma AddMod(x: int, y: int, m: int)
    requires m >= 1
    ensures (x % m + y) % m == (x + y) % m
  {
    assert x + y == (x % m + y) + (x / m) * m;
    AddMultiple(x % m + y, x / m, m);
  }

  /** Reducing first by a multiple of the modulus changes nothing. */
  lemma ModMod(x: int, a: int, m: int)
    requires a >= 1 && m >= 1
    ensures a * m >= 1 && (x % (a * m)) % m == x % m
  {
    MulGrows(a, m);
    var q := x / (a * m);
    assert x == x % (a * m) + (q * a) * m by {
      assert x == q * (a * m) + x % (a * m);
      assert q * (a * m) == (q * a) * m;
    }
    AddMultiple(x % (a * m), q * a, m);
  }

  /** The product, by repeated addition. */
  function Times(q: int, m: int): int
    decreases if q < 0 then -q else q
  {
    if q == 0 then 0 else if q > 0 then Times(q - 1, m) + m else Times(q + 1, m) - m
  }

  lemma {:induction false} TimesIs(q: int, m: int)
    ensures Times(q, m) == q * m
    decreases if q < 0 then -q else q
  {
    if q > 0 {
      TimesIs(q - 1, m);
      assert q * m == (q - 1) * m + m;
    } else if q < 0 {
      TimesIs(q + 1, m);
      assert q * m == (q + 1) * m - m;
    }
  }

  /** Equal up to a multiple of m. */
  ghost predicate Congruent(x: int, y: int, m: nat) {
    exists q :: ApartBy(x, y, q, m)
  }

  ghost predicate ApartBy(x: int, y: int, q: int, m: nat) {
    x == y + Times(q, m)
  }

  lemma CongruentIsMod(x: nat, y: int, m: nat)
    requires x < m && Congruent(x, y, m)
    ensures x == y % m
  {
    var q :| ApartBy(x, y, q, m);
    TimesIs(q, m);
    ReducedOnce(x, y, q, m);
  }

  lemma ReducedOnce(x: nat, y: int, q: int, m: nat)
    requires x < m && x == y + q * m
    ensures x == y % m
  {
    assert y == (-q) * m + x;
    DivModUnique(y, m, -q, x);
  }

  lemma CongruentAdd(x: int, y: int, z: int, v: int, m: nat)
    requires Congruent(x, y, m) && Congruent(z, x + v, m)
    ensures Congruent(z, y + v, m)
  {
    var p :| ApartBy(x, y, p, m);
    var q :| ApartBy(z, x + v, q, m);
    TimesSum(p, q, m);
    assert ApartBy(z, y + v, p + q, m);
  }

  lemma TimesSum(p: int, q: int, m: int)
    ensures Times(p + q, m) == Times(p, m) + Times(q, m)
  {
    TimesIs(p, m);
    TimesIs(q, m);
    TimesIs(p + q, m);
    assert (p + q) * m == p * m + q * m;
  }

  lemma CongruentRemainder(x: int, m: nat)
    requires m >= 1
    ensures Congruent(x % m, x, m)
  {
    TimesIs(-(x / m), m);
    assert x == (x / m) * m + x % m;
    assert -(x / m) * m == -((x / m) * m);
    assert ApartBy(x % m, x, -(x / m), m);
  }

  lemma CongruentSum(x: int, x': int, y: int, y': int, m: nat)
    requires Congruent(x', x, m) && Congruent(y', y, m)
    ensures Congruent(x' + y', x + y, m)
  {
    var p :| ApartBy(x', x, p, m);
    var q :| ApartBy(y', y, q, m);
    TimesSum(p, q, m);
    assert ApartBy(x' + y', x + y, p + q, m);
  }

  lemma CongruentTrans(x: int, y: int, z: int, m: nat)
    requires Congruent(x, y, m) && Congruent(y, z, m)
    ensures Congruent(x, z, m)
  {
    CongruentSelf(0, m);
    CongruentAdd(y, z, x, 0, m);
  }

  lemma CongruentSelf(x: int, m: nat)
    ensures Congruent(x, x, m)
  {
    assert ApartBy(x, x, 0, m);
  }

  lemma SubsetOfSameSize<T>(a: set<T>, b: set<T>)
    requires a <= b && |a| >= |b|
    ensures a == b
  {
    assert |b - a| == |b| - |a|;
  }

  lemma CardLeq<T>(a: set<T>, b: set<T>)
    requires a <= b
    ensures |a| <= |b|
  {
    assert |b - a| == |b| - |a|;
  }

  lemma Pick<T>(s: set<T>) returns (x: T)
    requires s != {}
    ensures x in s
  {
    x :| x in s;
  }

  /** The integers in [lo, hi). */
  ghost function Range(lo: int, hi: int): (s: set<int>)
    requires lo <= hi
    ensures |s| == hi - lo
    ensures forall o :: o in s <==> lo <= o < hi
    decreases hi - lo
  {
    if lo == hi then {} else Range(lo, hi - 1) + {hi - 1}
  }

  /** The first k members of a sequence. */
  ghost function Members(s: seq<int>, k: nat): (m: set<int>)
    requires k <= |s|
    ensures forall i :: 0 <= i < k ==> s[i] in m
    ensures forall x :: x in m ==> exists i :: 0 <= i < k && s[i] == x
  {
    if k == 0 then {} else Members(s, k - 1) + {s[k - 1]}
  }

  lemma {:induction false} MembersCount(s: seq<int>, k: nat)
    requires k <= |s| && forall i, j :: 0 <= i < j < |s| ==> s[i] != s[j]
    ensures |Members(s, k)| == k
  {
    if k > 0 {
      MembersCount(s, k - 1);
    }
  }

  /** Distinct members of a range are as many as the range exactly when they are all of it. */
  lemma CountInRange(s: seq<int>, lo: int, hi: int)
    requires lo <= hi
    requires forall i :: 0 <= i < |s| ==> lo <= s[i] < hi
    requires forall i, j :: 0 <= i < j < |s| ==> s[i] != s[j]
    ensures |s| <= hi - lo
    ensures |s| == hi - lo <==> forall o :: lo <= o < hi ==> o in s
  {
    var mine, all := Members(s, |s|), Range(lo, hi);
    MembersCount(s, |s|);
    assert mine <= all;
    CardLeq(mine, all);
    if |s| == hi - lo {
      SubsetOfSameSize(mine, all);
      forall o | lo <= o < hi
        ensures o in s
      {
        assert o in all;
      }
    } else if forall o :: lo <= o < hi ==> o in s {
      CountAll(s, lo, hi);
    }
  }

  lemma CountAll(s: seq<int>, lo: int, hi: int)
    requires lo <= hi && forall o :: lo <= o < hi ==> o in s
    requires forall i, j :: 0 <= i < j < |s| ==> s[i] != s[j]
    ensures |s| >= hi - lo
  {
    MembersCount(s, |s|);
    forall o | o in Range(lo, hi)
      ensures o in Members(s, |s|)
    {
      assert o in s;
    }
    CardLeq(Range(lo, hi), Members(s, |s|));
  }
}
