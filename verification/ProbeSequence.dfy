/**
 The probe sequence of the emitted hash table: step k moves on by k squared, modulo a table size
 that is a power of two (PochiVM/mini_db_backend/query_plan_ast.hpp:391-407, 431-436).
 */
module ProbeSequence {
  import opened Arith

  function SumSquares(k: nat): nat {
    if k == 0 then 0 else SumSquares(k - 1) + k * k
  }

  /** The slot looked at after k steps from hash value h. */
  function ProbeSlot(h: nat, k: nat, size: nat): nat
    requires size >= 1
  {
    (h + SumSquares(k)) % size
  }

  /** One emitted step, with its 64-bit arithmetic, goes from one slot of the sequence to the next. */
  lemma ProbeStep(h: nat, k: nat, m: nat)
    requires m <= 64
    ensures ((ProbeSlot(h, k, Pow2(m)) + (k + 1) * (k + 1)) % Pow2(64)) % Pow2(m) == ProbeSlot(h, k + 1, Pow2(m))
  {
    var size := Pow2(m);
    Pow2Add(64 - m, m);
    ModMod(ProbeSlot(h, k, size) + (k + 1) * (k + 1), Pow2(64 - m), size);
    AddMod(h + SumSquares(k), (k + 1) * (k + 1), size);
  }

  lemma {:induction false} ShiftSquares(k: nat, n: nat)
    ensures SumSquares(k + n) == SumSquares(k) + n * (k * k) + (k * n) * (n + 1) + SumSquares(n)
  {
    if n > 0 {
      ShiftSquares(k, n - 1);
      ShiftAlgebra(k, n);
    }
  }

  lemma ShiftAlgebra(k: int, n: int)
    ensures (n - 1) * (k * k) + (k * (n - 1)) * n + (k + n) * (k + n) == n * (k * k) + (k * n) * (n + 1) + n * n
  {
    assert (k + n) * (k + n) == k * k + 2 * (k * n) + n * n;
    assert (k * (n - 1)) * n + 2 * (k * n) == (k * n) * (n + 1);
    assert (n - 1) * (k * k) + k * k == n * (k * k);
  }

  /** The first n squares sum to n/2 modulo n, for n a power of two from 2 on. */
  lemma {:induction false} HalfPeriod(m: nat) returns (q: int)
    requires m >= 1
    ensures SumSquares(Pow2(m)) == q * Pow2(m) + Pow2(m - 1)
  {
    if m == 1 {
      assert Pow2(0) == 1 && Pow2(1) == 2 && SumSquares(1) == 1 && SumSquares(2) == 5;
      q := 2;
    } else {
      var n, half := Pow2(m - 1), Pow2(m - 2);
      var p := HalfPeriod(m - 1);
      ShiftSquares(n, n);
      q := p + n * n + half;
      HalfPeriodStep(n, half, p, SumSquares(n), q);
    }
  }

  lemma HalfPeriodStep(n: int, half: int, p: int, s: int, q: int)
    requires n == 2 * half && s == p * n + half && q == p + n * n + half
    ensures s + n * (n * n) + (n * n) * (n + 1) + s == q * (2 * n) + n
  {
    assert n * n == (2 * half) * n == half * (2 * n);
    assert n * (n * n) + (n * n) * n == (n * n) * (2 * n);
    assert 2 * (p * n) == p * (2 * n);
    assert q * (2 * n) == p * (2 * n) + (n * n) * (2 * n) + half * (2 * n);
  }

  /** Going on by one table size moves by half a table. */
  lemma HalfTableShift(k: nat, m: nat)
    requires m >= 1
    ensures SumSquares(k + Pow2(m)) % Pow2(m) == (SumSquares(k) + Pow2(m - 1)) % Pow2(m)
  {
    var n := Pow2(m);
    var q := HalfPeriod(m);
    ShiftSquares(k, n);
    HalfAlgebra(k, n, q);
    AddMultiple(SumSquares(k) + Pow2(m - 1), k * k + k * (n + 1) + q, n);
  }

  lemma HalfAlgebra(k: int, n: int, q: int)
    ensures n * (k * k) + (k * n) * (n + 1) + q * n == (k * k + k * (n + 1) + q) * n
  {
    assert (k * n) * (n + 1) == (k * (n + 1)) * n;
  }

  /** The partial sums of squares below twice the table size hit every residue. */
  lemma {:induction false} SquaresHitEverything(m: nat, r: nat) returns (k: nat)
    requires r < Pow2(m)
    ensures k < Pow2(m + 1) && SumSquares(k) % Pow2(m) == r
  {
    if m == 0 {
      k := 0;
    } else {
      var half := Pow2(m - 1);
      var low := if r < half then r else r - half;
      var j := SquaresHitEverything(m - 1, low);
      var s := SumSquares(j);
      SplitResidue(s, half, low);
      if s % Pow2(m) == r {
        k := j;
      } else {
        k := j + Pow2(m);
        HalfTableShift(j, m);
        AddMod(s, half, Pow2(m));
        OtherHalf(s % Pow2(m), half, low, r);
      }
    }
  }

  lemma SplitResidue(s: nat, half: nat, low: nat)
    requires half >= 1 && s % half == low
    ensures s % (2 * half) == low || s % (2 * half) == low + half
  {
    var q := s / half;
    var p := q / 2;
    if q == 2 * p {
      assert q * half == p * (2 * half);
      DivModUnique(s, 2 * half, p, low);
    } else {
      assert q == 2 * p + 1;
      assert q * half == p * (2 * half) + half;
      DivModUnique(s, 2 * half, p, low + half);
    }
  }

  lemma OtherHalf(x: nat, half: nat, low: nat, r: nat)
    requires half >= 1 && low < half && (x == low || x == low + half) && (r == low || r == low + half) && x != r
    ensures (x + half) % (2 * half) == r
  {
    DivModUnique(x + half, 2 * half, if x == low then 0 else 1, r);
  }

  /** Every slot of the table is probed within two table sizes, whatever the hash value. */
  lemma ProbesEverySlot(h: nat, m: nat, slot: nat) returns (k: nat)
    requires slot < Pow2(m)
    ensures k < Pow2(m + 1) && ProbeSlot(h, k, Pow2(m)) == slot
  {
    var size := Pow2(m);
    var r := (slot - h) % size;
    k := SquaresHitEverything(m, r);
    AddMod(SumSquares(k), h, size);
    AddMod(slot - h, h, size);
    DivModUnique(slot, size, 0, slot);
  }
}
