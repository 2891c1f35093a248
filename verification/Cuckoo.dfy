/**
 The cuckoo table that selects a boilerplate by its parameters: built ahead of time
 (PochiVM/fastinterp/build_fast_interp_lib.cpp:365-608), looked up at run time with one fingerprint comparison
 (PochiVM/fastinterp/fastinterp_generated_header_helper.h:137-185).
 */
module Cuckoo {
  import Arith

  const WORD := 0x1_0000_0000
  const NONE := 0xFFFF_FFFF

  /** The index of the stored key and the fingerprint of its other slot; both are NONE in an empty slot. */
  datatype Cell = Cell(key: nat, fingerprint: nat)

  const EMPTY := Cell(NONE, NONE)

  function ComputeHash(hashfn: seq<nat>, input: seq<nat>, n: nat): (r: nat)
    requires n <= |hashfn| && n <= |input|
    ensures r < WORD
  {
    if n == 0 then 0 else (ComputeHash(hashfn, input, n - 1) + (input[n - 1] % WORD) * hashfn[n - 1]) % WORD
  }

  function DotProduct(hashfn: seq<nat>, input: seq<nat>, n: nat): nat
    requires n <= |hashfn| && n <= |input|
  {
    if n == 0 then 0 else DotProduct(hashfn, input, n - 1) + input[n - 1] * hashfn[n - 1]
  }

  /** The wrapping sum of truncated products is the dot product modulo the word size. */
  lemma {:induction false} HashIsDotProduct(hashfn: seq<nat>, input: seq<nat>, n: nat)
    requires n <= |hashfn| && n <= |input|
    ensures ComputeHash(hashfn, input, n) == DotProduct(hashfn, input, n) % WORD
  {
    if n > 0 {
      HashIsDotProduct(hashfn, input, n - 1);
      TruncatedTerm(DotProduct(hashfn, input, n - 1), input[n - 1], hashfn[n - 1]);
    }
  }

  method ComputeHashValue(hashfn: seq<nat>, input: seq<nat>) returns (ret: nat)
    requires |hashfn| == |input|
    ensures ret == ComputeHash(hashfn, input, |input|)
  {
    ret := 0;
    var i := 0;
    while i < |input|
      invariant i <= |input| && ret == ComputeHash(hashfn, input, i)
    {
      ret := (ret + input[i] % WORD * hashfn[i]) % WORD;
      i := i + 1;
    }
  }

  lemma TruncatedTerm(a: nat, x: nat, f: nat)
    ensures (a % WORD + (x % WORD) * f) % WORD == (a + x * f) % WORD
  {
    var q, d := x / WORD, a / WORD;
    assert x * f == (x % WORD) * f + (q * f) * WORD by {
      assert x == q * WORD + x % WORD;
    }
    Arith.AddMultiple(a % WORD + (x % WORD) * f, d + q * f, WORD);
    assert (d + q * f) * WORD == d * WORD + (q * f) * WORD;
  }

  function MapToSlot(hashValue: nat, M: nat): (slot: nat)
    requires hashValue < WORD && M >= 1
    ensures slot < M
  {
    SlotBelow(hashValue, M);
    hashValue * M / WORD
  }

  lemma SlotBelow(h: nat, M: nat)
    requires h < WORD && M >= 1
    ensures 0 <= h * M / WORD < M
  {
    assert h * M < WORD * M by {
      assert (WORD - h) * M >= M by { Arith.MulGrows(WORD - h, M); }
    }
  }

  /** The hash values are shared out in equal parts: h falls into this slot. */
  ghost predicate InSlot(h: nat, M: nat, slot: nat) {
    slot * WORD <= h * M < (slot + 1) * WORD
  }

  /** A hash value is mapped to the slot it falls into. */
  lemma MapsInto(h: nat, M: nat, slot: nat)
    requires h < WORD && M >= 1
    ensures MapToSlot(h, M) == slot <==> InSlot(h, M, slot)
  {
  }

  /** Greater hash values have no smaller slots. */
  lemma MapIsMonotone(h: nat, h': nat, M: nat)
    requires h <= h' < WORD && M >= 1
    ensures MapToSlot(h, M) <= MapToSlot(h', M)
  {
    assert h' * M == h * M + (h' - h) * M;
  }

  lemma FactorBelow(a: nat, b: nat, m: nat)
    requires a * m < m * b
    ensures a < b
  {
    assert (a - b) * m == a * m - b * m;
  }

  /** No slot is left out. */
  lemma EverySlotHit(slot: nat, M: nat) returns (h: nat)
    requires slot < M <= WORD
    ensures h < WORD && MapToSlot(h, M) == slot
  {
    h := (slot * WORD + M - 1) / M;
    var rest := (slot * WORD + M - 1) % M;
    assert h * M == slot * WORD + M - 1 - rest;
    assert h * M < (slot + 1) * WORD <= M * WORD;
    FactorBelow(h, WORD, M);
    MapsInto(h, M, slot);
  }

  /** No two keys' first hash values fall into the same slot. */
  ghost predicate FirstsApart(hvs: seq<(nat, nat)>, M: nat) {
    forall i, j, slot: nat {:trigger InSlot(hvs[i].0, M, slot), InSlot(hvs[j].0, M, slot)} ::
      0 <= i < j < |hvs| ==> !(InSlot(hvs[i].0, M, slot) && InSlot(hvs[j].0, M, slot))
  }

  ghost predicate FirstsDistinct(two: seq<(nat, nat)>) {
    forall i, j {:trigger two[i], two[j]} :: 0 <= i < j < |two| ==> two[i].0 != two[j].0
  }

  lemma ApartIsDistinct(hvs: seq<(nat, nat)>, two: seq<(nat, nat)>, M: nat)
    requires Hashes(hvs) && M >= 1 && SlotsOf(two, hvs, M) && FirstsApart(hvs, M)
    ensures FirstsDistinct(two)
  {
    forall i, j | 0 <= i < j < |two|
      ensures two[i].0 != two[j].0
    {
      MapsInto(hvs[i].0, M, two[i].0);
      MapsInto(hvs[j].0, M, two[j].0);
    }
  }

  /** Every stored key sits in its first slot. */
  ghost predicate InFirsts(ht: seq<Cell>, two: seq<(nat, nat)>, n: nat) {
    forall s {:trigger ht[s]} :: 0 <= s < |ht| && ht[s].key != NONE ==>
      ht[s].key < n && ht[s].key < |two| && s == two[ht[s].key].0
  }

  /** The other one of a key's two slots, in wrapping 32-bit arithmetic. */
  function OtherSlot(two: (nat, nat), displace: nat): nat {
    ((two.0 + two.1) % WORD - displace) % WORD
  }

  lemma OtherSlotIs(two: (nat, nat), displace: nat)
    requires two.0 < WORD && two.1 < WORD && (displace == two.0 || displace == two.1)
    ensures OtherSlot(two, displace) == if displace == two.0 then two.1 else two.0
  {
  }

  /** A table in which every stored key is below n, sits in one of its two slots, and sits nowhere else. */
  ghost predicate TableOk(ht: seq<Cell>, two: seq<(nat, nat)>, n: nat) {
    && n <= |two| < NONE && |ht| < WORD
    && (forall i {:trigger two[i]} :: 0 <= i < |two| ==> two[i].0 < |ht| && two[i].1 < |ht|)
    && (forall s {:trigger ht[s]} :: 0 <= s < |ht| ==> CellOk(ht[s], s, two, n))
    && (forall s, t {:trigger ht[s], ht[t]} :: 0 <= s < t < |ht| && ht[s].key == ht[t].key ==> ht[s].key == NONE)
  }

  ghost predicate CellOk(c: Cell, s: nat, two: seq<(nat, nat)>, n: nat)
    requires n <= |two|
  {
    && c.fingerprint == NONE
    && (c.key == NONE || (c.key < n && (s == two[c.key].0 || s == two[c.key].1)))
  }

  /** Where the occupant of a slot would go. */
  function Next(ht: seq<Cell>, two: seq<(nat, nat)>, d: nat): nat
    requires d < |ht| && ht[d].key < |two|
  {
    OtherSlot(two[ht[d].key], d)
  }

  /** The slots a displacement walks through, from the one to be freed to an empty one. */
  ghost predicate IsPath(ht: seq<Cell>, two: seq<(nat, nat)>, path: seq<nat>) {
    && |path| >= 1
    && (forall k {:trigger path[k]} :: 0 <= k < |path| ==> path[k] < |ht|)
    && ht[path[|path| - 1]].key == NONE
    && (forall k {:trigger Moves(ht, two, path, k)} :: 0 <= k < |path| - 1 ==> Moves(ht, two, path, k))
  }

  ghost predicate Moves(ht: seq<Cell>, two: seq<(nat, nat)>, path: seq<nat>, k: nat) {
    && k + 1 < |path| && path[k] < |ht| && ht[path[k]].key != NONE && ht[path[k]].key < |two|
    && path[k + 1] == Next(ht, two, path[k])
  }

  /** Walking on from the same slot gives the same slots, so a walk that ends never comes back. */
  lemma {:induction false} SameWalk(ht: seq<Cell>, two: seq<(nat, nat)>, path: seq<nat>, i: nat, j: nat, m: nat)
    requires IsPath(ht, two, path) && i < j && j + m < |path| && path[i] == path[j]
    ensures path[i + m] == path[j + m]
  {
    if m > 0 {
      SameWalk(ht, two, path, i, j, m - 1);
      assert Moves(ht, two, path, i + m - 1) && Moves(ht, two, path, j + m - 1);
    }
  }

  lemma PathIsSimple(ht: seq<Cell>, two: seq<(nat, nat)>, path: seq<nat>, i: nat, j: nat)
    requires IsPath(ht, two, path) && i < j < |path|
    ensures path[i] != path[j]
  {
    var m := |path| - 1 - j;
    assert Moves(ht, two, path, i + m);
    if path[i] == path[j] {
      SameWalk(ht, two, path, i, j, m);
    }
  }

  /** Every occupant of the path moves one place along, which frees the first slot. */
  function Shift(ht: seq<Cell>, path: seq<nat>): (ht': seq<Cell>)
    requires forall k :: 0 <= k < |path| ==> path[k] < |ht|
    ensures |ht'| == |ht|
    decreases |path|
  {
    if |path| <= 1 then ht
    else
      var rest := Shift(ht, path[1..]);
      rest[path[1] := rest[path[0]]][path[0] := EMPTY]
  }

  ghost predicate Simple(path: seq<nat>) {
    forall i, j :: 0 <= i < j < |path| ==> path[i] != path[j]
  }

  lemma {:induction false} ShiftOutside(ht: seq<Cell>, path: seq<nat>, s: nat)
    requires forall k :: 0 <= k < |path| ==> path[k] < |ht|
    requires s < |ht| && s !in path
    ensures Shift(ht, path)[s] == ht[s]
  {
    if |path| > 1 {
      ShiftOutside(ht, path[1..], s);
      assert path[0] in path && path[1] in path;
    }
  }

  /** After a shift each slot of the path holds what the slot before it held. */
  lemma {:induction false} ShiftInside(ht: seq<Cell>, path: seq<nat>, k: nat)
    requires (forall j :: 0 <= j < |path| ==> path[j] < |ht|) && Simple(path)
    requires 1 <= k < |path|
    ensures Shift(ht, path)[path[k]] == ht[path[k - 1]]
  {
    var tail := path[1..];
    if k == 1 {
      ShiftOutside(ht, tail, path[0]);
    } else {
      ShiftInside(ht, tail, k - 1);
      assert path[k] != path[0] && path[k] != path[1];
    }
  }

  /** Each slot of the path now holds what the slot before it held, the first one is free, and no other has changed. */
  ghost predicate MovedAlong(ht: seq<Cell>, ht': seq<Cell>, path: seq<nat>) {
    && |ht'| == |ht| && |path| >= 1 && path[0] < |ht| && ht'[path[0]].key == NONE
    && (forall k {:trigger path[k]} :: 1 <= k < |path| ==>
      path[k] < |ht| && path[k - 1] < |ht| && ht'[path[k]] == ht[path[k - 1]])
    && (forall s {:trigger ht'[s]} :: 0 <= s < |ht| && s !in path ==> ht'[s] == ht[s])
  }

  /** What a displacement along a path does to the table. */
  lemma ShiftIsMove(ht: seq<Cell>, two: seq<(nat, nat)>, path: seq<nat>)
    requires IsPath(ht, two, path)
    ensures MovedAlong(ht, Shift(ht, path), path)
  {
    forall i, j | 0 <= i < j < |path|
      ensures path[i] != path[j]
    {
      PathIsSimple(ht, two, path, i, j);
    }
    forall k {:trigger path[k]} | 1 <= k < |path|
      ensures Shift(ht, path)[path[k]] == ht[path[k - 1]]
    {
      ShiftInside(ht, path, k);
    }
    forall s: nat | s < |ht| && s !in path
      ensures Shift(ht, path)[s] == ht[s]
    {
      ShiftOutside(ht, path, s);
    }
  }

  ghost predicate Stored(ht: seq<Cell>, i: nat) {
    exists s :: 0 <= s < |ht| && ht[s].key == i
  }

  /** Moving one occupant to its other slot, which is empty. */
  lemma MoveKeeps(ht: seq<Cell>, two: seq<(nat, nat)>, n: nat, from: nat, to: nat)
    requires TableOk(ht, two, n) && from < |ht| && ht[from].key != NONE && to == Next(ht, two, from)
    requires to < |ht| && ht[to].key == NONE
    ensures TableOk(ht[to := ht[from]][from := EMPTY], two, n)
    ensures forall i: nat :: i != NONE ==> (Stored(ht[to := ht[from]][from := EMPTY], i) <==> Stored(ht, i))
  {
    var ht' := ht[to := ht[from]][from := EMPTY];
    assert from != to;
    OtherSlotIs(two[ht[from].key], from);
    forall s | 0 <= s < |ht'|
      ensures CellOk(ht'[s], s, two, n)
    {
      assert CellOk(ht[s], s, two, n) && CellOk(ht[from], from, two, n);
    }
    forall i: nat | i != NONE
      ensures Stored(ht', i) <==> Stored(ht, i)
    {
      StoredMoves(ht, from, to, i);
    }
  }

  lemma StoredMoves(ht: seq<Cell>, from: nat, to: nat, i: nat)
    requires from < |ht| && to < |ht| && from != to && ht[to].key == NONE && i != NONE
    ensures Stored(ht[to := ht[from]][from := EMPTY], i) <==> Stored(ht, i)
  {
    var ht' := ht[to := ht[from]][from := EMPTY];
    if Stored(ht, i) {
      var s :| 0 <= s < |ht| && ht[s].key == i;
      assert ht'[if s == from then to else s].key == i;
    }
    if Stored(ht', i) {
      var s :| 0 <= s < |ht'| && ht'[s].key == i;
      assert ht[if s == to then from else s].key == i;
    }
  }

  lemma TailPath(ht: seq<Cell>, two: seq<(nat, nat)>, path: seq<nat>)
    requires IsPath(ht, two, path) && |path| > 1
    ensures IsPath(ht, two, path[1..])
  {
    var tail := path[1..];
    forall k | 0 <= k < |tail| - 1
      ensures Moves(ht, two, tail, k)
    {
      assert Moves(ht, two, path, k + 1);
    }
  }

  /** A successful displacement frees its slot, keeps the stored keys, and leaves each in one of its two slots. */
  lemma {:induction false} ShiftKeeps(ht: seq<Cell>, two: seq<(nat, nat)>, n: nat, path: seq<nat>)
    requires TableOk(ht, two, n) && IsPath(ht, two, path)
    ensures TableOk(Shift(ht, path), two, n) && Shift(ht, path)[path[0]] == EMPTY
    ensures forall i: nat :: i != NONE ==> (Stored(Shift(ht, path), i) <==> Stored(ht, i))
  {
    if |path| == 1 {
      assert CellOk(ht[path[0]], path[0], two, n);
    } else {
      var tail := path[1..];
      TailPath(ht, two, path);
      ShiftKeeps(ht, two, n, tail);
      assert Moves(ht, two, path, 0);
      forall k | 0 <= k < |tail|
        ensures tail[k] != path[0]
      {
        PathIsSimple(ht, two, path, 0, k + 1);
      }
      ShiftOutside(ht, tail, path[0]);
      MoveKeeps(Shift(ht, tail), two, n, path[0], path[1]);
    }
  }

  /** A key's two hash values. */
  function HashPair(h1: seq<nat>, h2: seq<nat>, key: seq<nat>): (hv: (nat, nat))
    requires |h1| == |h2| == |key|
    ensures hv.0 < WORD && hv.1 < WORD
    ensures hv.0 == DotProduct(h1, key, |key|) % WORD && hv.1 == DotProduct(h2, key, |key|) % WORD
  {
    HashIsDotProduct(h1, key, |key|);
    HashIsDotProduct(h2, key, |key|);
    (ComputeHash(h1, key, |key|), ComputeHash(h2, key, |key|))
  }

  function TwoSlots(hv: (nat, nat), M: nat): (two: (nat, nat))
    requires hv.0 < WORD && hv.1 < WORD && M >= 1
    ensures two.0 < M && two.1 < M
  {
    (MapToSlot(hv.0, M), MapToSlot(hv.1, M))
  }

  /** The (slot, fingerprint) pairs a key may leave in the table. */
  function Pairs(hv: (nat, nat), M: nat): set<(nat, nat)>
    requires hv.0 < WORD && hv.1 < WORD && M >= 1
  {
    var two := TwoSlots(hv, M);
    if two.0 != two.1 then {(two.0, hv.1), (two.1, hv.0)} else {(two.0, hv.1)}
  }

  ghost predicate Hashes(hvs: seq<(nat, nat)>) {
    forall i {:trigger hvs[i]} :: 0 <= i < |hvs| ==> hvs[i].0 < WORD && hvs[i].1 < WORD
  }

  /** Among the first n keys no hash value is the empty mark and no two keys share a pair. */
  ghost predicate NoClash(hvs: seq<(nat, nat)>, M: nat, n: nat)
    requires Hashes(hvs) && M >= 1 && n <= |hvs|
  {
    && (forall i {:trigger hvs[i]} :: 0 <= i < n ==> hvs[i].0 != NONE && hvs[i].1 != NONE)
    && (forall i, j {:trigger hvs[i], hvs[j]} :: 0 <= i < j < n ==> Pairs(hvs[i], M) !! Pairs(hvs[j], M))
  }

  function Union(hvs: seq<(nat, nat)>, M: nat, n: nat): set<(nat, nat)>
    requires Hashes(hvs) && M >= 1 && n <= |hvs|
  {
    if n == 0 then {} else Union(hvs, M, n - 1) + Pairs(hvs[n - 1], M)
  }

  lemma {:induction false} UnionMember(hvs: seq<(nat, nat)>, M: nat, n: nat, x: (nat, nat))
    requires Hashes(hvs) && M >= 1 && n <= |hvs|
    ensures x in Union(hvs, M, n) <==> exists i :: 0 <= i < n && x in Pairs(hvs[i], M)
  {
    if n > 0 {
      UnionMember(hvs, M, n - 1, x);
    }
  }

  lemma NoClashStep(hvs: seq<(nat, nat)>, M: nat, n: nat)
    requires Hashes(hvs) && M >= 1 && n < |hvs| && NoClash(hvs, M, n)
    ensures NoClash(hvs, M, n + 1) <==>
              hvs[n].0 != NONE && hvs[n].1 != NONE && Union(hvs, M, n) !! Pairs(hvs[n], M)
  {
    forall x
      ensures x in Union(hvs, M, n) <==> exists i :: 0 <= i < n && x in Pairs(hvs[i], M)
    {
      UnionMember(hvs, M, n, x);
    }
    if NoClash(hvs, M, n + 1) {
      forall x | x in Union(hvs, M, n)
        ensures x !in Pairs(hvs[n], M)
      {
        var i :| 0 <= i < n && x in Pairs(hvs[i], M);
      }
    } else if Union(hvs, M, n) !! Pairs(hvs[n], M) {
      forall i | 0 <= i < n
        ensures Pairs(hvs[i], M) !! Pairs(hvs[n], M)
      {
        forall x | x in Pairs(hvs[i], M)
          ensures x !in Pairs(hvs[n], M)
        {
          assert x in Union(hvs, M, n);
        }
      }
    }
  }

  lemma NoClashPrefix(hvs: seq<(nat, nat)>, M: nat, n: nat)
    requires Hashes(hvs) && M >= 1 && n <= |hvs| && !NoClash(hvs, M, n)
    ensures !NoClash(hvs, M, |hvs|)
  {
  }

  /** Storing key n in an empty slot of its own. */
  lemma PlaceKeeps(ht: seq<Cell>, two: seq<(nat, nat)>, n: nat, slot: nat)
    requires TableOk(ht, two, n) && n < |two| && slot < |ht| && ht[slot].key == NONE
    requires slot == two[n].0 || slot == two[n].1
    ensures TableOk(ht[slot := Cell(n, NONE)], two, n + 1)
    ensures Stored(ht[slot := Cell(n, NONE)], n)
    ensures forall i: nat :: i != NONE && Stored(ht, i) ==> Stored(ht[slot := Cell(n, NONE)], i)
  {
    var ht' := ht[slot := Cell(n, NONE)];
    assert ht'[slot].key == n;
    forall s | 0 <= s < |ht'|
      ensures CellOk(ht'[s], s, two, n + 1)
    {
      assert CellOk(ht[s], s, two, n);
    }
    forall s, t | 0 <= s < t < |ht'| && ht'[s].key == ht'[t].key
      ensures ht'[s].key == NONE
    {
      assert CellOk(ht[s], s, two, n) && CellOk(ht[t], t, two, n);
    }
    forall i: nat | i != NONE && Stored(ht, i)
      ensures Stored(ht', i)
    {
      var s :| 0 <= s < |ht| && ht[s].key == i;
      assert ht'[s].key == i;
    }
  }

  lemma FirstIsFree(ht: seq<Cell>, two: seq<(nat, nat)>, n: nat)
    requires n < |two| && two[n].0 < |ht|
    ensures FirstsDistinct(two) && InFirsts(ht, two, n) ==>
      ht[two[n].0].key == NONE && InFirsts(ht[two[n].0 := Cell(n, NONE)], two, n + 1)
  {
  }

  ghost predicate AllStored(ht: seq<Cell>, n: nat) {
    forall i {:trigger Stored(ht, i)} :: 0 <= i < n ==> Stored(ht, i)
  }

  /** No displacement of at most 1001 slots, starting at this depth, frees the slot. */
  ghost predicate NoWayOut(ht: seq<Cell>, two: seq<(nat, nat)>, d: nat, depth: nat) {
    forall path {:trigger IsPath(ht, two, path)} :: IsPath(ht, two, path) && path[0] == d ==> depth + |path| > 1001
  }

  /** The builder can only be stuck on a key both of whose slots are taken, on a displacement that has no way out. */
  ghost predicate Stuck(two: seq<(nat, nat)>) {
    exists ht, n, d :: StuckAt(ht, two, n, d)
  }

  ghost predicate StuckAt(ht: seq<Cell>, two: seq<(nat, nat)>, n: nat, d: nat) {
    && TableOk(ht, two, n) && AllStored(ht, n) && n < |two|
    && (d == two[n].0 || d == two[n].1) && ht[two[n].0].key != NONE && ht[two[n].1].key != NONE
    && NoWayOut(ht, two, d, 0)
  }

  lemma LongerPath(ht: seq<Cell>, two: seq<(nat, nat)>, n: nat, d: nat, other: nat, depth: nat)
    requires TableOk(ht, two, n) && d < |ht| && ht[d].key != NONE && other == Next(ht, two, d)
    requires other == d || NoWayOut(ht, two, other, depth + 1)
    ensures NoWayOut(ht, two, d, depth)
  {
    forall path | IsPath(ht, two, path) && path[0] == d
      ensures depth + |path| > 1001
    {
      assert |path| > 1;
      assert Moves(ht, two, path, 0);
      if other == d {
        PathIsSimple(ht, two, path, 0, 1);
      }
      TailPath(ht, two, path);
      assert path[1..][0] == other;
    }
  }

  lemma ExtendPath(ht: seq<Cell>, two: seq<(nat, nat)>, d: nat, path: seq<nat>)
    requires IsPath(ht, two, path) && d < |ht| && ht[d].key != NONE && ht[d].key < |two| && path[0] == Next(ht, two, d)
    ensures IsPath(ht, two, [d] + path) && ([d] + path)[1..] == path
  {
    var longer := [d] + path;
    forall k | 0 <= k < |longer| - 1
      ensures Moves(ht, two, longer, k)
    {
      assert k > 0 ==> Moves(ht, two, path, k - 1);
    }
  }

  /** The finished table: every key is stored, and carries the fingerprint of its other slot and its own parameters. */
  ghost predicate Finished(ht: seq<Cell>, entries: seq<seq<nat>>, hvs: seq<(nat, nat)>, list: seq<seq<nat>>, n: nat)
    requires Hashes(hvs) && |hvs| == |list| && |entries| == |ht| >= 1
  {
    forall s {:trigger ht[s]} :: 0 <= s < |ht| && ht[s].key < n && ht[s].key < |hvs| ==>
      && ht[s].fingerprint == (if s == TwoSlots(hvs[ht[s].key], |ht|).0 then hvs[ht[s].key].1 else hvs[ht[s].key].0)
      && entries[s] == list[ht[s].key]
  }

  /** Only fingerprints may differ. */
  ghost predicate SameKeys(ht: seq<Cell>, ht': seq<Cell>) {
    |ht| == |ht'| && forall s {:trigger ht'[s]} :: 0 <= s < |ht| ==> ht'[s].key == ht[s].key
  }

  ghost predicate Unmarked(ht: seq<Cell>, n: nat) {
    forall s {:trigger ht[s]} :: 0 <= s < |ht| && n <= ht[s].key ==> ht[s].fingerprint == NONE
  }

  ghost predicate SlotsOf(two: seq<(nat, nat)>, hvs: seq<(nat, nat)>, M: nat)
    requires Hashes(hvs) && M >= 1
  {
    |two| == |hvs| && forall i {:trigger two[i]} :: 0 <= i < |two| ==> two[i] == TwoSlots(hvs[i], M)
  }

  lemma SlotsOfNext(two: seq<(nat, nat)>, hvs: seq<(nat, nat)>, i: nat, M: nat)
    requires Hashes(hvs) && M >= 1 && i < |hvs| && SlotsOf(two, hvs[..i], M)
    ensures hvs[..i + 1] == hvs[..i] + [hvs[i]] && SlotsOf(two + [TwoSlots(hvs[i], M)], hvs[..i + 1], M)
  {
  }

  /** The run-time lookup: one fingerprint comparison decides between the two slots. */
  function Select(ht: seq<Cell>, hv: (nat, nat)): (slot: nat)
    requires hv.0 < WORD && hv.1 < WORD && |ht| >= 1
    ensures slot < |ht|
  {
    var two := TwoSlots(hv, |ht|);
    if ht[two.0].fingerprint == hv.1 then two.0 else two.1
  }

  /** A built table: where keys are, what they carry, and that no two keys share a pair. */
  ghost predicate Built(ht0: seq<Cell>, ht: seq<Cell>, entries: seq<seq<nat>>, two: seq<(nat, nat)>,
      hvs: seq<(nat, nat)>, list: seq<seq<nat>>) {
    && |ht| >= 1 && |entries| == |ht| && Hashes(hvs) && |hvs| == |list| && SlotsOf(two, hvs, |ht|)
    && TableOk(ht0, two, |two|) && AllStored(ht0, |two|) && SameKeys(ht0, ht)
    && Finished(ht, entries, hvs, list, |list|) && Unmarked(ht, |list|)
    && NoClash(hvs, |ht|, |hvs|)
  }

  /** Whatever slot carries one of key i's pairs holds key i. */
  lemma PairIdentifies(ht0: seq<Cell>, ht: seq<Cell>, entries: seq<seq<nat>>, two: seq<(nat, nat)>,
      hvs: seq<(nat, nat)>, list: seq<seq<nat>>, i: nat, s: nat)
    requires Built(ht0, ht, entries, two, hvs, list) && i < |list| && s < |ht| &&
      (s, ht[s].fingerprint) in Pairs(hvs[i], |ht|)
    ensures ht[s].key == i && entries[s] == list[i]
    ensures (s, ht[s].fingerprint) == (two[i].0, hvs[i].1) || two[i].0 != two[i].1
  {
    assert two[i] == TwoSlots(hvs[i], |ht|);
    assert ht[s].fingerprint != NONE;
    var k := ht[s].key;
    assert CellOk(ht0[s], s, two, |two|) && ht[s].key == ht0[s].key;
    assert k < |list|;
    assert two[k] == TwoSlots(hvs[k], |ht|);
    assert (s, ht[s].fingerprint) in Pairs(hvs[k], |ht|);
  }

  /** The lookup finds every key of the list, in the slot that stores it. */
  lemma SelectFinds(ht0: seq<Cell>, ht: seq<Cell>, entries: seq<seq<nat>>, two: seq<(nat, nat)>, hvs: seq<(nat, nat)>,
      list: seq<seq<nat>>, i: nat)
    requires Built(ht0, ht, entries, two, hvs, list) && i < |list|
    ensures var slot := Select(ht, hvs[i]); ht[slot].key == i && entries[slot] == list[i]
    ensures ht[two[i].0].fingerprint == hvs[i].1 ==> two[i].0 == two[i].1 || ht[two[i].1].fingerprint != hvs[i].0
    ensures ht[two[i].0].fingerprint != hvs[i].1 ==> ht[two[i].1].fingerprint == hvs[i].0
  {
    assert two[i] == TwoSlots(hvs[i], |ht|);
    assert Stored(ht0, i);
    var s :| 0 <= s < |ht0| && ht0[s].key == i;
    assert CellOk(ht0[s], s, two, |two|) && ht[s].key == ht0[s].key;
    if ht[two[i].0].fingerprint == hvs[i].1 {
      PairIdentifies(ht0, ht, entries, two, hvs, list, i, two[i].0);
      if two[i].0 != two[i].1 && ht[two[i].1].fingerprint == hvs[i].0 {
        PairIdentifies(ht0, ht, entries, two, hvs, list, i, two[i].1);
      }
    }
  }

  class CuckooHashTable {
    var h1: seq<nat>
    var h2: seq<nat>
    const ht: array<Cell>
    const trueEntries: array<seq<nat>>

    constructor (htSize: nat, h1: seq<nat>, h2: seq<nat>)
      ensures ht.Length == trueEntries.Length == htSize && fresh(ht) && fresh(trueEntries) && this.h1 == h1 &&
        this.h2 == h2
    {
      this.h1, this.h2 := h1, h2;
      ht := new Cell[htSize](_ => EMPTY);
      trueEntries := new seq<nat>[htSize](_ => []);
    }

    /** Frees a slot by moving its occupant to the occupant's other slot, freeing that one first. */
    method TryDisplace(twoslots: seq<(nat, nat)>, displace: nat, depth: nat, ghost n: nat)
        returns (ok: bool, ghost path: seq<nat>)
      requires TableOk(ht[..], twoslots, n) && displace < ht.Length
      modifies ht
      ensures ok ==> IsPath(old(ht[..]), twoslots, path) && path[0] == displace && ht[..] == Shift(old(ht[..]), path)
      ensures ok ==> MovedAlong(old(ht[..]), ht[..], path)
      ensures !ok ==> ht[..] == old(ht[..]) && NoWayOut(ht[..], twoslots, displace, depth)
      ensures ok ==> depth + |path| <= 1001
      decreases 1001 - depth
    {
      path := [displace];
      if depth > 1000 {
        return false, path;
      }
      if ht[displace].key == NONE {
        ShiftIsMove(ht[..], twoslots, path);
        return true, path;
      }
      var victim := ht[displace].key;
      assert CellOk(ht[..][displace], displace, twoslots, n);
      assert displace == twoslots[victim].0 || displace == twoslots[victim].1;
      OtherSlotIs(twoslots[victim], displace);
      var otherslot := ((twoslots[victim].0 + twoslots[victim].1) % WORD - displace) % WORD;
      if otherslot == displace {
        LongerPath(ht[..], twoslots, n, displace, otherslot, depth);
        return false, path;
      }
      ghost var ht0 := ht[..];
      ok, path := TryDisplace(twoslots, otherslot, depth + 1, n);
      if !ok {
        LongerPath(ht[..], twoslots, n, displace, otherslot, depth);
        return;
      }
      ShiftKeeps(ht0, twoslots, n, path);
      assert ht[otherslot].key == NONE;
      ExtendPath(ht0, twoslots, displace, path);
      ht[otherslot] := ht[displace];
      ht[displace] := EMPTY;
      path := [displace] + path;
      ShiftIsMove(ht0, twoslots, path);
    }

    /** First stage: hash every key, and give up on an empty mark or a repeated pair. */
    method ComputeSlots(list: seq<seq<nat>>) returns (ok: bool, twoslots: seq<(nat, nat)>, twohvs: seq<(nat, nat)>)
      requires ht.Length >= 1 && |h1| == |h2| && forall i :: 0 <= i < |list| ==> |list[i]| == |h1|
      ensures Hashes(HashList(h1, h2, list)) && ok == NoClash(HashList(h1, h2, list), ht.Length, |list|)
      ensures ok ==> twohvs == HashList(h1, h2, list) && SlotsOf(twoslots, twohvs, ht.Length)
    {
      ghost var hvs := HashList(h1, h2, list);
      var M := ht.Length;
      twoslots, twohvs := [], [];
      var existPair: set<(nat, nat)> := {};
      var i := 0;
      while i < |list|
        invariant i <= |list| && twohvs == hvs[..i] && SlotsOf(twoslots, twohvs, M)
        invariant NoClash(hvs, M, i) && existPair == Union(hvs, M, i)
      {
        NoClashStep(hvs, M, i);
        var hv1 := ComputeHashValue(h1, list[i]);
        var hv2 := ComputeHashValue(h2, list[i]);
        assert hvs[i] == (hv1, hv2);
        var p1, p2 := MapToSlot(hv1, M), MapToSlot(hv2, M);
        if hv1 == NONE || hv2 == NONE {
          NoClashPrefix(hvs, M, i + 1);
          return false, twoslots, twohvs;
        }
        ok, existPair := AddPairs(existPair, (p1, p2), (hv1, hv2), M);
        if !ok {
          NoClashPrefix(hvs, M, i + 1);
          return;
        }
        SlotsOfNext(twoslots, hvs, i, M);
        twoslots, twohvs := twoslots + [(p1, p2)], twohvs + [(hv1, hv2)];
        i := i + 1;
      }
      assert hvs[..|list|] == hvs;
      ok := true;
    }

    /** Enters a key's pairs, unless one of them is there already. */
    static method AddPairs(exist: set<(nat, nat)>, two: (nat, nat), hv: (nat, nat), ghost M: nat)
        returns (ok: bool, existPair: set<(nat, nat)>)
      requires hv.0 < WORD && hv.1 < WORD && M >= 1 && two == TwoSlots(hv, M)
      ensures ok <==> exist !! Pairs(hv, M)
      ensures ok ==> existPair == exist + Pairs(hv, M)
    {
      existPair := exist;
      if (two.0, hv.1) in existPair {
        return false, existPair;
      }
      existPair := existPair + {(two.0, hv.1)};
      if two.0 != two.1 {
        if (two.1, hv.0) in existPair {
          return false, existPair;
        }
        existPair := existPair + {(two.1, hv.0)};
      }
      ok := true;
    }

    /** Second stage: place every key, displacing others where both of its slots are taken. */
    method PlaceAll(twoslots: seq<(nat, nat)>) returns (ok: bool)
      requires |twoslots| < NONE && ht.Length < WORD
      requires forall i {:trigger twoslots[i]} ::
        0 <= i < |twoslots| ==> twoslots[i].0 < ht.Length && twoslots[i].1 < ht.Length
      modifies ht
      ensures if ok then TableOk(ht[..], twoslots, |twoslots|) && AllStored(ht[..], |twoslots|) else Stuck(twoslots)
      ensures FirstsDistinct(twoslots) ==> ok
    {
      var s := 0;
      while s < ht.Length
        invariant s <= ht.Length && forall t {:trigger ht[t]} :: 0 <= t < s ==> ht[t] == EMPTY
      {
        ht[s] := EMPTY;
        s := s + 1;
      }
      var i := 0;
      while i < |twoslots|
        invariant i <= |twoslots| && TableOk(ht[..], twoslots, i) && AllStored(ht[..], i)
        invariant FirstsDistinct(twoslots) ==> InFirsts(ht[..], twoslots, i)
      {
        ok := PlaceOne(twoslots, i);
        if !ok {
          return;
        }
        i := i + 1;
      }
      ok := true;
    }

    /** One key: its first slot, else its second, else either of them by displacement. */
    method PlaceOne(twoslots: seq<(nat, nat)>, i: nat) returns (ok: bool)
      requires i < |twoslots| && TableOk(ht[..], twoslots, i) && AllStored(ht[..], i)
      modifies ht
      ensures if ok then TableOk(ht[..], twoslots, i + 1) && AllStored(ht[..], i + 1) else Stuck(twoslots)
      ensures FirstsDistinct(twoslots) && InFirsts(old(ht[..]), twoslots, i) ==>
                ok && InFirsts(ht[..], twoslots, i + 1)
    {
      ghost var ht0 := ht[..];
      FirstIsFree(ht0, twoslots, i);
      var slot := twoslots[i].0;
      if ht[slot].key != NONE {
        slot := twoslots[i].1;
        if ht[slot].key != NONE {
          var coin: bool := *;
          slot := if coin then twoslots[i].0 else twoslots[i].1;
          ghost var path;
          ok, path := TryDisplace(twoslots, slot, 0, i);
          if !ok {
            assert StuckAt(ht0, twoslots, i, slot);
            return;
          }
          ShiftKeeps(ht0, twoslots, i, path);
          assert ht[slot].key == NONE;
        }
      }
      ghost var ht1 := ht[..];
      assert AllStored(ht1, i);
      PlaceKeeps(ht1, twoslots, i, slot);
      ht[slot] := Cell(i, NONE);
      assert ht[..] == ht1[slot := Cell(i, NONE)];
      forall k | 0 <= k < i + 1
        ensures Stored(ht[..], k)
      {
        assert k < i ==> Stored(ht1, k);
      }
      ok := true;
    }

    /** Third stage: the fingerprints and the parameters. */
    method MarkFingerprints(list: seq<seq<nat>>, twoslots: seq<(nat, nat)>, twohvs: seq<(nat, nat)>)
      requires Hashes(twohvs) && |twohvs| == |list| && ht.Length >= 1 && trueEntries.Length == ht.Length
      requires SlotsOf(twoslots, twohvs, ht.Length)
      requires TableOk(ht[..], twoslots, |list|) && AllStored(ht[..], |list|)
      modifies ht, trueEntries
      ensures SameKeys(old(ht[..]), ht[..]) && Unmarked(ht[..], |list|)
      ensures Finished(ht[..], trueEntries[..], twohvs, list, |list|)
    {
      ghost var ht0 := ht[..];
      var i := 0;
      while i < |list|
        invariant i <= |list| && SameKeys(ht0, ht[..]) && Unmarked(ht[..], i)
        invariant Finished(ht[..], trueEntries[..], twohvs, list, i)
      {
        var p1, p2 := twoslots[i].0, twoslots[i].1;
        StoredThere(ht0, ht[..], twoslots, i);
        assert ht[p1].key == i || ht[p2].key == i;
        var slot := if ht[p1].key == i then p1 else p2;
        ghost var ht1, entries1 := ht[..], trueEntries[..];
        MarkOne(ht0, ht1, entries1, twoslots, twohvs, list, i, slot);
        ht[slot] := ht[slot].(fingerprint := if ht[p1].key == i then twohvs[i].1 else twohvs[i].0);
        trueEntries[slot] := list[i];
        assert ht[..] == ht1[slot := ht[slot]] && trueEntries[..] == entries1[slot := list[i]];
        i := i + 1;
      }
    }

    /** Builds the table for a list of keys; the source's sanity checks stand as assertions. */
    method TryBuild(list: seq<seq<nat>>) returns (ok: bool)
      requires |h1| == |h2| && forall i :: 0 <= i < |list| ==> |list[i]| == |h1|
      requires 1 <= ht.Length < WORD && trueEntries.Length == ht.Length && |list| < NONE
      modifies ht, trueEntries
      ensures ok ==> forall i :: 0 <= i < |list| ==>
                var slot := Select(ht[..], HashPair(h1, h2, list[i])); ht[slot].key == i && trueEntries[slot] == list[i]
      ensures ok ==> NoClash(HashList(h1, h2, list), ht.Length, |list|)
      ensures ok ==> forall i {:trigger list[i]} :: 0 <= i < |list| ==>
                HashPair(h1, h2, list[i]).0 != 0xFFFF_FFFF && HashPair(h1, h2, list[i]).1 != 0xFFFF_FFFF
      ensures !ok && NoClash(HashList(h1, h2, list), ht.Length, |list|) ==>
                exists two :: SlotsOf(two, HashList(h1, h2, list), ht.Length) && Stuck(two)
      ensures NoClash(HashList(h1, h2, list), ht.Length, |list|) && FirstsApart(HashList(h1, h2, list), ht.Length) ==>
                ok
    {
      var twoslots, twohvs;
      ok, twoslots, twohvs := ComputeSlots(list);
      if !ok {
        return;
      }
      SlotsInRange(twoslots, twohvs, ht.Length);
      if FirstsApart(twohvs, ht.Length) {
        ApartIsDistinct(twohvs, twoslots, ht.Length);
      }
      ok := PlaceAll(twoslots);
      if !ok {
        return;
      }
      ghost var ht0 := ht[..];
      MarkFingerprints(list, twoslots, twohvs);
      CheckKeys(list, twoslots, twohvs, ht0);
      CheckSlots(list, twoslots, twohvs, ht0);
      forall i | 0 <= i < |list|
        ensures var slot := Select(ht[..], HashPair(h1, h2, list[i])); ht[slot].key == i && trueEntries[slot] == list[i]
      {
        SelectFinds(ht0, ht[..], trueEntries[..], twoslots, twohvs, list, i);
      }
    }

    /** The first sanity check: every key is found by its fingerprint, and by only one of them. */
    method CheckKeys(list: seq<seq<nat>>, twoslots: seq<(nat, nat)>, twohvs: seq<(nat, nat)>, ghost ht0: seq<Cell>)
      requires ht.Length >= 1 && trueEntries.Length == ht.Length &&
        Built(ht0, ht[..], trueEntries[..], twoslots, twohvs, list)
    {
      var i := 0;
      while i < |list|
        invariant i <= |list|
      {
        var hv1, hv2 := twohvs[i].0, twohvs[i].1;
        var p1, p2 := MapToSlot(hv1, ht.Length), MapToSlot(hv2, ht.Length);
        assert twoslots[i] == (p1, p2);
        SelectFinds(ht0, ht[..], trueEntries[..], twoslots, twohvs, list, i);
        if ht[p1].fingerprint == hv2 {
          assert ht[p1].key == i;
          assert trueEntries[p1] == list[i];
          assert p1 == p2 || ht[p2].fingerprint != hv1;
        } else {
          assert ht[p2].fingerprint == hv1;
          assert ht[p2].key == i;
          assert trueEntries[p2] == list[i];
        }
        i := i + 1;
      }
    }

    /** The second sanity check: slots are empty or hold distinct keys in place, and every key is met. */
    method CheckSlots(list: seq<seq<nat>>, twoslots: seq<(nat, nat)>, twohvs: seq<(nat, nat)>, ghost ht0: seq<Cell>)
      requires ht.Length >= 1 && trueEntries.Length == ht.Length &&
        Built(ht0, ht[..], trueEntries[..], twoslots, twohvs, list)
    {
      var seen: set<int> := {};
      var i := 0;
      while i < ht.Length
        invariant i <= ht.Length
        invariant forall k :: k in seen <==> k != NONE && exists t :: 0 <= t < i && ht[t].key == k
      {
        SlotFacts(ht0, ht[..], trueEntries[..], twoslots, twohvs, list, i);
        if ht[i].key == NONE {
          assert ht[i].fingerprint == NONE;
        } else {
          assert ht[i].fingerprint != NONE;
          assert ht[i].key !in seen;
          assert ht[i].key < |list|;
          var p1, p2 := twoslots[ht[i].key].0, twoslots[ht[i].key].1;
          assert p1 == i || p2 == i;
          assert ht[i].fingerprint == if p1 == i then twohvs[ht[i].key].1 else twohvs[ht[i].key].0;
          seen := seen + {ht[i].key};
        }
        i := i + 1;
      }
      AllSeen(ht0, ht[..], trueEntries[..], twoslots, twohvs, list, seen);
      assert |seen| == |list|;
    }
  }

  lemma SlotsInRange(two: seq<(nat, nat)>, hvs: seq<(nat, nat)>, M: nat)
    requires Hashes(hvs) && M >= 1 && SlotsOf(two, hvs, M)
    ensures forall i {:trigger two[i]} :: 0 <= i < |two| ==> two[i].0 < M && two[i].1 < M
  {
    forall i | 0 <= i < |two|
      ensures two[i].0 < M && two[i].1 < M
    {
      assert two[i] == TwoSlots(hvs[i], M);
    }
  }

  lemma SlotFacts(ht0: seq<Cell>, ht: seq<Cell>, entries: seq<seq<nat>>, two: seq<(nat, nat)>, hvs: seq<(nat, nat)>,
      list: seq<seq<nat>>, s: nat)
    requires Built(ht0, ht, entries, two, hvs, list) && s < |ht|
    ensures ht[s].key == NONE ==> ht[s].fingerprint == NONE
    ensures ht[s].key != NONE ==>
              var k := ht[s].key;
              && k < |list| && (two[k].0 == s || two[k].1 == s)
              && ht[s].fingerprint == (if two[k].0 == s then hvs[k].1 else hvs[k].0) && ht[s].fingerprint != NONE
              && forall t :: 0 <= t < s ==> ht[t].key != k
  {
    assert CellOk(ht0[s], s, two, |two|) && ht[s].key == ht0[s].key;
    if ht[s].key != NONE {
      assert two[ht[s].key] == TwoSlots(hvs[ht[s].key], |ht|);
      forall t | 0 <= t < s
        ensures ht[t].key != ht[s].key
      {
        assert ht[t].key == ht0[t].key;
      }
    }
  }

  lemma AllSeen(ht0: seq<Cell>, ht: seq<Cell>, entries: seq<seq<nat>>, two: seq<(nat, nat)>, hvs: seq<(nat, nat)>,
      list: seq<seq<nat>>, seen: set<int>)
    requires Built(ht0, ht, entries, two, hvs, list)
    requires forall k :: k in seen <==> k != NONE && exists t :: 0 <= t < |ht| && ht[t].key == k
    ensures |seen| == |list|
  {
    forall k
      ensures k in seen <==> 0 <= k < |list|
    {
      if 0 <= k < |list| {
        assert Stored(ht0, k);
        var s :| 0 <= s < |ht0| && ht0[s].key == k;
        assert ht[s].key == ht0[s].key;
      }
      if k in seen {
        var t :| 0 <= t < |ht| && ht[t].key == k;
        SlotFacts(ht0, ht, entries, two, hvs, list, t);
      }
    }
    assert seen == Arith.Range(0, |list|);
  }

  /** A stored key is in one of its two slots. */
  lemma StoredThere(ht0: seq<Cell>, ht: seq<Cell>, two: seq<(nat, nat)>, i: nat)
    requires TableOk(ht0, two, |two|) && AllStored(ht0, |two|) && i < |two| && SameKeys(ht0, ht)
    ensures ht[two[i].0].key == i || ht[two[i].1].key == i
  {
    assert Stored(ht0, i);
    var s :| 0 <= s < |ht0| && ht0[s].key == i;
    assert CellOk(ht0[s], s, two, |two|) && ht[s].key == ht0[s].key;
  }

  lemma MarkOne(ht0: seq<Cell>, ht: seq<Cell>, entries: seq<seq<nat>>, two: seq<(nat, nat)>, hvs: seq<(nat, nat)>,
      list: seq<seq<nat>>, i: nat, slot: nat)
    requires Hashes(hvs) && |hvs| == |list| && |entries| == |ht| >= 1 && SlotsOf(two, hvs, |ht|) && i < |list|
    requires TableOk(ht0, two, |list|) && SameKeys(ht0, ht) && Unmarked(ht, i) && Finished(ht, entries, hvs, list, i)
    requires slot < |ht| && ht[slot].key == i && slot == if ht[two[i].0].key == i then two[i].0 else two[i].1
    ensures var ht' := ht[slot := ht[slot].(fingerprint := if ht[two[i].0].key == i then hvs[i].1 else hvs[i].0)];
            SameKeys(ht0, ht') && Unmarked(ht', i + 1) && Finished(ht', entries[slot := list[i]], hvs, list, i + 1)
  {
    assert two[i] == TwoSlots(hvs[i], |ht|);
    var ht' := ht[slot := ht[slot].(fingerprint := if ht[two[i].0].key == i then hvs[i].1 else hvs[i].0)];
    forall s | 0 <= s < |ht'|
      ensures ht'[s].key == ht0[s].key && (s != slot ==> ht'[s] == ht[s] && (ht[s].key != i))
    {
      assert ht[s].key == ht0[s].key && ht[slot].key == ht0[slot].key;
      assert CellOk(ht0[slot], slot, two, |list|);
    }
  }

  function HashList(h1: seq<nat>, h2: seq<nat>, list: seq<seq<nat>>): (hvs: seq<(nat, nat)>)
    requires |h1| == |h2| && forall i :: 0 <= i < |list| ==> |list[i]| == |h1|
    ensures |hvs| == |list| && Hashes(hvs) && forall i :: 0 <= i < |list| ==> hvs[i] == HashPair(h1, h2, list[i])
  {
    seq(|list|, i requires 0 <= i < |list| => HashPair(h1, h2, list[i]))
  }
}
