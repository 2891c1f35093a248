/**
 Code placement: the tail calls between fragment instances, and the two-pass chase that gives every instance its
 address (PochiVM/fastinterp/fastinterp_codegen_helper.hpp:54-120).
 */
module Placement {
  import opened Arith
  import opened BoilerplateInstance
  import opened PlacementTheory

  /** The tail-call graph and the code lengths, which placement reads but does not change. */
  datatype Graph = Graph(litc: seq<int>, lens: seq<nat>) {
    ghost predicate Valid() {
      && |lens| == |litc| && IsGraph(litc)
      && forall i :: 0 <= i < |litc| && litc[i] >= 0 ==> lens[i] >= RIP_RELATIVE_JMP_LEN
    }
  }

  /** The instances form the graph g. */
  ghost predicate Wired(insts: Instances, g: Graph)
    reads insts
  {
    match g
    case Graph(litc, lens) =>
      && |insts| == |litc| && g.Valid()
      && (forall i, j :: 0 <= i < j < |insts| ==> insts[i] != insts[j])
      && (forall i :: 0 <= i < |insts| ==>
            && insts[i].m_ordinalInArray == i
            && insts[i].m_litcInstanceOrd == litc[i]
            && insts[i].GetCodeSectionLength() == lens[i]
            && (insts[i].m_isContinuationOfAnotherInstance <==> !NoInbound(litc, i)))
  }

  ghost predicate Distinct(order: seq<int>, n: nat) {
    && (forall k :: 0 <= k < |order| ==> 0 <= order[k] < n)
    && (forall j, k :: 0 <= j < k < |order| ==> order[j] != order[k])
  }

  /** Instance order[k] sits behind pos[k] with its padding, aligned, and its code ends at pos[k + 1]. */
  ghost predicate Laid(g: Graph, st: seq<Slot>, order: seq<int>, pos: seq<int>)
    requires |st| == |g.lens| && Distinct(order, |st|) && |pos| == |order| + 1
  {
    && pos[0] == 0
    && forall k {:trigger st[order[k]]} :: 0 <= k < |order| ==>
      SlotLaid(st[order[k]], g.lens[order[k]], pos[k], pos[k + 1])
  }

  ghost predicate SlotLaid(x: Slot, length: nat, start: int, end: int) {
    && 0 <= x.padding < Pow2(x.log2)
    && Aligned(x.addr, x.log2)
    && x.addr == start + x.padding
    && x.End(length) == end
  }

  /** Exactly the members of order are placed, and full says which of them fall through. */
  ghost predicate Flagged(litc: seq<int>, st: seq<Slot>, order: seq<int>, full: seq<int>)
    requires |litc| == |st| && |order| <= |full| && Distinct(full, |st|) && order == full[..|order|]
  {
    && PlacedAre(st, order)
    && (forall k {:trigger st[order[k]]} :: 0 <= k < |order| ==> (st[order[k]].strip <==> Falls(litc, full, k)))
  }

  ghost predicate PlacedAre(st: seq<Slot>, order: seq<int>) {
    && (forall i :: 0 <= i < |st| ==> (st[i].placed <==> i in order))
    && (forall i :: 0 <= i < |st| && !st[i].placed ==> !st[i].strip)
  }

  /** A multiple of 2 to the log2; written without a remainder, which keeps remainders out of proofs about order. */
  ghost predicate Aligned(addr: int, log2: nat) {
    exists q :: MultipleOf(addr, q, Pow2(log2))
  }

  ghost predicate MultipleOf(addr: int, q: int, m: nat) {
    addr == Times(q, m)
  }

  lemma AlignedIsMultiple(addr: int, log2: nat)
    ensures Aligned(addr, log2) <==> addr % Pow2(log2) == 0
  {
    var m := Pow2(log2);
    if Aligned(addr, log2) {
      var q :| MultipleOf(addr, q, m);
      TimesIs(q, m);
      MulMod(q, m);
    }
    if addr % m == 0 {
      TimesIs(addr / m, m);
      assert MultipleOf(addr, addr / m, m);
    }
  }

  lemma PaddingAligns(len: int, log2: nat)
    ensures var m := Pow2(log2);
            var padding := if len % m != 0 then m - len % m else 0;
            0 <= padding < m && Aligned(len + padding, log2)
  {
    var m := Pow2(log2);
    var padding := if len % m != 0 then m - len % m else 0;
    var q := len / m;
    assert len == q * m + len % m;
    MulMod(q, m);
    MulMod(q + 1, m);
    assert len + (m - len % m) == (q + 1) * m;
    AlignedIsMultiple(len + padding, log2);
  }

  lemma DistinctSnoc(order: seq<int>, x: int, n: nat)
    requires Distinct(order, n) && 0 <= x < n && x !in order
    ensures Distinct(order + [x], n)
  {
  }

  /** Giving the next instance of an order its place. */
  lemma PlaceStep(g: Graph, st: seq<Slot>, order: seq<int>, pos: seq<int>, cur: int)
    requires g.Valid() && |st| == |g.litc| && Distinct(order, |st|) && |pos| == |order| + 1
    requires 0 <= cur < |st| && cur !in order && Distinct(order + [cur], |st|)
    requires Laid(g, st, order, pos) && Flagged(g.litc, st, order, order + [cur])
    ensures var len := pos[|order|];
            var st' := st[cur := st[cur].PlacedAt(len)];
            && Laid(g, st', order + [cur], pos + [st'[cur].addr + g.lens[cur]])
            && Flagged(g.litc, st', order + [cur], order + [cur])
  {
    PlaceLaid(g, st, order, pos, cur);
    PlacePlaced(st, order, cur, st[cur].PlacedAt(pos[|order|]));
    PlaceFlagged(g, st, order, cur, st[cur].PlacedAt(pos[|order|]));
  }

  lemma PlaceLaid(g: Graph, st: seq<Slot>, order: seq<int>, pos: seq<int>, cur: int)
    requires |st| == |g.lens| && Distinct(order, |st|) && |pos| == |order| + 1 && Laid(g, st, order, pos)
    requires 0 <= cur < |st| && cur !in order && Distinct(order + [cur], |st|) && !st[cur].strip
    ensures var st' := st[cur := st[cur].PlacedAt(pos[|order|])];
            Laid(g, st', order + [cur], pos + [st'[cur].addr + g.lens[cur]])
  {
    var len := pos[|order|];
    PaddingAligns(len, st[cur].log2);
    var st' := st[cur := st[cur].PlacedAt(len)];
    assert SlotLaid(st'[cur], g.lens[cur], len, st'[cur].addr + g.lens[cur]);
    assert forall k :: 0 <= k < |order| ==> st'[order[k]] == st[order[k]];
  }

  lemma PlacePlaced(st: seq<Slot>, order: seq<int>, cur: int, x: Slot)
    requires 0 <= cur < |st| && PlacedAre(st, order) && x.placed
    ensures PlacedAre(st[cur := x], order + [cur])
  {
    var st' := st[cur := x];
    forall i | 0 <= i < |st|
      ensures i in order + [cur] <==> i in order || i == cur
    {
    }
  }

  lemma PlaceFlagged(g: Graph, st: seq<Slot>, order: seq<int>, cur: int, x: Slot)
    requires |st| == |g.litc| && Distinct(order, |st|) && 0 <= cur < |st| && cur !in order &&
      Distinct(order + [cur], |st|)
    requires Flagged(g.litc, st, order, order + [cur]) && PlacedAre(st[cur := x], order + [cur]) && !x.strip
    ensures Flagged(g.litc, st[cur := x], order + [cur], order + [cur])
  {
    var st', order' := st[cur := x], order + [cur];
    assert order'[|order|] == cur && !Falls(g.litc, order', |order|);
    assert forall k :: 0 <= k < |order| ==> order'[k] == order[k] && st'[order[k]] == st[order[k]];
  }

  /** Deciding that the instance placed last falls through to next. */
  lemma StripStep(g: Graph, st: seq<Slot>, order: seq<int>, pos: seq<int>, next: int)
    requires g.Valid() && |st| == |g.litc| && order != [] && Distinct(order, |st|) && |pos| == |order| + 1
    requires Laid(g, st, order, pos) && Flagged(g.litc, st, order, order)
    requires g.litc[order[|order| - 1]] == next && 0 <= next < |st| && next !in order
    requires Distinct(order + [next], |st|)
    ensures var cur := order[|order| - 1];
            var st' := st[cur := st[cur].(strip := true)];
            && Laid(g, st', order, pos[|order| := pos[|order|] - RIP_RELATIVE_JMP_LEN])
            && Flagged(g.litc, st', order, order + [next])
  {
    StripLaid(g, st, order, pos);
    StripFlagged(g, st, order, next);
  }

  lemma StripLaid(g: Graph, st: seq<Slot>, order: seq<int>, pos: seq<int>)
    requires |st| == |g.lens| && order != [] && Distinct(order, |st|) && |pos| == |order| + 1
    requires Laid(g, st, order, pos) && !st[order[|order| - 1]].strip
    ensures var cur := order[|order| - 1];
            Laid(g, st[cur := st[cur].(strip := true)], order, pos[|order| := pos[|order|] - RIP_RELATIVE_JMP_LEN])
  {
    var n := |order|;
    var cur := order[n - 1];
    var st' := st[cur := st[cur].(strip := true)];
    assert SlotLaid(st'[cur], g.lens[cur], pos[n - 1], pos[n] - RIP_RELATIVE_JMP_LEN);
    assert forall k :: 0 <= k < n - 1 ==> st'[order[k]] == st[order[k]];
  }

  lemma StripFlagged(g: Graph, st: seq<Slot>, order: seq<int>, next: int)
    requires |st| == |g.litc| && order != [] && Distinct(order, |st|) && Flagged(g.litc, st, order, order)
    requires g.litc[order[|order| - 1]] == next && 0 <= next < |st| && Distinct(order + [next], |st|)
    ensures var cur := order[|order| - 1];
            Flagged(g.litc, st[cur := st[cur].(strip := true)], order, order + [next])
  {
    var n := |order|;
    var cur, full := order[n - 1], order + [next];
    var st' := st[cur := st[cur].(strip := true)];
    assert PlacedAre(st', order);
    assert Falls(g.litc, full, n - 1);
    forall k | 0 <= k < n
      ensures st'[order[k]].strip <==> Falls(g.litc, full, k)
    {
      if k < n - 1 {
        assert full[k] == order[k] && full[k + 1] == order[k + 1] && st'[order[k]] == st[order[k]];
      }
    }
  }

  /** cur, not placed yet, comes next behind order. */
  ghost predicate ReadyToPlace(g: Graph, st: seq<Slot>, order: seq<int>, pos: seq<int>, len: int, cur: int) {
    && g.Valid() && |st| == |g.litc| && Distinct(order, |st|)
    && 0 <= cur < |st| && cur !in order && Distinct(order + [cur], |st|)
    && |pos| == |order| + 1 && pos[|order|] == len
    && Laid(g, st, order, pos) && Flagged(g.litc, st, order, order + [cur])
  }

  /** cur is the last of order; next, unless it is -1, is the instance it falls through to. */
  ghost predicate JustPlaced(g: Graph, st: seq<Slot>, order: seq<int>, pos: seq<int>, len: int, cur: int, next: int) {
    && g.Valid() && |st| == |g.litc| && Distinct(order, |st|)
    && order != [] && order[|order| - 1] == cur
    && |pos| == |order| + 1 && pos[|order|] == len && Laid(g, st, order, pos)
    && if next == -1 then
         Flagged(g.litc, st, order, order) && (g.litc[cur] == -1 || g.litc[cur] in order)
       else
         && next == g.litc[cur] && 0 <= next < |st| && next !in order && Distinct(order + [next], |st|)
         && Flagged(g.litc, st, order, order + [next])
  }

  /** Places one instance and decides whether it falls through to the instance it ends by jumping to. */
  method ChaseStep(insts: Instances, cur: nat, len0: int, ghost g: Graph, ghost st0: seq<Slot>, ghost order: seq<int>,
      ghost pos0: seq<int>)
    returns (len: int, next: int, ghost st: seq<Slot>, ghost pos: seq<int>)
    requires Wired(insts, g) && Showing(insts, st0) && cur < |insts|
    requires ReadyToPlace(g, st0, order, pos0, len0, cur)
    modifies {insts[cur]}`m_relativeCodeAddr, {insts[cur]}`m_codeSectionPaddingRequired,
      {insts[cur]}`m_populatedRelativeCodeAddress
    modifies {insts[cur]}`m_shouldStripLITC
    ensures Wired(insts, g) && Showing(insts, st)
    ensures JustPlaced(g, st, order + [cur], pos, len, cur, next)
    ensures |st| == |st0| && SameAlignments(st0, st)
  {
    var instance := insts[cur];
    PlaceStep(g, st0, order, pos0, cur);
    len := instance.Place(len0);
    st := st0[cur := instance.View()];
    pos := pos0 + [len];
    assert (order + [cur])[|order|] == cur;
    len, next, st, pos := DecideFallThrough(insts, cur, len, g, st, order + [cur], pos);
  }

  /** The instance placed last drops its final jump when it goes to an instance not placed yet. */
  method DecideFallThrough(insts: Instances, cur: nat, len0: int, ghost g: Graph, ghost st0: seq<Slot>,
      ghost order: seq<int>, ghost pos0: seq<int>)
    returns (len: int, next: int, ghost st: seq<Slot>, ghost pos: seq<int>)
    requires Wired(insts, g) && Showing(insts, st0) && cur < |insts|
    requires Distinct(order, |insts|) && order != [] && order[|order| - 1] == cur
    requires |pos0| == |order| + 1 && pos0[|order|] == len0
    requires Laid(g, st0, order, pos0) && Flagged(g.litc, st0, order, order)
    modifies {insts[cur]}`m_shouldStripLITC
    ensures Wired(insts, g) && Showing(insts, st)
    ensures JustPlaced(g, st, order, pos, len, cur, next)
    ensures |st| == |st0| && SameAlignments(st0, st)
  {
    var instance := insts[cur];
    len, next, st, pos := len0, -1, st0, pos0;
    if instance.m_litcInstanceOrd != -1 {
      var nextInstance := insts[instance.m_litcInstanceOrd];
      assert nextInstance.m_isContinuationOfAnotherInstance;
      if !nextInstance.m_populatedRelativeCodeAddress {
        next := instance.m_litcInstanceOrd;
        DistinctSnoc(order, next, |insts|);
        StripStep(g, st, order, pos, next);
        instance.StripLITC();
        len := len - RIP_RELATIVE_JMP_LEN;
        st := st[cur := instance.View()];
        pos := pos[|order| := len];
      }
    }
  }

  /**
   Places instance `start` and follows its tail calls until an end or a placed instance is met.
   The last instance of order0 does not jump to start.
   */
  method Chase(insts: Instances, start: nat, len0: int, ghost g: Graph, ghost st0: seq<Slot>, ghost order0: seq<int>,
      ghost pos0: seq<int>)
    returns (len: int, placed: nat, ghost st: seq<Slot>, ghost chain: seq<int>, ghost pos: seq<int>)
    requires Wired(insts, g) && Showing(insts, st0) && start < |insts|
    requires BetweenChases(g, st0, order0, pos0, len0) && start !in order0
    modifies insts`m_relativeCodeAddr, insts`m_codeSectionPaddingRequired, insts`m_populatedRelativeCodeAddress
    modifies insts`m_shouldStripLITC, insts`m_log2CodeSectionAlignment
    ensures Wired(insts, g) && Showing(insts, st) && |chain| == placed
    ensures Chasing(g, st, order0, chain, pos, len, start, -1)
    ensures |st| == |st0| && OneAligned(st0, st, start)
  {
    insts[start].SetAlignmentLog2(4);
    st := st0[start := st0[start].(log2 := 4)];
    chain, pos, len, placed := [], pos0, len0, 0;
    StartStep(g, st0, st, order0, pos0, start);
    assert order0 + chain == order0;
    var cur: int := start;
    while cur != -1
      invariant Wired(insts, g) && Showing(insts, st) && |chain| == placed
      invariant -1 <= cur < |insts| && Chasing(g, st, order0, chain, pos, len, start, cur)
      invariant |st| == |st0| && OneAligned(st0, st, start)
      decreases |insts| - |chain|, cur != -1
    {
      placed := placed + 1;
      len, cur, st, chain, pos := ChaseTurn(insts, cur, len, g, st0, st, order0, chain, pos, start);
    }
  }

  ghost predicate OneAligned(st0: seq<Slot>, st: seq<Slot>, start: int)
    requires |st| == |st0|
  {
    forall i {:trigger st[i]} :: 0 <= i < |st| ==> st[i].log2 == if i == start then 4 else st0[i].log2
  }

  ghost predicate SameAlignments(st0: seq<Slot>, st: seq<Slot>)
    requires |st| == |st0|
  {
    forall i {:trigger st[i]} :: 0 <= i < |st| ==> st[i].log2 == st0[i].log2
  }

  /** One turn of a chase. */
  method ChaseTurn(insts: Instances, cur: nat, len0: int, ghost g: Graph, ghost st0: seq<Slot>, ghost st1: seq<Slot>,
      ghost order0: seq<int>,
      ghost chain0: seq<int>, ghost pos0: seq<int>, ghost start: nat)
    returns (len: int, next: int, ghost st: seq<Slot>, ghost chain: seq<int>, ghost pos: seq<int>)
    requires Wired(insts, g) && Showing(insts, st1) && cur < |insts| && |st1| == |st0| && OneAligned(st0, st1, start)
    requires Chasing(g, st1, order0, chain0, pos0, len0, start, cur)
    modifies {insts[cur]}`m_relativeCodeAddr, {insts[cur]}`m_codeSectionPaddingRequired,
      {insts[cur]}`m_populatedRelativeCodeAddress
    modifies {insts[cur]}`m_shouldStripLITC
    ensures Wired(insts, g) && Showing(insts, st) && -1 <= next < |insts| && |st| == |st0| && OneAligned(st0, st, start)
    ensures |chain| == |chain0| + 1 <= |insts| && Chasing(g, st, order0, chain, pos, len, start, next)
  {
    CountInRange(order0 + chain0 + [cur], 0, |insts|);
    len, next, st, pos := ChaseStep(insts, cur, len0, g, st1, order0 + chain0, pos0);
    chain := chain0 + [cur];
    ChasingStep(g, st, order0, chain0, pos, len, start, cur, next);
  }

  /** Everything in order has been placed, and nothing in it jumps to an instance that has not. */
  ghost predicate BetweenChases(g: Graph, st: seq<Slot>, order: seq<int>, pos: seq<int>, len: int) {
    && g.Valid() && |st| == |g.litc| && Distinct(order, |st|)
    && |pos| == |order| + 1 && pos[|order|] == len && Laid(g, st, order, pos)
    && Flagged(g.litc, st, order, order)
    && forall x :: x in order ==> g.litc[x] == -1 || g.litc[x] in order
  }

  /** The state of a chase: chain has been placed behind order0 and cur, unless it is -1, comes next. */
  ghost predicate Chasing(g: Graph, st: seq<Slot>, order0: seq<int>, chain: seq<int>, pos: seq<int>, len: int,
      start: int, cur: int) {
    && (if chain == [] then cur == start
        else
          && chain[0] == start && IsChain(g.litc, chain)
          && JustPlaced(g, st, order0 + chain, pos, len, chain[|chain| - 1], cur))
    && (cur == -1 ==> chain != [])
    && (cur != -1 ==> ReadyToPlace(g, st, order0 + chain, pos, len, cur))
  }

  lemma ChasingStep(g: Graph, st: seq<Slot>, order0: seq<int>, chain: seq<int>, pos: seq<int>, len: int, start: int,
      cur: int, next: int)
    requires if chain == [] then cur == start
      else chain[0] == start && IsChain(g.litc, chain) && g.litc[chain[|chain| - 1]] == cur
    requires JustPlaced(g, st, order0 + chain + [cur], pos, len, cur, next)
    ensures Chasing(g, st, order0, chain + [cur], pos, len, start, next)
  {
    assert order0 + chain + [cur] == order0 + (chain + [cur]);
    assert (order0 + (chain + [cur]))[|order0 + chain|] == cur;
    ChainSnoc(g.litc, chain, cur);
  }

  lemma ChainSnoc(litc: seq<int>, chain: seq<int>, x: int)
    requires 0 <= x < |litc|
    requires chain != [] ==> IsChain(litc, chain) && litc[chain[|chain| - 1]] == x
    ensures IsChain(litc, chain + [x])
  {
  }

  /** Only the alignment of an instance not yet placed has changed, and nothing falls through to it. */
  lemma StartStep(g: Graph, st0: seq<Slot>, st: seq<Slot>, order: seq<int>, pos: seq<int>, start: nat)
    requires |pos| > |order| && BetweenChases(g, st0, order, pos, pos[|order|])
    requires start < |st0| && start !in order && st == st0[start := st0[start].(log2 := 4)]
    ensures ReadyToPlace(g, st, order, pos, pos[|order|], start)
  {
    DistinctSnoc(order, start, |st|);
    forall k | 0 <= k < |order|
      ensures st[order[k]] == st0[order[k]]
      ensures Falls(g.litc, order, k) <==> Falls(g.litc, order + [start], k)
    {
      assert order[k] in order;
    }
  }

  // ---------- both passes ----------

  /** What the passes have produced so far. */
  datatype Trace = Trace(st: seq<Slot>, order: seq<int>, pos: seq<int>, chains: seq<seq<int>>, len: int)

  /** The order so far is made of disjoint chains the greedy algorithm may start, and nothing else falls through. */
  ghost predicate Greedy(g: Graph, t: Trace) {
    && BetweenChases(g, t.st, t.order, t.pos, t.len)
    && (forall a :: 0 <= a < |t.chains| ==> Chased(g.litc, t.chains[a]))
    && (forall x :: x in t.order ==> InSome(t.chains, x))
    && (forall a, x :: 0 <= a < |t.chains| && x in t.chains[a] ==> x in t.order)
    && DisjointChains(t.chains)
    && Falling(g.litc, t.order, |t.order|) + |t.chains| == |t.order|
  }

  /** Where a chase starts the alignment is 16 bytes, whatever was requested; elsewhere it is what was requested. */
  ghost predicate AlignmentsKept(t: Trace, st0: seq<Slot>) {
    && |t.st| == |st0|
    && forall i {:trigger t.st[i]} :: 0 <= i < |st0| ==> t.st[i].log2 == if HeadOf(t.chains, i) then 4 else st0[i].log2
  }

  ghost function Unplaced(n: nat, order: seq<int>): (u: set<int>)
    ensures forall i :: i in u <==> 0 <= i < n && i !in order
  {
    set i | i in Range(0, n) && i !in order
  }

  /** Fall-throughs are counted chain by chain when the first part does not jump into the second. */
  lemma {:induction false} FallingAppend(litc: seq<int>, a: seq<int>, b: seq<int>, k: nat)
    requires Distinct(a + b, |litc|) && Distinct(a, |litc|) && k <= |a| + |b|
    requires forall x :: x in a ==> litc[x] == -1 || litc[x] in a
    requires forall i :: 0 <= i < |b| ==> b[i] !in a && 0 <= b[i] < |litc|
    requires forall i :: 0 <= i < |b| - 1 ==> litc[b[i]] == b[i + 1]
    ensures Falling(litc, a + b, k) ==
            if k <= |a| then Falling(litc, a, k)
            else Falling(litc, a, |a|) + (if k == |a| + |b| then k - |a| - 1 else k - |a|)
  {
    if k > 0 {
      FallingAppend(litc, a, b, k - 1);
      if k <= |a| {
        JunctionDoesNotFall(litc, a, b, k - 1);
      } else {
        var i := k - 1 - |a|;
        assert (a + b)[k - 1] == b[i] && (i < |b| - 1 ==> (a + b)[k] == b[i + 1]);
      }
    }
  }

  lemma JunctionDoesNotFall(litc: seq<int>, a: seq<int>, b: seq<int>, k: nat)
    requires Distinct(a + b, |litc|) && Distinct(a, |litc|) && k < |a|
    requires forall x :: x in a ==> litc[x] == -1 || litc[x] in a
    requires forall i :: 0 <= i < |b| ==> b[i] !in a && b[i] >= 0
    ensures Falls(litc, a + b, k) <==> Falls(litc, a, k)
  {
    assert (a + b)[k] == a[k] && a[k] in a;
    if k == |a| - 1 && b != [] {
      assert (a + b)[k + 1] == b[0];
    }
  }

  /** A finished chase extends the trace by one chain. */
  lemma AddChain(g: Graph, t: Trace, st: seq<Slot>, chain: seq<int>, pos: seq<int>, len: int, start: int)
    requires Greedy(g, t) && start !in t.order
    requires Chasing(g, st, t.order, chain, pos, len, start, -1) && Chased(g.litc, chain)
    ensures Greedy(g, Trace(st, t.order + chain, pos, t.chains + [chain], len))
    ensures forall i :: 0 <= i < |chain| ==> chain[i] !in t.order
  {
    var order := t.order + chain;
    SecondPartIsNew(t.order, chain, |t.st|);
    FallingAppend(g.litc, t.order, chain, |order|);
    forall x | x in order
      ensures g.litc[x] == -1 || g.litc[x] in order
    {
      if x !in t.order {
        var i :| 0 <= i < |chain| && chain[i] == x;
        if i < |chain| - 1 {
          assert g.litc[x] == chain[i + 1];
        }
      }
    }
    ChainsDisjoint(t.chains, chain, t.order);
    ChainsCover(t.chains, chain, t.order);
  }

  lemma ChainsCover(chains: seq<seq<int>>, chain: seq<int>, order: seq<int>)
    requires forall x :: x in order ==> InSome(chains, x)
    ensures forall x :: x in order + chain ==> InSome(chains + [chain], x)
  {
    var all := chains + [chain];
    forall x | x in order + chain
      ensures InSome(all, x)
    {
      if x in order {
        var a :| 0 <= a < |chains| && x in chains[a];
        assert x in all[a];
      } else {
        assert x in all[|chains|];
      }
    }
  }

  lemma ChainsDisjoint(chains: seq<seq<int>>, chain: seq<int>, order: seq<int>)
    requires DisjointChains(chains)
    requires forall a, x :: 0 <= a < |chains| && x in chains[a] ==> x in order
    requires forall i :: 0 <= i < |chain| ==> chain[i] !in order
    ensures DisjointChains(chains + [chain])
  {
    var all := chains + [chain];
    forall a, b, x | 0 <= a < b < |all| && x in all[a]
      ensures x !in all[b]
    {
      assert all[a] == chains[a];
    }
  }

  /** What a pass still owes: in pass 0 fragments nothing jumps to, in pass 1 everything. */
  ghost predicate PassDone(g: Graph, order: seq<int>, pass: nat, i: nat) {
    forall j :: 0 <= j < i && j < |g.litc| ==> j in order || (pass == 0 && !NoInbound(g.litc, j))
  }

  /** A chase of pass 0 starts where nothing jumps to; one of pass 1 runs around a cycle from its least member. */
  lemma ChaseIsChased(g: Graph, t: Trace, pass: nat, st: seq<Slot>, chain: seq<int>, pos: seq<int>, len: int,
      start: int)
    requires Greedy(g, t) && 0 <= start && start !in t.order && Chasing(g, st, t.order, chain, pos, len, start, -1)
    requires forall i :: 0 <= i < |chain| ==> chain[i] !in t.order
    requires if pass == 0 then NoInbound(g.litc, start) else AllInbound(g.litc, Unplaced(|g.litc|, t.order))
    requires PassDone(g, t.order, pass, start)
    ensures Chased(g.litc, chain)
    ensures pass != 0 ==> AllInbound(g.litc, Unplaced(|g.litc|, t.order + chain))
  {
    if pass != 0 {
      SecondIsDistinct(t.order, chain, |g.litc|);
      var last := chain[|chain| - 1];
      assert g.litc[last] in t.order + chain || g.litc[last] == -1;
      CycleChase(g.litc, t.order, chain);
    }
  }

  lemma CycleChase(litc: seq<int>, order: seq<int>, chain: seq<int>)
    requires AllInbound(litc, Unplaced(|litc|, order))
    requires forall x :: x in order ==> 0 <= x < |litc| && (litc[x] == -1 || litc[x] in order)
    requires IsChain(litc, chain) && Distinct(chain, |litc|) && forall i :: 0 <= i < |chain| ==> chain[i] !in order
    requires litc[chain[|chain| - 1]] in order + chain || litc[chain[|chain| - 1]] == -1
    ensures Closed(litc, chain) && litc[chain[|chain| - 1]] == chain[0]
    ensures AllInbound(litc, Unplaced(|litc|, order + chain))
  {
    var u := Unplaced(|litc|, order);
    ChaseIsCycle(litc, u, chain);
    CycleIsClosed(litc, u, chain);
    CycleRemoved(litc, u, chain, Unplaced(|litc|, order + chain));
  }

  lemma SecondIsDistinct(a: seq<int>, b: seq<int>, n: nat)
    requires Distinct(a + b, n)
    ensures Distinct(b, n)
  {
    var c := a + b;
    forall i, j | 0 <= i < j < |b|
      ensures b[i] != b[j]
    {
      assert c[|a| + i] == b[i] && c[|a| + j] == b[j];
    }
    forall i | 0 <= i < |b|
      ensures 0 <= b[i] < n
    {
      assert c[|a| + i] == b[i];
    }
  }

  lemma SecondPartIsNew(a: seq<int>, b: seq<int>, n: nat)
    requires Distinct(a + b, n)
    ensures forall i :: 0 <= i < |b| ==> b[i] !in a && 0 <= b[i] < n
  {
    var c := a + b;
    forall i, j | 0 <= i < |b| && 0 <= j < |a|
      ensures b[i] != a[j]
    {
      assert c[|a| + i] == b[i] && c[j] == a[j];
    }
    forall i | 0 <= i < |b|
      ensures 0 <= b[i] < n
    {
      assert c[|a| + i] == b[i];
    }
  }

  /** Pass `pass` has looked at the first i instances. */
  ghost predicate InPass(g: Graph, t: Trace, pass: nat, i: nat, st0: seq<Slot>) {
    && Greedy(g, t) && PassDone(g, t.order, pass, i) && AlignmentsKept(t, st0)
    && (pass != 0 ==> AllInbound(g.litc, Unplaced(|g.litc|, t.order)))
  }

  lemma SkipInstance(g: Graph, t: Trace, pass: nat, i: nat, st0: seq<Slot>)
    requires InPass(g, t, pass, i, st0) && i < |g.litc|
    requires t.st[i].placed || (pass == 0 && !NoInbound(g.litc, i))
    ensures InPass(g, t, pass, i + 1, st0)
  {
  }

  /** One pass over all instances. */
  method PlacePass(insts: Instances, pass: nat, len0: int, num0: nat, ghost g: Graph, ghost t0: Trace,
      ghost st0: seq<Slot>)
    returns (len: int, num: nat, ghost t: Trace)
    requires Wired(insts, g) && Showing(insts, t0.st) && t0.len == len0 && |t0.order| == num0
    requires InPass(g, t0, pass, 0, st0)
    modifies insts`m_relativeCodeAddr, insts`m_codeSectionPaddingRequired, insts`m_populatedRelativeCodeAddress
    modifies insts`m_shouldStripLITC, insts`m_log2CodeSectionAlignment
    ensures Wired(insts, g) && Showing(insts, t.st) && t.len == len && |t.order| == num
    ensures InPass(g, t, pass, |insts|, st0)
  {
    len, num, t := len0, num0, t0;
    for i := 0 to |insts|
      invariant Wired(insts, g) && Showing(insts, t.st) && t.len == len && |t.order| == num
      invariant InPass(g, t, pass, i, st0)
    {
      var instance := insts[i];
      if instance.m_populatedRelativeCodeAddress || (pass == 0 && instance.m_isContinuationOfAnotherInstance) {
        SkipInstance(g, t, pass, i, st0);
        continue;
      }
      var placed;
      ghost var st, chain, pos;
      ghost var before := t;
      len, placed, st, chain, pos := Chase(insts, i, len, g, t.st, t.order, t.pos);
      t := Trace(st, before.order + chain, pos, before.chains + [chain], len);
      AfterChase(g, before, t, pass, chain, i, st0);
      num := num + placed;
    }
  }

  /** One more chase keeps everything a pass maintains. */
  lemma AfterChase(g: Graph, t0: Trace, t: Trace, pass: nat, chain: seq<int>, i: nat, st0: seq<Slot>)
    requires InPass(g, t0, pass, i, st0) && (pass == 0 ==> NoInbound(g.litc, i))
    requires i !in t0.order && Chasing(g, t.st, t0.order, chain, t.pos, t.len, i, -1)
    requires t == Trace(t.st, t0.order + chain, t.pos, t0.chains + [chain], t.len)
    requires |t.st| == |t0.st| && OneAligned(t0.st, t.st, i)
    ensures InPass(g, t, pass, i + 1, st0)
  {
    SecondPartIsNew(t0.order, chain, |t.st|);
    ChaseIsChased(g, t0, pass, t.st, chain, t.pos, t.len, i);
    AddChain(g, t0, t.st, chain, t.pos, t.len, i);
    assert chain[0] in t.order;
    StillAligned(t0, t, i, st0);
  }

  lemma StillAligned(t0: Trace, t: Trace, start: int, st0: seq<Slot>)
    requires |t.st| == |t0.st| && |t.chains| == |t0.chains| + 1 && t.chains[..|t0.chains|] == t0.chains
    requires t.chains[|t0.chains|] != [] && t.chains[|t0.chains|][0] == start
    requires OneAligned(t0.st, t.st, start)
    requires AlignmentsKept(t0, st0)
    ensures AlignmentsKept(t, st0)
  {
    forall i {:trigger t.st[i]} | 0 <= i < |st0|
      ensures t.st[i].log2 == if HeadOf(t.chains, i) then 4 else st0[i].log2
    {
      OneMoreHead(t0.chains, t.chains, start, i);
      assert t0.st[i].log2 == if HeadOf(t0.chains, i) then 4 else st0[i].log2;
    }
  }

  lemma OneMoreHead(chains0: seq<seq<int>>, chains: seq<seq<int>>, start: int, i: int)
    requires |chains| == |chains0| + 1 && chains[..|chains0|] == chains0
    requires chains[|chains0|] != [] && chains[|chains0|][0] == start
    ensures HeadOf(chains, i) <==> i == start || HeadOf(chains0, i)
  {
    assert forall a :: 0 <= a < |chains0| ==> chains[a] == chains0[a];
    if i == start {
      assert HeadAt(chains, |chains0|, i);
    } else if HeadOf(chains, i) {
      var a :| HeadAt(chains, a, i);
      assert HeadAt(chains0, a, i);
    } else if HeadOf(chains0, i) {
      var a :| HeadAt(chains0, a, i);
      assert HeadAt(chains, a, i);
    }
  }

  ghost predicate Unpopulated(st: seq<Slot>) {
    forall i :: 0 <= i < |st| ==> !st[i].placed && !st[i].strip
  }

  /** What placement promises about the final state of the instances. */
  ghost predicate GoodPlacement(g: Graph, t: Trace) {
    match t
    case Trace(st, order, pos, _, len) =>
      && g.Valid() && |st| == |g.litc|
      && IsOrder(order, |st|) && |pos| == |order| + 1 && pos[|order|] == len
      && (forall i :: 0 <= i < |st| ==> st[i].placed)
      && Laid(g, st, order, pos)
      && (forall k {:trigger st[order[k]]} :: 0 <= k < |order| ==> (st[order[k]].strip <==> Falls(g.litc, order, k)))
  }

  /** No order of the instances turns more final jumps into fall-through. */
  ghost predicate Optimal(g: Graph, order: seq<int>)
    requires g.Valid() && IsOrder(order, |g.litc|)
  {
    forall other :: IsOrder(other, |g.litc|) ==>
      Falling(g.litc, other, |other|) <= Falling(g.litc, order, |order|)
  }

  /**
   Phase 2 of materialisation: pass 0 starts chases only where nothing jumps to, pass 1 everywhere.
   Every instance is placed, and the order is optimal.
   */
  method PlaceCodeSections(insts: Instances, ghost g: Graph, ghost st0: seq<Slot>)
    returns (codeSectionLength: int, ghost t: Trace)
    requires Wired(insts, g) && Showing(insts, st0) && Unpopulated(st0)
    modifies insts`m_relativeCodeAddr, insts`m_codeSectionPaddingRequired, insts`m_populatedRelativeCodeAddress
    modifies insts`m_shouldStripLITC, insts`m_log2CodeSectionAlignment
    ensures Wired(insts, g) && Showing(insts, t.st) && t.len == codeSectionLength
    ensures GoodPlacement(g, t) && Optimal(g, t.order)
    ensures AlignmentsGiven(g, t.st, st0)
  {
    var numInstantiated;
    codeSectionLength, numInstantiated := 0, 0;
    t := Trace(st0, [], [0], [], 0);
    NothingPlaced(g, st0);
    var pass := 0;
    while pass < 2
      invariant 0 <= pass <= 2 && BeforePass(g, t, st0, pass)
      invariant Wired(insts, g) && Showing(insts, t.st)
      invariant t.len == codeSectionLength && |t.order| == numInstantiated
    {
      PassReady(g, t, st0, pass);
      codeSectionLength, numInstantiated, t := PlacePass(insts, pass, codeSectionLength, numInstantiated, g, t, st0);
      if numInstantiated == |insts| {
        break;
      }
      pass := pass + 1;
    }
    Finished(g, t, st0, pass);
    AlignmentsFollow(g, t, st0);
    CheckPlaced(insts, numInstantiated, g, t);
  }

  /** The final alignments, from the graph and the requests alone. */
  ghost predicate AlignmentsGiven(g: Graph, st: seq<Slot>, st0: seq<Slot>) {
    && |st| == |st0|
    && forall i {:trigger st[i]} :: 0 <= i < |st0| ==>
      st[i].log2 == if StartsChase(g.litc, i) then 4 else st0[i].log2
  }

  lemma AlignmentsFollow(g: Graph, t: Trace, st0: seq<Slot>)
    requires Greedy(g, t) && GoodPlacement(g, t) && AlignmentsKept(t, st0)
    ensures AlignmentsGiven(g, t.st, st0)
  {
    forall i {:trigger t.st[i]} | 0 <= i < |st0|
      ensures t.st[i].log2 == if StartsChase(g.litc, i) then 4 else st0[i].log2
    {
      var k := PositionOf(t.order, |t.st|, i);
      assert t.order[k] in t.order;
      HeadsAreStarts(g.litc, t.chains, i);
    }
  }

  /** The assertions at the end of phase 2. */
  method CheckPlaced(insts: Instances, numInstantiated: nat, ghost g: Graph, ghost t: Trace)
    requires |insts| == |t.st| && Showing(insts, t.st) && GoodPlacement(g, t) && numInstantiated == |t.order|
  {
    assert numInstantiated == |insts|;
    for i := 0 to |insts| {
      assert insts[i].View() == t.st[i];
      assert insts[i].m_populatedRelativeCodeAddress;
    }
  }

  /** What the earlier passes leave. */
  ghost predicate BeforePass(g: Graph, t: Trace, st0: seq<Slot>, pass: int) {
    && Greedy(g, t) && AlignmentsKept(t, st0)
    && (pass == 1 ==> PassDone(g, t.order, 0, |g.litc|)) && (pass == 2 ==> PassDone(g, t.order, 1, |g.litc|))
  }

  lemma PassReady(g: Graph, t: Trace, st0: seq<Slot>, pass: int)
    requires 0 <= pass < 2 && BeforePass(g, t, st0, pass)
    ensures InPass(g, t, pass, 0, st0)
  {
    if pass == 1 {
      OnlyCyclesLeft(g, t);
    }
  }

  lemma NothingPlaced(g: Graph, st0: seq<Slot>)
    requires g.Valid() && |st0| == |g.litc| && Unpopulated(st0)
    ensures Greedy(g, Trace(st0, [], [0], [], 0)) && AlignmentsKept(Trace(st0, [], [0], [], 0), st0)
  {
  }

  /** What pass 0 leaves unplaced is jumped to only from what it leaves unplaced. */
  lemma OnlyCyclesLeft(g: Graph, t: Trace)
    requires Greedy(g, t) && PassDone(g, t.order, 0, |g.litc|)
    ensures AllInbound(g.litc, Unplaced(|g.litc|, t.order))
  {
    var u := Unplaced(|g.litc|, t.order);
    forall x | x in u
      ensures HasInbound(g.litc, u, x)
    {
      assert !NoInbound(g.litc, x);
      var p :| 0 <= p < |g.litc| && g.litc[p] == x;
      assert p in u;
    }
  }

  lemma Finished(g: Graph, t: Trace, st0: seq<Slot>, pass: int)
    requires Greedy(g, t) && (|t.order| == |g.litc| || BeforePass(g, t, st0, 2))
    ensures GoodPlacement(g, t) && Optimal(g, t.order)
  {
    var n := |g.litc|;
    CountInRange(t.order, 0, n);
    forall other | IsOrder(other, n)
      ensures Falling(g.litc, other, |other|) <= Falling(g.litc, t.order, |t.order|)
    {
      ChainsAreOptimal(g.litc, t.chains, other);
    }
  }

  // ---------- the layout ----------

  function SumLens(g: Graph, order: seq<int>, k: nat): nat
    requires k <= |order| && forall i :: 0 <= i < |order| ==> 0 <= order[i] < |g.lens|
  {
    if k == 0 then 0 else SumLens(g, order, k - 1) + g.lens[order[k - 1]]
  }

  function SumPadding(st: seq<Slot>, order: seq<int>, k: nat): nat
    requires k <= |order| && forall i :: 0 <= i < |order| ==> 0 <= order[i] < |st|
  {
    if k == 0 then 0 else SumPadding(st, order, k - 1) + st[order[k - 1]].padding
  }

  /** After k instances the section is as long as their code and padding, less one jump per fall-through. */
  lemma {:induction false} LengthSoFar(g: Graph, t: Trace, k: nat)
    requires GoodPlacement(g, t) && k <= |t.order|
    ensures t.pos[k] == SumLens(g, t.order, k) + SumPadding(t.st, t.order, k)
                        - RIP_RELATIVE_JMP_LEN * Falling(g.litc, t.order, k)
  {
    if k > 0 {
      LengthSoFar(g, t, k - 1);
      assert SlotLaid(t.st[t.order[k - 1]], g.lens[t.order[k - 1]], t.pos[k - 1], t.pos[k]);
    }
  }

  lemma {:induction false} PositionsAscend(g: Graph, t: Trace, j: nat, k: nat)
    requires GoodPlacement(g, t) && j <= k <= |t.order|
    ensures t.pos[j] <= t.pos[k]
  {
    if j < k {
      PositionsAscend(g, t, j, k - 1);
      var x := t.order[k - 1];
      assert SlotLaid(t.st[x], g.lens[x], t.pos[k - 1], t.pos[k]);
      assert t.st[x].strip ==> Falls(g.litc, t.order, k - 1);
    }
  }

  /** Byte b belongs to the padding or the code of the k-th instance placed. */
  ghost predicate Owns(g: Graph, t: Trace, k: int, b: int)
    requires GoodPlacement(g, t)
  {
    0 <= k < |t.order| &&
    var x := t.order[k];
    t.st[x].addr - t.st[x].padding <= b < t.st[x].End(g.lens[x])
  }

  ghost predicate Owned(g: Graph, t: Trace, b: int)
    requires GoodPlacement(g, t)
  {
    exists k :: Owns(g, t, k, b)
  }

  lemma {:induction false} OwnerOf(g: Graph, t: Trace, b: int, k: nat) returns (owner: int)
    requires GoodPlacement(g, t) && k <= |t.order| && 0 <= b < t.pos[k]
    ensures Owns(g, t, owner, b)
  {
    if b < t.pos[k - 1] {
      owner := OwnerOf(g, t, b, k - 1);
    } else {
      owner := k - 1;
      assert SlotLaid(t.st[t.order[k - 1]], g.lens[t.order[k - 1]], t.pos[k - 1], t.pos[k]);
    }
  }

  /** Padding and code of the instances cover the section exactly: every byte has one owner. */
  lemma PlacementCoversMemory(g: Graph, t: Trace)
    requires GoodPlacement(g, t)
    ensures forall b :: Owned(g, t, b) <==> 0 <= b < t.len
    ensures forall b, j, k :: Owns(g, t, j, b) && Owns(g, t, k, b) ==> j == k
    ensures t.len == SumLens(g, t.order, |t.order|) + SumPadding(t.st, t.order, |t.order|)
                     - RIP_RELATIVE_JMP_LEN * Falling(g.litc, t.order, |t.order|)
  {
    forall b {:trigger Owned(g, t, b)} | 0 <= b < t.len
      ensures Owned(g, t, b)
    {
      var k := OwnerOf(g, t, b, |t.order|);
    }
    forall b, k | Owns(g, t, k, b)
      ensures t.pos[k] <= b < t.pos[k + 1] && 0 <= b < t.len
    {
      assert SlotLaid(t.st[t.order[k]], g.lens[t.order[k]], t.pos[k], t.pos[k + 1]);
      PositionsAscend(g, t, 0, k);
      PositionsAscend(g, t, k + 1, |t.order|);
    }
    forall b, j, k | Owns(g, t, j, b) && Owns(g, t, k, b)
      ensures j == k
    {
      if j < k {
        PositionsAscend(g, t, j + 1, k);
      } else if k < j {
        PositionsAscend(g, t, k + 1, j);
      }
    }
    LengthSoFar(g, t, |t.order|);
  }

  /** A fragment whose jump was dropped runs into the padding of the instance it would have jumped to. */
  lemma FallsIntoContinuation(g: Graph, t: Trace, i: int)
    requires GoodPlacement(g, t) && 0 <= i < |t.st| && t.st[i].strip
    ensures 0 <= g.litc[i] < |t.st|
    ensures var next := t.st[g.litc[i]];
            t.st[i].End(g.lens[i]) == next.addr - next.padding
  {
    var k := PositionOf(t.order, |t.st|, i);
    assert Falls(g.litc, t.order, k);
    assert SlotLaid(t.st[t.order[k]], g.lens[t.order[k]], t.pos[k], t.pos[k + 1]);
    assert SlotLaid(t.st[t.order[k + 1]], g.lens[t.order[k + 1]], t.pos[k + 1], t.pos[k + 2]);
  }

  /**
   An instance gets the alignment requested for it exactly if 16 bytes are enough, or something jumps to it and it is
   not the least member of a cycle that nothing else jumps into.
   */
  lemma AlignmentHonoured(g: Graph, t: Trace, st0: seq<Slot>, i: nat)
    requires GoodPlacement(g, t) && AlignmentsGiven(g, t.st, st0) && i < |st0|
    ensures t.st[i].log2 >= st0[i].log2 <==> !((NoInbound(g.litc, i) || LeastOfCycle(g.litc, i)) && st0[i].log2 > 4)
    ensures t.st[i].log2 >= st0[i].log2 ==> t.st[i].addr % Pow2(st0[i].log2) == 0
  {
    var k := PositionOf(t.order, |t.st|, i);
    assert SlotLaid(t.st[t.order[k]], g.lens[t.order[k]], t.pos[k], t.pos[k + 1]);
    if t.st[i].log2 >= st0[i].log2 {
      CoarserAligned(t.st[i].addr, t.st[i].log2, st0[i].log2);
    }
  }

  lemma CoarserAligned(addr: int, log2: nat, requested: nat)
    requires requested <= log2 && Aligned(addr, log2)
    ensures addr % Pow2(requested) == 0
  {
    AlignedIsMultiple(addr, log2);
    Pow2Add(log2 - requested, requested);
    DivideDown(addr, Pow2(log2 - requested), Pow2(requested));
  }

  lemma DivideDown(addr: int, a: nat, m: nat)
    requires a >= 1 && m >= 1 && a * m >= 1 && addr % (a * m) == 0
    ensures addr % m == 0
  {
    var q := addr / (a * m);
    assert addr == q * (a * m);
    MulAssoc(q, a, m);
    MulMod(q * a, m);
  }

  /** Two instances of one byte that nothing jumps to, both requested at 64 bytes: one of them is placed at 16. */
  lemma AlignmentLost(t: Trace)
    requires var g, st0 := Graph([-1, -1], [1, 1]), [Slot(6, 0, 0, false, false), Slot(6, 0, 0, false, false)];
             GoodPlacement(g, t) && AlignmentsGiven(g, t.st, st0)
    ensures t.st[t.order[1]].addr % Pow2(6) != 0
  {
    var g := Graph([-1, -1], [1, 1]);
    assert NoInbound(g.litc, 0) && NoInbound(g.litc, 1);
    Pow2UpTo6(6);
    OnSixteen(g, t, 0);
    OnSixteen(g, t, 1);
  }

  /** An instance of those two, at 16-byte alignment and not stripped. */
  lemma OnSixteen(g: Graph, t: Trace, k: nat)
    requires g == Graph([-1, -1], [1, 1]) && GoodPlacement(g, t) && k < 2 && t.st[t.order[k]].log2 == 4
    ensures t.pos[k] == 0 ==> t.st[t.order[k]].addr == 0
    ensures t.pos[k] == 1 ==> t.st[t.order[k]].addr == 16
    ensures t.pos[k + 1] == t.st[t.order[k]].addr + 1 && t.pos[0] == 0
  {
    var x := t.order[k];
    assert !Falls(g.litc, t.order, k) && g.lens[x] == 1;
    assert SlotLaid(t.st[x], g.lens[x], t.pos[k], t.pos[k + 1]);
    Pow2UpTo6(4);
    AlignedIsMultiple(t.st[x].addr, 4);
    Multiple16(t.st[x].addr, t.pos[k], t.st[x].padding);
  }

  lemma Multiple16(addr: int, start: int, padding: nat)
    requires addr == start + padding && padding < 16 && addr % 16 == 0
    ensures (start == 0 ==> addr == 0) && (start == 1 ==> addr == 16)
  {
  }

  /** The 32-bit running length cannot overflow when code and worst-case padding together stay below 2^31. */
  lemma LengthFits(g: Graph, t: Trace, k: nat)
    requires GoodPlacement(g, t) && k <= |t.order|
    requires forall i :: 0 <= i < |t.st| ==> t.st[i].log2 <= 6
    requires SumLens(g, t.order, |t.order|) + 63 * |t.order| < 0x8000_0000
    ensures 0 <= t.pos[k] < 0x8000_0000
  {
    PositionsAscend(g, t, 0, k);
    PositionsAscend(g, t, k, |t.order|);
    LengthSoFar(g, t, |t.order|);
    PaddingBound(g, t, |t.order|);
  }

  lemma {:induction false} PaddingBound(g: Graph, t: Trace, k: nat)
    requires GoodPlacement(g, t) && k <= |t.order|
    requires forall i :: 0 <= i < |t.st| ==> t.st[i].log2 <= 6
    ensures SumPadding(t.st, t.order, k) <= 63 * k
  {
    if k > 0 {
      PaddingBound(g, t, k - 1);
      var x := t.order[k - 1];
      assert SlotLaid(t.st[x], g.lens[x], t.pos[k - 1], t.pos[k]);
      Pow2UpTo6(t.st[x].log2);
    }
  }

  lemma Pow2UpTo6(k: nat)
    requires k <= 6
    ensures Pow2(k) <= 64 && Pow2(4) == 16 && Pow2(6) == 64
  {
    assert Pow2(0) == 1 && Pow2(1) == 2 && Pow2(2) == 4 && Pow2(3) == 8;
    assert Pow2(4) == 16 && Pow2(5) == 32 && Pow2(6) == 64;
  }
}
