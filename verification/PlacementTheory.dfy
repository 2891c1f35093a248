/**
 Orders of code fragments and the tail calls they make unnecessary
 (PochiVM/fastinterp/fastinterp_codegen_helper.hpp:54-120).
 litc[i] is the fragment that fragment i ends by jumping to, or -1.
 */
module PlacementTheory {
  import Arith

  ghost predicate IsGraph(litc: seq<int>) {
    forall i :: 0 <= i < |litc| ==> -1 <= litc[i] < |litc|
  }

  /** Every fragment exactly once. */
  ghost predicate IsOrder(order: seq<int>, n: nat) {
    && |order| == n
    && (forall i :: 0 <= i < n ==> 0 <= order[i] < n)
    && (forall i, j :: 0 <= i < j < n ==> order[i] != order[j])
  }

  /** The jump at the end of the k-th fragment goes to the fragment placed right behind it. */
  predicate Falls(litc: seq<int>, order: seq<int>, k: int)
    requires forall i :: 0 <= i < |order| ==> 0 <= order[i] < |litc|
  {
    0 <= k < |order| - 1 && litc[order[k]] == order[k + 1]
  }

  /** How many of the first k fragments of an order fall through to the next one. */
  function Falling(litc: seq<int>, order: seq<int>, k: nat): nat
    requires forall i :: 0 <= i < |order| ==> 0 <= order[i] < |litc|
  {
    if k == 0 then 0 else Falling(litc, order, k - 1) + (if Falls(litc, order, k - 1) then 1 else 0)
  }

  // ---------- what the greedy chase produces ----------

  /** The order is a sequence of chains; chain c occupies the positions from starts[c] on. */
  ghost predicate IsChain(litc: seq<int>, chain: seq<int>) {
    && chain != []
    && (forall i :: 0 <= i < |chain| ==> 0 <= chain[i] < |litc|)
    && (forall i :: 0 <= i < |chain| - 1 ==> litc[chain[i]] == chain[i + 1])
  }

  /** No fragment jumps to x. */
  ghost predicate NoInbound(litc: seq<int>, x: int) {
    forall p :: 0 <= p < |litc| ==> litc[p] != x
  }

  /** Whatever jumps into s is in s. */
  ghost predicate Closed(litc: seq<int>, s: seq<int>) {
    forall p :: 0 <= p < |litc| && litc[p] in s ==> p in s
  }

  /** A chain the greedy algorithm may start: from a fragment nothing jumps to, or all around a cycle. */
  ghost predicate Justified(litc: seq<int>, chain: seq<int>) {
    IsChain(litc, chain) && (NoInbound(litc, chain[0]) || Closed(litc, chain))
  }

  // ---------- where the chases start ----------

  /** A cycle that nothing outside jumps into, from its least fragment i on. */
  ghost predicate CycleFrom(litc: seq<int>, cycle: seq<int>, i: int) {
    && IsChain(litc, cycle) && cycle[0] == i && litc[cycle[|cycle| - 1]] == i
    && Closed(litc, cycle) && forall x :: x in cycle ==> i <= x
  }

  ghost predicate LeastOfCycle(litc: seq<int>, i: int) {
    exists cycle :: CycleFrom(litc, cycle, i)
  }

  /** Nothing jumps to i, or it is the least fragment of a cycle that nothing outside jumps into. */
  ghost predicate StartsChase(litc: seq<int>, i: int) {
    NoInbound(litc, i) || LeastOfCycle(litc, i)
  }

  /** A chain the two passes produce. */
  ghost predicate Chased(litc: seq<int>, chain: seq<int>) {
    IsChain(litc, chain) && (NoInbound(litc, chain[0]) || CycleFrom(litc, chain, chain[0]))
  }

  /** Some chase started at fragment i. */
  ghost predicate HeadOf(chains: seq<seq<int>>, i: int) {
    exists a :: HeadAt(chains, a, i)
  }

  ghost predicate HeadAt(chains: seq<seq<int>>, a: int, i: int) {
    0 <= a < |chains| && chains[a] != [] && chains[a][0] == i
  }

  ghost predicate InSome(chains: seq<seq<int>>, x: int) {
    exists a :: 0 <= a < |chains| && x in chains[a]
  }

  /** Jumps into a closed set come from the set, back to the start of the chain. */
  lemma {:induction false} WalkBack(litc: seq<int>, chain: seq<int>, s: seq<int>, k: nat)
    requires IsChain(litc, chain) && Closed(litc, s) && k < |chain| && chain[k] in s
    ensures chain[0] in s
  {
    if k > 0 {
      assert litc[chain[k - 1]] == chain[k];
      WalkBack(litc, chain, s, k - 1);
    }
  }

  lemma InsideHasInbound(litc: seq<int>, chain: seq<int>, k: nat)
    requires IsChain(litc, chain) && k < |chain|
    ensures k > 0 ==> !NoInbound(litc, chain[k])
  {
    if k > 0 {
      assert litc[chain[k - 1]] == chain[k];
    }
  }

  lemma CycleHasInbound(litc: seq<int>, cycle: seq<int>, i: int, x: int)
    requires CycleFrom(litc, cycle, i) && x in cycle
    ensures !NoInbound(litc, x)
  {
    var j :| 0 <= j < |cycle| && cycle[j] == x;
    var p := cycle[if j == 0 then |cycle| - 1 else j - 1];
    assert litc[p] == x;
  }

  /** Once every fragment is in a chain, the graph alone says where the chases have started. */
  lemma HeadsAreStarts(litc: seq<int>, chains: seq<seq<int>>, i: int)
    requires (forall a :: 0 <= a < |chains| ==> Chased(litc, chains[a])) && InSome(chains, i)
    ensures HeadOf(chains, i) <==> StartsChase(litc, i)
  {
    if HeadOf(chains, i) {
      var a :| HeadAt(chains, a, i);
      assert Chased(litc, chains[a]);
    }
    if StartsChase(litc, i) {
      var a :| 0 <= a < |chains| && i in chains[a];
      StartIsHead(litc, chains[a], i);
      assert HeadAt(chains, a, i);
    }
  }

  lemma StartIsHead(litc: seq<int>, chain: seq<int>, i: int)
    requires Chased(litc, chain) && i in chain && StartsChase(litc, i)
    ensures chain[0] == i
  {
    var k :| 0 <= k < |chain| && chain[k] == i;
    InsideHasInbound(litc, chain, k);
    if !NoInbound(litc, i) {
      var cycle :| CycleFrom(litc, cycle, i);
      WalkBack(litc, chain, cycle, k);
      CycleHasInbound(litc, cycle, i, chain[0]);
    }
  }

  ghost predicate DisjointChains(chains: seq<seq<int>>) {
    forall a, b, x :: 0 <= a < b < |chains| && x in chains[a] ==> x !in chains[b]
  }

  /** In any order some member of a closed set comes first or behind a fragment that does not jump to it. */
  lemma {:induction false} SomeHead(litc: seq<int>, order: seq<int>, s: seq<int>, k: nat) returns (h: nat)
    requires IsGraph(litc) && IsOrder(order, |litc|) && Closed(litc, s)
    requires k < |order| && order[k] in s
    ensures h < |order| && order[h] in s && IsHead(litc, order, h)
  {
    if k == 0 || !Falls(litc, order, k - 1) {
      h := k;
    } else {
      h := SomeHead(litc, order, s, k - 1);
    }
  }

  lemma PositionOf(order: seq<int>, n: nat, x: int) returns (k: nat)
    requires IsOrder(order, n) && 0 <= x < n
    ensures k < n && order[k] == x
  {
    Arith.CountInRange(order, 0, n);
    assert x in order;
    k :| 0 <= k < n && order[k] == x;
  }

  /** Position k of an order is not reached by falling through from the position in front of it. */
  predicate IsHead(litc: seq<int>, order: seq<int>, k: int)
    requires forall i :: 0 <= i < |order| ==> 0 <= order[i] < |litc|
  {
    k == 0 || !Falls(litc, order, k - 1)
  }

  ghost function Heads(litc: seq<int>, order: seq<int>, k: nat): (s: set<int>)
    requires forall i :: 0 <= i < |order| ==> 0 <= order[i] < |litc|
    requires k <= |order|
    ensures forall i :: i in s <==> 0 <= i < k && IsHead(litc, order, i)
  {
    if k == 0 then {}
    else Heads(litc, order, k - 1) + (if IsHead(litc, order, k - 1) then {k - 1} else {})
  }

  lemma {:induction false} HeadsAndFalling(litc: seq<int>, order: seq<int>, k: nat)
    requires forall i :: 0 <= i < |order| ==> 0 <= order[i] < |litc|
    requires 1 <= k <= |order|
    ensures |Heads(litc, order, k)| + Falling(litc, order, k - 1) == k
  {
    if k == 1 {
      assert Heads(litc, order, 0) == {};
    } else {
      HeadsAndFalling(litc, order, k - 1);
    }
  }

  /** Each justified chain accounts for a head of its own, whatever the order. */
  lemma {:induction false} HeadPerChain(litc: seq<int>, order: seq<int>, chains: seq<seq<int>>, c: nat)
    returns (heads: set<int>)
    requires IsGraph(litc) && IsOrder(order, |litc|) && c <= |chains|
    requires forall a :: 0 <= a < |chains| ==> Justified(litc, chains[a])
    requires DisjointChains(chains)
    ensures heads <= Heads(litc, order, |order|) && |heads| == c
    ensures forall h :: h in heads ==> 0 <= h < |order| && exists a :: 0 <= a < c && order[h] in chains[a]
  {
    if c == 0 {
      heads := {};
    } else {
      var before := HeadPerChain(litc, order, chains, c - 1);
      var h := HeadOfChain(litc, order, chains[c - 1]);
      assert h !in before;
      heads := before + {h};
    }
  }

  lemma HeadOfChain(litc: seq<int>, order: seq<int>, chain: seq<int>) returns (h: nat)
    requires IsGraph(litc) && IsOrder(order, |litc|) && Justified(litc, chain)
    ensures h < |order| && order[h] in chain && IsHead(litc, order, h)
  {
    var k := PositionOf(order, |litc|, chain[0]);
    if NoInbound(litc, chain[0]) {
      h := k;
    } else {
      h := SomeHead(litc, order, chain, k);
    }
  }

  /**
   Optimality: an order made of m justified chains leaves m heads, and no order has fewer, so no
   order turns more tail calls into fall-through than n - m.
   */
  lemma ChainsAreOptimal(litc: seq<int>, chains: seq<seq<int>>, order: seq<int>)
    requires IsGraph(litc) && IsOrder(order, |litc|)
    requires forall a :: 0 <= a < |chains| ==> Justified(litc, chains[a])
    requires DisjointChains(chains)
    ensures Falling(litc, order, |order|) <= |litc| - |chains|
  {
    var heads := HeadPerChain(litc, order, chains, |chains|);
    if order != [] {
      HeadsAndFalling(litc, order, |order|);
      Arith.CardLeq(heads, Heads(litc, order, |order|));
    } else {
      assert heads == {};
    }
  }

  // ---------- the second pass only meets cycles ----------

  /** Everything in u is jumped to from inside u. */
  ghost predicate AllInbound(litc: seq<int>, u: set<int>) {
    forall x {:trigger HasInbound(litc, u, x)} :: x in u ==> HasInbound(litc, u, x)
  }

  ghost predicate HasInbound(litc: seq<int>, u: set<int>, x: int) {
    exists p :: p in u && 0 <= p < |litc| && litc[p] == x
  }

  /** Picks one jump source in u for every member of s; the sources are as many as the members. */
  lemma {:induction false} Sources(litc: seq<int>, u: set<int>, s: set<int>) returns (src: set<int>)
    requires AllInbound(litc, u) && s <= u
    ensures src <= u && |src| == |s|
    ensures forall p :: p in src ==> 0 <= p < |litc| && litc[p] in s
    ensures forall p, q :: p in src && q in src && litc[p] == litc[q] ==> p == q
    decreases |s|
  {
    if s == {} {
      src := {};
    } else {
      var x := Arith.Pick(s);
      var rest := Sources(litc, u, s - {x});
      var p := SourceOf(litc, u, x);
      src := rest + {p};
    }
  }

  lemma SourceOf(litc: seq<int>, u: set<int>, x: int) returns (p: int)
    requires AllInbound(litc, u) && x in u
    ensures p in u && 0 <= p < |litc| && litc[p] == x
  {
    assert HasInbound(litc, u, x);
    p :| p in u && 0 <= p < |litc| && litc[p] == x;
  }

  /** When every member of a finite set is jumped to from inside the set, the jumps permute the set. */
  lemma JumpsPermute(litc: seq<int>, u: set<int>)
    requires AllInbound(litc, u)
    ensures forall p :: p in u ==> 0 <= p < |litc| && litc[p] in u
    ensures forall p, q :: p in u && q in u && litc[p] == litc[q] ==> p == q
  {
    var src := Sources(litc, u, u);
    Arith.SubsetOfSameSize(src, u);
  }

  /** Following jumps from a member until a placed fragment is met runs once around a cycle. */
  lemma ChaseIsCycle(litc: seq<int>, u: set<int>, chain: seq<int>)
    requires AllInbound(litc, u)
    requires IsChain(litc, chain) && (forall i :: 0 <= i < |chain| ==> chain[i] in u)
    requires forall i, j :: 0 <= i < j < |chain| ==> chain[i] != chain[j]
    requires litc[chain[|chain| - 1]] in chain || litc[chain[|chain| - 1]] !in u
    ensures litc[chain[|chain| - 1]] == chain[0]
  {
    JumpsPermute(litc, u);
    var n := |chain|;
    var j :| 0 <= j < n && chain[j] == litc[chain[n - 1]];
    var q := chain[if j == 0 then n - 1 else j - 1];
    assert q in u && litc[q] == litc[chain[n - 1]];
  }

  /** A chain that jumps back to its start is closed, both ways. */
  lemma CycleIsClosed(litc: seq<int>, u: set<int>, chain: seq<int>)
    requires AllInbound(litc, u)
    requires forall p :: 0 <= p < |litc| && litc[p] in u ==> p in u
    requires IsChain(litc, chain) && (forall i :: 0 <= i < |chain| ==> chain[i] in u)
    requires litc[chain[|chain| - 1]] == chain[0]
    ensures Closed(litc, chain)
    ensures forall i :: 0 <= i < |chain| ==> litc[chain[i]] in chain
  {
    JumpsPermute(litc, u);
    var n := |chain|;
    forall p | 0 <= p < |litc| && litc[p] in chain
      ensures p in chain
    {
      var i :| 0 <= i < n && chain[i] == litc[p];
      var q := if i == 0 then chain[n - 1] else chain[i - 1];
      assert litc[q] == litc[p];
      assert q in chain;
    }
    forall i | 0 <= i < n
      ensures litc[chain[i]] in chain
    {
      assert litc[chain[i]] == chain[if i == n - 1 then 0 else i + 1];
    }
  }

  /** Taking a closed cycle away leaves every remaining fragment with an inbound jump. */
  lemma CycleRemoved(litc: seq<int>, u: set<int>, chain: seq<int>, u': set<int>)
    requires AllInbound(litc, u)
    requires forall i :: 0 <= i < |chain| ==> 0 <= chain[i] < |litc| && litc[chain[i]] in chain
    requires forall x :: x in u' <==> x in u && x !in chain
    ensures AllInbound(litc, u')
  {
    forall x | x in u'
      ensures HasInbound(litc, u', x)
    {
      var p := SourceOf(litc, u, x);
      assert p in chain ==> x in chain;
      assert p in u';
    }
  }
}
