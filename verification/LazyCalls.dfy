/**
 When the mutual recursion of syncValues, assemble and compute ends (src/tensor.cpp:667-675, 790-832): the calls and the
 flags they change, with a bound on their depth. Values and dependent lists, which steer no call, are left as they are.
 */
module LazyCalls {
  import opened Wrappers
  import opened LazyTensors

  /** The operands in the order they are met. */
  function OperandList<V>(e: Expr<V>): seq<Tensor<V>> {
    match e
    case Literal(_) => []
    case Access(t) => [t]
    case Binary(_, lhs, rhs) => OperandList(lhs) + OperandList(rhs)
  }

  lemma {:induction false} OperandListed<V>(e: Expr<V>, o: Tensor<V>)
    ensures o in OperandList(e) <==> o in Operands(e)
  {
    match e
    case Literal(_) =>
    case Access(_) =>
    case Binary(_, lhs, rhs) =>
      OperandListed(lhs, o);
      OperandListed(rhs, o);
  }

  function OperandsOf<V>(r: Rec<V>): seq<Tensor<V>> {
    if r.assignment.Some? then OperandList(r.assignment.value) else []
  }

  /** The flags after synchronising t with calls nested at most `depth` deep; None if that is not enough. */
  function SyncCalls<V(==)>(s: State<V>, t: Tensor<V>, depth: nat): Option<State<V>>
    decreases depth, 0, 0
  {
    if depth == 0 then None
    else if t !in s then Some(s)
    else if s[t].needsPack then Some(s[t := s[t].(needsPack := false)])
    else if s[t].needsCompute then
      var s1 :- AssembleCalls(s[t := s[t].(needsCompile := false)], t, depth - 1);
      ComputeCalls(s1, t, depth - 1)
    else Some(s)
  }

  function AssembleCalls<V(==)>(s: State<V>, t: Tensor<V>, depth: nat): Option<State<V>>
    decreases depth, 2, 0
  {
    if t !in s || !s[t].needsAssemble then Some(s)
    else
      var s1 :- VisitCalls(s, OperandsOf(s[t]), depth);
      Some(if t in s1 && !t.assembleWhileCompute then s1[t := s1[t].(needsAssemble := false)] else s1)
  }

  function ComputeCalls<V(==)>(s: State<V>, t: Tensor<V>, depth: nat): Option<State<V>>
    decreases depth, 2, 0
  {
    if t !in s || !s[t].needsCompute then Some(s)
    else
      var s1 :- VisitCalls(s[t := s[t].(needsCompute := false)], OperandsOf(s[t]), depth);
      Some(if t in s1 && t.assembleWhileCompute then s1[t := s1[t].(needsAssemble := false)] else s1)
  }

  /** The loop over the operands. */
  function VisitCalls<V(==)>(s: State<V>, ops: seq<Tensor<V>>, depth: nat): Option<State<V>>
    decreases depth, 1, |ops|
  {
    if ops == [] then Some(s)
    else
      var s1 :- SyncCalls(s, ops[0], depth);
      VisitCalls(s1, ops[1..], depth)
  }

  // ---------- a tensor that waits for itself ----------

  ghost predicate WaitsForItself<V>(s: State<V>, t: Tensor<V>) {
    && t in s && !s[t].needsPack && s[t].needsCompute && s[t].needsAssemble
    && s[t].assignment.Some? && t in Operands(s[t].assignment.value)
  }

  /** No depth is enough for it, and no other call that returns helps it. */
  lemma {:induction false} NeverReturns<V>(s: State<V>, t: Tensor<V>, x: Tensor<V>, depth: nat)
    requires WaitsForItself(s, t)
    ensures x == t ==> SyncCalls(s, x, depth).None?
    ensures SyncCalls(s, x, depth).Some? ==> WaitsForItself(SyncCalls(s, x, depth).value, t)
    decreases depth, 0, 0
  {
    if depth > 0 && x in s && !s[x].needsPack && s[x].needsCompute {
      var s0 := s[x := s[x].(needsCompile := false)];
      assert WaitsForItself(s0, t);
      AssembleNever(s0, t, x, depth - 1);
      if AssembleCalls(s0, x, depth - 1).Some? {
        ComputeNever(AssembleCalls(s0, x, depth - 1).value, t, x, depth - 1);
      }
    }
  }

  lemma {:induction false} AssembleNever<V>(s: State<V>, t: Tensor<V>, x: Tensor<V>, depth: nat)
    requires WaitsForItself(s, t)
    ensures x == t ==> AssembleCalls(s, x, depth).None?
    ensures AssembleCalls(s, x, depth).Some? ==> WaitsForItself(AssembleCalls(s, x, depth).value, t)
    decreases depth, 2, 0
  {
    if x in s && s[x].needsAssemble {
      OperandListed(s[t].assignment.value, t);
      VisitNever(s, t, OperandsOf(s[x]), depth);
    }
  }

  lemma {:induction false} ComputeNever<V>(s: State<V>, t: Tensor<V>, x: Tensor<V>, depth: nat)
    requires WaitsForItself(s, t) && x != t
    ensures ComputeCalls(s, x, depth).Some? ==> WaitsForItself(ComputeCalls(s, x, depth).value, t)
    decreases depth, 2, 0
  {
    if x in s && s[x].needsCompute {
      VisitNever(s[x := s[x].(needsCompute := false)], t, OperandsOf(s[x]), depth);
    }
  }

  lemma {:induction false} VisitNever<V>(s: State<V>, t: Tensor<V>, ops: seq<Tensor<V>>, depth: nat)
    requires WaitsForItself(s, t)
    ensures t in ops ==> VisitCalls(s, ops, depth).None?
    ensures VisitCalls(s, ops, depth).Some? ==> WaitsForItself(VisitCalls(s, ops, depth).value, t)
    decreases depth, 1, |ops|
  {
    if ops != [] {
      NeverReturns(s, t, ops[0], depth);
      if SyncCalls(s, ops[0], depth).Some? {
        VisitNever(SyncCalls(s, ops[0], depth).value, t, ops[1..], depth);
      }
    }
  }

  // ---------- ranks bound the depth ----------

  /** Pending tensors read tensors of lower rank, and a tensor with components to pack has no assignment. */
  ghost predicate Ranked<V>(s: State<V>, rank: map<Tensor<V>, nat>) {
    && s.Keys <= rank.Keys
    && forall t {:trigger FlagsRanked(s, rank, t)} :: t in s ==> FlagsRanked(s, rank, t)
  }

  ghost predicate FlagsRanked<V>(s: State<V>, rank: map<Tensor<V>, nat>, t: Tensor<V>)
    requires t in s && t in rank
  {
    && (s[t].needsPack ==> !s[t].needsCompute && s[t].assignment.None?)
    && (s[t].needsCompute ==> OperandsRanked(s, rank, t))
  }

  ghost predicate OperandsRanked<V>(s: State<V>, rank: map<Tensor<V>, nat>, t: Tensor<V>)
    requires t in s && t in rank
  {
    s[t].assignment.Some? && forall o :: o in Operands(s[t].assignment.value) ==>
      o in s && o in rank && rank[o] < rank[t]
  }

  lemma StaysRanked<V>(s: State<V>, s': State<V>, rank: map<Tensor<V>, nat>)
    requires Ranked(s, rank) && Progress(s, s')
    ensures Ranked(s', rank)
  {
    forall t | t in s'
      ensures FlagsRanked(s', rank, t)
    {
      assert Settling(s[t], s'[t]);
      assert FlagsRanked(s, rank, t);
    }
  }

  lemma ProgressOnce<V>(s: State<V>, t: Tensor<V>, r: Rec<V>)
    requires t in s && Settling(s[t], r)
    ensures Progress(s, s[t := r])
  {
  }

  lemma RankedShallow<V>(s: State<V>, rank: map<Tensor<V>, nat>, t: Tensor<V>, depth: nat)
    requires t in s && t in rank && OperandsRanked(s, rank, t) && s.Keys <= rank.Keys && rank[t] <= depth
    ensures Shallow(s, rank, t, OperandsOf(s[t]), depth)
  {
    forall o | o in OperandsOf(s[t])
      ensures o in s && rank[o] < depth && o in Operands(s[t].assignment.value)
    {
      OperandListed(s[t].assignment.value, o);
    }
  }

  /** All of these operands of t have a rank below the depth. */
  ghost predicate Shallow<V>(s: State<V>, rank: map<Tensor<V>, nat>, t: Tensor<V>, ops: seq<Tensor<V>>, depth: nat) {
    && t in s && s[t].assignment.Some?
    && forall o :: o in ops ==> o in s && o in rank && rank[o] < depth && o in Operands(s[t].assignment.value)
  }

  /** Flags are only cleared, and only where t asks for it. */
  ghost predicate Called<V>(s: State<V>, s': State<V>, t: Tensor<V>) {
    Progress(s, s') && Asked(s, s', t, {})
  }

  lemma CalledTrans<V>(s1: State<V>, s2: State<V>, s3: State<V>, t: Tensor<V>)
    requires Called(s1, s2, t) && Called(s2, s3, t)
    ensures Called(s1, s3, t)
  {
    ProgressTrans(s1, s2, s3);
    AskedTrans(s1, s2, s3, t, {});
  }

  lemma CalledOnce<V>(s: State<V>, t: Tensor<V>, r: Rec<V>)
    requires t in s && Settling(s[t], r) && r.needsCompute == s[t].needsCompute
    ensures Called(s, s[t := r], t)
  {
    ProgressOnce(s, t, r);
    AskedOnce(s, t, r, {});
  }

  /** What both forms of a synchronisation of t promise of the flags. */
  ghost predicate Synchronised<V>(s: State<V>, s': State<V>, t: Tensor<V>) {
    Called(s, s', t) && Demanded(s, s', t) && t in s' && Settled(s', t)
  }

  lemma {:induction false} SyncReturns<V>(s: State<V>, rank: map<Tensor<V>, nat>, t: Tensor<V>, depth: nat)
    requires Ranked(s, rank) && t in s && rank[t] < depth
    ensures SyncCalls(s, t, depth).Some? && Synchronised(s, SyncCalls(s, t, depth).value, t)
    decreases depth, 0, 0
  {
    assert FlagsRanked(s, rank, t);
    if s[t].needsPack {
      CalledOnce(s, t, s[t].(needsPack := false));
    } else if s[t].needsCompute {
      var s0 := s[t := s[t].(needsCompile := false)];
      CalledOnce(s, t, s0[t]);
      StaysRanked(s, s0, rank);
      RankedShallow(s0, rank, t, depth - 1);
      AssembleReturns(s0, rank, t, depth - 1);
      var s1 := AssembleCalls(s0, t, depth - 1).value;
      CalledTrans(s, s0, s1, t);
      StaysRanked(s0, s1, rank);
      assert Settling(s[t], s1[t]);
      ComputeReturns(s1, rank, t, depth - 1);
      CalledTrans(s, s1, ComputeCalls(s1, t, depth - 1).value, t);
    }
    AskedDemands(s, SyncCalls(s, t, depth).value, t, {});
  }

  lemma {:induction false} AssembleReturns<V>(s: State<V>, rank: map<Tensor<V>, nat>, t: Tensor<V>, depth: nat)
    requires Ranked(s, rank) && t in s && Shallow(s, rank, t, OperandsOf(s[t]), depth)
    ensures AssembleCalls(s, t, depth).Some? && Called(s, AssembleCalls(s, t, depth).value, t)
    decreases depth, 2, 0
  {
    if s[t].needsAssemble {
      VisitReturns(s, rank, t, OperandsOf(s[t]), depth);
      var s1 := VisitCalls(s, OperandsOf(s[t]), depth).value;
      CalledOnce(s1, t, s1[t].(needsAssemble := false));
      CalledTrans(s, s1, s1[t := s1[t].(needsAssemble := false)], t);
    }
  }

  lemma {:induction false} ComputeReturns<V>(s: State<V>, rank: map<Tensor<V>, nat>, t: Tensor<V>, depth: nat)
    requires Ranked(s, rank) && t in s && !s[t].needsPack && Shallow(s, rank, t, OperandsOf(s[t]), depth)
    ensures ComputeCalls(s, t, depth).Some? && Called(s, ComputeCalls(s, t, depth).value, t)
    ensures Settled(ComputeCalls(s, t, depth).value, t)
    decreases depth, 2, 0
  {
    if s[t].needsCompute {
      var s0 := s[t := s[t].(needsCompute := false)];
      ProgressOnce(s, t, s0[t]);
      StaysRanked(s, s0, rank);
      VisitReturns(s0, rank, t, OperandsOf(s[t]), depth);
      var s1 := VisitCalls(s0, OperandsOf(s[t]), depth).value;
      var r := if t.assembleWhileCompute then s1[t].(needsAssemble := false) else s1[t];
      ComputeCalled(s, s0, s1, t, r);
      assert s1[t := s1[t]] == s1;
    }
  }

  lemma ComputeCalled<V>(s: State<V>, s0: State<V>, s1: State<V>, t: Tensor<V>, r: Rec<V>)
    requires t in s && s0 == s[t := s[t].(needsCompute := false)] && Called(s0, s1, t) && !s[t].needsPack
    requires r == s1[t].(needsAssemble := r.needsAssemble) && s[t].assignment.Some?
    requires forall o :: o in OperandsOf(s[t]) ==> o in s1 && Settled(s1, o)
    ensures Called(s, s1[t := r], t) && Settled(s1[t := r], t)
  {
    forall o | o in Operands(s[t].assignment.value)
      ensures o in s1 && Settled(s1, o)
    {
      OperandListed(s[t].assignment.value, o);
    }
    assert Settling(s0[t], s1[t]);
    ProgressOnce(s, t, s0[t]);
    ProgressOnce(s1, t, r);
    ProgressTrans(s, s0, s1);
    ProgressTrans(s, s1, s1[t := r]);
    AskedLess(s0, s1, t, {}, {} + {t});
    FinishAsked(s, s0, s1, t, r, {});
  }

  lemma AskedLess<V>(s: State<V>, s': State<V>, t: Tensor<V>, busy: set<Tensor<V>>, busy': set<Tensor<V>>)
    requires Asked(s, s', t, busy) && busy <= busy'
    ensures Asked(s, s', t, busy')
  {
    forall x | x in s
      ensures AskedFor(s, s', t, busy', x)
    {
      assert AskedFor(s, s', t, busy, x);
    }
  }

  lemma {:induction false} VisitReturns<V>(s: State<V>, rank: map<Tensor<V>, nat>, t: Tensor<V>, ops: seq<Tensor<V>>,
      depth: nat)
    requires Ranked(s, rank) && Shallow(s, rank, t, ops, depth)
    ensures VisitCalls(s, ops, depth).Some? && Called(s, VisitCalls(s, ops, depth).value, t)
    ensures forall o :: o in ops ==> o in VisitCalls(s, ops, depth).value && Settled(VisitCalls(s, ops, depth).value, o)
    decreases depth, 1, |ops|
  {
    if ops != [] {
      SyncReturns(s, rank, ops[0], depth);
      var s1 := SyncCalls(s, ops[0], depth).value;
      CalledByReader(s, s1, t, ops[0]);
      StaysRanked(s, s1, rank);
      assert Settling(s[t], s1[t]);
      VisitReturns(s1, rank, t, ops[1..], depth);
      var s' := VisitCalls(s, ops, depth).value;
      CalledTrans(s, s1, s', t);
      assert Settling(s1[ops[0]], s'[ops[0]]);
    }
  }

  lemma CalledByReader<V>(s: State<V>, s1: State<V>, t: Tensor<V>, o: Tensor<V>)
    requires Synchronised(s, s1, o) && t in s && s[t].assignment.Some? && o in Operands(s[t].assignment.value)
    ensures Called(s, s1, t)
  {
    assert s[t := s[t]] == s;
    CalledOnce(s, t, s[t]);
    AskedByReader(s, s, s1, t, o, {});
  }

  /** The invariant's ranks bound the depth of every synchronisation. */
  lemma InvariantReturns<V>(k: Kernels<V>, s: State<V>, w: World<V>, t: Tensor<V>)
    requires Inv(k, s, w, {}) && t in s
    ensures SyncCalls(s, t, w.rank[t] + 1).Some?
  {
    InvariantRanked(k, s, w);
    SyncReturns(s, w.rank, t, w.rank[t] + 1);
  }

  lemma InvariantRanked<V>(k: Kernels<V>, s: State<V>, w: World<V>)
    requires Inv(k, s, w, {})
    ensures Ranked(s, w.rank)
  {
    forall x | x in s
      ensures FlagsRanked(s, w.rank, x)
    {
      assert TensorOk(k, s, w, {}, x);
    }
  }

  // ---------- the calls and the methods settle the same tensors ----------

  lemma {:induction false} SettledAlong<V>(s: State<V>, s': State<V>, rank: map<Tensor<V>, nat>, t0: Tensor<V>,
      t: Tensor<V>, x: Tensor<V>, n: nat)
    requires Ranked(s, rank) && Called(s, s', t0) && t in s' && Settled(s', t) && ReachesIn(s, t, x, n)
    ensures x in s' && Settled(s', x)
    decreases n
  {
    if t != x {
      assert FlagsRanked(s, rank, t) && AskedFor(s, s', t0, {}, t);
      var o :| o in Operands(s[t].assignment.value) && ReachesIn(s, o, x, n - 1);
      SettledAlong(s, s', rank, t0, o, x, n - 1);
    }
  }

  /** A synchronisation settles exactly what it asks for, and leaves the flags of the others as they were. */
  lemma SettlesExactly<V>(s: State<V>, s': State<V>, rank: map<Tensor<V>, nat>, t: Tensor<V>, x: Tensor<V>)
    requires Ranked(s, rank) && Synchronised(s, s', t) && x in s
    ensures Settled(s', x) <==> Settled(s, x) || Reaches(s, t, x)
    ensures !Settled(s', x) ==> s'[x].needsPack == s[x].needsPack && s'[x].needsCompute == s[x].needsCompute
  {
    assert Settling(s[x], s'[x]) && FlagsRanked(s, rank, x);
    if Reaches(s, t, x) {
      var n: nat :| ReachesIn(s, t, x, n);
      SettledAlong(s, s', rank, t, t, x, n);
    }
  }

  /** What syncValues leaves to be packed and computed is what the calls leave, whatever the order of the operands. */
  lemma SyncValuesAsCalled<V>(k: Kernels<V>, s: State<V>, s': State<V>, w: World<V>, t: Tensor<V>)
    requires Inv(k, s, w, {}) && Synced(k, s, s', w, {}, t) && Settled(s', t) && Demanded(s, s', t)
    ensures SyncCalls(s, t, w.rank[t] + 1).Some?
    ensures var calls := SyncCalls(s, t, w.rank[t] + 1).value;
            s.Keys == s'.Keys == calls.Keys && forall x :: x in s ==> SameNeeds(s'[x], calls[x])
  {
    InvariantRanked(k, s, w);
    SyncReturns(s, w.rank, t, w.rank[t] + 1);
    SettleAlike(s, s', SyncCalls(s, t, w.rank[t] + 1).value, w.rank, t);
  }

  /** The same is left to do. */
  ghost predicate SameNeeds<V>(r: Rec<V>, r': Rec<V>) {
    r.needsPack == r'.needsPack && r.needsCompute == r'.needsCompute
  }

  lemma SettleAlike<V>(s: State<V>, s1: State<V>, s2: State<V>, rank: map<Tensor<V>, nat>, t: Tensor<V>)
    requires Ranked(s, rank) && Synchronised(s, s1, t) && Synchronised(s, s2, t)
    ensures s.Keys == s1.Keys == s2.Keys && forall x :: x in s ==> SameNeeds(s1[x], s2[x])
  {
    forall x | x in s
      ensures SameNeeds(s1[x], s2[x])
    {
      SettlesExactly(s, s1, rank, t, x);
      SettlesExactly(s, s2, rank, t, x);
    }
  }

  /** Some depth is enough. */
  ghost predicate Returns<V>(s: State<V>, t: Tensor<V>) {
    exists depth :: SyncCalls(s, t, depth).Some?
  }

  /**
   After an assignment is recorded, synchronising its target returns exactly when the target is not among its own
   operands; otherwise the recursion has no end.
   */
  lemma AssignedReturns<V>(k: Kernels<V>, s: State<V>, s': State<V>, w: World<V>, t: Tensor<V>, e: Expr<V>)
    requires Inv(k, s, w, {}) && t in s && NoReader(s, t) && Operands(e) <= s.Keys
    requires OthersSame(s, s', t) && Joined(s', t, Operands(e), {})
    requires s'[t] == AssignedRec(s[t], e).(dependents := s'[t].dependents) &&
      (t !in Operands(e) ==> s'[t].dependents == s[t].dependents)
    ensures Returns(s', t) <==> t !in Operands(e)
  {
    if t in Operands(e) {
      forall depth
        ensures SyncCalls(s', t, depth).None?
      {
        NeverReturns(s', t, t, depth);
      }
    } else {
      AssignKeeps(k, s, s', w, t, e);
      InvariantReturns(k, s', Assigned(k, w, t, e), t);
    }
  }
}
