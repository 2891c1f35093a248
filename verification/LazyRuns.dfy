/**
 Whole runs over lazy tensors, and the eager interpreter they agree with.
 */
module LazyRuns {
  import opened LazyTensors
  import opened Wrappers

  datatype Command<V(==)> =
    | Insert(target: Tensor<V>, component: Component)
    | Assign(target: Tensor<V>, rhs: Expr<V>)
    | AssignScalar(target: Tensor<V>, rhs: Expr<V>)
    | Evaluate(target: Tensor<V>)
    | Read(target: Tensor<V>)

  /** What a program may do next: `defined` are the tensors that have had an assignment. */
  predicate Legal<V(==)>(tensors: set<Tensor<V>>, defined: set<Tensor<V>>, c: Command<V>) {
    && c.target in tensors
    && match c
       case Insert(t, component) => |component.0| == t.order && t !in defined
       case Assign(t, e) => Operands(e) <= tensors && t !in Operands(e)
       case AssignScalar(t, e) => t.order == 0 && Operands(e) <= tensors && t !in Operands(e)
       case Evaluate(t) => t in defined
       case Read(_) => true
  }

  function NowAssigned<V(==)>(defined: set<Tensor<V>>, c: Command<V>): set<Tensor<V>> {
    if c.Assign? || c.AssignScalar? then defined + {c.target} else defined
  }

  predicate LegalRun<V(==)>(tensors: set<Tensor<V>>, defined: set<Tensor<V>>, run: seq<Command<V>>)
    decreases |run|
  {
    run == [] || (Legal(tensors, defined, run[0]) && LegalRun(tensors, NowAssigned(defined, run[0]), run[1..]))
  }

  /** What the eager interpreter makes of an expression: operands from the store, then the operator on both values. */
  function EagerValue<V(==)>(k: Kernels<V>, store: map<Tensor<V>, V>, e: Expr<V>): V
    requires Operands(e) <= store.Keys
  {
    if e.Literal? then e.value
    else if e.Access? then store[e.tensor]
    else k.binary(e.op, EagerValue(k, store, e.lhs), EagerValue(k, store, e.rhs))
  }

  /** The kernels compute what the eager interpreter computes. */
  lemma {:induction false} KernelsAreEager<V>(k: Kernels<V>, store: map<Tensor<V>, V>, e: Expr<V>)
    requires Operands(e) <= store.Keys
    ensures Eval(k, e, store) == EagerValue(k, store, e)
  {
    match e
    case Literal(_) =>
    case Access(_) =>
    case Binary(_, lhs, rhs) =>
      KernelsAreEager(k, store, lhs);
      KernelsAreEager(k, store, rhs);
  }

  /** The eager interpreter: every insertion and every assignment takes effect at once. */
  function EagerStep<V(==)>(k: Kernels<V>, store: map<Tensor<V>, V>, c: Command<V>): map<Tensor<V>, V>
    requires c.target in store && ((c.Assign? || c.AssignScalar?) ==> Operands(c.rhs) <= store.Keys)
  {
    match c
    case Insert(t, component) => store[t := k.insert(store[t], component)]
    case Assign(t, e) => store[t := EagerValue(k, store, e)]
    case AssignScalar(t, e) => store[t := EagerValue(k, store, e)]
    case Evaluate(_) => store
    case Read(_) => store
  }

  /** The values an eager run reads. */
  function EagerRun<V(==)>(k: Kernels<V>, store: map<Tensor<V>, V>, defined: set<Tensor<V>>,
      run: seq<Command<V>>): seq<V>
    requires LegalRun(store.Keys, defined, run)
    decreases |run|
  {
    if run == [] then []
    else
      var store' := EagerStep(k, store, run[0]);
      assert store'.Keys == store.Keys;
      (if run[0].Read? then [store[run[0].target]] else []) +
        EagerRun(k, store', NowAssigned(defined, run[0]), run[1..])
  }

  // ---------- what runs return ----------

  lemma OneMore<V>(k: Kernels<V>, store: map<Tensor<V>, V>, defined: set<Tensor<V>>, c: Command<V>,
      rest: seq<Command<V>>)
    requires LegalRun(store.Keys, defined, [c] + rest)
    ensures Legal(store.Keys, defined, c) && LegalRun(store.Keys, NowAssigned(defined, c), rest)
    ensures EagerStep(k, store, c).Keys == store.Keys
    ensures EagerRun(k, store, defined, [c] + rest)
         == (if c.Read? then [store[c.target]] else []) +
            EagerRun(k, EagerStep(k, store, c), NowAssigned(defined, c), rest)
  {
    assert ([c] + rest)[1..] == rest;
  }

  /** Reading two tensors, assigning their combination to a third and reading that gives the operator on both values,
   * in this order. */
  lemma CombinationReads<V>(k: Kernels<V>, store: map<Tensor<V>, V>, defined: set<Tensor<V>>, a: Tensor<V>,
      b: Tensor<V>, t: Tensor<V>, op: nat)
    requires {a, b, t} <= store.Keys && t != a && t != b
    ensures var run := [Read(a), Read(b), Assign(t, Binary(op, Access(a), Access(b))), Read(t)];
            && LegalRun(store.Keys, defined, run)
            && EagerRun(k, store, defined, run) == [store[a], store[b], k.binary(op, store[a], store[b])]
  {
    var c := Assign(t, Binary(op, Access(a), Access(b)));
    var run := [Read(a), Read(b), c, Read(t)];
    var after := [c] + ([Read(t)] + []);
    var store' := EagerStep(k, store, c);
    LegalFour(store.Keys, defined, Read(a), Read(b), c, Read(t));
    assert run == [Read(a)] + ([Read(b)] + after);
    OneMore(k, store, defined, Read(a), [Read(b)] + after);
    OneMore(k, store, defined, Read(b), after);
    OneMore(k, store, defined, c, [Read(t)] + []);
    OneMore(k, store', NowAssigned(defined, c), Read(t), []);
    assert EagerValue(k, store, Access(a)) == store[a] && EagerValue(k, store, Access(b)) == store[b];
    assert store'[t] == k.binary(op, store[a], store[b]);
    var x, y, z := store[a], store[b], store'[t];
    assert [x] + ([y] + ([] + ([z] + []))) == [x, y, z];
  }

  lemma LegalFour<V>(tensors: set<Tensor<V>>, defined: set<Tensor<V>>, c0: Command<V>, c1: Command<V>, c2: Command<V>,
      c3: Command<V>)
    requires Legal(tensors, defined, c0) && Legal(tensors, NowAssigned(defined, c0), c1)
    requires Legal(tensors, NowAssigned(NowAssigned(defined, c0), c1), c2)
    requires Legal(tensors, NowAssigned(NowAssigned(NowAssigned(defined, c0), c1), c2), c3)
    ensures LegalRun(tensors, defined, [c0, c1, c2, c3])
  {
    var run := [c0, c1, c2, c3];
    assert run[1..] == [c1, c2, c3] && run[1..][1..] == [c2, c3] && run[1..][1..][1..] == [c3];
    assert run[1..][1..][1..][1..] == [];
    var defined3 := NowAssigned(NowAssigned(NowAssigned(defined, c0), c1), c2);
    assert LegalRun(tensors, defined3, [c3]) by {
      assert LegalRun(tensors, NowAssigned(defined3, c3), []);
    }
    assert LegalRun(tensors, NowAssigned(NowAssigned(defined, c0), c1), [c2, c3]);
    assert LegalRun(tensors, NowAssigned(defined, c0), [c1, c2, c3]);
  }

  /** Assigning a literal, or another tensor, reads as that; a tensor that is not the target reads as before. */
  lemma PlainAssignmentReads<V>(k: Kernels<V>, store: map<Tensor<V>, V>, defined: set<Tensor<V>>, t: Tensor<V>,
      u: Tensor<V>, v: V)
    requires {t, u} <= store.Keys && t != u
    ensures var run := [Read(t), Assign(t, Literal(v)), Read(t), Read(u)];
            LegalRun(store.Keys, defined, run) && EagerRun(k, store, defined, run) == [store[t], v, store[u]]
    ensures var run := [Read(u), Assign(t, Access(u)), Read(t), Read(u)];
            LegalRun(store.Keys, defined, run) && EagerRun(k, store, defined, run) == [store[u], store[u], store[u]]
  {
    FourReads(k, store, defined, Read(t), Assign(t, Literal(v)), t, u);
    FourReads(k, store, defined, Read(u), Assign(t, Access(u)), t, u);
  }

  lemma FourReads<V>(k: Kernels<V>, store: map<Tensor<V>, V>, defined: set<Tensor<V>>, r: Command<V>, c: Command<V>,
      t: Tensor<V>, u: Tensor<V>)
    requires {t, u} <= store.Keys && r.Read? && !c.Read?
    requires Legal(store.Keys, defined, r) && Legal(store.Keys, defined, c)
    ensures LegalRun(store.Keys, defined, [r, c, Read(t), Read(u)])
    ensures var store' := EagerStep(k, store, c);
            t in store' && u in store'
            && EagerRun(k, store, defined, [r, c, Read(t), Read(u)]) == [store[r.target], store'[t], store'[u]]
  {
    var after := [Read(t)] + ([Read(u)] + []);
    LegalFour(store.Keys, defined, r, c, Read(t), Read(u));
    assert [r, c, Read(t), Read(u)] == [r] + ([c] + after);
    OneMore(k, store, defined, r, [c] + after);
    OneMore(k, store, defined, c, after);
    OneMore(k, EagerStep(k, store, c), NowAssigned(defined, c), Read(t), [Read(u)] + []);
    OneMore(k, EagerStep(k, store, c), NowAssigned(defined, c), Read(u), []);
  }

  /** An inserted component is added to what the tensor held; the scalar form of an assignment reads like the other. */
  lemma InsertionReads<V>(k: Kernels<V>, store: map<Tensor<V>, V>, defined: set<Tensor<V>>, t: Tensor<V>,
      c: Component)
    requires t in store && t !in defined && |c.0| == t.order
    ensures var run := [Read(t), Insert(t, c), Read(t), Read(t)];
            && LegalRun(store.Keys, defined, run)
            && EagerRun(k, store, defined, run) == [store[t], k.insert(store[t], c), k.insert(store[t], c)]
  {
    FourReads(k, store, defined, Read(t), Insert(t, c), t, t);
  }

  /** An expression may be taken apart: its operands assigned to two tensors it does not read, and those combined. */
  lemma NestedByTemporaries<V>(k: Kernels<V>, store: map<Tensor<V>, V>, defined: set<Tensor<V>>, op: nat, l: Expr<V>,
      r: Expr<V>, t: Tensor<V>, u: Tensor<V>, v: Tensor<V>)
    requires {t, u, v} + Operands(l) + Operands(r) <= store.Keys && t != u && t != v && u != v
    requires {t, u, v} !! Operands(l) + Operands(r)
    ensures var direct := [Assign(t, Binary(op, l, r)), Read(t)];
            var apart := [Assign(u, l), Assign(v, r), Assign(t, Binary(op, Access(u), Access(v))), Read(t)];
            && LegalRun(store.Keys, defined, direct) && LegalRun(store.Keys, defined, apart)
            && EagerRun(k, store, defined, direct) == EagerRun(k, store, defined, apart)
  {
    var whole, c := Assign(t, Binary(op, l, r)), Assign(t, Binary(op, Access(u), Access(v)));
    var defined1 := NowAssigned(defined, Assign(u, l));
    var defined2 := NowAssigned(defined1, Assign(v, r));
    var store1 := EagerStep(k, store, Assign(u, l));
    var store2 := EagerStep(k, store1, Assign(v, r));
    EagerValueAgrees(k, store, store1, r);
    LegalFour(store.Keys, defined, Assign(u, l), Assign(v, r), c, Read(t));
    assert [whole, Read(t)] == [whole] + ([Read(t)] + []) && [Read(t)][1..] == [] && [whole, Read(t)][1..] == [Read(t)];
    OneMore(k, store, defined, whole, [Read(t)] + []);
    OneMore(k, EagerStep(k, store, whole), NowAssigned(defined, whole), Read(t), []);
    var after := [c] + ([Read(t)] + []);
    assert [Assign(u, l), Assign(v, r), c, Read(t)] == [Assign(u, l)] + ([Assign(v, r)] + after);
    OneMore(k, store, defined, Assign(u, l), [Assign(v, r)] + after);
    OneMore(k, store1, defined1, Assign(v, r), after);
    OneMore(k, store2, defined2, c, [Read(t)] + []);
    OneMore(k, EagerStep(k, store2, c), NowAssigned(defined2, c), Read(t), []);
    assert EagerValue(k, store2, Access(u)) == store2[u] && EagerValue(k, store2, Access(v)) == store2[v];
    assert EagerStep(k, store2, c)[t] == EagerStep(k, store, whole)[t];
    var z := EagerStep(k, store, whole)[t];
    assert [] + ([] + ([] + ([z] + []))) == [z] && [] + ([z] + []) == [z];
  }

  lemma {:induction false} EagerValueAgrees<V>(k: Kernels<V>, store: map<Tensor<V>, V>, store': map<Tensor<V>, V>,
      e: Expr<V>)
    requires Operands(e) <= store.Keys && Operands(e) <= store'.Keys
    requires forall o :: o in Operands(e) ==> store[o] == store'[o]
    ensures EagerValue(k, store, e) == EagerValue(k, store', e)
  {
    if e.Binary? {
      EagerValueAgrees(k, store, store', e.lhs);
      EagerValueAgrees(k, store, store', e.rhs);
    }
  }

  /** The tensors with a recorded assignment. */
  ghost predicate Records<V>(s: State<V>, defined: set<Tensor<V>>) {
    forall x {:trigger s[x]} :: x in s ==> (s[x].assignment.Some? <==> x in defined)
  }

  /** One command, lazily. */
  method LazyStep<V(==)>(k: Kernels<V>, c: Command<V>, ghost tensors: set<Tensor<V>>, ghost defined: set<Tensor<V>>,
      ghost w: World<V>, ghost s: State<V>)
    returns (out: seq<V>, ghost w': World<V>, ghost s': State<V>)
    requires Matches(tensors, s) && Inv(k, s, w, {}) && Records(s, defined) && Legal(tensors, defined, c)
    modifies tensors
    ensures Matches(tensors, s') && Inv(k, s', w', {}) && Records(s', NowAssigned(defined, c))
    ensures w'.eager == EagerStep(k, w.eager, c)
    ensures out == if c.Read? then [w.eager[c.target]] else []
  {
    out, w' := [], w;
    if c.Insert? {
      s' := c.target.Insert(k, c.component, tensors, w, s);
      w' := Inserted(k, w, c.target, c.component);
    } else if c.Assign? || c.AssignScalar? {
      w', s' := LazyAssign(k, c, tensors, defined, w, s);
    } else if c.Evaluate? {
      s' := c.target.Evaluate(k, tensors, w, s);
      RecordsKept(s, s', defined);
    } else {
      var value;
      value, s' := c.target.Read(k, tensors, w, s);
      RecordsKept(s, s', defined);
      out := [value];
    }
  }

  method LazyAssign<V(==)>(k: Kernels<V>, c: Command<V>, ghost tensors: set<Tensor<V>>, ghost defined: set<Tensor<V>>,
      ghost w: World<V>, ghost s: State<V>)
    returns (ghost w': World<V>, ghost s': State<V>)
    requires Matches(tensors, s) && Inv(k, s, w, {}) && Records(s, defined) && Legal(tensors, defined, c)
    requires c.Assign? || c.AssignScalar?
    modifies tensors
    ensures Matches(tensors, s') && Inv(k, s', w', {}) && Records(s', defined + {c.target})
    ensures w'.eager == w.eager[c.target := EagerValue(k, w.eager, c.rhs)]
  {
    KernelsAreEager(k, w.eager, c.rhs);
    w' := Assigned(k, w, c.target, c.rhs);
    if c.Assign? {
      s' := c.target.SetAssignment(k, c.rhs, tensors, w, s);
    } else {
      s' := c.target.AssignScalar(k, c.rhs, tensors, w, s);
    }
    RecordsGrown(s, s', c.target, defined);
  }

  lemma RecordsGrown<V>(s: State<V>, s': State<V>, t: Tensor<V>, defined: set<Tensor<V>>)
    requires Records(s, defined) && AssignmentsKept(s, s', t) && s'[t].assignment.Some?
    ensures Records(s', defined + {t})
  {
  }

  lemma RecordsKept<V>(s: State<V>, s': State<V>, defined: set<Tensor<V>>)
    requires Progress(s, s') && Records(s, defined)
    ensures Records(s', defined)
  {
    forall x | x in s'
      ensures s'[x].assignment.Some? <==> x in defined
    {
      assert Settling(s[x], s'[x]);
    }
  }

  /** Lazy evaluation refines eager evaluation: every read of every legal run returns the eager value. */
  method LazyRun<V(==)>(k: Kernels<V>, run: seq<Command<V>>, ghost tensors: set<Tensor<V>>,
      ghost defined: set<Tensor<V>>, ghost w: World<V>, ghost s: State<V>)
    returns (out: seq<V>)
    requires Matches(tensors, s) && Inv(k, s, w, {}) && Records(s, defined) && LegalRun(tensors, defined, run)
    modifies tensors
    ensures out == EagerRun(k, w.eager, defined, run)
    decreases |run|
  {
    if run == [] {
      return [];
    }
    ghost var w', s';
    out, w', s' := LazyStep(k, run[0], tensors, defined, w, s);
    var rest := LazyRun(k, run[1..], tensors, NowAssigned(defined, run[0]), w', s');
    out := out + rest;
  }

  /** New tensors satisfy the invariant: each holds its empty value. */
  lemma NewTensorsOk<V>(k: Kernels<V>, s: State<V>, empty: map<Tensor<V>, V>)
    requires s.Keys == empty.Keys
    requires forall t :: t in s ==> s[t] == Rec(empty[t], None, [], None, None, true, false, false, false, [])
    ensures Inv(k, s, World(empty, map t | t in s :: 0, 1), {}) && Records(s, {})
  {
    var w := World(empty, map t | t in s :: 0, 1);
    forall t | t in s
      ensures TensorOk(k, s, w, {}, t)
    {
    }
  }

  /** A chain of pending tensors, each reading the next. */
  ghost predicate PendingChain<V>(s: State<V>, path: seq<Tensor<V>>) {
    forall i {:trigger path[i]} :: 0 <= i < |path| - 1 ==> PendingEdge(s, path[i], path[i + 1])
  }

  ghost predicate PendingEdge<V>(s: State<V>, t: Tensor<V>, o: Tensor<V>) {
    t in s && s[t].needsCompute && s[t].assignment.Some? && o in Operands(s[t].assignment.value)
  }

  /** Pending dependencies are acyclic, and every pending tensor is listed by each of its operands. */
  lemma {:induction false} PendingIsAcyclic<V>(k: Kernels<V>, s: State<V>, w: World<V>, busy: set<Tensor<V>>,
      path: seq<Tensor<V>>)
    requires Inv(k, s, w, busy) && |path| >= 2 && PendingChain(s, path)
    ensures forall i {:trigger path[i]} :: 0 <= i < |path| ==> path[i] in s
    ensures w.rank[path[|path| - 1]] < w.rank[path[0]]
    ensures path[0] != path[|path| - 1]
    ensures path[0] in s[path[1]].dependents
  {
    assert PendingEdge(s, path[0], path[1]);
    assert TensorOk(k, s, w, busy, path[0]);
    if |path| > 2 {
      var rest := path[1..];
      assert forall i {:trigger rest[i]} :: 0 <= i < |rest| ==> rest[i] == path[i + 1];
      forall i {:trigger rest[i]} | 0 <= i < |rest| - 1
        ensures PendingEdge(s, rest[i], rest[i + 1])
      {
        assert PendingEdge(s, path[i + 1], path[i + 2]);
      }
      PendingIsAcyclic(k, s, w, busy, rest);
      forall i {:trigger path[i]} | 0 <= i < |path|
        ensures path[i] in s
      {
        assert i > 0 ==> path[i] == rest[i - 1];
      }
    }
  }

  /** An assignment may be recorded exactly when its target is not among its own operands: otherwise no ranks exist. */
  lemma SelfAssignmentHasNoRank<V>(k: Kernels<V>, s: State<V>, s': State<V>, w: World<V>, t: Tensor<V>, e: Expr<V>)
    requires Inv(k, s, w, {}) && t in s && NoReader(s, t) && Operands(e) <= s.Keys
    requires OthersSame(s, s', t) && Joined(s', t, Operands(e), {})
    requires s'[t] == AssignedRec(s[t], e).(dependents := s'[t].dependents) &&
      (t !in Operands(e) ==> s'[t].dependents == s[t].dependents)
    ensures (exists w' :: Inv(k, s', w', {})) <==> t !in Operands(e)
  {
    if t in Operands(e) {
      forall w'
        ensures !Inv(k, s', w', {})
      {
        OwnOperandRefuted(k, s', w', t, e);
      }
    } else {
      AssignKeeps(k, s, s', w, t, e);
    }
  }

  lemma OwnOperandRefuted<V>(k: Kernels<V>, s: State<V>, w: World<V>, t: Tensor<V>, e: Expr<V>)
    requires t in s && s[t].needsCompute && s[t].assignment == Some(e) && t in Operands(e)
    ensures !Inv(k, s, w, {})
  {
    assert Inv(k, s, w, {}) ==> t in w.eager && t in w.rank && TensorOk(k, s, w, {}, t);
  }
}
