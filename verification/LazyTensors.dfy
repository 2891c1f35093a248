/**
 Lazy tensor evaluation (src/tensor.cpp:503-528, 665-720, 790-863; include/taco/tensor.h:915-945): an assignment only
 sets flags and registers with its operands, and values are computed when something reads them.
 Kernels are uninterpreted operators over tensor values; inserting components is an uninterpreted step on a value.
 */
module LazyTensors {
  import opened Wrappers

  type Component = (seq<int>, int)

  /** The meaning of the generated kernels and of packing one component. */
  datatype Kernels<!V> = Kernels(binary: (nat, V, V) -> V, insert: (V, Component) -> V)

  datatype Expr<V(==)> =
    | Literal(value: V)
    | Access(tensor: Tensor<V>)
    | Binary(op: nat, lhs: Expr<V>, rhs: Expr<V>)

  /** The tensors an expression reads. */
  function Operands<V(==)>(e: Expr<V>): set<Tensor<V>> {
    match e
    case Literal(_) => {}
    case Access(t) => {t}
    case Binary(_, l, r) => Operands(l) + Operands(r)
  }

  function Eval<V(==)>(k: Kernels<V>, e: Expr<V>, env: map<Tensor<V>, V>): V
    requires Operands(e) <= env.Keys
  {
    match e
    case Literal(v) => v
    case Access(t) => env[t]
    case Binary(op, l, r) => k.binary(op, Eval(k, l, env), Eval(k, r, env))
  }

  lemma {:induction false} EvalAgree<V>(k: Kernels<V>, e: Expr<V>, env: map<Tensor<V>, V>, env': map<Tensor<V>, V>)
    requires Operands(e) <= env.Keys && Operands(e) <= env'.Keys
    requires forall t :: t in Operands(e) ==> env[t] == env'[t]
    ensures Eval(k, e, env) == Eval(k, e, env')
  {
    match e
    case Literal(_) =>
    case Access(_) =>
    case Binary(_, l, r) =>
      EvalAgree(k, l, env, env');
      EvalAgree(k, r, env, env');
  }

  /** Packing folds the buffered components into one packed value. */
  function Pack<V>(k: Kernels<V>, v: V, buffer: seq<Component>): V {
    if buffer == [] then v
    else k.insert(Pack(k, v, buffer[..|buffer| - 1]), buffer[|buffer| - 1])
  }

  lemma PackSnoc<V>(k: Kernels<V>, v: V, buffer: seq<Component>, c: Component)
    ensures Pack(k, v, buffer + [c]) == k.insert(Pack(k, v, buffer), c)
  {
    assert (buffer + [c])[..|buffer|] == buffer;
  }

  /** The fields of a tensor's content. */
  datatype Rec<V(==)> = Rec(
    storage: V,
    index: Option<V>,
    buffer: seq<Component>,
    assignment: Option<Expr<V>>,
    code: Option<Expr<V>>,
    needsPack: bool,
    needsCompile: bool,
    needsAssemble: bool,
    needsCompute: bool,
    dependents: seq<Tensor<V>>)

  type State<V(==)> = map<Tensor<V>, Rec<V>>

  /** The values an eager interpreter would have, the time of each tensor's last assignment, and the time now. */
  datatype World<V(==)> = World(eager: map<Tensor<V>, V>, rank: map<Tensor<V>, nat>, clock: nat)

  /** The expression's operands are older than the tensor, and it still has the tensor's eager value. */
  ghost predicate Current<V>(k: Kernels<V>, w: World<V>, t: Tensor<V>, e: Expr<V>)
    requires t in w.eager && t in w.rank
  {
    && Older(w, t, e)
    && Eval(k, e, w.eager) == w.eager[t]
  }

  ghost predicate Older<V>(w: World<V>, t: Tensor<V>, e: Expr<V>)
    requires t in w.rank
  {
    && Operands(e) <= w.eager.Keys && Operands(e) <= w.rank.Keys
    && (forall o {:trigger o in Operands(e)} :: o in Operands(e) ==> w.rank[o] < w.rank[t])
  }

  /** A pending assignment: its expression is current, and every operand lists the tensor. */
  ghost predicate Pending<V>(k: Kernels<V>, s: State<V>, w: World<V>, t: Tensor<V>, e: Expr<V>)
    requires t in w.eager && t in w.rank
  {
    && Current(k, w, t, e)
    && forall o {:trigger o in Operands(e)} :: o in Operands(e) ==> o in s && t in s[o].dependents
  }

  ghost predicate TensorOk<V>(k: Kernels<V>, s: State<V>, w: World<V>, busy: set<Tensor<V>>, t: Tensor<V>)
    requires t in s && t in w.eager && t in w.rank
  {
    var r := s[t];
    && (forall d :: d in r.dependents ==> d in s)
    && (t !in busy && !r.needsPack && !r.needsCompute ==> r.storage == w.eager[t] && !r.needsAssemble)
    && (r.needsPack ==> !r.needsCompute && r.assignment.None? && Pack(k, r.storage, r.buffer) == w.eager[t])
    && (r.needsCompute ==> r.assignment.Some? && Pending(k, s, w, t, r.assignment.value))
    && (r.assignment.Some? && !r.needsCompile ==> r.code == r.assignment)
    && (r.assignment.None? ==> !r.needsAssemble && (!r.needsPack ==> r.buffer == []))
    && (r.needsCompute && !r.needsAssemble ==> r.index == Some(w.eager[t]))
  }

  /** The invariant of lazy evaluation; `busy` are the tensors whose computation is under way. */
  ghost predicate Inv<V>(k: Kernels<V>, s: State<V>, w: World<V>, busy: set<Tensor<V>>) {
    match w
    case World(eager, rank, clock) =>
      && s.Keys == eager.Keys == rank.Keys
      && (forall t {:trigger rank[t]} :: t in rank ==> rank[t] < clock)
      && forall t {:trigger TensorOk(k, s, w, busy, t)} :: t in s ==> TensorOk(k, s, w, busy, t)
  }

  /** What synchronising may do to the others: settle them, and drop entries from dependent lists. */
  ghost predicate Progress<V>(s: State<V>, s': State<V>) {
    && s.Keys == s'.Keys
    && forall x {:trigger Settling(s[x], s'[x])} :: x in s ==> Settling(s[x], s'[x])
  }

  ghost predicate Settling<V>(r: Rec<V>, r': Rec<V>) {
    && r'.assignment == r.assignment
    && (r'.needsCompute ==> r.needsCompute) && (r'.needsPack ==> r.needsPack)
    && forall d :: d in r'.dependents ==> d in r.dependents
  }

  /** Tensors assigned later than t are left alone. */
  ghost predicate Untouched<V>(s: State<V>, s': State<V>, w: World<V>, t: Tensor<V>)
    requires s.Keys == s'.Keys && s.Keys <= w.rank.Keys && t in w.rank
  {
    forall x {:trigger s'[x]} :: x in s && w.rank[x] > w.rank[t] ==> s'[x] == s[x]
  }

  ghost predicate Settled<V>(s: State<V>, t: Tensor<V>)
    requires t in s
  {
    !s[t].needsPack && !s[t].needsCompute
  }

  /** Changing one tensor keeps the invariant when the tensor itself is fine and no pending reader is dropped. */
  lemma Replace<V>(k: Kernels<V>, s: State<V>, w: World<V>, busy: set<Tensor<V>>, t: Tensor<V>, r: Rec<V>,
      busy': set<Tensor<V>>)
    requires Inv(k, s, w, busy) && t in s && busy - {t} <= busy'
    requires TensorOk(k, s[t := r], w, busy', t)
    requires forall x :: x in s && x != t && s[x].needsCompute && x in s[t].dependents ==> x in r.dependents
    ensures Inv(k, s[t := r], w, busy')
  {
    var s' := s[t := r];
    forall x | x in s && x != t
      ensures TensorOk(k, s', w, busy', x)
    {
      assert TensorOk(k, s, w, busy, x);
      if s[x].needsCompute {
        PendingKept(k, s, w, t, r, x, s[x].assignment.value);
      }
    }
  }

  lemma PendingKept<V>(k: Kernels<V>, s: State<V>, w: World<V>, t: Tensor<V>, r: Rec<V>, x: Tensor<V>, e: Expr<V>)
    requires x in w.eager && x in w.rank && t in s && Pending(k, s, w, x, e)
    requires x in s[t].dependents ==> x in r.dependents
    ensures Pending(k, s[t := r], w, x, e)
  {
  }

  function With<V(==)>(s: State<V>, t: Tensor<V>, r: Rec<V>): State<V> {
    s[t := r]
  }

  function Packed<V>(k: Kernels<V>, r: Rec<V>): Rec<V> {
    if r.needsPack then r.(needsPack := false, storage := Pack(k, r.storage, r.buffer), buffer := []) else r
  }

  lemma PackKeeps<V>(k: Kernels<V>, s: State<V>, w: World<V>, busy: set<Tensor<V>>, t: Tensor<V>)
    requires Inv(k, s, w, busy) && t in s
    ensures Inv(k, s[t := Packed(k, s[t])], w, busy)
  {
    assert TensorOk(k, s, w, busy, t);
    assert s[t := s[t]] == s;
    if s[t].needsPack {
      Replace(k, s, w, busy, t, Packed(k, s[t]), busy);
    }
  }

  function Compiled<V>(r: Rec<V>): Rec<V> {
    if r.needsCompile then r.(needsCompile := false, code := r.assignment) else r
  }

  lemma CompileKeeps<V>(k: Kernels<V>, s: State<V>, w: World<V>, busy: set<Tensor<V>>, t: Tensor<V>)
    requires Inv(k, s, w, busy) && t in s
    ensures Inv(k, s[t := Compiled(s[t])], w, busy)
  {
    assert TensorOk(k, s, w, busy, t);
    if s[t].needsCompute {
      PendingKept(k, s, w, t, Compiled(s[t]), t, s[t].assignment.value);
    }
    Replace(k, s, w, busy, t, Compiled(s[t]), busy);
  }

  lemma AssembleKeeps<V>(k: Kernels<V>, s: State<V>, w: World<V>, busy: set<Tensor<V>>, t: Tensor<V>, r: Rec<V>)
    requires Inv(k, s, w, busy) && t in s && s[t].needsCompute
    requires exists v, b :: r == s[t].(storage := v, index := Some(w.eager[t]), needsAssemble := b)
    ensures Inv(k, s[t := r], w, busy)
  {
    assert TensorOk(k, s, w, busy, t);
    PendingKept(k, s, w, t, r, t, s[t].assignment.value);
    Replace(k, s, w, busy, t, r, busy);
  }

  /** The layout is right; the values are not there yet. */
  ghost predicate LaidOut<V>(r: Rec<V>, r': Rec<V>, values: V) {
    r' == r.(storage := r'.storage, index := Some(values), needsAssemble := r'.needsAssemble)
  }

  /** A whole assembly as one step of its tensor. */
  lemma Assembled<V>(k: Kernels<V>, s: State<V>, s1: State<V>, r: Rec<V>, w: World<V>, busy: set<Tensor<V>>,
      t: Tensor<V>)
    requires Inv(k, s, w, busy) && Synced(k, s, s1, w, busy, t) && s1[t].needsCompute && LaidOut(s1[t], r, w.eager[t])
    ensures Synced(k, s, With(s1, t, r), w, busy, t)
  {
    AssembleKeeps(k, s1, w, busy, t, r);
    OneStep(k, s1, r, w, busy, t);
    SyncedTrans(k, s, s1, With(s1, t, r), w, busy, t);
  }

  lemma StartKeeps<V>(k: Kernels<V>, s: State<V>, w: World<V>, busy: set<Tensor<V>>, t: Tensor<V>)
    requires Inv(k, s, w, busy) && t in s && s[t].needsCompute
    ensures Inv(k, s[t := s[t].(needsCompute := false)], w, busy + {t})
  {
    assert TensorOk(k, s, w, busy, t);
    Replace(k, s, w, busy, t, s[t].(needsCompute := false), busy + {t});
  }

  /** Entries for t, and no others, have gone. */
  ghost predicate ListLeft<V>(r: Rec<V>, r': Rec<V>, t: Tensor<V>) {
    && r' == r.(dependents := r'.dependents)
    && (forall d :: d in r'.dependents ==> d in r.dependents)
    && (forall d :: d in r.dependents && d != t ==> d in r'.dependents)
  }

  /** A synchronised operand that then drops t from its list. */
  lemma Released<V>(k: Kernels<V>, s: State<V>, s1: State<V>, r: Rec<V>, w: World<V>, busy: set<Tensor<V>>,
      t: Tensor<V>, o: Tensor<V>)
    requires Synced(k, s, s1, w, busy, o) && Demanded(s, s1, o) && Settled(s1, o)
    requires t in s1 && !s1[t].needsCompute && ListLeft(s1[o], r, t)
    ensures Synced(k, s, With(s1, o, r), w, busy, o)
    ensures Demanded(s, With(s1, o, r), o) && Settled(With(s1, o, r), o)
  {
    RemoveKeeps(k, s1, w, busy, t, o, r.dependents);
    OneStep(k, s1, r, w, busy, o);
    SyncedTrans(k, s, s1, With(s1, o, r), w, busy, o);
  }

  /** A tensor that is no longer pending may leave its operands' lists. */
  lemma RemoveKeeps<V>(k: Kernels<V>, s: State<V>, w: World<V>, busy: set<Tensor<V>>, t: Tensor<V>, o: Tensor<V>,
      ds: seq<Tensor<V>>)
    requires Inv(k, s, w, busy) && o in s && t in s && !s[t].needsCompute
    requires forall d :: d in ds ==> d in s[o].dependents
    requires forall d :: d in s[o].dependents && d != t ==> d in ds
    ensures Inv(k, s[o := s[o].(dependents := ds)], w, busy)
  {
    var r := s[o].(dependents := ds);
    assert TensorOk(k, s, w, busy, o);
    if s[o].needsCompute {
      PendingKept(k, s, w, o, r, o, s[o].assignment.value);
    }
    Replace(k, s, w, busy, o, r, busy);
  }

  lemma FinishKeeps<V>(k: Kernels<V>, s: State<V>, w: World<V>, busy: set<Tensor<V>>, t: Tensor<V>)
    requires Inv(k, s, w, busy + {t}) && t in s && !s[t].needsCompute && !s[t].needsPack
    ensures Inv(k, s[t := s[t].(storage := w.eager[t], needsAssemble := false)], w, busy)
  {
    assert TensorOk(k, s, w, busy + {t}, t);
    Replace(k, s, w, busy + {t}, t, s[t].(storage := w.eager[t], needsAssemble := false), busy);
  }

  /** Everything under way was assigned after t. */
  ghost predicate Below<V>(w: World<V>, t: Tensor<V>, busy: set<Tensor<V>>)
    requires t in w.rank
  {
    forall b :: b in busy ==> b in w.rank && w.rank[t] < w.rank[b]
  }

  // ---------- what a synchronisation asks for ----------

  /** Along at most n pending assignments, t reads x. */
  ghost predicate ReachesIn<V>(s: State<V>, t: Tensor<V>, x: Tensor<V>, n: nat)
    decreases n
  {
    t == x || (n > 0 && t in s && s[t].needsCompute && s[t].assignment.Some? &&
               exists o :: o in Operands(s[t].assignment.value) && ReachesIn(s, o, x, n - 1))
  }

  /** Synchronising t asks for x. */
  ghost predicate Reaches<V>(s: State<V>, t: Tensor<V>, x: Tensor<V>) {
    exists n: nat :: ReachesIn(s, t, x, n)
  }

  /** x is t, or one of t's operands asks for it. */
  ghost predicate Needs<V>(s: State<V>, t: Tensor<V>, x: Tensor<V>) {
    t == x ||
    (t in s && s[t].assignment.Some? && exists o :: o in Operands(s[t].assignment.value) && Reaches(s, o, x))
  }

  ghost predicate OperandsSettled<V>(s: State<V>, r: Rec<V>) {
    r.assignment.Some? ==> forall o :: o in Operands(r.assignment.value) ==> o in s && Settled(s, o)
  }

  /** Only what t needs is settled, and whatever is computed has its operands settled, unless it is under way. */
  ghost predicate Asked<V>(s: State<V>, s': State<V>, t: Tensor<V>, busy: set<Tensor<V>>) {
    s.Keys == s'.Keys && forall x {:trigger AskedFor(s, s', t, busy, x)} :: x in s ==> AskedFor(s, s', t, busy, x)
  }

  ghost predicate AskedFor<V>(s: State<V>, s': State<V>, t: Tensor<V>, busy: set<Tensor<V>>, x: Tensor<V>)
    requires x in s && x in s'
  {
    && (!Settled(s, x) && Settled(s', x) ==> Needs(s, t, x))
    && (s[x].needsCompute && !s[x].needsPack && x !in busy && Settled(s', x) ==> OperandsSettled(s', s[x]))
  }

  /** Only what synchronising t asks for is settled. */
  ghost predicate Demanded<V>(s: State<V>, s': State<V>, t: Tensor<V>)
    requires s.Keys <= s'.Keys
  {
    forall x {:trigger Reaches(s, t, x)} :: x in s && !Settled(s, x) && Settled(s', x) ==> Reaches(s, t, x)
  }

  lemma {:induction false} ReachesEarlier<V>(s: State<V>, s1: State<V>, t: Tensor<V>, x: Tensor<V>, n: nat)
    requires Progress(s, s1) && ReachesIn(s1, t, x, n)
    ensures ReachesIn(s, t, x, n)
    decreases n
  {
    if t != x {
      assert Settling(s[t], s1[t]);
      var o :| o in Operands(s1[t].assignment.value) && ReachesIn(s1, o, x, n - 1);
      ReachesEarlier(s, s1, o, x, n - 1);
    }
  }

  lemma ReachedBefore<V>(s: State<V>, s1: State<V>, t: Tensor<V>, x: Tensor<V>)
    requires Progress(s, s1) && Reaches(s1, t, x)
    ensures Reaches(s, t, x)
  {
    var n: nat :| ReachesIn(s1, t, x, n);
    ReachesEarlier(s, s1, t, x, n);
  }

  lemma NeededBefore<V>(s: State<V>, s1: State<V>, t: Tensor<V>, x: Tensor<V>)
    requires Progress(s, s1) && Needs(s1, t, x)
    ensures Needs(s, t, x)
  {
    if t != x {
      assert Settling(s[t], s1[t]);
      var o :| o in Operands(s1[t].assignment.value) && Reaches(s1, o, x);
      ReachedBefore(s, s1, o, x);
    }
  }

  /** What a pending tensor needs is what synchronising it asks for. */
  lemma NeedsIsReach<V>(s: State<V>, t: Tensor<V>, x: Tensor<V>)
    requires t in s && (s[t].assignment.Some? ==> s[t].needsCompute) && Needs(s, t, x)
    ensures Reaches(s, t, x)
  {
    if t == x {
      assert ReachesIn(s, t, x, 0);
    } else {
      var o :| o in Operands(s[t].assignment.value) && Reaches(s, o, x);
      var n: nat :| ReachesIn(s, o, x, n);
      assert ReachesIn(s, t, x, n + 1);
    }
  }

  lemma AskedTrans<V>(s1: State<V>, s2: State<V>, s3: State<V>, t: Tensor<V>, busy: set<Tensor<V>>)
    requires Progress(s1, s2) && Progress(s2, s3) && Asked(s1, s2, t, busy) && Asked(s2, s3, t, busy)
    ensures Asked(s1, s3, t, busy)
  {
    forall x | x in s1
      ensures AskedFor(s1, s3, t, busy, x)
    {
      assert AskedFor(s1, s2, t, busy, x) && AskedFor(s2, s3, t, busy, x);
      assert Settling(s1[x], s2[x]) && Settling(s2[x], s3[x]);
      if !Settled(s2, x) && Settled(s3, x) {
        NeededBefore(s1, s2, t, x);
      }
      StaySettled(s2, s3, s1[x]);
    }
  }

  lemma StaySettled<V>(s: State<V>, s': State<V>, r: Rec<V>)
    requires Progress(s, s')
    ensures OperandsSettled(s, r) ==> OperandsSettled(s', r)
  {
    if OperandsSettled(s, r) && r.assignment.Some? {
      forall o | o in Operands(r.assignment.value)
        ensures o in s' && Settled(s', o)
      {
        assert Settling(s[o], s'[o]);
      }
    }
  }

  /** Synchronising an operand of t is asked for by t. */
  lemma AskedByReader<V>(s: State<V>, s1: State<V>, s2: State<V>, t: Tensor<V>, o: Tensor<V>, busy: set<Tensor<V>>)
    requires Progress(s, s1) && Progress(s1, s2) && Asked(s, s1, t, busy) && Asked(s1, s2, o, busy)
    requires Demanded(s1, s2, o) && t in s && s[t].assignment.Some? && o in Operands(s[t].assignment.value)
    ensures Asked(s, s2, t, busy)
  {
    forall x | x in s
      ensures AskedFor(s, s2, t, busy, x)
    {
      assert AskedFor(s, s1, t, busy, x) && AskedFor(s1, s2, o, busy, x);
      assert Settling(s[x], s1[x]) && Settling(s1[x], s2[x]);
      if !Settled(s1, x) && Settled(s2, x) {
        ReachedBefore(s, s1, o, x);
      }
      StaySettled(s1, s2, s[x]);
    }
  }

  /** A change of t's record alone that computes nothing. */
  lemma AskedOnce<V>(s: State<V>, t: Tensor<V>, r: Rec<V>, busy: set<Tensor<V>>)
    requires t in s && r.needsCompute == s[t].needsCompute
    ensures Asked(s, s[t := r], t, busy)
  {
  }

  /** What one synchronisation of t guarantees. */
  ghost predicate Synced<V>(k: Kernels<V>, s: State<V>, s': State<V>, w: World<V>, busy: set<Tensor<V>>, t: Tensor<V>) {
    && Inv(k, s', w, busy) && Progress(s, s') && t in s
    && Untouched(s, s', w, t) && Asked(s, s', t, busy)
  }

  lemma SyncedTrans<V>(k: Kernels<V>, s1: State<V>, s2: State<V>, s3: State<V>, w: World<V>, busy: set<Tensor<V>>,
      t: Tensor<V>)
    requires Synced(k, s1, s2, w, busy, t) && Synced(k, s2, s3, w, busy, t)
    ensures Synced(k, s1, s3, w, busy, t)
  {
    AskedTrans(s1, s2, s3, t, busy);
    forall x | x in s1
      ensures Settling(s1[x], s3[x])
    {
      assert Settling(s1[x], s2[x]) && Settling(s2[x], s3[x]);
    }
  }

  /** Where a loop over t's operands stands: those not in `todo` are settled, and t itself is as it was. */
  ghost predicate Visited<V>(k: Kernels<V>, s: State<V>, s': State<V>, w: World<V>, busy: set<Tensor<V>>, t: Tensor<V>,
      e: Expr<V>, todo: set<Tensor<V>>) {
    && t in w.rank && t in s && Older(w, t, e) && todo <= Operands(e) <= s.Keys && s[t].assignment == Some(e)
    && Synced(k, s, s', w, busy, t) && s'[t] == s[t]
    && forall o {:trigger o in Operands(e)} :: o in Operands(e) && o !in todo ==> Settled(s', o)
  }

  lemma VisitOne<V>(k: Kernels<V>, s: State<V>, s1: State<V>, s2: State<V>, w: World<V>, busy: set<Tensor<V>>,
      t: Tensor<V>, e: Expr<V>,
      todo: set<Tensor<V>>, o: Tensor<V>)
    requires Visited(k, s, s1, w, busy, t, e, todo) && o in todo
    requires Synced(k, s1, s2, w, busy, o) && Settled(s2, o) && Demanded(s1, s2, o)
    ensures Visited(k, s, s2, w, busy, t, e, todo - {o})
  {
    assert w.rank[o] < w.rank[t];
    AskedByReader(s, s1, s2, t, o, busy);
    forall x | x in s
      ensures Settling(s[x], s2[x]) && (Settled(s1, x) ==> Settled(s2, x))
    {
      assert Settling(s[x], s1[x]) && Settling(s1[x], s2[x]);
    }
  }

  /** Once its operands are settled, a pending tensor's kernel computes its eager value. */
  lemma ArgumentsAreEager<V>(k: Kernels<V>, s: State<V>, w: World<V>, busy: set<Tensor<V>>, t: Tensor<V>, e: Expr<V>,
      arguments: map<Tensor<V>, V>)
    requires Inv(k, s, w, busy) && t in s && Below(w, t, busy - {t}) && Current(k, w, t, e)
    requires forall o :: o in Operands(e) ==> Settled(s, o)
    requires arguments.Keys == Operands(e) && forall o :: o in Operands(e) ==> arguments[o] == s[o].storage
    ensures Eval(k, e, arguments) == w.eager[t]
  {
    forall o | o in Operands(e)
      ensures arguments[o] == w.eager[o]
    {
      assert TensorOk(k, s, w, busy, o);
    }
    EvalAgree(k, e, arguments, w.eager);
  }

  /** A step that changes only t, and settles it if anything. */
  lemma OneStep<V>(k: Kernels<V>, s: State<V>, r: Rec<V>, w: World<V>, busy: set<Tensor<V>>, t: Tensor<V>)
    requires t in s && Settling(s[t], r) && Inv(k, s[t := r], w, busy) && r.needsCompute == s[t].needsCompute
    ensures Synced(k, s, s[t := r], w, busy, t)
  {
    AskedOnce(s, t, r, busy);
  }

  // ---------- who lists whom ----------

  /** How often the tensor lists d among its dependents. */
  ghost function Count<V>(r: Rec<V>, d: Tensor<V>): nat {
    multiset(r.dependents)[d]
  }

  /** Tensors assigned at time `from` or later are listed as often as before, everywhere. */
  ghost predicate EntriesFrom<V>(s: State<V>, s': State<V>, w: World<V>, from: nat) {
    s.Keys == s'.Keys && forall x, d {:trigger Count(s'[x], d)} :: x in s && d in w.rank && w.rank[d] >= from ==>
      Count(s'[x], d) == Count(s[x], d)
  }

  function Less(n: nat, once: bool): nat {
    if once && n > 0 then n - 1 else n
  }

  /** Each of these operands lists t once less, if it listed t at all, and no other tensor does. */
  ghost predicate Withdrawn<V>(s: State<V>, s': State<V>, t: Tensor<V>, operands: set<Tensor<V>>) {
    s.Keys == s'.Keys && forall x {:trigger Count(s'[x], t)} :: x in s ==>
      Count(s'[x], t) == Less(Count(s[x], t), x in operands)
  }

  lemma EntriesTrans<V>(s1: State<V>, s2: State<V>, s3: State<V>, w: World<V>, from: nat, to: nat)
    requires EntriesFrom(s1, s2, w, from) && EntriesFrom(s2, s3, w, from) && from <= to
    ensures EntriesFrom(s1, s3, w, to)
  {
    forall x, d | x in s1 && d in w.rank && w.rank[d] >= to
      ensures Count(s3[x], d) == Count(s1[x], d)
    {
      assert Count(s3[x], d) == Count(s2[x], d);
    }
  }

  lemma EntriesLater<V>(s: State<V>, s': State<V>, w: World<V>, from: nat, to: nat)
    requires EntriesFrom(s, s', w, from) && from <= to
    ensures EntriesFrom(s, s', w, to)
  {
  }

  lemma EntriesOnce<V>(s: State<V>, t: Tensor<V>, r: Rec<V>, w: World<V>, from: nat)
    requires t in s && r.dependents == s[t].dependents
    ensures EntriesFrom(s, With(s, t, r), w, from)
  {
  }

  lemma EntriesThrough<V>(s: State<V>, s1: State<V>, s': State<V>, w: World<V>, t: Tensor<V>)
    requires t in w.rank && EntriesFrom(s, s1, w, w.rank[t]) && EntriesFrom(s1, s', w, w.rank[t] + 1)
    ensures EntriesFrom(s, s', w, w.rank[t] + 1)
    ensures forall ops :: Withdrawn(s1, s', t, ops) ==> Withdrawn(s, s', t, ops)
  {
    EntriesLater(s, s1, w, w.rank[t], w.rank[t] + 1);
    EntriesTrans(s, s1, s', w, w.rank[t] + 1, w.rank[t] + 1);
    forall ops | Withdrawn(s1, s', t, ops)
      ensures Withdrawn(s, s', t, ops)
    {
      forall x | x in s
        ensures Count(s'[x], t) == Less(Count(s[x], t), x in ops)
      {
        assert Count(s1[x], t) == Count(s[x], t);
      }
    }
  }

  /** The flags at the beginning and at the end of a computation concern no list. */
  lemma EntriesAround<V>(s: State<V>, s1: State<V>, s2: State<V>, s': State<V>, w: World<V>, t: Tensor<V>)
    requires t in s && t in w.rank && t in s2 && s1 == s[t := s[t].(needsCompute := false)]
    requires t in s' && s' == With(s2, t, s'[t]) && s'[t].dependents == s2[t].dependents
    requires EntriesFrom(s1, s2, w, w.rank[t] + 1) && s[t].assignment.Some?
    requires Withdrawn(s1, s2, t, Operands(s[t].assignment.value))
    ensures EntriesFrom(s, s', w, w.rank[t] + 1) && Withdrawn(s, s', t, Operands(s[t].assignment.value))
  {
    forall x, d | x in s && d in w.rank && w.rank[d] >= w.rank[t] + 1
      ensures Count(s'[x], d) == Count(s[x], d)
    {
      assert Count(s2[x], d) == Count(s1[x], d);
    }
    forall x | x in s
      ensures Count(s'[x], t) == Less(Count(s[x], t), x in Operands(s[t].assignment.value))
    {
      assert Count(s2[x], t) == Less(Count(s1[x], t), x in Operands(s[t].assignment.value));
    }
  }

  /** The lists once t has left those of some tensors and then joined those of others, one entry each. */
  ghost predicate Relisted<V>(s: State<V>, s': State<V>, t: Tensor<V>, left: set<Tensor<V>>, joined: set<Tensor<V>>) {
    s.Keys == s'.Keys && forall x {:trigger ListedAs(s, s', t, left, joined, x)} :: x in s ==>
      ListedAs(s, s', t, left, joined, x)
  }

  ghost predicate ListedAs<V>(s: State<V>, s': State<V>, t: Tensor<V>, left: set<Tensor<V>>, joined: set<Tensor<V>>,
      x: Tensor<V>)
    requires x in s && x in s'
  {
    multiset(s'[x].dependents) == Relist(multiset(s[x].dependents), t, x in left, x in joined)
  }

  ghost function Relist<V>(ds: multiset<Tensor<V>>, t: Tensor<V>, leave: bool, join: bool): multiset<Tensor<V>> {
    (if leave then ds - multiset{t} else ds) + (if join then multiset{t} else multiset{})
  }

  /** The operands whose lists a tensor leaves when it is assigned something else before it has been computed. */
  ghost function LeftBy<V>(r: Rec<V>, e: Expr<V>): set<Tensor<V>> {
    if r.needsCompute && r.assignment.Some? && r.assignment != Some(e) then Operands(r.assignment.value) else {}
  }

  /** A change of t's record that leaves its list alone. */
  lemma RelistedSame<V>(s: State<V>, s1: State<V>, s2: State<V>, t: Tensor<V>, left: set<Tensor<V>>,
      joined: set<Tensor<V>>)
    requires Relisted(s, s1, t, left, joined) && t in s1 && t in s2 && s2 == With(s1, t, s2[t])
    requires s2[t].dependents == s1[t].dependents
    ensures Relisted(s, s2, t, left, joined)
  {
    forall x | x in s
      ensures ListedAs(s, s2, t, left, joined, x)
    {
      assert ListedAs(s, s1, t, left, joined, x) && s2[x].dependents == s1[x].dependents;
    }
  }

  lemma RelistOne<V>(s: State<V>, s1: State<V>, s2: State<V>, t: Tensor<V>, left: set<Tensor<V>>,
      joined: set<Tensor<V>>, o: Tensor<V>)
    requires Relisted(s, s1, t, left, joined) && o in s1 && o in s2 && s2 == With(s1, o, s2[o])
    requires o !in left && o !in joined
    ensures multiset(s2[o].dependents) == multiset(s1[o].dependents) - multiset{t} ==>
      Relisted(s, s2, t, left + {o}, joined)
    ensures multiset(s2[o].dependents) == multiset(s1[o].dependents) + multiset{t} ==>
      Relisted(s, s2, t, left, joined + {o})
  {
    assert ListedAs(s, s1, t, left, joined, o);
    forall x | x in s && x != o
      ensures ListedAs(s, s2, t, left + {o}, joined, x) && ListedAs(s, s2, t, left, joined + {o}, x)
    {
      assert ListedAs(s, s1, t, left, joined, x);
    }
  }

  lemma RelistedThen<V>(s: State<V>, s1: State<V>, s2: State<V>, t: Tensor<V>, left: set<Tensor<V>>,
      joined: set<Tensor<V>>)
    requires Relisted(s, s1, t, left, {}) && Relisted(s1, s2, t, {}, joined)
    ensures Relisted(s, s2, t, left, joined)
  {
    forall x | x in s
      ensures ListedAs(s, s2, t, left, joined, x)
    {
      assert ListedAs(s, s1, t, left, {}, x) && ListedAs(s1, s2, t, {}, joined, x);
    }
  }

  /** One more operand has been synchronised and has dropped t from its list. */
  lemma WithdrawOne<V>(s: State<V>, s1: State<V>, s2: State<V>, s3: State<V>, w: World<V>, t: Tensor<V>,
      left: set<Tensor<V>>, o: Tensor<V>)
    requires t in w.rank && EntriesFrom(s, s1, w, w.rank[t] + 1) && Withdrawn(s, s1, t, left) && o !in left
    requires EntriesFrom(s1, s2, w, w.rank[t]) && o in s2 && o in s3
    requires Removed(s2[o].dependents, s3[o].dependents, t)
    requires s3.Keys == s2.Keys && forall x :: x in s2 && x != o ==> s3[x] == s2[x]
    ensures EntriesFrom(s, s3, w, w.rank[t] + 1) && Withdrawn(s, s3, t, left + {o})
  {
    forall x, d | x in s && d in w.rank && w.rank[d] >= w.rank[t] + 1
      ensures Count(s3[x], d) == Count(s[x], d)
    {
      assert Count(s2[x], d) == Count(s1[x], d) == Count(s[x], d);
    }
    forall x | x in s
      ensures Count(s3[x], t) == Less(Count(s[x], t), x in left + {o})
    {
      assert Count(s2[x], t) == Count(s1[x], t) == Less(Count(s[x], t), x in left);
    }
  }

  /** One turn of the loop over the operands of e: o is visited and lists t once less. */
  lemma ReleaseOne<V>(k: Kernels<V>, s: State<V>, s1: State<V>, s2: State<V>, s3: State<V>, w: World<V>,
      busy: set<Tensor<V>>, t: Tensor<V>, e: Expr<V>, todo: set<Tensor<V>>, o: Tensor<V>)
    requires Visited(k, s, s1, w, busy, t, e, todo) && o in todo
    requires t in w.rank && EntriesFrom(s, s1, w, w.rank[t] + 1) && Withdrawn(s, s1, t, Operands(e) - todo)
    requires o in w.rank && w.rank[o] < w.rank[t] && EntriesFrom(s1, s2, w, w.rank[o] + 1)
    requires o in s2 && o in s3 && s3 == With(s2, o, s3[o]) && Removed(s2[o].dependents, s3[o].dependents, t)
    requires Synced(k, s1, s3, w, busy, o) && Settled(s3, o) && Demanded(s1, s3, o)
    ensures Visited(k, s, s3, w, busy, t, e, todo - {o})
    ensures EntriesFrom(s, s3, w, w.rank[t] + 1) && Withdrawn(s, s3, t, Operands(e) - (todo - {o}))
  {
    VisitOne(k, s, s1, s3, w, busy, t, e, todo, o);
    EntriesLater(s1, s2, w, w.rank[o] + 1, w.rank[t]);
    WithdrawOne(s, s1, s2, s3, w, t, Operands(e) - todo, o);
    assert Operands(e) - (todo - {o}) == Operands(e) - todo + {o};
  }

  /** A synchronisation from an invariant state settles only what it asks for. */
  lemma SyncDemands<V>(k: Kernels<V>, s: State<V>, s': State<V>, w: World<V>, busy: set<Tensor<V>>, t: Tensor<V>)
    requires Inv(k, s, w, busy) && Synced(k, s, s', w, busy, t) && (Settled(s, t) ==> s' == s)
    ensures Demanded(s, s', t)
  {
    assert TensorOk(k, s, w, busy, t);
    AskedDemands(s, s', t, busy);
  }

  lemma AskedDemands<V>(s: State<V>, s': State<V>, t: Tensor<V>, busy: set<Tensor<V>>)
    requires t in s && Asked(s, s', t, busy) && (Settled(s, t) ==> s' == s)
    requires s[t].needsPack ==> s[t].assignment.None?
    ensures Demanded(s, s', t)
  {
    forall x | x in s && !Settled(s, x) && Settled(s', x)
      ensures Reaches(s, t, x)
    {
      assert AskedFor(s, s', t, busy, x);
      NeedsIsReach(s, t, x);
    }
  }

  /** The heap holds these records. */
  ghost predicate Matches<V>(tensors: set<Tensor<V>>, s: State<V>)
    reads tensors
  {
    s.Keys == tensors && forall t {:trigger s[t]} :: t in tensors ==> t.Fields() == s[t]
  }

  /** What the invariant says of one tensor's flags. */
  lemma FlagFacts<V>(k: Kernels<V>, s: State<V>, w: World<V>, busy: set<Tensor<V>>, t: Tensor<V>)
    requires Inv(k, s, w, busy) && t in s && t !in busy
    ensures s[t].needsAssemble ==> s[t].needsCompute
    ensures s[t].needsCompute ==>
              && !s[t].needsPack && s[t].assignment.Some? && Current(k, w, t, s[t].assignment.value)
              && (s[t].needsCompile || s[t].code == s[t].assignment)
              && (s[t].needsAssemble || s[t].index == Some(w.eager[t]))
  {
    assert TensorOk(k, s, w, busy, t);
  }

  /** No pending assignment reads t. */
  ghost predicate NoReader<V>(s: State<V>, t: Tensor<V>) {
    forall x {:trigger s[x]} :: x in s && s[x].needsCompute && s[x].assignment.Some? ==>
      t !in Operands(s[x].assignment.value)
  }

  /** Once every listed dependent is settled the list may be cleared: nothing pending reads t any more. */
  lemma ClearKeeps<V>(k: Kernels<V>, s: State<V>, w: World<V>, t: Tensor<V>)
    requires Inv(k, s, w, {}) && t in s
    requires forall d :: d in s[t].dependents ==> d in s && Settled(s, d)
    ensures Inv(k, With(s, t, s[t].(dependents := [])), w, {})
    ensures NoReader(With(s, t, s[t].(dependents := [])), t)
  {
    var r := s[t].(dependents := []);
    forall x | x in s && s[x].needsCompute
      ensures x !in s[t].dependents && s[x].assignment.Some? && t !in Operands(s[x].assignment.value)
    {
      assert TensorOk(k, s, w, {}, x);
    }
    assert TensorOk(k, s, w, {}, t);
    if s[t].needsCompute {
      PendingKept(k, s, w, t, r, t, s[t].assignment.value);
    }
    Replace(k, s, w, {}, t, r, {});
  }

  /** Only t's own entries in the dependent list may differ. */
  ghost predicate SameButEntries<V>(r: Rec<V>, r': Rec<V>, t: Tensor<V>) {
    && r' == r.(dependents := r'.dependents)
    && (forall d :: d in r'.dependents && d != t ==> d in r.dependents)
    && (forall d :: d in r.dependents && d != t ==> d in r'.dependents)
  }

  /** Of the other tensors nothing but t's entries differs. */
  ghost predicate OthersSame<V>(s: State<V>, s': State<V>, t: Tensor<V>) {
    s.Keys == s'.Keys && forall x {:trigger s'[x]} :: x in s && x != t ==> SameButEntries(s[x], s'[x], t)
  }

  /** The operands outside `todo` list t. */
  ghost predicate Joined<V>(s: State<V>, t: Tensor<V>, operands: set<Tensor<V>>, todo: set<Tensor<V>>) {
    operands <= s.Keys && forall o {:trigger o in operands} :: o in operands && o !in todo ==> t in s[o].dependents
  }

  lemma EntriesStep<V>(s: State<V>, s': State<V>, t: Tensor<V>, o: Tensor<V>, r: Rec<V>)
    requires OthersSame(s, s', t) && o in s' && o != t && SameButEntries(s'[o], r, t)
    ensures OthersSame(s, With(s', o, r), t)
  {
    assert SameButEntries(s[o], s'[o], t);
  }

  function Assigned<V>(k: Kernels<V>, w: World<V>, t: Tensor<V>, e: Expr<V>): World<V>
    requires Operands(e) <= w.eager.Keys
  {
    World(w.eager[t := Eval(k, e, w.eager)], w.rank[t := w.clock], w.clock + 1)
  }

  function AssignedRec<V(==)>(r: Rec<V>, e: Expr<V>): Rec<V> {
    r.(needsPack := false, needsCompile := r.needsCompile ||
      r.assignment != Some(e), needsAssemble := true, needsCompute := true,
       assignment := Some(e))
  }

  /** Recording an assignment keeps the invariant, with the eager value of the target updated at once. */
  lemma AssignKeeps<V>(k: Kernels<V>, s: State<V>, s': State<V>, w: World<V>, t: Tensor<V>, e: Expr<V>)
    requires Inv(k, s, w, {}) && t in s && NoReader(s, t) && Operands(e) <= s.Keys && t !in Operands(e)
    requires OthersSame(s, s', t) && Joined(s', t, Operands(e), {}) && s'[t] == AssignedRec(s[t], e)
    ensures Inv(k, s', Assigned(k, w, t, e), {})
  {
    var w' := Assigned(k, w, t, e);
    AssignedOk(k, s, s', w, t, e);
    forall x | x in s' && x != t
      ensures TensorOk(k, s', w', {}, x)
    {
      assert TensorOk(k, s, w, {}, x);
      assert SameButEntries(s[x], s'[x], t);
      if s[x].needsCompute {
        PendingElsewhere(k, s, s', w, t, e, x, s[x].assignment.value);
      }
    }
  }

  lemma AssignedOk<V>(k: Kernels<V>, s: State<V>, s': State<V>, w: World<V>, t: Tensor<V>, e: Expr<V>)
    requires Inv(k, s, w, {}) && t in s && Operands(e) <= s.Keys && t !in Operands(e)
    requires OthersSame(s, s', t) && Joined(s', t, Operands(e), {}) && s'[t] == AssignedRec(s[t], e)
    ensures TensorOk(k, s', Assigned(k, w, t, e), {}, t)
  {
    assert TensorOk(k, s, w, {}, t);
    EvalAgree(k, e, w.eager, Assigned(k, w, t, e).eager);
  }

  lemma PendingElsewhere<V>(k: Kernels<V>, s: State<V>, s': State<V>, w: World<V>, t: Tensor<V>, e: Expr<V>,
      x: Tensor<V>, f: Expr<V>)
    requires x in w.eager && x in w.rank && Pending(k, s, w, x, f) && t !in Operands(f) && x != t
    requires s.Keys == s'.Keys && Operands(e) <= w.eager.Keys
    requires forall o {:trigger s'[o]} :: o in s && o != t ==> SameButEntries(s[o], s'[o], t)
    ensures Pending(k, s', Assigned(k, w, t, e), x, f)
  {
    EvalAgree(k, f, w.eager, Assigned(k, w, t, e).eager);
    forall o | o in Operands(f)
      ensures o in s' && x in s'[o].dependents
    {
      assert SameButEntries(s[o], s'[o], t);
    }
  }

  function Inserted<V>(k: Kernels<V>, w: World<V>, t: Tensor<V>, c: Component): World<V>
    requires t in w.eager
  {
    w.(eager := w.eager[t := k.insert(w.eager[t], c)])
  }

  lemma InsertKeeps<V>(k: Kernels<V>, s: State<V>, w: World<V>, t: Tensor<V>, c: Component)
    requires Inv(k, s, w, {}) && t in s && NoReader(s, t) && s[t].assignment.None?
    ensures Inv(k, With(s, t, s[t].(buffer := s[t].buffer + [c], needsPack := true)), Inserted(k, w, t, c), {})
  {
    var s', w' := With(s, t, s[t].(buffer := s[t].buffer + [c], needsPack := true)), Inserted(k, w, t, c);
    forall x | x in s'
      ensures TensorOk(k, s', w', {}, x)
    {
      assert TensorOk(k, s, w, {}, x);
      if x == t {
        PackSnoc(k, s[t].storage, s[t].buffer, c);
      } else if s[x].needsCompute {
        EvalAgree(k, s[x].assignment.value, w.eager, w'.eager);
        PendingKept(k, s, w, t, s'[t], x, s[x].assignment.value);
      }
    }
  }

  /** One more operand's list has been left. */
  lemma LeftOne<V>(s: State<V>, s1: State<V>, s2: State<V>, t: Tensor<V>, operands: set<Tensor<V>>,
      todo: set<Tensor<V>>, o: Tensor<V>)
    requires OthersSame(s, s1, t) && Relisted(s, s1, t, operands - todo, {}) && o in todo && o in operands && o != t
    requires o in s1 && o in s2 && s2 == With(s1, o, s2[o]) && ListLeft(s1[o], s2[o], t)
    requires Removed(s1[o].dependents, s2[o].dependents, t)
    ensures OthersSame(s, s2, t) && Relisted(s, s2, t, operands - (todo - {o}), {})
  {
    EntriesStep(s, s1, t, o, s2[o]);
    DoneSets(operands, todo, o);
    RelistOne(s, s1, s2, t, operands - todo, {}, o);
  }

  lemma DoneSets<T>(all: set<T>, todo: set<T>, o: T)
    requires o in todo && o in all
    ensures all - (todo - {o}) == all - todo + {o} && o !in all - todo
  {
  }

  /** One more operand's list has been joined. */
  lemma JoinedOne<V>(s: State<V>, s0: State<V>, s1: State<V>, s2: State<V>, t: Tensor<V>, operands: set<Tensor<V>>,
      todo: set<Tensor<V>>, o: Tensor<V>)
    requires OthersSame(s, s1, t) && Joined(s1, t, operands, todo) && Relisted(s0, s1, t, {}, operands - todo)
    requires o in todo && o in operands && o != t && t in s1
    requires o in s1 && o in s2 && s2 == With(s1, o, s2[o])
    requires s2[o] == s1[o].(dependents := s1[o].dependents + [t])
    ensures OthersSame(s, s2, t) && Joined(s2, t, operands, todo - {o}) && s2[t] == s1[t]
    ensures Relisted(s0, s2, t, {}, operands - (todo - {o}))
  {
    EntriesStep(s, s1, t, o, s2[o]);
    DoneSets(operands, todo, o);
    RelistOne(s0, s1, s2, t, {}, operands - todo, o);
    assert s2[o].dependents[|s1[o].dependents|] == t;
  }

  class Tensor<V(==)> {
    const order: nat
    const assembleWhileCompute: bool
    var storage: V
    var index: Option<V>
    var coordinateBuffer: seq<Component>
    var assignment: Option<Expr<V>>
    var code: Option<Expr<V>>
    var needsPack: bool
    var needsCompile: bool
    var needsAssemble: bool
    var needsCompute: bool
    var dependentTensors: seq<Tensor<V>>

    ghost function Fields(): Rec<V>
      reads this
    {
      Rec(storage, index, coordinateBuffer, assignment, code, needsPack, needsCompile, needsAssemble, needsCompute,
        dependentTensors)
    }

    /** An empty tensor, waiting for its components. */
    constructor (order: nat, empty: V, assembleWhileCompute: bool)
      ensures this.order == order && this.assembleWhileCompute == assembleWhileCompute
      ensures Fields() == Rec(empty, None, [], None, None, true, false, false, false, [])
    {
      this.order, this.assembleWhileCompute := order, assembleWhileCompute;
      storage, index, coordinateBuffer, assignment, code, dependentTensors := empty, None, [], None, None, [];
      needsPack, needsCompile, needsAssemble, needsCompute := true, false, false, false;
    }

    /** Packs the buffered components into storage. */
    method PackComponents(k: Kernels<V>)
      modifies this
      ensures Fields() == Packed(k, old(Fields()))
    {
      if needsPack {
        needsPack := false;
        storage := Pack(k, storage, coordinateBuffer);
        coordinateBuffer := [];
      }
    }

    method Compile()
      requires assignment.Some?
      modifies this
      ensures Fields() == Compiled(old(Fields()))
    {
      if needsCompile {
        needsCompile := false;
        code := assignment;
      }
    }

    /** Removes one entry for the tensor: the last one if it is in the back, else the first, whose place the back
     * takes. */
    method RemoveDependentTensor(tensor: Tensor<V>)
      modifies this`dependentTensors
      ensures Fields() == old(Fields()).(dependents := dependentTensors)
      ensures Removed(old(dependentTensors), dependentTensors, tensor)
    {
      ghost var ds := dependentTensors;
      var size := |dependentTensors|;
      if size == 0 {
        NothingToRemove(ds, tensor);
        return;
      }
      if dependentTensors[size - 1] == tensor {
        PopBack(ds);
        dependentTensors := dependentTensors[..size - 1];
        return;
      }
      var i := 0;
      while i < size - 1
        invariant i <= size - 1 && dependentTensors == ds
        invariant tensor !in ds[..i]
      {
        if dependentTensors[i] == tensor {
          SwapRemove(ds, i);
          dependentTensors := dependentTensors[i := dependentTensors[size - 1]];
          dependentTensors := dependentTensors[..size - 1];
          return;
        }
        assert ds[..i + 1] == ds[..i] + [ds[i]];
        i := i + 1;
      }
      NothingToRemove(ds, tensor);
    }

    /** The arguments packed for a kernel: the operands' storage. */
    method PackArguments(k: Kernels<V>, ghost tensors: set<Tensor<V>>, ghost w: World<V>, ghost busy: set<Tensor<V>>,
        ghost s: State<V>)
      returns (values: V)
      requires this in tensors && Matches(tensors, s) && Inv(k, s, w, busy) && Below(w, this, busy - {this})
      requires s[this].code.Some? && Current(k, w, this, s[this].code.value)
      requires forall o :: o in Operands(s[this].code.value) ==> Settled(s, o)
      ensures values == w.eager[this]
    {
      assert s[this].code == code;
      var arguments := map o | o in Operands(code.value) :: o.storage;
      assert forall o :: o in Operands(code.value) ==> arguments[o] == s[o].storage;
      ArgumentsAreEager(k, s, w, busy, this, code.value, arguments);
      values := Eval(k, code.value, arguments);
    }

    /** The assemble kernel. */
    method CallAssemble(values: V)
      modifies this`storage, this`index, this`needsAssemble
      ensures Fields() == old(Fields()).(storage := storage, index := Some(values),
        needsAssemble := old(needsAssemble) && assembleWhileCompute)
    {
      storage := *;
      index := Some(values);
      if !assembleWhileCompute {
        needsAssemble := false;
      }
    }

    /** The compute kernel: without the right layout its result is arbitrary. */
    method CallCompute(values: V)
      modifies this`storage, this`needsAssemble
      ensures Fields() == old(Fields()).(storage := storage, needsAssemble := old(needsAssemble) &&
        !assembleWhileCompute)
      ensures assembleWhileCompute || index == Some(values) ==> storage == values
    {
      storage := *;
      if assembleWhileCompute || index == Some(values) {
        storage := values;
      }
      if assembleWhileCompute {
        needsAssemble := false;
      }
    }

    /** Runs the assemble kernel, which lays the result out and leaves its values uninitialised. */
    method Assemble(k: Kernels<V>, ghost tensors: set<Tensor<V>>, ghost w: World<V>, ghost busy: set<Tensor<V>>,
        ghost s: State<V>)
      returns (ghost s': State<V>)
      requires this in tensors && Matches(tensors, s) && Inv(k, s, w, busy) && Below(w, this, busy) &&
        !s[this].needsCompile
      modifies tensors
      ensures Matches(tensors, s') && Synced(k, s, s', w, busy, this) && EntriesFrom(s, s', w, w.rank[this])
      ensures s'[this].needsCompute == s[this].needsCompute && !s'[this].needsCompile &&
        s'[this].needsPack == s[this].needsPack
      ensures s'[this].needsAssemble ==> assembleWhileCompute
      decreases w.rank[this], 1
    {
      s' := s;
      FlagFacts(k, s, w, busy, this);
      if !needsAssemble {
        return;
      }
      ghost var s1 := SettleOperands(k, tensors, w, busy, s);
      var values := PackArguments(k, tensors, w, busy, s1);
      s' := FinishAssemble(values, tensors, s1);
      Assembled(k, s, s1, s'[this], w, busy, this);
      EntriesOnce(s1, this, s'[this], w, w.rank[this]);
      EntriesTrans(s, s1, s', w, w.rank[this], w.rank[this]);
    }

    method FinishAssemble(values: V, ghost tensors: set<Tensor<V>>, ghost s: State<V>) returns (ghost s': State<V>)
      requires this in tensors && Matches(tensors, s)
      modifies this`storage, this`index, this`needsAssemble
      ensures Matches(tensors, s') && this in s' && s' == With(s, this, s'[this]) && LaidOut(s[this], s'[this], values)
      ensures s'[this].needsAssemble ==> assembleWhileCompute
    {
      assert s[this] == Fields();
      CallAssemble(values);
      s' := With(s, this, Fields());
    }

    /** The loop of an assembly. */
    method SettleOperands(k: Kernels<V>, ghost tensors: set<Tensor<V>>, ghost w: World<V>, ghost busy: set<Tensor<V>>,
        ghost s: State<V>)
      returns (ghost s': State<V>)
      requires this in tensors && Matches(tensors, s) && Inv(k, s, w, busy) && Below(w, this, busy)
      requires s[this].assignment.Some? && Current(k, w, this, s[this].assignment.value)
      modifies tensors
      ensures Matches(tensors, s') && Synced(k, s, s', w, busy, this) && s'[this] == s[this]
      ensures EntriesFrom(s, s', w, w.rank[this])
      ensures forall o :: o in Operands(s[this].assignment.value) ==> Settled(s', o)
      decreases w.rank[this], 0
    {
      s' := s;
      assert s[this].assignment == assignment;
      var operands := Operands(assignment.value);
      var todo := operands;
      ghost var e := assignment.value;
      while todo != {}
        invariant Matches(tensors, s') && Visited(k, s, s', w, busy, this, e, todo)
        invariant EntriesFrom(s, s', w, w.rank[this])
        decreases |todo|
      {
        var operand :| operand in todo;
        ghost var s1 := s';
        s' := operand.SyncValues(k, tensors, w, busy, s');
        VisitOne(k, s, s1, s', w, busy, this, e, todo, operand);
        EntriesLater(s1, s', w, w.rank[operand] + 1, w.rank[this]);
        EntriesTrans(s, s1, s', w, w.rank[this], w.rank[this]);
        todo := todo - {operand};
      }
    }

    /** Runs the compute kernel on a result that has been laid out, and leaves the operands' lists. */
    method Compute(k: Kernels<V>, ghost tensors: set<Tensor<V>>, ghost w: World<V>, ghost busy: set<Tensor<V>>,
        ghost s: State<V>)
      returns (ghost s': State<V>)
      requires this in tensors && Matches(tensors, s) && Inv(k, s, w, busy) && Below(w, this, busy) &&
        !s[this].needsCompile
      requires s[this].needsAssemble ==> assembleWhileCompute
      modifies tensors
      ensures Matches(tensors, s') && Synced(k, s, s', w, busy, this)
      ensures !s'[this].needsCompute && s'[this].needsPack == s[this].needsPack
      ensures EntriesFrom(s, s', w, w.rank[this] + 1)
      ensures s[this].needsCompute && s[this].assignment.Some? ==>
        Withdrawn(s, s', this, Operands(s[this].assignment.value))
      decreases w.rank[this], 1
    {
      s' := s;
      FlagFacts(k, s, w, busy, this);
      if !needsCompute {
        return;
      }
      ghost var s1 := BeginCompute(k, tensors, w, busy, s);
      ghost var s2 := ReleaseOperands(k, tensors, w, busy + {this}, s1);
      var values := PackArguments(k, tensors, w, busy + {this}, s2);
      s' := FinishCompute(values, tensors, s2);
      Finished(k, s, s1, s2, w, busy, this);
      EntriesAround(s, s1, s2, s', w, this);
    }

    method FinishCompute(values: V, ghost tensors: set<Tensor<V>>, ghost s: State<V>) returns (ghost s': State<V>)
      requires this in tensors && Matches(tensors, s)
      requires if s[this].needsAssemble then assembleWhileCompute else s[this].index == Some(values)
      modifies this`storage, this`needsAssemble
      ensures Matches(tensors, s')
      ensures s' == With(s, this, s[this].(storage := values, needsAssemble := false))
    {
      assert s[this] == Fields();
      CallCompute(values);
      s' := With(s, this, Fields());
    }

    /** The flag is cleared before the operands are synchronised. */
    method BeginCompute(k: Kernels<V>, ghost tensors: set<Tensor<V>>, ghost w: World<V>, ghost busy: set<Tensor<V>>,
        ghost s: State<V>)
      returns (ghost s': State<V>)
      requires this in tensors && Matches(tensors, s) && Inv(k, s, w, busy) && needsCompute
      modifies this`needsCompute
      ensures Matches(tensors, s') && Inv(k, s', w, busy + {this}) && s' == s[this := s[this].(needsCompute := false)]
    {
      StartKeeps(k, s, w, busy, this);
      s' := MarkComputed(tensors, s);
    }

    method MarkComputed(ghost tensors: set<Tensor<V>>, ghost s: State<V>) returns (ghost s': State<V>)
      requires this in tensors && Matches(tensors, s)
      modifies this`needsCompute
      ensures Matches(tensors, s') && s' == s[this := s[this].(needsCompute := false)]
    {
      assert s[this] == Fields();
      needsCompute := false;
      s' := s[this := s[this].(needsCompute := false)];
    }

    /** The loop of a computation: each operand is synchronised and no longer lists this tensor. */
    method ReleaseOperands(k: Kernels<V>, ghost tensors: set<Tensor<V>>, ghost w: World<V>, ghost busy: set<Tensor<V>>,
        ghost s: State<V>)
      returns (ghost s': State<V>)
      requires this in tensors && Matches(tensors, s) && Inv(k, s, w, busy) && this in busy &&
        Below(w, this, busy - {this})
      requires !s[this].needsCompute && s[this].assignment.Some? && Current(k, w, this, s[this].assignment.value)
      modifies tensors
      ensures Matches(tensors, s') && Synced(k, s, s', w, busy, this) && s'[this] == s[this]
      ensures EntriesFrom(s, s', w, w.rank[this] + 1)
      ensures Withdrawn(s, s', this, Operands(s[this].assignment.value))
      ensures forall o :: o in Operands(s[this].assignment.value) ==> Settled(s', o)
      decreases w.rank[this], 0
    {
      s' := s;
      assert s[this].assignment == assignment;
      var operands := Operands(assignment.value);
      var todo := operands;
      ghost var e := assignment.value;
      while todo != {}
        invariant Matches(tensors, s') && Visited(k, s, s', w, busy, this, e, todo)
        invariant EntriesFrom(s, s', w, w.rank[this] + 1) && Withdrawn(s, s', this, operands - todo)
        decreases |todo|
      {
        var operand :| operand in todo;
        s' := ReleaseNext(k, operand, e, todo, tensors, w, busy, s, s');
        todo := todo - {operand};
      }
    }

    /** One turn of that loop. */
    method ReleaseNext(k: Kernels<V>, operand: Tensor<V>, ghost e: Expr<V>, ghost todo: set<Tensor<V>>,
        ghost tensors: set<Tensor<V>>, ghost w: World<V>, ghost busy: set<Tensor<V>>, ghost s: State<V>,
        ghost s1: State<V>)
      returns (ghost s': State<V>)
      requires this in tensors && Matches(tensors, s1) && Visited(k, s, s1, w, busy, this, e, todo) && operand in todo
      requires this in busy && Below(w, this, busy - {this}) && !s[this].needsCompute
      requires EntriesFrom(s, s1, w, w.rank[this] + 1) && Withdrawn(s, s1, this, Operands(e) - todo)
      modifies tensors
      ensures Matches(tensors, s') && Visited(k, s, s', w, busy, this, e, todo - {operand})
      ensures EntriesFrom(s, s', w, w.rank[this] + 1) && Withdrawn(s, s', this, Operands(e) - (todo - {operand}))
      decreases w.rank[this], 0, 0
    {
      ghost var s2;
      s2, s' := ReleaseOperand(k, operand, tensors, w, busy, s1);
      ReleaseOne(k, s, s1, s2, s', w, busy, this, e, todo, operand);
    }

    method ReleaseOperand(k: Kernels<V>, operand: Tensor<V>, ghost tensors: set<Tensor<V>>, ghost w: World<V>,
        ghost busy: set<Tensor<V>>, ghost s: State<V>)
      returns (ghost s1: State<V>, ghost s': State<V>)
      requires this in tensors && operand in tensors && Matches(tensors, s) && Inv(k, s, w, busy) &&
        Below(w, operand, busy)
      requires !s[this].needsCompute
      modifies tensors
      ensures Matches(tensors, s') && Synced(k, s, s', w, busy, operand) && Settled(s', operand)
      ensures Demanded(s, s', operand)
      ensures EntriesFrom(s, s1, w, w.rank[operand] + 1) && operand in s1 && s' == With(s1, operand, s'[operand])
      ensures Removed(s1[operand].dependents, s'[operand].dependents, this)
      decreases w.rank[operand], 3
    {
      s1 := operand.SyncValues(k, tensors, w, busy, s);
      assert Settling(s[this], s1[this]);
      s' := LeaveList(operand, tensors, s1);
      Released(k, s, s1, s'[operand], w, busy, this, operand);
    }

    method LeaveList(operand: Tensor<V>, ghost tensors: set<Tensor<V>>, ghost s: State<V>) returns (ghost s': State<V>)
      requires operand in tensors && Matches(tensors, s)
      modifies operand`dependentTensors
      ensures Matches(tensors, s') && operand in s' && s' == With(s, operand, s'[operand])
      ensures ListLeft(s[operand], s'[operand], this)
      ensures Removed(s[operand].dependents, s'[operand].dependents, this)
    {
      assert s[operand] == operand.Fields();
      operand.RemoveDependentTensor(this);
      s' := With(s, operand, operand.Fields());
    }

    method PackNow(k: Kernels<V>, ghost tensors: set<Tensor<V>>, ghost w: World<V>, ghost busy: set<Tensor<V>>,
        ghost s: State<V>)
      returns (ghost s': State<V>)
      requires this in tensors && Matches(tensors, s) && Inv(k, s, w, busy)
      modifies this
      ensures Matches(tensors, s') && Synced(k, s, s', w, busy, this) && s' == With(s, this, Packed(k, s[this]))
    {
      assert s[this] == Fields();
      PackKeeps(k, s, w, busy, this);
      PackComponents(k);
      OneStep(k, s, Fields(), w, busy, this);
      s' := With(s, this, Fields());
    }

    method CompileNow(k: Kernels<V>, ghost tensors: set<Tensor<V>>, ghost w: World<V>, ghost busy: set<Tensor<V>>,
        ghost s: State<V>)
      returns (ghost s': State<V>)
      requires this in tensors && Matches(tensors, s) && Inv(k, s, w, busy) && assignment.Some?
      modifies this
      ensures Matches(tensors, s') && Synced(k, s, s', w, busy, this) && s' == With(s, this, Compiled(s[this]))
    {
      assert s[this] == Fields();
      CompileKeeps(k, s, w, busy, this);
      Compile();
      OneStep(k, s, Fields(), w, busy, this);
      s' := With(s, this, Fields());
    }

    /** Brings the tensor's storage up to date. */
    method SyncValues(k: Kernels<V>, ghost tensors: set<Tensor<V>>, ghost w: World<V>, ghost busy: set<Tensor<V>>,
        ghost s: State<V>)
      returns (ghost s': State<V>)
      requires this in tensors && Matches(tensors, s) && Inv(k, s, w, busy) && Below(w, this, busy)
      modifies tensors
      ensures Matches(tensors, s') && Synced(k, s, s', w, busy, this) && Settled(s', this)
      ensures Demanded(s, s', this) && EntriesFrom(s, s', w, w.rank[this] + 1)
      ensures s[this].needsCompute && s[this].assignment.Some? ==>
        Withdrawn(s, s', this, Operands(s[this].assignment.value))
      decreases w.rank[this], 2
    {
      s' := s;
      FlagFacts(k, s, w, busy, this);
      if needsPack {
        s' := PackNow(k, tensors, w, busy, s);
        EntriesOnce(s, this, Packed(k, s[this]), w, w.rank[this] + 1);
      } else if needsCompute {
        ghost var s1 := CompileNow(k, tensors, w, busy, s);
        ghost var s2 := Assemble(k, tensors, w, busy, s1);
        s' := Compute(k, tensors, w, busy, s2);
        SyncedTrans(k, s, s1, s2, w, busy, this);
        SyncedTrans(k, s, s2, s', w, busy, this);
        assert Settling(s1[this], s2[this]);
        EntriesOnce(s, this, Compiled(s[this]), w, w.rank[this]);
        EntriesTrans(s, s1, s2, w, w.rank[this], w.rank[this]);
        EntriesThrough(s, s2, s', w, this);
      }
      SyncDemands(k, s, s', w, busy, this);
    }

    /** Computes everything that waits for this tensor, before its value changes. */
    method SyncDependentTensors(k: Kernels<V>, ghost tensors: set<Tensor<V>>, ghost w: World<V>, ghost s: State<V>)
      returns (ghost s': State<V>)
      requires this in tensors && Matches(tensors, s) && Inv(k, s, w, {})
      modifies tensors
      ensures Matches(tensors, s') && Inv(k, s', w, {}) && Progress(s, s') && NoReader(s', this)
    {
      assert TensorOk(k, s, w, {}, this);
      ghost var s1 := SyncAll(k, dependentTensors, tensors, w, s);
      Cleared(k, s, s1, w, this);
      s' := ForgetDependents(tensors, s1);
    }

    method ForgetDependents(ghost tensors: set<Tensor<V>>, ghost s: State<V>) returns (ghost s': State<V>)
      requires this in tensors && Matches(tensors, s)
      modifies this`dependentTensors
      ensures Matches(tensors, s') && s' == With(s, this, s[this].(dependents := []))
    {
      assert s[this] == Fields();
      dependentTensors := [];
      s' := With(s, this, s[this].(dependents := []));
    }

    /** One more entry in an operand's list. */
    method AddDependentTensor(tensor: Tensor<V>)
      modifies this`dependentTensors
      ensures Fields() == old(Fields()).(dependents := old(dependentTensors) + [tensor])
    {
      dependentTensors := dependentTensors + [tensor];
    }

    /** The assignment a(i, ...) = e: nothing is computed except what waits for this tensor's old value. */
    method SetAssignment(k: Kernels<V>, e: Expr<V>, ghost tensors: set<Tensor<V>>, ghost w: World<V>, ghost s: State<V>)
      returns (ghost s': State<V>)
      requires this in tensors && Matches(tensors, s) && Inv(k, s, w, {})
      requires Operands(e) <= tensors && this !in Operands(e)
      modifies tensors
      ensures Matches(tensors, s') && Inv(k, s', Assigned(k, w, this, e), {})
      ensures AssignmentsKept(s, s', this) && s'[this].assignment == Some(e)
    {
      ghost var s1 := SyncDependentTensors(k, tensors, w, s);
      OperandFacts(k, s1, w, this);
      s' := Record(e, tensors, s1);
      AssignKeeps(k, s1, s', w, this, e);
      KeptThrough(s, s1, s', this);
    }

    /** The scalar form a = e, which registers with the new operands first and never leaves the old ones. */
    method AssignScalar(k: Kernels<V>, e: Expr<V>, ghost tensors: set<Tensor<V>>, ghost w: World<V>, ghost s: State<V>)
      returns (ghost s': State<V>)
      requires this in tensors && Matches(tensors, s) && Inv(k, s, w, {}) && order == 0
      requires Operands(e) <= tensors && this !in Operands(e)
      modifies tensors
      ensures Matches(tensors, s') && Inv(k, s', Assigned(k, w, this, e), {})
      ensures AssignmentsKept(s, s', this) && s'[this].assignment == Some(e)
    {
      ghost var s1 := SyncDependentTensors(k, tensors, w, s);
      s' := RecordScalar(e, tensors, s1);
      AssignKeeps(k, s1, s', w, this, e);
      KeptThrough(s, s1, s', this);
    }

    /** Flags and lists of a new assignment. */
    method Record(e: Expr<V>, ghost tensors: set<Tensor<V>>, ghost s: State<V>) returns (ghost s': State<V>)
      requires this in tensors && Matches(tensors, s) && Operands(e) <= tensors && this !in Operands(e)
      requires LeavesOthers(s[this], this, tensors)
      modifies tensors
      ensures Matches(tensors, s') && OthersSame(s, s', this) && Joined(s', this, Operands(e), {})
      ensures s'[this] == AssignedRec(s[this], e) && Relisted(s, s', this, LeftBy(s[this], e), Operands(e))
    {
      ghost var s1 := MarkStale(e, tensors, s);
      ghost var s2 := JoinOperands(Operands(e), tensors, s, s1);
      assert s2[this] == Fields();
      s' := StoreAssignment(e, tensors, s2);
      RelistedThen(s, s1, s2, this, LeftBy(s[this], e), Operands(e));
      RelistedSame(s, s2, s', this, LeftBy(s[this], e), Operands(e));
    }

    method StoreAssignment(e: Expr<V>, ghost tensors: set<Tensor<V>>, ghost s: State<V>) returns (ghost s': State<V>)
      requires this in tensors && Matches(tensors, s)
      modifies this`assignment
      ensures Matches(tensors, s') && s' == With(s, this, s[this].(assignment := Some(e)))
    {
      assert s[this] == Fields();
      assignment := Some(e);
      s' := With(s, this, Fields());
    }

    /** The flags; a pending tensor leaves its old operands unless the assignment is the same. */
    method MarkStale(e: Expr<V>, ghost tensors: set<Tensor<V>>, ghost s: State<V>) returns (ghost s': State<V>)
      requires this in tensors && Matches(tensors, s) && LeavesOthers(s[this], this, tensors)
      modifies tensors
      ensures Matches(tensors, s') && OthersSame(s, s', this)
      ensures s'[this] == AssignedRec(s[this], e).(assignment := s[this].assignment)
      ensures Relisted(s, s', this, LeftBy(s[this], e), {})
    {
      assert s[this] == Fields();
      ghost var s1 := s;
      if assignment != Some(e) && needsCompute {
        s1 := LeaveOperands(Operands(assignment.value), tensors, s);
      }
      s' := MarkFlags(e, tensors, s1);
      RelistedSame(s, s1, s', this, LeftBy(s[this], e), {});
    }

    method MarkFlags(e: Expr<V>, ghost tensors: set<Tensor<V>>, ghost s: State<V>) returns (ghost s': State<V>)
      requires this in tensors && Matches(tensors, s)
      modifies this`needsPack, this`needsCompile, this`needsAssemble, this`needsCompute
      ensures Matches(tensors, s') && s' == With(s, this, AssignedRec(s[this], e).(assignment := s[this].assignment))
    {
      assert s[this] == Fields();
      SetFlags(e);
      s' := With(s, this, Fields());
    }

    /** The scalar form registers first. */
    method RecordScalar(e: Expr<V>, ghost tensors: set<Tensor<V>>, ghost s: State<V>) returns (ghost s': State<V>)
      requires this in tensors && Matches(tensors, s) && Operands(e) <= tensors && this !in Operands(e)
      modifies tensors
      ensures Matches(tensors, s') && OthersSame(s, s', this) && Joined(s', this, Operands(e), {})
      ensures s'[this] == AssignedRec(s[this], e) && Relisted(s, s', this, {}, Operands(e))
    {
      ghost var s1 := JoinOperands(Operands(e), tensors, s, s);
      s' := MarkAndStore(e, tensors, s1);
      RelistedSame(s, s1, s', this, {}, Operands(e));
    }

    method MarkAndStore(e: Expr<V>, ghost tensors: set<Tensor<V>>, ghost s: State<V>) returns (ghost s': State<V>)
      requires this in tensors && Matches(tensors, s)
      modifies this`needsPack, this`needsCompile, this`needsAssemble, this`needsCompute, this`assignment
      ensures Matches(tensors, s') && s' == With(s, this, AssignedRec(s[this], e))
    {
      s' := MarkFlags(e, tensors, s);
      s' := StoreAssignment(e, tensors, s');
    }

    method SetFlags(e: Expr<V>)
      modifies this`needsPack, this`needsCompile, this`needsAssemble, this`needsCompute
      ensures Fields() == AssignedRec(old(Fields()), e).(assignment := old(assignment))
    {
      needsPack := false;
      if assignment != Some(e) {
        needsCompile := true;
      }
      needsAssemble := true;
      needsCompute := true;
    }

    /** Buffers one component of an input tensor. */
    method Insert(k: Kernels<V>, c: Component, ghost tensors: set<Tensor<V>>, ghost w: World<V>, ghost s: State<V>)
      returns (ghost s': State<V>)
      requires this in tensors && Matches(tensors, s) && Inv(k, s, w, {}) && |c.0| == order && s[this].assignment.None?
      modifies tensors
      ensures Matches(tensors, s') && Inv(k, s', Inserted(k, w, this, c), {})
      ensures s'.Keys == s.Keys && forall x {:trigger s'[x]} :: x in s ==> s'[x].assignment == s[x].assignment
    {
      ghost var s1 := SyncDependentTensors(k, tensors, w, s);
      assert Settling(s[this], s1[this]);
      s' := BufferComponent(c, tensors, s1);
      InsertKeeps(k, s1, w, this, c);
      KeptByProgress(s, s1, s', this);
    }

    method BufferComponent(c: Component, ghost tensors: set<Tensor<V>>, ghost s: State<V>) returns (ghost s': State<V>)
      requires this in tensors && Matches(tensors, s)
      modifies this`coordinateBuffer, this`needsPack
      ensures Matches(tensors, s') && s' == With(s, this, s[this].(buffer := s[this].buffer + [c], needsPack := true))
    {
      assert s[this] == Fields();
      coordinateBuffer := coordinateBuffer + [c];
      needsPack := true;
      s' := With(s, this, Fields());
    }

    /** Reading a value synchronises first. */
    method Read(k: Kernels<V>, ghost tensors: set<Tensor<V>>, ghost w: World<V>, ghost s: State<V>)
      returns (value: V, ghost s': State<V>)
      requires this in tensors && Matches(tensors, s) && Inv(k, s, w, {})
      modifies tensors
      ensures Matches(tensors, s') && Inv(k, s', w, {}) && Progress(s, s')
      ensures value == w.eager[this]
    {
      s' := SyncValues(k, tensors, w, {}, s);
      assert TensorOk(k, s', w, {}, this);
      assert s'[this] == Fields();
      value := storage;
    }

    /** The explicit form of evaluation. */
    method Evaluate(k: Kernels<V>, ghost tensors: set<Tensor<V>>, ghost w: World<V>, ghost s: State<V>)
      returns (ghost s': State<V>)
      requires this in tensors && Matches(tensors, s) && Inv(k, s, w, {}) && s[this].assignment.Some?
      modifies tensors
      ensures Matches(tensors, s') && Inv(k, s', w, {}) && Progress(s, s')
      ensures !s'[this].needsCompute && s'[this].storage == w.eager[this]
    {
      assert TensorOk(k, s, w, {}, this);
      CompileKeeps(k, s, w, {}, this);
      assert s[this] == Fields();
      Compile();
      OneStep(k, s, Fields(), w, {}, this);
      ghost var s1 := With(s, this, Fields());
      ghost var s2 := Assemble(k, tensors, w, {}, s1);
      s' := Compute(k, tensors, w, {}, s2);
      SyncedTrans(k, s, s1, s2, w, {}, this);
      SyncedTrans(k, s, s2, s', w, {}, this);
      assert TensorOk(k, s', w, {}, this);
    }

    /** The loop that leaves the lists of a pending assignment's operands. */
    method LeaveOperands(operands: set<Tensor<V>>, ghost tensors: set<Tensor<V>>, ghost s: State<V>)
        returns (ghost s': State<V>)
      requires operands <= tensors && this !in operands && Matches(tensors, s)
      modifies operands
      ensures Matches(tensors, s') && OthersSame(s, s', this) && Relisted(s, s', this, operands, {})
    {
      s' := s;
      var todo := operands;
      while todo != {}
        invariant todo <= operands && Matches(tensors, s') && OthersSame(s, s', this)
        invariant Relisted(s, s', this, operands - todo, {})
        decreases |todo|
      {
        var operand :| operand in todo;
        s' := LeaveOperand(operand, operands, todo, tensors, s, s');
        todo := todo - {operand};
      }
      assert operands - todo == operands;
    }

    method LeaveOperand(operand: Tensor<V>, ghost operands: set<Tensor<V>>, ghost todo: set<Tensor<V>>,
        ghost tensors: set<Tensor<V>>, ghost s: State<V>, ghost s1: State<V>) returns (ghost s': State<V>)
      requires operand in tensors && this != operand && Matches(tensors, s1) && OthersSame(s, s1, this)
      requires operand in todo && operand in operands && Relisted(s, s1, this, operands - todo, {})
      modifies operand`dependentTensors
      ensures Matches(tensors, s') && OthersSame(s, s', this)
      ensures Relisted(s, s', this, operands - (todo - {operand}), {})
    {
      s' := LeaveList(operand, tensors, s1);
      LeftOne(s, s1, s', this, operands, todo, operand);
    }

    /** The loop that registers with the operands of a new assignment. */
    method JoinOperands(operands: set<Tensor<V>>, ghost tensors: set<Tensor<V>>, ghost s: State<V>, ghost s1: State<V>)
        returns (ghost s': State<V>)
      requires operands <= tensors && this !in operands && this in tensors && Matches(tensors, s1) &&
        OthersSame(s, s1, this)
      modifies operands
      ensures Matches(tensors, s') && OthersSame(s, s', this) && Joined(s', this, operands, {}) && s'[this] == s1[this]
      ensures Relisted(s1, s', this, {}, operands)
    {
      s' := s1;
      var todo := operands;
      while todo != {}
        invariant todo <= operands && Matches(tensors, s') && s'[this] == s1[this]
        invariant OthersSame(s, s', this) && Joined(s', this, operands, todo)
        invariant Relisted(s1, s', this, {}, operands - todo)
        decreases |todo|
      {
        var operand :| operand in todo;
        s' := JoinOperand(operand, operands, todo, tensors, s, s1, s');
        todo := todo - {operand};
      }
      assert operands - todo == operands;
    }

    method JoinOperand(operand: Tensor<V>, ghost operands: set<Tensor<V>>, ghost todo: set<Tensor<V>>,
        ghost tensors: set<Tensor<V>>, ghost s: State<V>, ghost s0: State<V>, ghost s1: State<V>)
      returns (ghost s': State<V>)
      requires operand in tensors && this != operand && this in tensors
      requires Matches(tensors, s1) && OthersSame(s, s1, this) && Joined(s1, this, operands, todo)
      requires operand in todo && operand in operands && Relisted(s0, s1, this, {}, operands - todo)
      modifies operand`dependentTensors
      ensures Matches(tensors, s') && OthersSame(s, s', this) && Joined(s', this, operands, todo - {operand})
      ensures s'[this] == s1[this] && Relisted(s0, s', this, {}, operands - (todo - {operand}))
    {
      s' := JoinList(operand, tensors, s1);
      JoinedOne(s, s0, s1, s', this, operands, todo, operand);
    }

    method JoinList(operand: Tensor<V>, ghost tensors: set<Tensor<V>>, ghost s: State<V>) returns (ghost s': State<V>)
      requires operand in tensors && Matches(tensors, s)
      modifies operand`dependentTensors
      ensures Matches(tensors, s') && operand in s' && s' == With(s, operand, s'[operand])
      ensures s'[operand] == s[operand].(dependents := s[operand].dependents + [this])
    {
      assert s[operand] == operand.Fields();
      operand.AddDependentTensor(this);
      s' := With(s, operand, operand.Fields());
    }
  }

  /** A pending tensor's operands are other tensors. */
  ghost predicate LeavesOthers<V>(r: Rec<V>, t: Tensor<V>, tensors: set<Tensor<V>>) {
    r.needsCompute ==>
      r.assignment.Some? && Operands(r.assignment.value) <= tensors && t !in Operands(r.assignment.value)
  }

  lemma OperandFacts<V>(k: Kernels<V>, s: State<V>, w: World<V>, t: Tensor<V>)
    requires Inv(k, s, w, {}) && t in s
    ensures LeavesOthers(s[t], t, s.Keys)
  {
    assert TensorOk(k, s, w, {}, t);
  }

  lemma KeptByProgress<V>(s: State<V>, s1: State<V>, s': State<V>, t: Tensor<V>)
    requires Progress(s, s1) && t in s && s'.Keys == s.Keys && s' == With(s1, t, s'[t]) &&
      s'[t].assignment == s1[t].assignment
    ensures forall x {:trigger s'[x]} :: x in s ==> s'[x].assignment == s[x].assignment
  {
    forall x | x in s
      ensures s'[x].assignment == s[x].assignment
    {
      assert Settling(s[x], s1[x]);
    }
  }

  ghost predicate AssignmentsKept<V>(s: State<V>, s': State<V>, t: Tensor<V>) {
    s.Keys == s'.Keys && t in s && forall x {:trigger s'[x]} :: x in s && x != t ==> s'[x].assignment == s[x].assignment
  }

  lemma KeptThrough<V>(s: State<V>, s1: State<V>, s': State<V>, t: Tensor<V>)
    requires Progress(s, s1) && t in s && s1.Keys == s'.Keys
    requires forall x {:trigger s'[x]} :: x in s1 && x != t ==> SameButEntries(s1[x], s'[x], t)
    ensures AssignmentsKept(s, s', t)
  {
    forall x | x in s && x != t
      ensures s'[x].assignment == s[x].assignment
    {
      assert Settling(s[x], s1[x]) && SameButEntries(s1[x], s'[x], t);
    }
  }

  /** The loop over a copy of the dependent list. */
  method SyncAll<V(==)>(k: Kernels<V>, dependents: seq<Tensor<V>>, ghost tensors: set<Tensor<V>>, ghost w: World<V>,
      ghost s: State<V>)
    returns (ghost s': State<V>)
    requires Matches(tensors, s) && Inv(k, s, w, {}) && forall d :: d in dependents ==> d in s
    modifies tensors
    ensures Matches(tensors, s') && Inv(k, s', w, {}) && Progress(s, s')
    ensures forall d :: d in dependents ==> d in s' && Settled(s', d)
  {
    s' := s;
    assert Progress(s, s');
    var i := 0;
    while i < |dependents|
      invariant i <= |dependents| && Matches(tensors, s') && Inv(k, s', w, {}) && Progress(s, s')
      invariant SettledUpTo(s', dependents, i)
    {
      assert dependents[i] in dependents;
      s' := SyncOne(k, dependents, i, tensors, w, s, s');
      i := i + 1;
    }
  }

  ghost predicate SettledUpTo<V>(s: State<V>, dependents: seq<Tensor<V>>, n: nat)
    requires n <= |dependents|
  {
    forall j {:trigger dependents[j]} :: 0 <= j < n ==> dependents[j] in s && Settled(s, dependents[j])
  }

  /** One turn of that loop: who is settled stays settled. */
  method SyncOne<V(==)>(k: Kernels<V>, dependents: seq<Tensor<V>>, i: nat, ghost tensors: set<Tensor<V>>,
      ghost w: World<V>, ghost s: State<V>, ghost s1: State<V>)
    returns (ghost s': State<V>)
    requires Matches(tensors, s1) && Inv(k, s1, w, {}) && Progress(s, s1)
    requires i < |dependents| && dependents[i] in s && SettledUpTo(s1, dependents, i)
    modifies tensors
    ensures Matches(tensors, s') && Inv(k, s', w, {}) && Progress(s, s') && SettledUpTo(s', dependents, i + 1)
  {
    s' := dependents[i].SyncValues(k, tensors, w, {}, s1);
    OneMoreSettled(s, s1, s', dependents, i);
  }

  lemma OneMoreSettled<V>(s: State<V>, s1: State<V>, s': State<V>, dependents: seq<Tensor<V>>, i: nat)
    requires Progress(s, s1) && Progress(s1, s') && i < |dependents| && SettledUpTo(s1, dependents, i)
    requires dependents[i] in s' && Settled(s', dependents[i])
    ensures Progress(s, s') && SettledUpTo(s', dependents, i + 1)
  {
    ProgressTrans(s, s1, s');
  }

  lemma Cleared<V>(k: Kernels<V>, s: State<V>, s1: State<V>, w: World<V>, t: Tensor<V>)
    requires t in s && Inv(k, s1, w, {}) && Progress(s, s1)
    requires forall d :: d in s[t].dependents ==> d in s1 && Settled(s1, d)
    ensures var s2 := With(s1, t, s1[t].(dependents := []));
            Inv(k, s2, w, {}) && Progress(s, s2) && NoReader(s2, t)
  {
    assert Settling(s[t], s1[t]);
    ClearKeeps(k, s1, w, t);
    var s2 := With(s1, t, s1[t].(dependents := []));
    forall x | x in s
      ensures Settling(s[x], s2[x])
    {
      assert Settling(s[x], s1[x]);
    }
  }

  lemma ProgressTrans<V>(s1: State<V>, s2: State<V>, s3: State<V>)
    requires Progress(s1, s2) && Progress(s2, s3)
    ensures Progress(s1, s3)
    ensures forall x :: x in s1 && Settled(s2, x) ==> Settled(s3, x)
  {
    forall x | x in s1
      ensures Settling(s1[x], s3[x]) && (Settled(s2, x) ==> Settled(s3, x))
    {
      assert Settling(s1[x], s2[x]) && Settling(s2[x], s3[x]);
    }
  }

  /** A whole computation as one step of its tensor. */
  lemma Finished<V>(k: Kernels<V>, s: State<V>, s1: State<V>, s2: State<V>, w: World<V>, busy: set<Tensor<V>>,
      t: Tensor<V>)
    requires t in s && s1 == s[t := s[t].(needsCompute := false)] && Synced(k, s1, s2, w, busy + {t}, t)
    requires s2[t] == s1[t] && t in w.eager
    requires !s2[t].needsPack && OperandsSettled(s2, s[t])
    ensures Synced(k, s, s2[t := s2[t].(storage := w.eager[t], needsAssemble := false)], w, busy, t)
  {
    FinishKeeps(k, s2, w, busy, t);
    FinishSteps(s, s1, s2, w, t, s2[t].(storage := w.eager[t], needsAssemble := false));
    FinishAsked(s, s1, s2, t, s2[t].(storage := w.eager[t], needsAssemble := false), busy);
  }

  lemma FinishAsked<V>(s: State<V>, s1: State<V>, s2: State<V>, t: Tensor<V>, r: Rec<V>, busy: set<Tensor<V>>)
    requires t in s && s1 == s[t := s[t].(needsCompute := false)] && Progress(s1, s2) && Asked(s1, s2, t, busy + {t})
    requires r.needsPack == s2[t].needsPack && r.needsCompute == s2[t].needsCompute && OperandsSettled(s2, s[t])
    ensures Asked(s, s2[t := r], t, busy)
  {
    var s3 := s2[t := r];
    assert Progress(s, s1) by {
      assert Settling(s[t], s1[t]);
    }
    assert forall x :: x in s2 ==> (Settled(s3, x) <==> Settled(s2, x));
    forall x | x in s
      ensures AskedFor(s, s3, t, busy, x)
    {
      assert AskedFor(s1, s2, t, busy + {t}, x);
      if x != t && !Settled(s1, x) && Settled(s2, x) {
        NeededBefore(s, s1, t, x);
      }
    }
  }

  lemma FinishSteps<V>(s: State<V>, s1: State<V>, s2: State<V>, w: World<V>, t: Tensor<V>, r: Rec<V>)
    requires t in s && s1 == s[t := s[t].(needsCompute := false)] && Progress(s1, s2) && s.Keys <= w.rank.Keys &&
      t in w.rank
    requires Untouched(s1, s2, w, t) && r == s1[t].(storage := r.storage, needsAssemble := r.needsAssemble)
    ensures Progress(s, s2[t := r]) && Untouched(s, s2[t := r], w, t)
  {
    var s3 := s2[t := r];
    forall x | x in s
      ensures Settling(s[x], s3[x])
    {
      assert Settling(s1[x], s2[x]);
    }
  }

  /** One entry for x, if there is one, is gone; order is not kept. */
  ghost predicate Removed<T>(ds: seq<T>, ds': seq<T>, x: T) {
    && multiset(ds') == multiset(ds) - multiset{x}
    && (forall d :: d in ds' ==> d in ds)
    && (forall d :: d in ds && d != x ==> d in ds')
  }

  lemma NothingToRemove<T>(ds: seq<T>, x: T)
    requires |ds| > 0 ==> x !in ds[..|ds| - 1] && ds[|ds| - 1] != x
    ensures Removed(ds, ds, x)
  {
    if |ds| > 0 {
      assert ds == ds[..|ds| - 1] + [ds[|ds| - 1]];
    }
    assert x !in multiset(ds);
  }

  lemma PopBack<T>(ds: seq<T>)
    requires |ds| > 0
    ensures Removed(ds, ds[..|ds| - 1], ds[|ds| - 1])
  {
    assert ds == ds[..|ds| - 1] + [ds[|ds| - 1]];
  }

  lemma SwapRemove<T>(ds: seq<T>, i: nat)
    requires i < |ds| - 1
    ensures Removed(ds, ds[i := ds[|ds| - 1]][..|ds| - 1], ds[i])
  {
    var back := ds[|ds| - 1];
    var ds' := ds[i := back][..|ds| - 1];
    assert ds == ds[..i] + [ds[i]] + ds[i + 1..|ds| - 1] + [back];
    assert ds' == ds[..i] + [back] + ds[i + 1..|ds| - 1];
    forall d | d in ds && d != ds[i]
      ensures d in ds'
    {
      assert d in ds[..i] || d in ds[i + 1..|ds| - 1] || d == back;
    }
  }
}
