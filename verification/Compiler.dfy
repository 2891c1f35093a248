/**
 The two-pass expression compiler (PochiVM/pochivm/arith_expr_fastinterp.cpp), the boilerplates it
 selects (PochiVM/fastinterp/fastinterp_tpl_*_expr.cpp) and the meaning it must preserve
 (PochiVM/pochivm/arith_expr.h).
 */
module Compiler {
  import opened Wrappers
  import opened StackFrame

  // ---------- source language ----------

  datatype TypeId = TBool | TInt(kind: nat) | TFloat(kind: nat)

  function ClsOf(ty: TypeId): Cls {
    if ty.TFloat? then FltCls else IntCls
  }

  datatype ArithOp = ADD | SUB | MUL | DIV | MOD
  datatype CmpOp = EQUAL | NOT_EQUAL | LESS_THAN | LESS_EQUAL | GREATER_THAN | GREATER_EQUAL
  datatype Op = Arith(arith: ArithOp) | Cmp(cmp: CmpOp)

  /** What the two operand-shape matchers make of a node that is neither arithmetic nor a comparison. */
  datatype LeafShape = Variable | LiteralNonzero | Zero | Indexed | Unmatched

  datatype Expr = Leaf(ty: TypeId, shape: LeafShape, id: nat) | Node(op: Op, lhs: Expr, rhs: Expr)

  function TypeOf(e: Expr): TypeId {
    match e
    case Leaf(ty, _, _) => ty
    case Node(op, l, _) => if op.Arith? then TypeOf(l) else TBool
  }

  /** What the constructors of the two node classes assert. */
  predicate OpTyped(op: Op, ty: TypeId) {
    op.Arith? ==> !ty.TBool? && (ty.TFloat? ==> !op.arith.MOD?)
  }

  predicate WellTyped(e: Expr) {
    match e
    case Leaf(_, _, _) => true
    case Node(op, l, r) => WellTyped(l) && WellTyped(r) && TypeOf(l) == TypeOf(r) && OpTyped(op, TypeOf(l))
  }

  predicate SimpleMatch(e: Expr) {
    e.Leaf? && (e.shape.Variable? || e.shape.LiteralNonzero? || e.shape.Zero?)
  }

  predicate OperandMatch(e: Expr) {
    e.Leaf? && !e.shape.Unmatched?
  }

  predicate DividesByZero(op: Op, shape: LeafShape) {
    op.Arith? && (op.arith.DIV? || op.arith.MOD?) && shape.Zero?
  }

  predicate BothInline(op: Op, l: Expr, r: Expr) {
    && SimpleMatch(l) && SimpleMatch(r)
    && !DividesByZero(op, r.shape)
    && !(op.Cmp? && l.shape.LiteralNonzero? && r.shape.LiteralNonzero?)
  }

  predicate RhsInline(op: Op, r: Expr) {
    OperandMatch(r) && !DividesByZero(op, r.shape)
  }

  // ---------- pass 1: choose shapes and find out which left operands get spilled ----------

  datatype FIShape = INLINE_BOTH | INLINE_LHS | INLINE_RHS | OUTLINE

  datatype Ann = ALeaf(leaf: Expr) | ANode(op: Op, shape: FIShape, lhsSpill: bool, lhs: Ann, rhs: Ann)

  function Erase(a: Ann): Expr {
    match a
    case ALeaf(e) => e
    case ANode(op, _, _, l, r) => Node(op, Erase(l), Erase(r))
  }

  function Setup(e: Expr, m: Mgr, lim: Limits): Option<(Ann, Mgr)>
    decreases e, 0
  {
    match e
    case Leaf(_, _, _) => Some((ALeaf(e), m))
    case Node(op, l, r) =>
      var c := ClsOf(TypeOf(l));
      if BothInline(op, l, r) then
        Some((ANode(op, INLINE_BOTH, false, ALeaf(l), ALeaf(r)), m))
      else if OperandMatch(l) then
        var m1 :- ReserveTemp(m, lim, c);
        var (ar, m2) :- Setup(r, m1, lim);
        Some((ANode(op, INLINE_LHS, false, ALeaf(l), ar), m2))
      else if RhsInline(op, r) then
        var m1 :- ReserveTemp(m, lim, c);
        var (al, m2) :- Setup(l, m1, lim);
        Some((ANode(op, INLINE_RHS, false, al, ALeaf(r)), m2))
      else
        var (ar, m1, loc) :- SetupRight(r, m, lim, c);
        var (al, m2) :- Setup(l, m1, lim);
        Some((ANode(op, OUTLINE, loc.At?, al, ar), m2))
  }

  /** Pass 1 on the right operand of an outlined node, with the left operand pushed; loc is where that ended up. */
  function SetupRight(r: Expr, m: Mgr, lim: Limits, c: Cls): Option<(Ann, Mgr, SpillLoc)>
    decreases r, 1
  {
    var m1 :- PushTemp(m, lim, c, false);
    var m2 :- ReserveTemp(m1, lim, c);
    var (ar, m3) :- Setup(r, m2, lim);
    var (m4, loc) :- PopTemp(m3, c);
    Some((ar, m4, loc))
  }

  // ---------- pass 2: emit boilerplates ----------

  /** An instantiated boilerplate; nI and nF count the opaque integral and floating parameters. */
  datatype Instr =
    | LoadLeaf(leaf: Expr, out: SpillLoc, nI: int, nF: int)
    | FullyInlined(op: Op, lhs: Expr, rhs: Expr, out: SpillLoc, nI: int, nF: int)
    | PartialInline(op: Op, inlined: Expr, inlineLhs: bool, out: SpillLoc, nI: int, nF: int)
    | Outlined(op: Op, ty: TypeId, lhsLoc: SpillLoc, out: SpillLoc, nI: int, nF: int)

  function Prepare(a: Ann, m: Mgr, lim: Limits, out: SpillLoc): Option<(seq<Instr>, Mgr)>
    decreases a, 0
  {
    match a
    case ALeaf(e) =>
      var nI := if out.At? || ClsOf(TypeOf(e)).FltCls? then lim.ints else m.InRegs(IntCls);
      var nF := if out.At? || ClsOf(TypeOf(e)).IntCls? then lim.flts else m.InRegs(FltCls);
      Some(([LoadLeaf(e, out, nI, nF)], m))
    case ANode(op, shape, lhsSpill, l, r) =>
      var ty := TypeOf(Erase(l));
      var c := ClsOf(ty);
      match shape {
        case INLINE_BOTH =>
          if !BothInline(op, Erase(l), Erase(r)) then None
          else
            var nF := if op.Cmp? then lim.flts else m.InRegs(FltCls);
            Some(([FullyInlined(op, Erase(l), Erase(r), out, m.InRegs(IntCls), nF)], m))
        case INLINE_LHS =>
          if !OperandMatch(Erase(l)) || !CanReserve(m, lim, c) then None
          else
            var (code, m1) :- Prepare(r, m, lim, NoSpill);
            Some((code + [PartialInstr(op, Erase(l), true, out, m1, lim)], m1))
        case INLINE_RHS =>
          if !RhsInline(op, Erase(r)) || !CanReserve(m, lim, c) then None
          else
            var (code, m1) :- Prepare(l, m, lim, NoSpill);
            Some((code + [PartialInstr(op, Erase(r), false, out, m1, lim)], m1))
        case OUTLINE =>
          var (rcode, m1, lhsLoc) :- PrepareRight(r, m, lim, c, lhsSpill);
          var (lcode, m2) :- Prepare(l, m1, lim, lhsLoc);
          Some((lcode + rcode + [OutlinedInstr(op, ty, lhsLoc, out, m2, lim)], m2))
      }
  }

  /** Pass 2 on the right operand of an outlined node, with the left operand pushed as pass 1 decided. */
  function PrepareRight(r: Ann, m: Mgr, lim: Limits, c: Cls, lhsSpill: bool): Option<(seq<Instr>, Mgr, SpillLoc)>
    decreases r, 1
  {
    var m1 :- PushTemp(m, lim, c, lhsSpill);
    if !CanReserve(m1, lim, c) then None
    else
      var (rcode, m2) :- Prepare(r, m1, lim, NoSpill);
      var (m3, lhsLoc) :- PopTemp(m2, c);
      if lhsSpill != lhsLoc.At? then None else Some((rcode, m3, lhsLoc))
  }

  function PartialInstr(op: Op, inlined: Expr, inlineLhs: bool, out: SpillLoc, m: Mgr, lim: Limits): Instr {
    var c := ClsOf(TypeOf(inlined));
    var nI := if op.Arith? && c.FltCls? then lim.ints else m.InRegs(IntCls);
    var nF := if c.IntCls? then lim.flts else m.InRegs(FltCls);
    PartialInline(op, inlined, inlineLhs, out, nI, nF)
  }

  function OutlinedInstr(op: Op, ty: TypeId, lhsLoc: SpillLoc, out: SpillLoc, m: Mgr, lim: Limits): Instr {
    var nF := if op.Cmp? && ClsOf(ty).IntCls? then lim.flts else m.InRegs(FltCls);
    Outlined(op, ty, lhsLoc, out, m.InRegs(IntCls), nF)
  }

  // ---------- which boilerplates exist ----------

  predicate CanPush(n: int, num: int, limit: nat) {
    n + num <= limit
  }

  /** The boilerplate library contains the requested instantiation. */
  predicate Cond(i: Instr, lim: Limits) {
    && 0 <= i.nI <= lim.ints && 0 <= i.nF <= lim.flts
    && match i
       case LoadLeaf(e, out, nI, nF) =>
         var c := ClsOf(TypeOf(e));
         && e.Leaf?
         && (if out.NoSpill? && c.IntCls? then CanPush(nI, 1, lim.ints) else !CanPush(nI, 1, lim.ints))
         && (if out.NoSpill? && c.FltCls? then CanPush(nF, 1, lim.flts) else !CanPush(nF, 1, lim.flts))
       case FullyInlined(op, l, r, out, nI, nF) =>
         var c := ClsOf(TypeOf(l));
         && OpTyped(op, TypeOf(l))
         && BothInline(op, l, r)
         && if op.Arith? then
              && (c.IntCls? && out.NoSpill? ==> CanPush(nI, 1, lim.ints))
              && (c.FltCls? && out.NoSpill? ==> CanPush(nF, 1, lim.flts))
            else
              && (out.NoSpill? ==> CanPush(nI, 1, lim.ints))
              && !CanPush(nF, 1, lim.flts)
       case PartialInline(op, e, inlineLhs, out, nI, nF) =>
         var c := ClsOf(TypeOf(e));
         && OpTyped(op, TypeOf(e))
         && OperandMatch(e)
         && (inlineLhs || !DividesByZero(op, e.shape))
         && (if c.IntCls? then !CanPush(nF, 1, lim.flts) else CanPush(nF, 1, lim.flts))
         && if op.Arith? then
              if c.IntCls? then CanPush(nI, 1, lim.ints) else !CanPush(nI, 1, lim.ints)
            else
              (out.NoSpill? || c.IntCls? ==> CanPush(nI, 1, lim.ints))
       case Outlined(op, ty, lhsLoc, out, nI, nF) =>
         var c := ClsOf(ty);
         var inRegs := if lhsLoc.NoSpill? then 2 else 1;
         && OpTyped(op, ty)
         && (c.IntCls? ==> CanPush(nI, inRegs, lim.ints))
         && (c.FltCls? ==> CanPush(nF, inRegs, lim.flts))
         && (op.Cmp? ==> (out.At? ==> CanPush(nI, 1, lim.ints)) && (c.IntCls? ==> !CanPush(nF, 1, lim.flts)))
  }

  /** The boilerplate also has a register to leave its result in. */
  predicate Runnable(i: Instr, lim: Limits) {
    && Cond(i, lim)
    && (i.Outlined? && i.op.Cmp? && i.out.NoSpill? ==> CanPush(i.nI, 1, lim.ints))
  }

  // ---------- the machine ----------

  /** Register files and the memory of the current frame; frame cells below the planner's base are locals. */
  datatype State = State(ints: seq<int>, flts: seq<int>, frame: map<nat, int>) {
    function Regs(c: Cls): seq<int> {
      if c.IntCls? then ints else flts
    }
  }

  /** The uninterpreted parts: operators, what a leaf reads, and what ends up in registers that are not passed on. */
  datatype Ops = Ops(arith: (ArithOp, TypeId, int, int) -> int,
                     cmp: (CmpOp, TypeId, int, int) -> bool,
                     leaf: (nat, map<nat, int>) -> int,
                     junk: (State, Cls, nat) -> int)

  /** The interpreter. */
  function Eval(ops: Ops, e: Expr, locals: map<nat, int>): int {
    match e
    case Leaf(_, _, id) => ops.leaf(id, locals)
    case Node(Arith(o), l, r) => ops.arith(o, TypeOf(l), Eval(ops, l, locals), Eval(ops, r, locals))
    case Node(Cmp(o), l, r) => if ops.cmp(o, TypeOf(l), Eval(ops, l, locals), Eval(ops, r, locals)) then 1 else 0
  }

  function Locals(frame: map<nat, int>, base: nat): map<nat, int> {
    map k | k in frame && k < base :: frame[k]
  }

  function ResultCls(op: Op, ty: TypeId): Cls {
    if op.Arith? then ClsOf(ty) else IntCls
  }

  /** Calls the continuation: n opaque parameters are passed on, then the result if it stays in this register file. */
  function PassOn(ops: Ops, s: State, c: Cls, n: int, result: Option<int>): (r: seq<int>) {
    seq(|s.Regs(c)|, i requires 0 <= i < |s.Regs(c)| =>
      if i < n then s.Regs(c)[i]
      else if i == n && result.Some? then result.value
      else ops.junk(s, c, i))
  }

  function Emit(ops: Ops, s: State, rc: Cls, out: SpillLoc, nI: int, nF: int, v: int): State {
    State(PassOn(ops, s, IntCls, nI, if out.NoSpill? && rc.IntCls? then Some(v) else None),
          PassOn(ops, s, FltCls, nF, if out.NoSpill? && rc.FltCls? then Some(v) else None),
          if out.At? then s.frame[out.offset := v] else s.frame)
  }

  ghost predicate StateOk(s: State, lim: Limits) {
    |s.ints| == lim.ints && |s.flts| == lim.flts
  }

  function ReadSlot(s: State, k: nat): int {
    if k in s.frame then s.frame[k] else 0
  }

  /** The operation compiled into a boilerplate, on the values of its two C++ variables. */
  function Operate(ops: Ops, op: Op, ty: TypeId, lhs: int, rhs: int): int {
    if op.Cmp? then (if ops.cmp(op.cmp, ty, lhs, rhs) then 1 else 0) else ops.arith(op.arith, ty, lhs, rhs)
  }

  function Step(ops: Ops, lim: Limits, base: nat, i: Instr, s: State): (s': State)
    requires Runnable(i, lim) && StateOk(s, lim)
    ensures StateOk(s', lim)
  {
    var locals := Locals(s.frame, base);
    match i
    case LoadLeaf(e, out, nI, nF) =>
      Emit(ops, s, ClsOf(TypeOf(e)), out, nI, nF, ops.leaf(e.id, locals))
    case FullyInlined(op, l, r, out, nI, nF) =>
      var v := Operate(ops, op, TypeOf(l), ops.leaf(l.id, locals), ops.leaf(r.id, locals));
      Emit(ops, s, ResultCls(op, TypeOf(l)), out, nI, nF, v)
    case PartialInline(op, e, inlineLhs, out, nI, nF) =>
      var ty := TypeOf(e);
      var qa := if ClsOf(ty).IntCls? then s.ints[nI] else s.flts[nF];
      var x := ops.leaf(e.id, locals);
      var v := if inlineLhs then Operate(ops, op, ty, x, qa) else Operate(ops, op, ty, qa, x);
      Emit(ops, s, ResultCls(op, ty), out, nI, nF, v)
    case Outlined(op, ty, lhsLoc, out, nI, nF) =>
      var regs := s.Regs(ClsOf(ty));
      var n := if ClsOf(ty).IntCls? then nI else nF;
      var v := if lhsLoc.At? then Operate(ops, op, ty, ReadSlot(s, lhsLoc.offset), regs[n])
               else Operate(ops, op, ty, regs[n], regs[n + 1]);
      Emit(ops, s, ResultCls(op, ty), out, nI, nF, v)
  }

  ghost predicate AllRunnable(code: seq<Instr>, lim: Limits) {
    forall i :: i in code ==> Runnable(i, lim)
  }

  /** Runs a chain of boilerplates, each tail-calling the next. */
  function Exec(ops: Ops, lim: Limits, base: nat, code: seq<Instr>, s: State): (s': State)
    requires AllRunnable(code, lim) && StateOk(s, lim)
    ensures StateOk(s', lim)
  {
    if code == [] then s
    else Exec(ops, lim, base, code[1..], Step(ops, lim, base, code[0], s))
  }

  lemma {:induction false} ExecAppend(ops: Ops, lim: Limits, base: nat, a: seq<Instr>, b: seq<Instr>, s: State)
    requires AllRunnable(a, lim) && AllRunnable(b, lim) && StateOk(s, lim)
    ensures AllRunnable(a + b, lim)
    ensures Exec(ops, lim, base, a + b, s) == Exec(ops, lim, base, b, Exec(ops, lim, base, a, s))
  {
    if a == [] {
      assert a + b == b;
    } else {
      assert (a + b)[1..] == a[1..] + b;
      ExecAppend(ops, lim, base, a[1..], b, Step(ops, lim, base, a[0], s));
    }
  }

  // ---------- which nodes are inlined, and which boilerplates exist ----------

  /** A local variable or a literal. */
  ghost predicate IsSimple(e: Expr) {
    e.Leaf? && e.shape in {Variable, LiteralNonzero, Zero}
  }

  /** A leaf of one of the shapes the boilerplates know. */
  ghost predicate IsOperand(e: Expr) {
    e.Leaf? && e.shape in {Variable, LiteralNonzero, Zero, Indexed}
  }

  /** Division and remainder by a literal zero. */
  ghost predicate ByZero(op: Op, r: Expr) {
    (op == Arith(DIV) || op == Arith(MOD)) && r.Leaf? && r.shape == Zero
  }

  /**
   The shape of a node: both operands are inlined if they are simple, unless the node divides by a literal zero or
   compares two nonzero literals; else a left operand of known shape is; else a right one, unless it is a zero divisor.
   */
  lemma ShapeChosen(op: Op, l: Expr, r: Expr, m: Mgr, lim: Limits)
    requires MgrOk(m, lim) && lim.Valid()
    ensures Setup(Node(op, l, r), m, lim).Some? && Setup(Node(op, l, r), m, lim).value.0.ANode?
    ensures var both := IsSimple(l) && IsSimple(r) && !ByZero(op, r) &&
                !(op.Cmp? && l.shape == LiteralNonzero && r.shape == LiteralNonzero);
            Setup(Node(op, l, r), m, lim).value.0.shape ==
              if both then INLINE_BOTH
              else if IsOperand(l) then INLINE_LHS
              else if IsOperand(r) && !ByZero(op, r) then INLINE_RHS
              else OUTLINE
  {
    SetupOk(Node(op, l, r), m, lim);
  }

  /** An operator and its operand type: no arithmetic on bool, no remainder of floating values. */
  ghost predicate Operates(op: Op, ty: TypeId) {
    op.Cmp? || (ty != TBool && !(ty.TFloat? && op == Arith(MOD)))
  }

  /** The operator works on its operands' type, and the inlined operands have shapes the boilerplates know. */
  ghost predicate ShapesExist(i: Instr) {
    match i
    case LoadLeaf(e, _, _, _) => e.Leaf?
    case FullyInlined(op, l, r, _, _, _) =>
      && Operates(op, TypeOf(l)) && IsSimple(l) && IsSimple(r) && !ByZero(op, r)
      && !(op.Cmp? && l.shape == LiteralNonzero && r.shape == LiteralNonzero)
    case PartialInline(op, e, left, _, _, _) => Operates(op, TypeOf(e)) && IsOperand(e) && (left || !ByZero(op, e))
    case Outlined(op, ty, _, _, _, _) => Operates(op, ty)
  }

  /** How many registers have to be free, by the types of the operands and by where the result goes. */
  ghost predicate CountsExist(i: Instr, lim: Limits) {
    var freeI, freeF, kept := lim.ints - i.nI, lim.flts - i.nF, i.out == NoSpill;
    match i
    case LoadLeaf(e, _, _, _) =>
      if TypeOf(e).TFloat? then freeI == 0 && (freeF > 0 <==> kept) else freeF == 0 && (freeI > 0 <==> kept)
    case FullyInlined(op, l, _, _, _, _) =>
      if op.Cmp? then freeF == 0 && (kept ==> freeI > 0)
      else kept ==> if TypeOf(l).TFloat? then freeF > 0 else freeI > 0
    case PartialInline(op, e, _, _, _, _) =>
      if TypeOf(e).TFloat? then freeF > 0 && if op.Cmp? then kept ==> freeI > 0 else freeI == 0
      else freeI > 0 && freeF == 0
    case Outlined(op, ty, lhsLoc, _, _, _) =>
      var operands := if lhsLoc == NoSpill then 2 else 1;
      if ty.TFloat? then freeF >= operands && (op.Cmp? && !kept ==> freeI > 0)
      else freeI >= operands && (op.Cmp? ==> freeF == 0)
  }

  /** Which boilerplates exist. */
  lemma ExistingBoilerplates(i: Instr, lim: Limits)
    ensures Cond(i, lim) <==>
      ShapesExist(i) && 0 <= i.nI <= lim.ints && 0 <= i.nF <= lim.flts && CountsExist(i, lim)
  {
  }

  /** Well-typed nodes have operands of one type, on which the operator operates. */
  lemma {:induction false} TypedNodes(e: Expr)
    ensures e.Leaf? ==> WellTyped(e) && TypeOf(e) == e.ty
    ensures e.Node? ==> (WellTyped(e) <==>
      WellTyped(e.lhs) && WellTyped(e.rhs) && TypeOf(e.lhs) == TypeOf(e.rhs) && Operates(e.op, TypeOf(e.lhs)))
    ensures e.Node? ==> TypeOf(e) == if e.op.Cmp? then TBool else TypeOf(e.lhs)
  {
  }

  // ---------- pass 1 ----------

  /** Pass 1 never trips an assertion, keeps the operand count and only ever spills more. */
  lemma {:induction false} SetupOk(e: Expr, m: Mgr, lim: Limits)
    requires MgrOk(m, lim) && lim.Valid()
    ensures Setup(e, m, lim).Some?
    ensures var (a, m') := Setup(e, m, lim).value;
            MgrOk(m', lim) && Covers(m', m) && Erase(a) == e
    decreases e, 0
  {
    match e
    case Leaf(_, _, _) =>
    case Node(op, l, r) =>
      var c := ClsOf(TypeOf(l));
      if BothInline(op, l, r) {
      } else if OperandMatch(l) {
        ReserveOk(m, lim, c);
        SetupOk(r, ReserveTemp(m, lim, c).value, lim);
      } else if RhsInline(op, r) {
        ReserveOk(m, lim, c);
        SetupOk(l, ReserveTemp(m, lim, c).value, lim);
      } else {
        var p2, p3, p4, ar := SetupOutlineRight(r, m, lim, c);
        RightCovers(m, p2, p3, p4, c, lim, PopTemp(p3, c).value.1.At?);
        SetupOk(l, p4, lim);
      }
  }

  /** Pass 1 on the right operand of an outlined node. */
  lemma {:induction false} SetupOutlineRight(r: Expr, m: Mgr, lim: Limits, c: Cls)
      returns (p2: Mgr, p3: Mgr, p4: Mgr, a: Ann)
    requires MgrOk(m, lim) && lim.Valid()
    ensures PushTemp(m, lim, c, false).Some? && ReserveTemp(PushTemp(m, lim, c, false).value, lim, c) == Some(p2)
    ensures Setup(r, p2, lim) == Some((a, p3)) && Erase(a) == r
    ensures PopTemp(p3, c).Some? && PopTemp(p3, c).value.0 == p4
    ensures SetupRight(r, m, lim, c) == Some((a, p4, PopTemp(p3, c).value.1))
    ensures MgrOk(p2, lim) && MgrOk(p3, lim) && MgrOk(p4, lim)
    ensures RightHistory(m, p2, p3, p4, c, lim, PopTemp(p3, c).value.1.At?)
    decreases r, 1
  {
    var p1 := SetupPrefix(m, lim, c);
    p2 := ReserveTemp(p1, lim, c).value;
    SetupOk(r, p2, lim);
    a, p3 := Setup(r, p2, lim).value.0, Setup(r, p2, lim).value.1;
    p4 := PopHistory(m, p2, p3, lim, c);
  }

  lemma PopHistory(m: Mgr, p2: Mgr, p3: Mgr, lim: Limits, c: Cls) returns (p4: Mgr)
    requires MgrOk(p3, lim) && Covers(p3, p2) && CanReserve(p2, lim, c)
    requires |p2.St(c).ops| == |m.St(c).ops| + 1 && m.St(c).firstNoSpill <= p2.St(c).firstNoSpill
    requires forall d :: d != c ==> p2.St(d) == m.St(d)
    ensures PopTemp(p3, c).Some? && PopTemp(p3, c).value.0 == p4
    ensures MgrOk(p4, lim) && RightHistory(m, p2, p3, p4, c, lim, PopTemp(p3, c).value.1.At?)
  {
    PopOk(p3, lim, c);
    p4 := PopTemp(p3, c).value.0;
  }

  lemma RightCovers(m: Mgr, p2: Mgr, p3: Mgr, p4: Mgr, c: Cls, lim: Limits, spill: bool)
    requires MgrOk(m, lim) && RightHistory(m, p2, p3, p4, c, lim, spill)
    ensures Covers(p4, m)
  {
    CoversByClass(p4, m, c);
  }

  lemma SetupPrefix(m: Mgr, lim: Limits, c: Cls) returns (m1: Mgr)
    requires MgrOk(m, lim) && lim.Valid()
    ensures PushTemp(m, lim, c, false) == Some(m1) && ReserveTemp(m1, lim, c).Some?
    ensures var n := |m.St(c).ops| + 1;
            var m2 := ReserveTemp(m1, lim, c).value;
            && MgrOk(m2, lim)
            && |m2.St(c).ops| == n && m.St(c).firstNoSpill <= m2.St(c).firstNoSpill
            && CanReserve(m2, lim, c)
            && (forall d :: d != c ==> m2.St(d) == m.St(d))
  {
    PushOk(m, lim, c, false);
    m1 := PushTemp(m, lim, c, false).value;
    ReserveOk(m1, lim, c);
  }

  // ---------- pass 2 ----------

  /** m1 is m with one operand, living at loc, on top of stack c. */
  ghost predicate Pushed(m: Mgr, m1: Mgr, c: Cls, loc: SpillLoc) {
    && m1.St(c).ops == m.St(c).ops + [loc]
    && m1.St(c).firstNoSpill == m.St(c).firstNoSpill + (if loc.At? then 1 else 0)
    && (loc.At? ==> m.InRegs(c) == 0 && Avail(m.planner, loc.offset) && m.planner.base <= loc.offset)
    && (forall d :: d != c ==> m1.St(d) == m.St(d))
    && m1.planner.base == m.planner.base && m.planner.top <= m1.planner.top
    && (forall k :: Avail(m1.planner, k) <==> Avail(m.planner, k) && !(loc.At? && k == loc.offset))
  }

  /** In pass 2 a push either spills just the operand pushed, or spills nothing. */
  lemma PushExact(m: Mgr, lim: Limits, c: Cls, spill: bool) returns (m': Mgr, loc: SpillLoc)
    requires MgrOk(m, lim)
    requires if spill then m.InRegs(c) == 0 else m.InRegs(c) < lim.Of(c)
    ensures PushTemp(m, lim, c, spill) == Some(m') && MgrOk(m', lim)
    ensures loc.At? == spill && Pushed(m, m', c, loc)
  {
    PushOk(m, lim, c, spill);
    m' := PushTemp(m, lim, c, spill).value;
    var n := |m.St(c).ops|;
    loc := NoSpill;
    if spill {
      GetTempTakes(m.planner);
      var (q, off) := GetTemp(m.planner);
      loc := At(off);
      var st1 := TempStack((m.St(c).ops + [NoSpill])[n := At(off)], n + 1);
      assert SpillUpTo(q, st1, n + 1) == (q, st1);
    }
  }

  /** Popping what PushExact pushed restores the stacks and the set of available slots. */
  lemma PushPop(m: Mgr, m1: Mgr, m2: Mgr, lim: Limits, c: Cls, loc: SpillLoc) returns (m3: Mgr)
    requires MgrOk(m, lim) && MgrOk(m2, lim) && Balanced(m2, m1)
    requires Pushed(m, m1, c, loc)
    ensures PopTemp(m2, c) == Some((m3, loc)) && MgrOk(m3, lim) && Balanced(m3, m)
  {
    PopOk(m2, lim, c);
    m3 := PopTemp(m2, c).value.0;
    assert m2.St(c) == m1.St(c);
    assert m3.St(c).ops == m.St(c).ops;
    assert m3.St(IntCls) == m.St(IntCls) && m3.St(FltCls) == m.St(FltCls);
  }

  /** What pass 2 is given: the annotation pass 1 computed, and operands spilled at least as pass 1 found. */
  ghost predicate Agreed(e: Expr, m1: Mgr, a: Ann, m2: Mgr, lim: Limits) {
    && WellTyped(e) && lim.Valid() && MgrOk(m1, lim) && MgrOk(m2, lim)
    && Setup(e, m1, lim).Some? && Setup(e, m1, lim).value.0 == a
    && Covers(m2, Setup(e, m1, lim).value.1)
    && CanReserve(m2, lim, ClsOf(TypeOf(e)))
  }

  ghost predicate IsOutline(e: Expr) {
    e.Node? && !BothInline(e.op, e.lhs, e.rhs) && !OperandMatch(e.lhs) && !RhsInline(e.op, e.rhs)
  }

  /**
   Operand counts while pass 1 handles an outlined node from m: p2 to p3 is the right operand, with
   the left one pushed; p4 to p5 is the left operand.
   */
  ghost predicate SpillHistory(m: Mgr, p2: Mgr, p3: Mgr, p4: Mgr, p5: Mgr, c: Cls, lim: Limits, spill: bool) {
    RightHistory(m, p2, p3, p4, c, lim, spill) && Covers(p5, p4)
  }

  /** The part of it up to where the left operand is popped again. */
  ghost predicate RightHistory(m: Mgr, p2: Mgr, p3: Mgr, p4: Mgr, c: Cls, lim: Limits, spill: bool) {
    && CanReserve(p2, lim, c) && |p2.St(c).ops| == |m.St(c).ops| + 1
    && m.St(c).firstNoSpill <= p2.St(c).firstNoSpill
    && p3.St(c).firstNoSpill <= |p3.St(c).ops|
    && Covers(p3, p2)
    && p4.St(c).ops == p3.St(c).ops[..|m.St(c).ops|]
    && (forall d :: d != c ==> p4.St(d) == p3.St(d) && p2.St(d) == m.St(d))
    && (if spill then p4.InRegs(c) == 0 else p4.St(c).firstNoSpill == p3.St(c).firstNoSpill)
  }

  /** When the stacks are spilled at least as pass 1 ended, the left operand can be pushed as predicted. */
  lemma RoomForLeft(m: Mgr, p2: Mgr, p3: Mgr, p4: Mgr, p5: Mgr, m2: Mgr, c: Cls, lim: Limits, spill: bool)
    requires lim.Valid() && SpillHistory(m, p2, p3, p4, p5, c, lim, spill)
    requires Covers(m2, p5) && m2.St(c).firstNoSpill <= |m2.St(c).ops|
    ensures |m2.St(c).ops| == |m.St(c).ops|
    ensures if spill then m2.InRegs(c) == 0 else m2.InRegs(c) + 1 < lim.Of(c)
    ensures !spill ==> p3.St(c).firstNoSpill <= m2.St(c).firstNoSpill
    ensures forall d :: d != c ==> |m2.St(d).ops| == |p3.St(d).ops| && p3.St(d).firstNoSpill <= m2.St(d).firstNoSpill
  {
  }

  /** Pass 1 on an outlined node: where it starts on the right operand (p2) and on the left one (p4). */
  lemma SetupOutline(e: Expr, m: Mgr, lim: Limits) returns (p2: Mgr, p3: Mgr, p4: Mgr, p5: Mgr, a: Ann)
    requires MgrOk(m, lim) && lim.Valid() && IsOutline(e)
    ensures a.ANode? && Setup(e, m, lim) == Some((a, p5)) && a.shape.OUTLINE? && a.op == e.op
    ensures Setup(e.rhs, p2, lim) == Some((a.rhs, p3)) && Setup(e.lhs, p4, lim) == Some((a.lhs, p5))
    ensures MgrOk(p2, lim) && MgrOk(p3, lim) && MgrOk(p4, lim)
    ensures Erase(a.lhs) == e.lhs && Erase(a.rhs) == e.rhs
    ensures var c := ClsOf(TypeOf(e.lhs));
            && PushTemp(m, lim, c, false).Some? && ReserveTemp(PushTemp(m, lim, c, false).value, lim, c) == Some(p2)
            && PopTemp(p3, c).Some? && PopTemp(p3, c).value.0 == p4 && a.lhsSpill == PopTemp(p3, c).value.1.At?
    ensures SpillHistory(m, p2, p3, p4, p5, ClsOf(TypeOf(e.lhs)), lim, a.lhsSpill)
  {
    var c := ClsOf(TypeOf(e.lhs));
    var ar;
    p2, p3, p4, ar := SetupOutlineRight(e.rhs, m, lim, c);
    SetupOk(e.lhs, p4, lim);
    p5 := Setup(e.lhs, p4, lim).value.1;
    a := Setup(e, m, lim).value.0;
  }

  lemma CoversByClass(m2: Mgr, m1: Mgr, c: Cls)
    requires |m2.St(c).ops| == |m1.St(c).ops| && m1.St(c).firstNoSpill <= m2.St(c).firstNoSpill
    requires forall d :: d != c ==> |m2.St(d).ops| == |m1.St(d).ops| && m1.St(d).firstNoSpill <= m2.St(d).firstNoSpill
    ensures Covers(m2, m1)
  {
    assert m2.ints == m2.St(IntCls) && m2.flts == m2.St(FltCls);
    assert m1.ints == m1.St(IntCls) && m1.flts == m1.St(FltCls);
  }

  /** Pass 2 pushes the left operand exactly where and how pass 1 predicted. */
  lemma OutlineAgrees(e: Expr, m1: Mgr, a: Ann, m2: Mgr, lim: Limits)
    returns (p2: Mgr, p4: Mgr, q1: Mgr, lhsLoc: SpillLoc)
    requires Agreed(e, m1, a, m2, lim) && IsOutline(e)
    ensures a.ANode? && a.shape.OUTLINE? && a.op == e.op && Erase(a.lhs) == e.lhs
    ensures Agreed(e.rhs, p2, a.rhs, q1, lim)
    ensures Agreed(e.lhs, p4, a.lhs, m2, lim)
    ensures var c := ClsOf(TypeOf(e.lhs));
            && CanReserve(m2, lim, c) && CanReserve(q1, lim, c)
            && PushTemp(m2, lim, c, a.lhsSpill) == Some(q1)
            && Pushed(m2, q1, c, lhsLoc) && lhsLoc.At? == a.lhsSpill
  {
    var c := ClsOf(TypeOf(e.lhs));
    var p3, p5, b;
    p2, p3, p4, p5, b := SetupOutline(e, m1, lim);
    RoomForLeft(m1, p2, p3, p4, p5, m2, c, lim, a.lhsSpill);
    q1, lhsLoc := PushExact(m2, lim, c, a.lhsSpill);
    CoversByClass(q1, p3, c);
  }

  /** Pass 2 trips no assertion, selects only boilerplates that exist, and leaves the stacks as they were. */
  ghost predicate Compiles(a: Ann, m: Mgr, lim: Limits, out: SpillLoc) {
    && Prepare(a, m, lim, out).Some?
    && var (code, m') := Prepare(a, m, lim, out).value;
       AllRunnable(code, lim) && MgrOk(m', lim) && Balanced(m', m)
  }

  /**
   Two-pass spill agreement: no assertion of pass 2 fires, every boilerplate it selects exists and
   can run, and it leaves the operand stacks and the available slots as it found them.
   */
  lemma {:induction false} PrepareOk(e: Expr, m1: Mgr, a: Ann, m2: Mgr, lim: Limits, out: SpillLoc)
    requires Agreed(e, m1, a, m2, lim)
    ensures Compiles(a, m2, lim, out)
    decreases e, 1
  {
    match e
    case Leaf(_, _, _) =>
    case Node(op, l, r) =>
      if BothInline(op, l, r) {
      } else if OperandMatch(l) || RhsInline(op, r) {
        PartialOk(e, m1, a, m2, lim, out);
      } else {
        OutlineOk(e, m1, a, m2, lim, out);
      }
  }

  lemma {:induction false} PartialOk(e: Expr, m1: Mgr, a: Ann, m2: Mgr, lim: Limits, out: SpillLoc)
    requires Agreed(e, m1, a, m2, lim)
    requires e.Node? && !BothInline(e.op, e.lhs, e.rhs) && (OperandMatch(e.lhs) || RhsInline(e.op, e.rhs))
    ensures Compiles(a, m2, lim, out)
    decreases e, 0
  {
    var p := PartialAgrees(e, m1, a, m2, lim);
    if OperandMatch(e.lhs) {
      PrepareOk(e.rhs, p, a.rhs, m2, lim, NoSpill);
    } else {
      PrepareOk(e.lhs, p, a.lhs, m2, lim, NoSpill);
    }
    PreparePartial(e, a, m2, lim, out);
  }

  lemma {:induction false} OutlineOk(e: Expr, m1: Mgr, a: Ann, m2: Mgr, lim: Limits, out: SpillLoc)
    requires Agreed(e, m1, a, m2, lim) && IsOutline(e)
    ensures Compiles(a, m2, lim, out)
    decreases e, 0
  {
    var p2, p4, q1, lhsLoc := OutlineAgrees(e, m1, a, m2, lim);
    PrepareOk(e.rhs, p2, a.rhs, q1, lim, NoSpill);
    var (rcode, q2) := Prepare(a.rhs, q1, lim, NoSpill).value;
    var q3 := PushPop(m2, q1, q2, lim, ClsOf(TypeOf(e.lhs)), lhsLoc);
    PrepareOk(e.lhs, p4, a.lhs, q3, lim, lhsLoc);
    PrepareOutline(e, a, m2, lim, out, q1, q2, q3, lhsLoc);
  }

  /** Pass 2 on a partially inlined node starts on the other operand in the state it was given. */
  lemma PartialAgrees(e: Expr, m1: Mgr, a: Ann, m2: Mgr, lim: Limits) returns (p: Mgr)
    requires Agreed(e, m1, a, m2, lim)
    requires e.Node? && !BothInline(e.op, e.lhs, e.rhs) && (OperandMatch(e.lhs) || RhsInline(e.op, e.rhs))
    ensures a.ANode? && a.op == e.op && Erase(a.lhs) == e.lhs && Erase(a.rhs) == e.rhs
    ensures a.shape == if OperandMatch(e.lhs) then INLINE_LHS else INLINE_RHS
    ensures if OperandMatch(e.lhs) then Agreed(e.rhs, p, a.rhs, m2, lim) else Agreed(e.lhs, p, a.lhs, m2, lim)
  {
    var c := ClsOf(TypeOf(e.lhs));
    ReserveOk(m1, lim, c);
    p := ReserveTemp(m1, lim, c).value;
    SetupOk(if OperandMatch(e.lhs) then e.rhs else e.lhs, p, lim);
  }

  /** Assembles pass 2 on a partially inlined node from the code of the other operand. */
  lemma PreparePartial(e: Expr, a: Ann, m2: Mgr, lim: Limits, out: SpillLoc)
    requires WellTyped(e) && e.Node? && a.ANode? && a.op == e.op && Erase(a.lhs) == e.lhs && Erase(a.rhs) == e.rhs
    requires if a.shape.INLINE_LHS? then OperandMatch(e.lhs) else a.shape.INLINE_RHS? && RhsInline(e.op, e.rhs)
    requires CanReserve(m2, lim, ClsOf(TypeOf(e.lhs))) && CanReserve(m2, lim, ClsOf(TypeOf(e)))
    requires StackOk(m2.ints, lim.ints) && StackOk(m2.flts, lim.flts)
    requires var sub := if a.shape.INLINE_LHS? then a.rhs else a.lhs;
             && Prepare(sub, m2, lim, NoSpill).Some?
             && Prepare(sub, m2, lim, NoSpill).value.1.ints == m2.ints
             && Prepare(sub, m2, lim, NoSpill).value.1.flts == m2.flts
    ensures var lhs := a.shape.INLINE_LHS?;
            var (code, q) := Prepare(if lhs then a.rhs else a.lhs, m2, lim, NoSpill).value;
            var last := PartialInstr(e.op, if lhs then e.lhs else e.rhs, lhs, out, m2, lim);
            && Prepare(a, m2, lim, out) == Some((code + [last], q))
            && Runnable(last, lim)
  {
  }

  /** Assembles pass 2 on an outlined node from its two halves. */
  lemma PrepareOutline(e: Expr, a: Ann, m2: Mgr, lim: Limits, out: SpillLoc, q1: Mgr, q2: Mgr, q3: Mgr,
      lhsLoc: SpillLoc)
    requires WellTyped(e) && e.Node? && a.ANode? && a.shape.OUTLINE? && a.op == e.op && Erase(a.lhs) == e.lhs
    requires CanReserve(m2, lim, ClsOf(TypeOf(e.lhs))) && CanReserve(q1, lim, ClsOf(TypeOf(e.lhs)))
    requires CanReserve(m2, lim, ClsOf(TypeOf(e)))
    requires StackOk(m2.ints, lim.ints) && StackOk(m2.flts, lim.flts)
    requires PushTemp(m2, lim, ClsOf(TypeOf(e.lhs)), a.lhsSpill) == Some(q1)
    requires Pushed(m2, q1, ClsOf(TypeOf(e.lhs)), lhsLoc) && lhsLoc.At? == a.lhsSpill
    requires Prepare(a.rhs, q1, lim, NoSpill).Some? && Prepare(a.rhs, q1, lim, NoSpill).value.1 == q2
    requires PopTemp(q2, ClsOf(TypeOf(e.lhs))) == Some((q3, lhsLoc))
    requires Prepare(a.lhs, q3, lim, lhsLoc).Some?
    requires var q4 := Prepare(a.lhs, q3, lim, lhsLoc).value.1; q4.ints == m2.ints && q4.flts == m2.flts
    ensures var (rcode, _) := Prepare(a.rhs, q1, lim, NoSpill).value;
            var (lcode, q4) := Prepare(a.lhs, q3, lim, lhsLoc).value;
            var last := OutlinedInstr(e.op, TypeOf(e.lhs), lhsLoc, out, m2, lim);
            && Prepare(a, m2, lim, out) == Some((lcode + rcode + [last], q4))
            && Runnable(last, lim)
  {
  }

  // ---------- the emitted code computes the expression ----------

  ghost predicate SameCell(f: map<nat, int>, g: map<nat, int>, k: nat) {
    (k in f <==> k in g) && (k in f ==> f[k] == g[k])
  }

  /** Only available slots and the output slot may have been written. */
  ghost predicate FrameKept(p: Planner, out: SpillLoc, s: State, s': State) {
    forall k :: !Avail(p, k) && !(out.At? && k == out.offset) ==> SameCell(s.frame, s'.frame, k)
  }

  ghost predicate RegsKept(m: Mgr, s: State, s': State)
    requires m.InRegs(IntCls) <= |s.ints| == |s'.ints|
    requires m.InRegs(FltCls) <= |s.flts| == |s'.flts|
  {
    && (forall i :: 0 <= i < m.InRegs(IntCls) ==> s'.ints[i] == s.ints[i])
    && (forall i :: 0 <= i < m.InRegs(FltCls) ==> s'.flts[i] == s.flts[i])
  }

  ghost predicate ResultAt(m: Mgr, rc: Cls, out: SpillLoc, s: State, v: int) {
    match out
    case NoSpill => 0 <= m.InRegs(rc) < |s.Regs(rc)| && s.Regs(rc)[m.InRegs(rc)] == v
    case At(off) => off in s.frame && s.frame[off] == v
  }

  /** Running the code leaves the value v at out and keeps everything that is live. */
  ghost predicate Computes(m: Mgr, lim: Limits, rc: Cls, out: SpillLoc, s: State, s': State, v: int) {
    && MgrOk(m, lim) && StateOk(s, lim) && StateOk(s', lim)
    && RegsKept(m, s, s') && FrameKept(m.planner, out, s, s')
    && ResultAt(m, rc, out, s', v)
  }

  lemma LocalsKept(p: Planner, out: SpillLoc, s: State, s': State)
    requires PlannerOk(p) && FrameKept(p, out, s, s') && (out.At? ==> p.base <= out.offset)
    ensures Locals(s.frame, p.base) == Locals(s'.frame, p.base)
  {
    forall k: nat | k < p.base
      ensures SameCell(s.frame, s'.frame, k)
    {
      assert !Avail(p, k);
    }
    assert forall k :: k in Locals(s.frame, p.base) ==> SameCell(s.frame, s'.frame, k);
    assert forall k :: k in Locals(s'.frame, p.base) ==> SameCell(s.frame, s'.frame, k);
  }

  /** The last boilerplate of an expression reads its operands first and then passes on every live register. */
  lemma EmitComputes(ops: Ops, m: Mgr, lim: Limits, s: State, rc: Cls, out: SpillLoc, nI: int, nF: int, v: int)
    requires MgrOk(m, lim) && StateOk(s, lim) && CanReserve(m, lim, rc)
    requires nI == m.InRegs(IntCls) || (nI == lim.ints && !(out.NoSpill? && rc.IntCls?))
    requires nF == m.InRegs(FltCls) || (nF == lim.flts && !(out.NoSpill? && rc.FltCls?))
    ensures Computes(m, lim, rc, out, s, Emit(ops, s, rc, out, nI, nF, v), v)
  {
  }

  /** Code that keeps what is live, followed by a boilerplate that computes v. */
  lemma ComputesAfter(m: Mgr, lim: Limits, rc: Cls, out: SpillLoc, s: State, s1: State, s': State, v: int)
    requires MgrOk(m, lim) && StateOk(s, lim) && StateOk(s1, lim)
    requires RegsKept(m, s, s1) && FrameKept(m.planner, NoSpill, s, s1)
    requires Computes(m, lim, rc, out, s1, s', v)
    ensures Computes(m, lim, rc, out, s, s', v)
  {
    forall k | !Avail(m.planner, k) && !(out.At? && k == out.offset)
      ensures SameCell(s.frame, s'.frame, k)
    {
      assert SameCell(s.frame, s1.frame, k) && SameCell(s1.frame, s'.frame, k);
    }
  }

  /** The code pass 2 emits for a computes the value of e from any state. */
  ghost predicate Correct(e: Expr, a: Ann, m: Mgr, lim: Limits, out: SpillLoc, ops: Ops, s: State) {
    && Compiles(a, m, lim, out) && StateOk(s, lim)
    && var base := m.planner.base;
       Computes(m, lim, ClsOf(TypeOf(e)), out, s, Exec(ops, lim, base, Prepare(a, m, lim, out).value.0, s),
                Eval(ops, e, Locals(s.frame, base)))
  }

  lemma {:induction false} ExecOk(e: Expr, m1: Mgr, a: Ann, m2: Mgr, lim: Limits, out: SpillLoc, ops: Ops, s: State)
    requires Agreed(e, m1, a, m2, lim) && StateOk(s, lim)
    ensures Correct(e, a, m2, lim, out, ops, s)
    decreases e, 2
  {
    PrepareOk(e, m1, a, m2, lim, out);
    match e
    case Leaf(_, _, _) =>
      SingleExec(e, m1, a, m2, lim, out, ops, s);
    case Node(op, l, r) =>
      if BothInline(op, l, r) {
        SingleExec(e, m1, a, m2, lim, out, ops, s);
      } else if OperandMatch(l) || RhsInline(op, r) {
        PartialExec(e, m1, a, m2, lim, out, ops, s);
      } else {
        OutlineExec(e, m1, a, m2, lim, out, ops, s);
      }
  }

  lemma SingleExec(e: Expr, m1: Mgr, a: Ann, m2: Mgr, lim: Limits, out: SpillLoc, ops: Ops, s: State)
    requires Agreed(e, m1, a, m2, lim) && StateOk(s, lim) && Compiles(a, m2, lim, out)
    requires e.Leaf? || BothInline(e.op, e.lhs, e.rhs)
    ensures Correct(e, a, m2, lim, out, ops, s)
  {
    var i := Prepare(a, m2, lim, out).value.0[0];
    var rc := ClsOf(TypeOf(e));
    assert Prepare(a, m2, lim, out).value.0 == [i];
    ExecOne(ops, lim, m2.planner.base, i, s);
    EmitComputes(ops, m2, lim, s, rc, out, i.nI, i.nF, Eval(ops, e, Locals(s.frame, m2.planner.base)));
  }

  lemma ExecOne(ops: Ops, lim: Limits, base: nat, i: Instr, s: State)
    requires Runnable(i, lim) && StateOk(s, lim)
    ensures AllRunnable([i], lim) && Exec(ops, lim, base, [i], s) == Step(ops, lim, base, i, s)
  {
    var s' := Step(ops, lim, base, i, s);
    assert [i][1..] == [];
    assert Exec(ops, lim, base, [], s') == s';
  }

  lemma PartialStep(ops: Ops, e: Expr, m: Mgr, lim: Limits, left: bool, out: SpillLoc, s: State, s1: State)
    requires e.Node? && WellTyped(e) && StateOk(s1, lim)
    requires (if left then e.lhs else e.rhs).Leaf?
    requires Runnable(PartialInstr(e.op, if left then e.lhs else e.rhs, left, out, m, lim), lim)
    requires Locals(s1.frame, m.planner.base) == Locals(s.frame, m.planner.base)
    requires ResultAt(m, ClsOf(TypeOf(e.lhs)), NoSpill, s1,
                      Eval(ops, if left then e.rhs else e.lhs, Locals(s.frame, m.planner.base)))
    ensures var i := PartialInstr(e.op, if left then e.lhs else e.rhs, left, out, m, lim);
            var v := Eval(ops, e, Locals(s.frame, m.planner.base));
            Step(ops, lim, m.planner.base, i, s1) == Emit(ops, s1, ResultCls(e.op, TypeOf(e.lhs)), out, i.nI, i.nF, v)
  {
  }

  lemma {:induction false} PartialExec(e: Expr, m1: Mgr, a: Ann, m2: Mgr, lim: Limits, out: SpillLoc, ops: Ops,
      s: State)
    requires Agreed(e, m1, a, m2, lim) && StateOk(s, lim) && Compiles(a, m2, lim, out)
    requires e.Node? && !BothInline(e.op, e.lhs, e.rhs) && (OperandMatch(e.lhs) || RhsInline(e.op, e.rhs))
    ensures Correct(e, a, m2, lim, out, ops, s)
    decreases e, 0
  {
    var p := PartialAgrees(e, m1, a, m2, lim);
    var left := OperandMatch(e.lhs);
    var sub := if left then a.rhs else a.lhs;
    ExecOk(if left then e.rhs else e.lhs, p, sub, m2, lim, NoSpill, ops, s);
    PreparePartial(e, a, m2, lim, out);
    var base := m2.planner.base;
    var code := Prepare(sub, m2, lim, NoSpill).value.0;
    var last := PartialInstr(e.op, if left then e.lhs else e.rhs, left, out, m2, lim);
    var s1 := Exec(ops, lim, base, code, s);
    ExecOne(ops, lim, base, last, s1);
    ExecAppend(ops, lim, base, code, [last], s);
    LocalsKept(m2.planner, NoSpill, s, s1);
    var v := Eval(ops, e, Locals(s.frame, base));
    EmitComputes(ops, m2, lim, s1, ResultCls(e.op, TypeOf(e.lhs)), out, last.nI, last.nF, v);
    var s' := Step(ops, lim, base, last, s1);
    PartialStep(ops, e, m2, lim, left, out, s, s1);
    ComputesAfter(m2, lim, ClsOf(TypeOf(e)), out, s, s1, s', v);
  }

  lemma OutlineStep(ops: Ops, e: Expr, m: Mgr, lim: Limits, loc: SpillLoc, out: SpillLoc, s: State, s2: State)
    requires e.Node? && StateOk(s2, lim) && StateOk(s, lim)
    requires Runnable(OutlinedInstr(e.op, TypeOf(e.lhs), loc, out, m, lim), lim)
    requires 0 <= m.InRegs(IntCls) && 0 <= m.InRegs(FltCls)
    requires var c := ClsOf(TypeOf(e.lhs));
             var n := m.InRegs(c);
             var vl := Eval(ops, e.lhs, Locals(s.frame, m.planner.base));
             var vr := Eval(ops, e.rhs, Locals(s.frame, m.planner.base));
             && n < |s2.Regs(c)|
             && (if loc.At? then ReadSlot(s2, loc.offset) == vl && s2.Regs(c)[n] == vr
                 else n + 1 < |s2.Regs(c)| && s2.Regs(c)[n] == vl && s2.Regs(c)[n + 1] == vr)
    ensures var i := OutlinedInstr(e.op, TypeOf(e.lhs), loc, out, m, lim);
            var v := Eval(ops, e, Locals(s.frame, m.planner.base));
            Step(ops, lim, m.planner.base, i, s2) == Emit(ops, s2, ResultCls(e.op, TypeOf(e.lhs)), out, i.nI, i.nF, v)
  {
  }

  /** Runs the two operands of an outlined node: s to s1 is the left one, s1 to s2 the right one. */
  lemma {:induction false} OutlineHalves(e: Expr, m1: Mgr, a: Ann, m2: Mgr, lim: Limits, out: SpillLoc, ops: Ops,
      s: State)
    returns (lhsLoc: SpillLoc, lcode: seq<Instr>, rcode: seq<Instr>, s1: State, s2: State)
    requires Agreed(e, m1, a, m2, lim) && StateOk(s, lim) && IsOutline(e)
    ensures var last := OutlinedInstr(e.op, TypeOf(e.lhs), lhsLoc, out, m2, lim);
            && Prepare(a, m2, lim, out).Some?
            && Prepare(a, m2, lim, out).value.0 == lcode + rcode + [last]
            && AllRunnable(lcode, lim) && AllRunnable(rcode, lim) && Runnable(last, lim)
    ensures s1 == Exec(ops, lim, m2.planner.base, lcode, s)
    ensures StateOk(s1, lim) && s2 == Exec(ops, lim, m2.planner.base, rcode, s1)
    ensures OperandsReady(m2, lim, ClsOf(TypeOf(e.lhs)), lhsLoc, s, s2,
                          Eval(ops, e.lhs, Locals(s.frame, m2.planner.base)),
                          Eval(ops, e.rhs, Locals(s.frame, m2.planner.base)))
    decreases e, 0
  {
    var c := ClsOf(TypeOf(e.lhs));
    var p2, p4, q1;
    p2, p4, q1, lhsLoc := OutlineAgrees(e, m1, a, m2, lim);
    PrepareOk(e.rhs, p2, a.rhs, q1, lim, NoSpill);
    var q2 := Prepare(a.rhs, q1, lim, NoSpill).value.1;
    rcode := Prepare(a.rhs, q1, lim, NoSpill).value.0;
    var q3 := PushPop(m2, q1, q2, lim, c, lhsLoc);
    ExecOk(e.lhs, p4, a.lhs, q3, lim, lhsLoc, ops, s);
    lcode := Prepare(a.lhs, q3, lim, lhsLoc).value.0;
    PrepareOutline(e, a, m2, lim, out, q1, q2, q3, lhsLoc);
    s1 := Exec(ops, lim, m2.planner.base, lcode, s);
    ExecOk(e.rhs, p2, a.rhs, q1, lim, NoSpill, ops, s1);
    s2 := Exec(ops, lim, m2.planner.base, rcode, s1);
    LocalsKept(m2.planner, lhsLoc, s, s1);
    OutlineOperands(m2, q1, q3, lim, c, lhsLoc, s, s1, s2,
                    Eval(ops, e.lhs, Locals(s.frame, m2.planner.base)),
                    Eval(ops, e.rhs, Locals(s.frame, m2.planner.base)));
  }

  lemma {:induction false} OutlineExec(e: Expr, m1: Mgr, a: Ann, m2: Mgr, lim: Limits, out: SpillLoc, ops: Ops,
      s: State)
    requires Agreed(e, m1, a, m2, lim) && StateOk(s, lim) && Compiles(a, m2, lim, out) && IsOutline(e)
    ensures Correct(e, a, m2, lim, out, ops, s)
    decreases e, 1
  {
    var lhsLoc, lcode, rcode, s1, s2 := OutlineHalves(e, m1, a, m2, lim, out, ops, s);
    var base := m2.planner.base;
    var last := OutlinedInstr(e.op, TypeOf(e.lhs), lhsLoc, out, m2, lim);
    ExecOne(ops, lim, base, last, s2);
    ExecAppend(ops, lim, base, lcode, rcode, s);
    ExecAppend(ops, lim, base, lcode + rcode, [last], s);
    OutlineComputes(ops, e, m2, lim, lhsLoc, out, s, s2);
  }

  /** The outlined boilerplate itself, once both operand values are ready. */
  lemma OutlineComputes(ops: Ops, e: Expr, m: Mgr, lim: Limits, loc: SpillLoc, out: SpillLoc, s: State, s2: State)
    requires e.Node? && WellTyped(e) && lim.Valid() && CanReserve(m, lim, ClsOf(TypeOf(e)))
    requires Runnable(OutlinedInstr(e.op, TypeOf(e.lhs), loc, out, m, lim), lim)
    requires OperandsReady(m, lim, ClsOf(TypeOf(e.lhs)), loc, s, s2,
                           Eval(ops, e.lhs, Locals(s.frame, m.planner.base)),
                           Eval(ops, e.rhs, Locals(s.frame, m.planner.base)))
    ensures Computes(m, lim, ClsOf(TypeOf(e)), out, s,
                     Step(ops, lim, m.planner.base, OutlinedInstr(e.op, TypeOf(e.lhs), loc, out, m, lim), s2),
                     Eval(ops, e, Locals(s.frame, m.planner.base)))
  {
    var base := m.planner.base;
    var last := OutlinedInstr(e.op, TypeOf(e.lhs), loc, out, m, lim);
    var v := Eval(ops, e, Locals(s.frame, base));
    EmitComputes(ops, m, lim, s2, ResultCls(e.op, TypeOf(e.lhs)), out, last.nI, last.nF, v);
    OutlineStep(ops, e, m, lim, loc, out, s, s2);
    ComputesAfter(m, lim, ClsOf(TypeOf(e)), out, s, s2, Step(ops, lim, base, last, s2), v);
  }

  /** Both operand values are where the outlined boilerplate looks for them, and nothing live has changed. */
  ghost predicate OperandsReady(m: Mgr, lim: Limits, c: Cls, loc: SpillLoc, s: State, s2: State, vl: int, vr: int) {
    var n := m.InRegs(c);
    && MgrOk(m, lim) && StateOk(s, lim) && StateOk(s2, lim)
    && RegsKept(m, s, s2) && FrameKept(m.planner, NoSpill, s, s2)
    && n < |s2.Regs(c)|
    && (if loc.At? then ReadSlot(s2, loc.offset) == vl && s2.Regs(c)[n] == vr
        else n + 1 < |s2.Regs(c)| && s2.Regs(c)[n] == vl && s2.Regs(c)[n + 1] == vr)
  }

  /**
   The left value survives the right operand's code, in its register or in its slot, even though
   that slot was free while the left operand's own code was compiled.
   */
  lemma OutlineOperands(m: Mgr, q1: Mgr, q3: Mgr, lim: Limits, c: Cls, loc: SpillLoc,
                        s: State, s1: State, s2: State, vl: int, vr: int)
    requires MgrOk(m, lim) && MgrOk(q1, lim) && Pushed(m, q1, c, loc) && Balanced(q3, m)
    requires Computes(q3, lim, c, loc, s, s1, vl) && Computes(q1, lim, c, NoSpill, s1, s2, vr)
    ensures OperandsReady(m, lim, c, loc, s, s2, vl, vr)
  {
    if loc.At? {
      assert SameCell(s1.frame, s2.frame, loc.offset);
    }
    assert q1.ints == q1.St(IntCls) && q1.flts == q1.St(FltCls);
    forall k | !Avail(m.planner, k)
      ensures SameCell(s.frame, s2.frame, k)
    {
      assert SameCell(s.frame, s1.frame, k) && SameCell(s1.frame, s2.frame, k);
    }
  }

  /**
   Compiler correctness.  Pass 1 runs from any operand stack m1; pass 2 runs from any state m2 whose
   operands are spilled at least as pass 1 left them, with a register free for the result.  Then
   neither pass trips an assertion, every selected boilerplate exists, and running the chain from
   any machine state leaves the interpreter's value in the next register or at out, with every
   operand in a register, every operand in a slot and every local variable unchanged.
   */
  lemma CompilerCorrect(e: Expr, m1: Mgr, m2: Mgr, lim: Limits, out: SpillLoc, ops: Ops, s: State)
    requires WellTyped(e) && lim.Valid() && MgrOk(m1, lim) && MgrOk(m2, lim) && StateOk(s, lim)
    requires Setup(e, m1, lim).Some? ==> Covers(m2, Setup(e, m1, lim).value.1)
    requires CanReserve(m2, lim, ClsOf(TypeOf(e)))
    requires out.At? ==> !LiveSlot(m2, out.offset)
    ensures Setup(e, m1, lim).Some?
    ensures var a := Setup(e, m1, lim).value.0;
            && Correct(e, a, m2, lim, out, ops, s)
            && Untouched(m2, out, s, Exec(ops, lim, m2.planner.base, Prepare(a, m2, lim, out).value.0, s))
  {
    SetupOk(e, m1, lim);
    var a := Setup(e, m1, lim).value.0;
    ExecOk(e, m1, a, m2, lim, out, ops, s);
    KeptIsUntouched(m2, lim, out, s, Exec(ops, lim, m2.planner.base, Prepare(a, m2, lim, out).value.0, s));
  }

  /** No operand that lives in a frame slot and no local variable has changed, apart from the output slot. */
  ghost predicate Untouched(m: Mgr, out: SpillLoc, s: State, s': State) {
    && (forall k :: LiveSlot(m, k) ==> SameCell(s.frame, s'.frame, k))
    && (forall k: nat :: k < m.planner.base && out != At(k) ==> SameCell(s.frame, s'.frame, k))
  }

  lemma KeptIsUntouched(m: Mgr, lim: Limits, out: SpillLoc, s: State, s': State)
    requires MgrOk(m, lim) && FrameKept(m.planner, out, s, s') && (out.At? ==> !LiveSlot(m, out.offset))
    ensures Untouched(m, out, s, s')
  {
    forall k: nat | k < m.planner.base
      ensures !Avail(m.planner, k)
    {
    }
  }

  // ---------- what the chain of each kind of node leaves ----------

  /** Both passes may run on e, as for CompilerCorrect. */
  ghost predicate Ready(e: Expr, m1: Mgr, m2: Mgr, lim: Limits, s: State) {
    && WellTyped(e) && lim.Valid() && MgrOk(m1, lim) && MgrOk(m2, lim) && StateOk(s, lim)
    && (Setup(e, m1, lim).Some? ==> Covers(m2, Setup(e, m1, lim).value.1))
    && CanReserve(m2, lim, ClsOf(TypeOf(e)))
  }

  /** The chain of e leaves v in the next register of class rc, or at out. */
  ghost predicate ChainLeaves(e: Expr, m1: Mgr, m2: Mgr, lim: Limits, out: SpillLoc, ops: Ops, s: State, rc: Cls,
      v: int) {
    && Setup(e, m1, lim).Some? && Compiles(Setup(e, m1, lim).value.0, m2, lim, out) && StateOk(s, lim)
    && var code := Prepare(Setup(e, m1, lim).value.0, m2, lim, out).value.0;
       Computes(m2, lim, rc, out, s, Exec(ops, lim, m2.planner.base, code, s), v)
  }

  lemma ChainLeavesValue(e: Expr, m1: Mgr, m2: Mgr, lim: Limits, out: SpillLoc, ops: Ops, s: State)
    requires Ready(e, m1, m2, lim, s)
    ensures ChainLeaves(e, m1, m2, lim, out, ops, s, ClsOf(TypeOf(e)), Eval(ops, e, Locals(s.frame, m2.planner.base)))
  {
    SetupOk(e, m1, lim);
    ExecOk(e, m1, Setup(e, m1, lim).value.0, m2, lim, out, ops, s);
  }

  /** Arithmetic is the operator on the left and the right operand's value, in this order and in their type. */
  lemma ArithmeticChain(o: ArithOp, l: Expr, r: Expr, m1: Mgr, m2: Mgr, lim: Limits, out: SpillLoc, ops: Ops, s: State)
    requires Ready(Node(Arith(o), l, r), m1, m2, lim, s)
    ensures var locals := Locals(s.frame, m2.planner.base);
            ChainLeaves(Node(Arith(o), l, r), m1, m2, lim, out, ops, s, if TypeOf(l).TFloat? then FltCls else IntCls,
                        ops.arith(o, TypeOf(l), Eval(ops, l, locals), Eval(ops, r, locals)))
  {
    ChainLeavesValue(Node(Arith(o), l, r), m1, m2, lim, out, ops, s);
  }

  /** A comparison leaves 1 in an integral register exactly when it holds of the left and the right value, else 0. */
  lemma ComparisonChain(o: CmpOp, l: Expr, r: Expr, m1: Mgr, m2: Mgr, lim: Limits, out: SpillLoc, ops: Ops, s: State)
    requires Ready(Node(Cmp(o), l, r), m1, m2, lim, s)
    ensures var locals := Locals(s.frame, m2.planner.base);
            var holds := ops.cmp(o, TypeOf(l), Eval(ops, l, locals), Eval(ops, r, locals));
            && ChainLeaves(Node(Cmp(o), l, r), m1, m2, lim, out, ops, s, IntCls, if holds then 1 else 0)
            && TypeOf(Node(Cmp(o), l, r)) == TBool
  {
    ChainLeavesValue(Node(Cmp(o), l, r), m1, m2, lim, out, ops, s);
  }

  /** A tree of subtractions over local variables, each named by its offset. */
  ghost predicate Subtractions(e: Expr, frame: map<nat, int>, base: nat) {
    match e
    case Leaf(_, _, id) => id in frame && id < base
    case Node(op, l, r) => op == Arith(SUB) && Subtractions(l, frame, base) && Subtractions(r, frame, base)
  }

  ghost function Difference(e: Expr, frame: map<nat, int>, base: nat): int
    requires Subtractions(e, frame, base)
  {
    match e
    case Leaf(_, _, id) => frame[id]
    case Node(_, l, r) => Difference(l, frame, base) - Difference(r, frame, base)
  }

  ghost predicate Subtracts(ops: Ops) {
    && (forall ty, a, b :: ops.arith(SUB, ty, a, b) == a - b)
    && (forall id, locals :: id in locals ==> ops.leaf(id, locals) == locals[id])
  }

  lemma {:induction false} DifferenceIsValue(e: Expr, ops: Ops, frame: map<nat, int>, base: nat)
    requires Subtractions(e, frame, base) && Subtracts(ops)
    ensures Eval(ops, e, Locals(frame, base)) == Difference(e, frame, base)
  {
    match e
    case Leaf(_, _, id) => assert id in Locals(frame, base);
    case Node(_, l, r) =>
      DifferenceIsValue(l, ops, frame, base);
      DifferenceIsValue(r, ops, frame, base);
  }

  /** However its nodes are inlined and spilled, a tree of subtractions over locals leaves their difference. */
  lemma SubtractionChain(e: Expr, m1: Mgr, m2: Mgr, lim: Limits, out: SpillLoc, ops: Ops, s: State)
    requires Ready(e, m1, m2, lim, s) && Subtracts(ops) && Subtractions(e, s.frame, m2.planner.base)
    ensures ChainLeaves(e, m1, m2, lim, out, ops, s, if TypeOf(e).TFloat? then FltCls else IntCls,
                        Difference(e, s.frame, m2.planner.base))
  {
    ChainLeavesValue(e, m1, m2, lim, out, ops, s);
    DifferenceIsValue(e, ops, s.frame, m2.planner.base);
  }

  /** A result that is not spilled has a register. */
  predicate RoomForResult(i: Instr, lim: Limits) {
    var rc := match i
              case LoadLeaf(e, _, _, _) => ClsOf(TypeOf(e))
              case FullyInlined(op, l, _, _, _, _) => ResultCls(op, TypeOf(l))
              case PartialInline(op, e, _, _, _, _) => ResultCls(op, TypeOf(e))
              case Outlined(op, ty, _, _, _, _) => ResultCls(op, ty);
    i.out.NoSpill? ==> if rc.IntCls? then CanPush(i.nI, 1, lim.ints) else CanPush(i.nF, 1, lim.flts)
  }

  /**
   The guards leave room for the result exactly where the instance is not an outlined comparison of floating operands
   with an unspilled output and all integral registers taken: there the guard tests spillOutput where its siblings test
   !spillOutput.  By PrepareOk pass 2 never asks for such an instance.
   */
  lemma GuardsLeaveRoom(i: Instr, lim: Limits)
    requires lim.Valid() && Cond(i, lim)
    ensures RoomForResult(i, lim) <==>
      !(i.Outlined? && i.op.Cmp? && ClsOf(i.ty).FltCls? && i.out.NoSpill? && i.nI == lim.ints)
    ensures RoomForResult(i, lim) <==> Runnable(i, lim)
  {
    match i
    case LoadLeaf(_, _, _, _) =>
    case FullyInlined(_, _, _, _, _, _) =>
    case PartialInline(_, _, _, _, _, _) =>
    case Outlined(_, _, _, _, _, _) =>
  }

  /** Such an instance passes its guard. */
  lemma GuardAdmitsFullRegisters(ty: TypeId, cmp: CmpOp, lim: Limits)
    requires lim.Valid() && ty.TFloat? && lim.flts >= 2
    ensures exists i :: Cond(i, lim) && !RoomForResult(i, lim)
  {
    var i := Outlined(Cmp(cmp), ty, NoSpill, NoSpill, lim.ints, 0);
    assert Cond(i, lim) && !RoomForResult(i, lim);
  }
}
