/**
 The two passes as methods of mutable AST nodes (PochiVM/pochivm/arith_expr_fastinterp.cpp): pass 1
 writes its decisions into the nodes, pass 2 reads them back, and both drive one frame manager.
 Each is proved against the function of Compiler.dfy; pass 2 promises the compiled code is correct.
 */
module ExprNodes {
  import opened Wrappers
  import opened StackFrame
  import FrameManager
  import opened Compiler

  class AstNode {
    /** The immutable part of the node: its operator or leaf description, its type and its operands. */
    const tree: Expr
    const m_lhs: AstNode?
    const m_rhs: AstNode?
    var m_fiInlineShape: Option<FIShape>
    var m_fiIsLhsSpill: bool

    ghost const nodes: set<AstNode>

    constructor LeafNode(ty: TypeId, shape: LeafShape, id: nat)
      ensures Wf() && fresh(nodes) && tree == Leaf(ty, shape, id) && Untouched() && WellTyped(tree)
    {
      tree, m_lhs, m_rhs := Leaf(ty, shape, id), null, null;
      m_fiInlineShape, m_fiIsLhsSpill := None, false;
      nodes := {this};
    }

    constructor OpNode(op: Op, lhs: AstNode, rhs: AstNode)
      requires lhs.Wf() && rhs.Wf() && lhs.nodes !! rhs.nodes
      requires lhs.Untouched() && rhs.Untouched()
      ensures Wf() && fresh(nodes - lhs.nodes - rhs.nodes) && tree == Node(op, lhs.tree, rhs.tree) && Untouched()
      ensures WellTyped(tree) <==>
        WellTyped(lhs.tree) && WellTyped(rhs.tree) && TypeOf(lhs.tree) == TypeOf(rhs.tree) &&
        Operates(op, TypeOf(lhs.tree))
    {
      tree, m_lhs, m_rhs := Node(op, lhs.tree, rhs.tree), lhs, rhs;
      m_fiInlineShape, m_fiIsLhsSpill := None, false;
      nodes := {this} + lhs.nodes + rhs.nodes;
    }

    /** The objects below this node form the tree of its expression, without sharing. */
    ghost predicate Wf()
      decreases tree
    {
      match tree
      case Leaf(_, _, _) => m_lhs == null && m_rhs == null && nodes == {this}
      case Node(op, l, r) =>
        && m_lhs != null && m_rhs != null
        && m_lhs.tree == l && m_rhs.tree == r && m_lhs.Wf() && m_rhs.Wf()
        && this !in m_lhs.nodes && this !in m_rhs.nodes && m_lhs.nodes !! m_rhs.nodes
        && nodes == {this} + m_lhs.nodes + m_rhs.nodes
    }

    /** Pass 1 has not visited any of the nodes. */
    ghost predicate Untouched()
      reads nodes
    {
      forall n :: n in nodes ==> n.m_fiInlineShape == None
    }

    /** The fields of the nodes hold the annotation a, wherever pass 2 will look. */
    ghost predicate Annotated(a: Ann)
      requires Wf()
      reads this, nodes
      decreases tree
    {
      match tree
      case Leaf(_, _, _) => a == ALeaf(tree)
      case Node(op, l, r) =>
        && a.ANode? && a.op == op && m_fiInlineShape == Some(a.shape)
        && match a.shape
           case INLINE_BOTH => a.lhs == ALeaf(l) && a.rhs == ALeaf(r)
           case INLINE_LHS => a.lhs == ALeaf(l) && m_rhs.Annotated(a.rhs)
           case INLINE_RHS => m_lhs.Annotated(a.lhs) && a.rhs == ALeaf(r)
           case OUTLINE => a.lhsSpill == m_fiIsLhsSpill && m_lhs.Annotated(a.lhs) && m_rhs.Annotated(a.rhs)
    }

    /** Pass 1: does what Setup does and records its decisions in the nodes. */
    method FastInterpSetupSpillLocation(mgr: FrameManager.FIStackFrameManager)
      requires Wf() && Untouched() && mgr.Valid()
      requires Setup(tree, mgr.View(), FASTINTERP_LIMITS).Some?
      modifies nodes, mgr.Repr
      ensures mgr.Valid()
      ensures mgr.View() == Setup(tree, old(mgr.View()), FASTINTERP_LIMITS).value.1
      ensures Annotated(Setup(tree, old(mgr.View()), FASTINTERP_LIMITS).value.0)
      decreases tree, 1
    {
      assert forall n: AstNode :: n !in mgr.Repr;
      if tree.Node? {
        var c := ClsOf(TypeOf(m_lhs.tree));
        if BothInline(tree.op, m_lhs.tree, m_rhs.tree) {
          m_fiInlineShape := Some(INLINE_BOTH);
        } else if OperandMatch(m_lhs.tree) {
          m_fiInlineShape := Some(INLINE_LHS);
          mgr.ReserveTemp(c);
          m_rhs.FastInterpSetupSpillLocation(mgr);
        } else if RhsInline(tree.op, m_rhs.tree) {
          m_fiInlineShape := Some(INLINE_RHS);
          mgr.ReserveTemp(c);
          m_lhs.FastInterpSetupSpillLocation(mgr);
        } else {
          SetupOutlined(mgr);
        }
      }
    }

    method SetupOutlined(mgr: FrameManager.FIStackFrameManager)
      requires Wf() && Untouched() && mgr.Valid() && IsOutline(tree)
      requires Setup(tree, mgr.View(), FASTINTERP_LIMITS).Some?
      modifies nodes, mgr.Repr
      ensures mgr.Valid()
      ensures mgr.View() == Setup(tree, old(mgr.View()), FASTINTERP_LIMITS).value.1
      ensures Annotated(Setup(tree, old(mgr.View()), FASTINTERP_LIMITS).value.0)
      decreases tree, 0
    {
      assert forall n: AstNode :: n !in mgr.Repr;
      ghost var a := Setup(tree, mgr.View(), FASTINTERP_LIMITS).value.0;
      m_fiInlineShape := Some(OUTLINE);
      m_fiIsLhsSpill := SetupOperands(mgr);
    }

    /** Visits the right operand, then the left one. */
    method SetupOperands(mgr: FrameManager.FIStackFrameManager) returns (isLhsSpill: bool)
      requires Wf() && m_lhs != null && m_lhs.Untouched() && m_rhs.Untouched() && mgr.Valid() && IsOutline(tree)
      requires Setup(tree, mgr.View(), FASTINTERP_LIMITS).Some?
      modifies m_lhs.nodes, m_rhs.nodes, mgr.Repr
      ensures mgr.Valid()
      ensures var (a, m) := Setup(tree, old(mgr.View()), FASTINTERP_LIMITS).value;
              && mgr.View() == m && isLhsSpill == a.lhsSpill
              && m_lhs.Annotated(a.lhs) && m_rhs.Annotated(a.rhs)
      decreases tree, 0, 0
    {
      assert forall n: AstNode :: n !in mgr.Repr;
      ghost var a := Setup(tree, mgr.View(), FASTINTERP_LIMITS).value.0;
      var spillLoc := m_rhs.SetupAsRightOperand(mgr, ClsOf(TypeOf(m_lhs.tree)));
      isLhsSpill := spillLoc.At?;
      assert m_rhs.Annotated(a.rhs);
      m_lhs.FastInterpSetupSpillLocation(mgr);
    }

    /** Visits this node while the left operand of its parent is on the stack. */
    method SetupAsRightOperand(mgr: FrameManager.FIStackFrameManager, c: Cls) returns (spillLoc: SpillLoc)
      requires Wf() && Untouched() && mgr.Valid()
      requires SetupRight(tree, mgr.View(), FASTINTERP_LIMITS, c).Some?
      modifies nodes, mgr.Repr
      ensures mgr.Valid()
      ensures SetupRight(tree, old(mgr.View()), FASTINTERP_LIMITS, c).value.1 == mgr.View()
      ensures SetupRight(tree, old(mgr.View()), FASTINTERP_LIMITS, c).value.2 == spillLoc
      ensures Annotated(SetupRight(tree, old(mgr.View()), FASTINTERP_LIMITS, c).value.0)
      decreases tree, 2
    {
      assert forall n: AstNode :: n !in mgr.Repr;
      mgr.PushTemp(c, false);
      mgr.ReserveTemp(c);
      FastInterpSetupSpillLocation(mgr);
      spillLoc := mgr.PopTemp(c);
    }

    /** Pass 2: does what Prepare does whenever that trips no assertion. */
    method PrepareForFastInterp(mgr: FrameManager.FIStackFrameManager, spillLoc: SpillLoc, ghost a: Ann)
        returns (code: seq<Instr>)
      requires Wf() && Annotated(a) && mgr.Valid()
      requires Prepare(a, mgr.View(), FASTINTERP_LIMITS, spillLoc).Some?
      modifies mgr.Repr
      ensures mgr.Valid()
      ensures Prepare(a, old(mgr.View()), FASTINTERP_LIMITS, spillLoc) == Some((code, mgr.View()))
      decreases tree, 1
    {
      AnnotatedErases(a);
      if tree.Leaf? {
        code := EmitLeaf(mgr, spillLoc);
      } else {
        match m_fiInlineShape.value
        case INLINE_BOTH =>
          assert BothInline(tree.op, m_lhs.tree, m_rhs.tree);
          var numOIP := mgr.GetNumNoSpillIntegral();
          var numOFP := mgr.GetNumNoSpillFloat();
          if tree.op.Cmp? {
            numOFP := FASTINTERP_LIMITS.flts;
          }
          code := [FullyInlined(tree.op, m_lhs.tree, m_rhs.tree, spillLoc, numOIP, numOFP)];
        case INLINE_LHS => code := EmitPartial(mgr, spillLoc, a);
        case INLINE_RHS => code := EmitPartial(mgr, spillLoc, a);
        case OUTLINE => code := EmitOutlined(mgr, spillLoc, a);
      }
    }

    lemma AnnotatedErases(a: Ann)
      requires Wf() && Annotated(a)
      ensures Erase(a) == tree
      decreases tree
    {
      if tree.Node? {
        match a.shape
        case INLINE_BOTH =>
        case INLINE_LHS => m_rhs.AnnotatedErases(a.rhs);
        case INLINE_RHS => m_lhs.AnnotatedErases(a.lhs);
        case OUTLINE =>
          m_lhs.AnnotatedErases(a.lhs);
          m_rhs.AnnotatedErases(a.rhs);
      }
    }

    /** Emits this node while the left operand of its parent is on the stack. */
    method PrepareAsRightOperand(mgr: FrameManager.FIStackFrameManager, c: Cls, lhsSpill: bool, ghost a: Ann)
      returns (code: seq<Instr>, lhsSpillLoc: SpillLoc)
      requires Wf() && Annotated(a) && mgr.Valid()
      requires PrepareRight(a, mgr.View(), FASTINTERP_LIMITS, c, lhsSpill).Some?
      modifies mgr.Repr
      ensures mgr.Valid()
      ensures PrepareRight(a, old(mgr.View()), FASTINTERP_LIMITS, c, lhsSpill) == Some((code, mgr.View(), lhsSpillLoc))
      decreases tree, 2
    {
      assert forall n: AstNode :: n !in mgr.Repr;
      mgr.PushTemp(c, lhsSpill);
      var ok := mgr.CanReserveWithoutSpill(c);
      assert ok;
      code := PrepareForFastInterp(mgr, NoSpill, a);
      lhsSpillLoc := mgr.PopTemp(c);
      assert lhsSpill <==> lhsSpillLoc.At?;
    }

    method EmitLeaf(mgr: FrameManager.FIStackFrameManager, spillLoc: SpillLoc) returns (code: seq<Instr>)
      requires tree.Leaf? && mgr.Valid()
      ensures Prepare(ALeaf(tree), mgr.View(), FASTINTERP_LIMITS, spillLoc) == Some((code, mgr.View()))
    {
      var numOIP := mgr.GetNumNoSpillIntegral();
      var numOFP := mgr.GetNumNoSpillFloat();
      if spillLoc.At? {
        numOIP, numOFP := FASTINTERP_LIMITS.ints, FASTINTERP_LIMITS.flts;
      } else if tree.ty.TFloat? {
        numOIP := FASTINTERP_LIMITS.ints;
      } else {
        numOFP := FASTINTERP_LIMITS.flts;
      }
      code := [LoadLeaf(tree, spillLoc, numOIP, numOFP)];
    }

    method EmitPartial(mgr: FrameManager.FIStackFrameManager, spillLoc: SpillLoc, ghost a: Ann)
        returns (code: seq<Instr>)
      requires Wf() && Annotated(a) && Erase(a) == tree && mgr.Valid() && tree.Node?
      requires Prepare(a, mgr.View(), FASTINTERP_LIMITS, spillLoc).Some?
      requires a.shape.INLINE_LHS? || a.shape.INLINE_RHS?
      modifies mgr.Repr
      ensures mgr.Valid()
      ensures Prepare(a, old(mgr.View()), FASTINTERP_LIMITS, spillLoc) == Some((code, mgr.View()))
      decreases tree, 0
    {
      var isInlineSideLhs := m_fiInlineShape.value.INLINE_LHS?;
      var c := ClsOf(TypeOf(m_lhs.tree));
      var ok := mgr.CanReserveWithoutSpill(c);
      assert ok;
      var matchSide, outlineSide;
      if isInlineSideLhs {
        assert OperandMatch(m_lhs.tree);
        matchSide := m_lhs.tree;
        outlineSide := m_rhs.PrepareForFastInterp(mgr, NoSpill, a.rhs);
      } else {
        assert RhsInline(tree.op, m_rhs.tree);
        matchSide := m_rhs.tree;
        outlineSide := m_lhs.PrepareForFastInterp(mgr, NoSpill, a.lhs);
      }
      var numOIP := mgr.GetNumNoSpillIntegral();
      var numOFP := mgr.GetNumNoSpillFloat();
      if tree.op.Arith? && TypeOf(matchSide).TFloat? {
        numOIP := FASTINTERP_LIMITS.ints;
      }
      if !TypeOf(matchSide).TFloat? {
        numOFP := FASTINTERP_LIMITS.flts;
      }
      code := outlineSide + [PartialInline(tree.op, matchSide, isInlineSideLhs, spillLoc, numOIP, numOFP)];
    }

    method EmitOutlined(mgr: FrameManager.FIStackFrameManager, spillLoc: SpillLoc, ghost a: Ann)
        returns (code: seq<Instr>)
      requires Wf() && Annotated(a) && Erase(a) == tree && mgr.Valid() && tree.Node?
      requires Prepare(a, mgr.View(), FASTINTERP_LIMITS, spillLoc).Some?
      requires a.shape.OUTLINE?
      modifies mgr.Repr
      ensures mgr.Valid()
      ensures Prepare(a, old(mgr.View()), FASTINTERP_LIMITS, spillLoc) == Some((code, mgr.View()))
      decreases tree, 0
    {
      assert forall n: AstNode :: n !in mgr.Repr;
      var c := ClsOf(TypeOf(m_lhs.tree));
      var rhs, lhsSpillLoc := m_rhs.PrepareAsRightOperand(mgr, c, m_fiIsLhsSpill, a.rhs);
      var lhs := m_lhs.PrepareForFastInterp(mgr, lhsSpillLoc, a.lhs);
      var numOIP := mgr.GetNumNoSpillIntegral();
      var numOFP := mgr.GetNumNoSpillFloat();
      if tree.op.Cmp? && c.IntCls? {
        numOFP := FASTINTERP_LIMITS.flts;
      }
      code := lhs + rhs + [Outlined(tree.op, TypeOf(m_lhs.tree), lhsSpillLoc, spillLoc, numOIP, numOFP)];
    }
  }

  lemma AlwaysCorrect(e: Expr, m1: Mgr, a: Ann, m2: Mgr, lim: Limits, out: SpillLoc)
    requires Agreed(e, m1, a, m2, lim)
    ensures Compiles(a, m2, lim, out)
    ensures forall ops, s :: StateOk(s, lim) ==> Correct(e, a, m2, lim, out, ops, s)
  {
    PrepareOk(e, m1, a, m2, lim, out);
    forall ops, s | StateOk(s, lim)
      ensures Correct(e, a, m2, lim, out, ops, s)
    {
      ExecOk(e, m1, a, m2, lim, out, ops, s);
    }
  }

  /**
   Both passes over one expression with one manager, as a statement runs them after reserving a
   register for the result: from any valid operand stacks, the code computes the expression.
   */
  method CompileExpression(root: AstNode, mgr: FrameManager.FIStackFrameManager, spillLoc: SpillLoc)
    returns (code: seq<Instr>, ghost a: Ann, ghost m: Mgr)
    requires root.Wf() && root.Untouched() && WellTyped(root.tree) && mgr.Valid()
    modifies root.nodes, mgr.Repr
    ensures mgr.Valid() && Covers(m, old(mgr.View())) && Balanced(mgr.View(), m)
    ensures Prepare(a, m, FASTINTERP_LIMITS, spillLoc) == Some((code, mgr.View()))
    ensures forall i :: i in code ==> 0 <= i.nI <= 3 && 0 <= i.nF <= 3
    ensures forall ops, s :: StateOk(s, FASTINTERP_LIMITS) ==>
              Correct(root.tree, a, m, FASTINTERP_LIMITS, spillLoc, ops, s)
  {
    var c := ClsOf(TypeOf(root.tree));
    ReserveOk(mgr.View(), FASTINTERP_LIMITS, c);
    mgr.ReserveTemp(c);
    ghost var m1 := mgr.View();
    SetupOk(root.tree, m1, FASTINTERP_LIMITS);
    root.FastInterpSetupSpillLocation(mgr);
    m := mgr.View();
    a := Setup(root.tree, m1, FASTINTERP_LIMITS).value.0;
    AlwaysCorrect(root.tree, m1, a, m, FASTINTERP_LIMITS, spillLoc);
    code := root.PrepareForFastInterp(mgr, spillLoc, a);
  }
}
