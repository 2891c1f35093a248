/**
 The frame planner, the operand stacks and the frame manager as the mutable objects of
 PochiVM/fastinterp/fastinterp_operand_stack.h.  Every method is tied to the function of the same
 name in StackFrame.dfy; an assertion of the source is a precondition or an assert statement here.
 */
module FrameManager {
  import opened Wrappers
  import opened StackFrame
  import opened FrameLedger

  class FIStackFramePlanner {
    var m_baseOffset: nat
    var m_topOffset: nat
    var m_maxOffsetEver: nat
    var m_freeList: seq<nat>
    var m_oldAddress: seq<nat>

    function View(): Planner
      reads this
    {
      Planner(m_baseOffset, m_topOffset, m_maxOffsetEver, m_freeList, m_oldAddress)
    }

    constructor (startOffset: nat)
      requires startOffset % 8 == 0
      ensures View() == ResetPlanner(startOffset)
    {
      m_baseOffset, m_topOffset, m_maxOffsetEver := startOffset, startOffset, startOffset;
      m_freeList, m_oldAddress := [], [];
    }

    method Reset(startOffset: nat)
      requires startOffset % 8 == 0
      modifies this
      ensures View() == ResetPlanner(startOffset)
    {
      m_baseOffset := startOffset;
      m_topOffset := startOffset;
      m_maxOffsetEver := startOffset;
      m_freeList := [];
      m_oldAddress := [];
    }

    method GetTemp() returns (result: nat)
      requires PlannerOk(View())
      modifies this
      ensures (View(), result) == StackFrame.GetTemp(old(View()))
    {
      if |m_freeList| > 0 {
        result := m_freeList[|m_freeList| - 1];
        m_freeList := m_freeList[..|m_freeList| - 1];
      } else {
        assert m_topOffset % 8 == 0;
        result := m_topOffset;
        m_topOffset := m_topOffset + 8;
        UpdateMaxOffsetEver();
      }
    }

    method FreeTemp(offset: nat)
      requires offset % 8 == 0 && m_baseOffset <= offset < m_topOffset
      modifies this
      ensures StackFrame.FreeTemp(old(View()), offset) == Some(View())
    {
      m_freeList := m_freeList + [offset];
    }

    method UpdateMaxOffsetEver()
      modifies `m_maxOffsetEver
      ensures m_maxOffsetEver == Max(old(m_maxOffsetEver), m_topOffset)
    {
      if m_maxOffsetEver < m_topOffset {
        m_maxOffsetEver := m_topOffset;
      }
    }

    /** Counts free slots against all slots: equal exactly when every slot of the temporary area is free. */
    method IsNoTempInUse() returns (r: bool)
      requires PlannerOk(View()) && UpAlign(m_baseOffset, 8) <= m_topOffset
      ensures r <==> NoTempInUse(View())
    {
      var bottom := UpAlign(m_baseOffset, 8);
      var count := (m_topOffset - bottom) / 8;
      FreeCount(View());
      CheckFreeList(m_freeList, bottom, m_topOffset);
      r := count == |m_freeList|;
    }

    /** The sanity check of the source: no assertion in it can fire. */
    static method CheckFreeList(freeList: seq<nat>, bottom: nat, top: nat)
      requires bottom % 8 == 0 && top % 8 == 0 && bottom <= top
      requires forall i :: 0 <= i < |freeList| ==> freeList[i] % 8 == 0 && bottom <= freeList[i] < top
      requires forall i, j :: 0 <= i < j < |freeList| ==> freeList[i] != freeList[j]
    {
      var count := (top - bottom) / 8;
      var used := new bool[count](_ => false);
      for i := 0 to |freeList|
        invariant forall o :: 0 <= o < count && used[o] ==> bottom + 8 * o in freeList[..i]
      {
        var offset := SlotIndex(bottom, top, freeList[i]);
        assert 0 <= offset < count && !used[offset];
        used[offset] := true;
        assert freeList[..i + 1] == freeList[..i] + [freeList[i]];
      }
    }

    method GetLocalVar(size: nat, alignment: nat) returns (result: nat)
      requires alignment >= 1
      requires PlannerOk(View()) && UpAlign(m_baseOffset, 8) <= m_topOffset && NoTempInUse(View())
      modifies this
      ensures (View(), result) == FrameLedger.GetLocalVar(old(View()), size, alignment)
    {
      m_oldAddress := m_oldAddress + [m_baseOffset];
      m_baseOffset := UpAlign(m_baseOffset, alignment);
      result := m_baseOffset;
      m_baseOffset := m_baseOffset + size;
      m_topOffset := UpAlign(m_baseOffset, 8);
      m_freeList := [];
      UpdateMaxOffsetEver();
    }

    method PopLocalVar()
      requires PlannerOk(View()) && UpAlign(m_baseOffset, 8) <= m_topOffset && NoTempInUse(View())
      requires m_oldAddress != []
      modifies this
      ensures View() == FrameLedger.PopLocalVar(old(View()))
    {
      m_baseOffset := m_oldAddress[|m_oldAddress| - 1];
      m_oldAddress := m_oldAddress[..|m_oldAddress| - 1];
      m_topOffset := UpAlign(m_baseOffset, 8);
      m_freeList := [];
    }
  }

  class FITempOperandStack {
    const m_sfPlanner: FIStackFramePlanner
    const m_nospillLimit: nat
    var m_stack: seq<SpillLoc>
    var m_firstNoSpill: nat

    function View(): TempStack
      reads this
    {
      TempStack(m_stack, m_firstNoSpill)
    }

    constructor (sfPlanner: FIStackFramePlanner, nospillLimit: nat)
      ensures m_sfPlanner == sfPlanner && m_nospillLimit == nospillLimit
      ensures View() == TempStack([], 0)
    {
      m_sfPlanner, m_nospillLimit := sfPlanner, nospillLimit;
      m_stack, m_firstNoSpill := [], 0;
    }

    method Push(spill: bool)
      requires PlannerOk(m_sfPlanner.View())
      requires m_firstNoSpill <= |m_stack|
      requires spill && |m_stack| > 0 ==> m_stack[|m_stack| - 1].At?
      modifies this, m_sfPlanner
      ensures StackPush(old(m_sfPlanner.View()), old(View()), m_nospillLimit, spill) ==
        Some((m_sfPlanner.View(), View()))
    {
      m_stack := m_stack + [NoSpill];
      if spill {
        SpillUpTo(|m_stack|);
      } else if |m_stack| > m_nospillLimit {
        SpillUpTo(|m_stack| - m_nospillLimit);
      }
    }

    method SpillUpTo(bound: nat)
      requires PlannerOk(m_sfPlanner.View())
      requires bound <= |m_stack|
      modifies this, m_sfPlanner
      ensures StackFrame.SpillUpTo(old(m_sfPlanner.View()), old(View()), bound) == (m_sfPlanner.View(), View())
    {
      while m_firstNoSpill < bound
        invariant PlannerOk(m_sfPlanner.View()) && bound <= |m_stack|
        invariant StackFrame.SpillUpTo(old(m_sfPlanner.View()), old(View()), bound)
               == StackFrame.SpillUpTo(m_sfPlanner.View(), View(), bound)
      {
        GetTempTakes(m_sfPlanner.View());
        var slot := m_sfPlanner.GetTemp();
        m_stack := m_stack[m_firstNoSpill := At(slot)];
        m_firstNoSpill := m_firstNoSpill + 1;
      }
    }

    method Peek() returns (loc: SpillLoc)
      requires m_stack != []
      ensures loc == m_stack[|m_stack| - 1]
    {
      loc := m_stack[|m_stack| - 1];
    }

    method Pop() returns (loc: SpillLoc)
      requires m_stack != [] && m_firstNoSpill <= |m_stack|
      requires var top := m_stack[|m_stack| - 1];
               top.At? ==> FreeTemp(m_sfPlanner.View(), top.offset).Some?
      modifies this, m_sfPlanner
      ensures StackPop(old(m_sfPlanner.View()), old(View())) == Some((m_sfPlanner.View(), View(), loc))
    {
      loc := m_stack[|m_stack| - 1];
      m_stack := m_stack[..|m_stack| - 1];
      if m_firstNoSpill > |m_stack| {
        m_firstNoSpill := m_firstNoSpill - 1;
        assert m_firstNoSpill == |m_stack|;
      }
      if loc.At? {
        m_sfPlanner.FreeTemp(loc.offset);
      }
    }

    method GetNumNoSpill() returns (result: nat)
      requires StackOk(View(), m_nospillLimit)
      ensures result == NumNoSpill(View()) && result <= m_nospillLimit
    {
      result := |m_stack| - m_firstNoSpill;
    }
  }

  class FIStackFrameManager {
    const m_planner: FIStackFramePlanner
    const m_integralOperandStack: FITempOperandStack
    const m_floatOperandStack: FITempOperandStack
    ghost const Repr: set<object>

    ghost predicate Wired()
    {
      && Repr == {m_planner, m_integralOperandStack, m_floatOperandStack}
      && m_integralOperandStack != m_floatOperandStack
      && m_integralOperandStack.m_sfPlanner == m_planner == m_floatOperandStack.m_sfPlanner
      && m_integralOperandStack.m_nospillLimit == FASTINTERP_LIMITS.ints
      && m_floatOperandStack.m_nospillLimit == FASTINTERP_LIMITS.flts
    }

    function View(): Mgr
      reads m_planner, m_integralOperandStack, m_floatOperandStack
    {
      Mgr(m_planner.View(), m_integralOperandStack.View(), m_floatOperandStack.View())
    }

    ghost predicate Valid()
      reads m_planner, m_integralOperandStack, m_floatOperandStack
    {
      Wired() && MgrOk(View(), FASTINTERP_LIMITS)
    }

    constructor (startOffset: nat)
      requires startOffset % 8 == 0
      ensures Valid() && fresh(Repr)
      ensures View() == Mgr(ResetPlanner(startOffset), TempStack([], 0), TempStack([], 0))
    {
      var p := new FIStackFramePlanner(startOffset);
      var i := new FITempOperandStack(p, FASTINTERP_LIMITS.ints);
      var f := new FITempOperandStack(p, FASTINTERP_LIMITS.flts);
      m_planner, m_integralOperandStack, m_floatOperandStack := p, i, f;
      Repr := {p, i, f};
    }

    method PushTemp(c: Cls, spill: bool)
      requires Valid() && (spill ==> View().InRegs(c) == 0)
      modifies Repr
      ensures Valid() && StackFrame.PushTemp(old(View()), FASTINTERP_LIMITS, c, spill) == Some(View())
    {
      PushOk(View(), FASTINTERP_LIMITS, c, spill);
      if c.FltCls? {
        m_floatOperandStack.Push(spill);
      } else {
        m_integralOperandStack.Push(spill);
      }
    }

    method PopTemp(c: Cls) returns (loc: SpillLoc)
      requires Valid() && View().St(c).ops != []
      modifies Repr
      ensures Valid() && StackFrame.PopTemp(old(View()), c) == Some((View(), loc))
    {
      PopOk(View(), FASTINTERP_LIMITS, c);
      if c.FltCls? {
        loc := m_floatOperandStack.Pop();
      } else {
        loc := m_integralOperandStack.Pop();
      }
    }

    method CanReserveWithoutSpill(c: Cls) returns (r: bool)
      requires Valid()
      ensures r == CanReserve(View(), FASTINTERP_LIMITS, c)
    {
      var n;
      if c.FltCls? {
        n := m_floatOperandStack.GetNumNoSpill();
      } else {
        n := m_integralOperandStack.GetNumNoSpill();
      }
      r := n < FASTINTERP_LIMITS.Of(c);
    }

    method ReserveTemp(c: Cls)
      requires Valid()
      modifies Repr
      ensures Valid() && StackFrame.ReserveTemp(old(View()), FASTINTERP_LIMITS, c) == Some(View())
    {
      ReserveOk(View(), FASTINTERP_LIMITS, c);
      PushOk(View(), FASTINTERP_LIMITS, c, false);
      PushTemp(c, false);
      var result := PopTemp(c);
      assert result.NoSpill?;
    }

    method GetNumNoSpillIntegral() returns (r: nat)
      requires Valid()
      ensures r == View().InRegs(IntCls)
    {
      r := m_integralOperandStack.GetNumNoSpill();
    }

    method GetNumNoSpillFloat() returns (r: nat)
      requires Valid()
      ensures r == View().InRegs(FltCls)
    {
      r := m_floatOperandStack.GetNumNoSpill();
    }
  }
}
