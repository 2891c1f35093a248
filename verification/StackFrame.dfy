/**
 The stack-frame planner, the two operand stacks and the frame manager, as functions on values
 (PochiVM/fastinterp/fastinterp_operand_stack.h).  The classes of FrameManager.dfy are proved
 against these functions.
 A function that returns an Option returns None exactly where the source's assertion fires.
 */
module StackFrame {
  import Arith
  import opened Wrappers

  /** The two register files of the calling convention. */
  datatype Cls = IntCls | FltCls

  /** How many integral and floating operands are kept in registers. */
  datatype Limits = Limits(ints: nat, flts: nat) {
    function Of(c: Cls): nat {
      if c.IntCls? then ints else flts
    }

    ghost predicate Valid() {
      ints >= 1 && flts >= 1
    }
  }

  /** The limits the frame manager is built with. */
  const FASTINTERP_LIMITS := Limits(3, 3)

  datatype SpillLoc = NoSpill | At(offset: nat)

  // ---------- frame planner ----------

  datatype Planner = Planner(base: nat, top: nat, maxEver: nat, free: seq<nat>, oldBases: seq<nat>)

  function UpAlign(value: nat, alignment: nat): (r: nat)
    requires alignment >= 1
    ensures r % alignment == 0 && value <= r < value + alignment
  {
    UpAlignProperty(value, alignment);
    (value + alignment - 1) / alignment * alignment
  }

  lemma UpAlignProperty(value: nat, alignment: nat)
    requires alignment >= 1
    ensures var r := (value + alignment - 1) / alignment * alignment;
            r % alignment == 0 && value <= r < value + alignment
  {
    var q := (value + alignment - 1) / alignment;
    assert q * alignment == (value + alignment - 1) - (value + alignment - 1) % alignment;
    Arith.MulMod(q, alignment);
  }

  function Max(a: nat, b: nat): nat {
    if a < b then b else a
  }

  function GetTemp(p: Planner): (Planner, nat) {
    if |p.free| > 0 then
      (p.(free := p.free[..|p.free| - 1]), p.free[|p.free| - 1])
    else
      (p.(top := p.top + 8, maxEver := Max(p.maxEver, p.top + 8)), p.top)
  }

  function FreeTemp(p: Planner, offset: nat): Option<Planner> {
    if offset % 8 == 0 && p.base <= offset < p.top then Some(p.(free := p.free + [offset])) else None
  }

  /** An 8-byte slot the planner may still hand out. */
  ghost predicate Avail(p: Planner, k: nat) {
    k % 8 == 0 && (k in p.free || k >= p.top)
  }

  ghost predicate PlannerOk(p: Planner) {
    && p.base <= p.top <= p.maxEver
    && p.top % 8 == 0
    && (forall i :: 0 <= i < |p.free| ==> p.free[i] % 8 == 0 && p.base <= p.free[i] < p.top)
    && (forall i, j :: 0 <= i < j < |p.free| ==> p.free[i] != p.free[j])
  }

  lemma GetTempTakes(p: Planner)
    requires PlannerOk(p)
    ensures var (q, off) := GetTemp(p);
            && PlannerOk(q) && q.base == p.base && p.top <= q.top
            && p.base <= off < q.top && Avail(p, off)
            && forall k :: Avail(q, k) <==> Avail(p, k) && k != off
  {
    var (q, off) := GetTemp(p);
    if |p.free| > 0 {
      var n := |p.free| - 1;
      assert p.free == q.free + [off];
      assert forall k :: k in p.free <==> k in q.free || k == off;
      assert off !in q.free;
    } else {
      assert forall k: nat :: Avail(q, k) <==> k % 8 == 0 && k >= p.top + 8;
    }
  }

  lemma FreeTempGives(p: Planner, off: nat)
    requires PlannerOk(p) && off % 8 == 0 && p.base <= off < p.top && !Avail(p, off)
    ensures FreeTemp(p, off).Some?
    ensures var q := FreeTemp(p, off).value;
            && PlannerOk(q) && q.base == p.base && q.top == p.top
            && forall k :: Avail(q, k) <==> Avail(p, k) || k == off
  {
  }

  // ---------- operand stacks ----------

  datatype TempStack = TempStack(ops: seq<SpillLoc>, firstNoSpill: nat)

  /** Operands in registers. */
  function NumNoSpill(st: TempStack): int {
    |st.ops| - st.firstNoSpill
  }

  /** Spilled operands are exactly the bottom firstNoSpill ones; the rest fit in registers. */
  ghost predicate StackOk(st: TempStack, limit: nat) {
    && st.firstNoSpill <= |st.ops|
    && NumNoSpill(st) <= limit
    && forall i :: 0 <= i < |st.ops| ==> (st.ops[i].At? <==> i < st.firstNoSpill)
  }

  function SpillUpTo(p: Planner, st: TempStack, bound: nat): (Planner, TempStack)
    requires bound <= |st.ops|
    decreases bound - st.firstNoSpill
  {
    if st.firstNoSpill < bound then
      var (q, off) := GetTemp(p);
      SpillUpTo(q, TempStack(st.ops[st.firstNoSpill := At(off)], st.firstNoSpill + 1), bound)
    else
      (p, st)
  }

  function StackPush(p: Planner, st: TempStack, limit: nat, spill: bool): Option<(Planner, TempStack)> {
    if spill && |st.ops| > 0 && st.ops[|st.ops| - 1].NoSpill? then None
    else
      var st1 := st.(ops := st.ops + [NoSpill]);
      if spill then Some(SpillUpTo(p, st1, |st1.ops|))
      else if |st1.ops| > limit then Some(SpillUpTo(p, st1, |st1.ops| - limit))
      else Some((p, st1))
  }

  function StackPop(p: Planner, st: TempStack): Option<(Planner, TempStack, SpillLoc)> {
    if |st.ops| == 0 then None
    else
      var loc := st.ops[|st.ops| - 1];
      var ops := st.ops[..|st.ops| - 1];
      var st1 := TempStack(ops, if st.firstNoSpill > |ops| then st.firstNoSpill - 1 else st.firstNoSpill);
      match loc
      case NoSpill => Some((p, st1, loc))
      case At(off) =>
        var q :- FreeTemp(p, off);
        Some((q, st1, loc))
  }

  // ---------- frame manager ----------

  datatype Mgr = Mgr(planner: Planner, ints: TempStack, flts: TempStack) {
    function St(c: Cls): TempStack {
      if c.IntCls? then ints else flts
    }

    function With(p: Planner, c: Cls, st: TempStack): Mgr {
      if c.IntCls? then Mgr(p, st, flts) else Mgr(p, ints, st)
    }

    function InRegs(c: Cls): int {
      NumNoSpill(St(c))
    }
  }

  function PushTemp(m: Mgr, lim: Limits, c: Cls, spill: bool): Option<Mgr> {
    var (p, st) :- StackPush(m.planner, m.St(c), lim.Of(c), spill);
    Some(m.With(p, c, st))
  }

  function PopTemp(m: Mgr, c: Cls): Option<(Mgr, SpillLoc)> {
    var (p, st, loc) :- StackPop(m.planner, m.St(c));
    Some((m.With(p, c, st), loc))
  }

  /** Pushes and pops one operand so that a register is certain to be available. */
  function ReserveTemp(m: Mgr, lim: Limits, c: Cls): Option<Mgr> {
    var m1 :- PushTemp(m, lim, c, false);
    var (m2, loc) :- PopTemp(m1, c);
    if loc.NoSpill? then Some(m2) else None
  }

  predicate CanReserve(m: Mgr, lim: Limits, c: Cls) {
    m.InRegs(c) < lim.Of(c)
  }

  /** Operand i of stack c is live in a frame slot. */
  ghost predicate Spilled(m: Mgr, c: Cls, i: int) {
    0 <= i < |m.St(c).ops| && m.St(c).ops[i].At?
  }

  ghost function Slot(m: Mgr, c: Cls, i: int): nat
    requires Spilled(m, c, i)
  {
    m.St(c).ops[i].offset
  }

  /** Offset k holds some live operand. */
  ghost predicate LiveSlot(m: Mgr, k: nat) {
    exists c, i :: Spilled(m, c, i) && Slot(m, c, i) == k
  }

  /** Live slots are aligned, inside the frame, pairwise distinct and not available. */
  ghost predicate SlotsOk(m: Mgr) {
    && (forall c, i :: Spilled(m, c, i) ==>
          && Slot(m, c, i) % 8 == 0
          && m.planner.base <= Slot(m, c, i) < m.planner.top
          && !Avail(m.planner, Slot(m, c, i)))
    && (forall c, i, d, j :: Spilled(m, c, i) && Spilled(m, d, j) && (c != d || i != j) ==>
          Slot(m, c, i) != Slot(m, d, j))
  }

  ghost predicate MgrOk(m: Mgr, lim: Limits) {
    && PlannerOk(m.planner)
    && StackOk(m.ints, lim.ints)
    && StackOk(m.flts, lim.flts)
    && SlotsOk(m)
  }

  /** The same operands, none of them moved back into a register. */
  ghost predicate Covers(m2: Mgr, m1: Mgr) {
    && |m2.ints.ops| == |m1.ints.ops| && m1.ints.firstNoSpill <= m2.ints.firstNoSpill
    && |m2.flts.ops| == |m1.flts.ops| && m1.flts.firstNoSpill <= m2.flts.firstNoSpill
  }

  /** The same stacks and the same available slots: what compiling one expression leaves behind. */
  ghost predicate Balanced(m2: Mgr, m1: Mgr) {
    && m2.ints == m1.ints && m2.flts == m1.flts
    && m2.planner.base == m1.planner.base
    && m1.planner.top <= m2.planner.top
    && forall k :: Avail(m2.planner, k) <==> Avail(m1.planner, k)
  }

  /** One step of SpillUpTo keeps the manager's invariant, apart from the register limit. */
  ghost predicate LooseOk(m: Mgr, c: Cls, lim: Limits) {
    && PlannerOk(m.planner) && SlotsOk(m)
    && StackOk(m.ints, if c.IntCls? then lim.ints + 1 else lim.ints)
    && StackOk(m.flts, if c.FltCls? then lim.flts + 1 else lim.flts)
  }

  lemma SpillOne(m: Mgr, c: Cls, lim: Limits)
    requires LooseOk(m, c, lim) && m.St(c).firstNoSpill < |m.St(c).ops|
    ensures var (q, off) := GetTemp(m.planner);
            var st := m.St(c);
            LooseOk(m.With(q, c, TempStack(st.ops[st.firstNoSpill := At(off)], st.firstNoSpill + 1)), c, lim)
  {
    GetTempTakes(m.planner);
    var (q, off) := GetTemp(m.planner);
    var st := m.St(c);
    var f := st.firstNoSpill;
    var m' := m.With(q, c, TempStack(st.ops[f := At(off)], f + 1));
    forall d, i | Spilled(m', d, i)
      ensures if d == c && i == f then Slot(m', d, i) == off
              else Spilled(m, d, i) && Slot(m', d, i) == Slot(m, d, i)
    {
    }
  }

  lemma {:induction false} SpillUpToOk(m: Mgr, c: Cls, lim: Limits, bound: nat)
    requires LooseOk(m, c, lim) && bound <= |m.St(c).ops|
    ensures var (q, st) := SpillUpTo(m.planner, m.St(c), bound);
            && LooseOk(m.With(q, c, st), c, lim)
            && |st.ops| == |m.St(c).ops|
            && st.firstNoSpill == Max(m.St(c).firstNoSpill, bound)
            && q.base == m.planner.base
    decreases bound - m.St(c).firstNoSpill
  {
    var st := m.St(c);
    if st.firstNoSpill < bound {
      SpillOne(m, c, lim);
      var (q, off) := GetTemp(m.planner);
      GetTempTakes(m.planner);
      SpillUpToOk(m.With(q, c, TempStack(st.ops[st.firstNoSpill := At(off)], st.firstNoSpill + 1)), c, lim, bound);
    }
  }

  /** A new operand starts out in a register. */
  lemma PushInRegister(m: Mgr, lim: Limits, c: Cls)
    requires MgrOk(m, lim)
    ensures LooseOk(m.With(m.planner, c, m.St(c).(ops := m.St(c).ops + [NoSpill])), c, lim)
  {
    var m1 := m.With(m.planner, c, m.St(c).(ops := m.St(c).ops + [NoSpill]));
    assert forall d, i :: Spilled(m1, d, i) ==> Spilled(m, d, i) && Slot(m1, d, i) == Slot(m, d, i);
  }

  /** Pushing spills just enough of the bottom of the stack, or all of it when asked to. */
  lemma PushOk(m: Mgr, lim: Limits, c: Cls, spill: bool)
    requires MgrOk(m, lim)
    requires spill ==> m.InRegs(c) == 0
    ensures PushTemp(m, lim, c, spill).Some?
    ensures var m' := PushTemp(m, lim, c, spill).value;
            var n := |m.St(c).ops| + 1;
            && MgrOk(m', lim)
            && |m'.St(c).ops| == n
            && m'.St(c).firstNoSpill == (if spill then n
              else Max(m.St(c).firstNoSpill, if n > lim.Of(c) then n - lim.Of(c) else 0))
            && m'.planner.base == m.planner.base
            && (forall d :: d != c ==> m'.St(d) == m.St(d))
  {
    var n := |m.St(c).ops| + 1;
    var bound := if spill then n else if n > lim.Of(c) then n - lim.Of(c) else 0;
    var p, st := PushSpilling(m, lim, c, bound);
    assert PushTemp(m, lim, c, spill) == Some(m.With(p, c, st));
  }

  /** A push that spills up to the bound, which leaves few enough operands in registers. */
  lemma PushSpilling(m: Mgr, lim: Limits, c: Cls, bound: nat) returns (p: Planner, st: TempStack)
    requires MgrOk(m, lim)
    requires |m.St(c).ops| + 1 - lim.Of(c) <= bound <= |m.St(c).ops| + 1
    ensures SpillUpTo(m.planner, m.St(c).(ops := m.St(c).ops + [NoSpill]), bound) == (p, st)
    ensures MgrOk(m.With(p, c, st), lim) && p.base == m.planner.base
    ensures |st.ops| == |m.St(c).ops| + 1 && st.firstNoSpill == Max(m.St(c).firstNoSpill, bound)
  {
    PushInRegister(m, lim, c);
    var m1 := m.With(m.planner, c, m.St(c).(ops := m.St(c).ops + [NoSpill]));
    SpillUpToOk(m1, c, lim, bound);
    var (q, s) := SpillUpTo(m1.planner, m1.St(c), bound);
    p, st := q, s;
    assert m1.With(p, c, st) == m.With(p, c, st);
  }

  /** Popping gives the top operand's slot back and leaves the operands below it alone. */
  lemma PopOk(m: Mgr, lim: Limits, c: Cls)
    requires MgrOk(m, lim) && |m.St(c).ops| > 0
    ensures PopTemp(m, c).Some?
    ensures var (m', loc) := PopTemp(m, c).value;
            var n := |m.St(c).ops| - 1;
            && MgrOk(m', lim)
            && loc == m.St(c).ops[n]
            && m'.St(c).ops == m.St(c).ops[..n]
            && m'.St(c).firstNoSpill == (if m.St(c).firstNoSpill > n then n else m.St(c).firstNoSpill)
            && m'.planner.base == m.planner.base && m'.planner.top == m.planner.top
            && (forall d :: d != c ==> m'.St(d) == m.St(d))
            && (forall k :: Avail(m'.planner, k) <==> Avail(m.planner, k) || (loc.At? && k == loc.offset))
  {
    var n := |m.St(c).ops| - 1;
    var loc := m.St(c).ops[n];
    if loc.At? {
      assert Spilled(m, c, n) && Slot(m, c, n) == loc.offset;
      FreeTempGives(m.planner, loc.offset);
    }
    var (m', _) := PopTemp(m, c).value;
    PopSlots(m, m', c);
  }

  lemma PopSlots(m: Mgr, m': Mgr, c: Cls)
    requires SlotsOk(m) && |m.St(c).ops| > 0
    requires var n := |m.St(c).ops| - 1;
             var loc := m.St(c).ops[n];
             && m'.St(c).ops == m.St(c).ops[..n]
             && (forall d :: d != c ==> m'.St(d) == m.St(d))
             && m'.planner.base == m.planner.base && m'.planner.top == m.planner.top
             && (forall k :: Avail(m'.planner, k) <==> Avail(m.planner, k) || (loc.At? && k == loc.offset))
    ensures SlotsOk(m')
  {
    var n := |m.St(c).ops| - 1;
    var loc := m.St(c).ops[n];
    assert loc.At? ==> Spilled(m, c, n) && Slot(m, c, n) == loc.offset;
    assert forall d, i :: Spilled(m', d, i) ==>
      Spilled(m, d, i) && Slot(m', d, i) == Slot(m, d, i) && (d != c || i != n);
  }

  lemma ReserveOk(m: Mgr, lim: Limits, c: Cls)
    requires MgrOk(m, lim) && lim.Valid()
    ensures PushTemp(m, lim, c, false).Some? && PopTemp(PushTemp(m, lim, c, false).value, c).Some?
    ensures PopTemp(PushTemp(m, lim, c, false).value, c).value.1 == NoSpill
    ensures ReserveTemp(m, lim, c).Some?
    ensures var m' := ReserveTemp(m, lim, c).value;
            && MgrOk(m', lim) && Covers(m', m)
            && CanReserve(m', lim, c)
            && (forall d :: d != c ==> m'.St(d) == m.St(d))
  {
    PushOk(m, lim, c, false);
    var m1 := PushTemp(m, lim, c, false).value;
    PopOk(m1, lim, c);
  }
}
