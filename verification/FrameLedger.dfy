/**
 Safety of the frame planner over every legal sequence of operations: a ledger of what is live is
 kept beside the planner's state (PochiVM/fastinterp/fastinterp_operand_stack.h:32-123).
 */
module FrameLedger {
  import Arith
  import opened Wrappers
  import opened StackFrame

  function ResetPlanner(start: nat): Planner {
    Planner(start, start, start, [], [])
  }

  function GetLocalVar(p: Planner, size: nat, alignment: nat): (Planner, nat)
    requires alignment >= 1
  {
    var off := UpAlign(p.base, alignment);
    var top := UpAlign(off + size, 8);
    (Planner(off + size, top, Max(p.maxEver, top), [], p.oldBases + [p.base]), off)
  }

  function PopLocalVar(p: Planner): Planner
    requires p.oldBases != []
  {
    var base := p.oldBases[|p.oldBases| - 1];
    Planner(base, UpAlign(base, 8), p.maxEver, [], p.oldBases[..|p.oldBases| - 1])
  }

  /** An 8-byte slot of the temporary area. */
  ghost predicate TempSlot(p: Planner, k: nat) {
    k % 8 == 0 && UpAlign(p.base, 8) <= k < p.top
  }

  ghost predicate NoTempInUse(p: Planner) {
    forall k :: TempSlot(p, k) ==> k in p.free
  }

  /** The position of slot k in a temporary area from bottom to top. */
  function SlotIndex(bottom: nat, top: nat, k: nat): (o: nat)
    requires bottom % 8 == 0 && top % 8 == 0 && k % 8 == 0 && bottom <= k < top
    ensures bottom + 8 * o == k && o < (top - bottom) / 8
  {
    (k - bottom) / 8
  }

  /** Slots are 8 bytes apart. */
  lemma NextSlot(a: nat, k: nat)
    requires a % 8 == 0
    ensures k % 8 == 0 && a <= k < a + 8 <==> k == a
    ensures k % 8 == 0 && k < a ==> k + 8 <= a
  {
  }

  lemma Eighths(a: nat, b: nat)
    requires a % 8 == 0 && b % 8 == 0
    ensures a == 8 * (a / 8)
    ensures a < b <==> a / 8 < b / 8
    ensures b >= a ==> (b - a) / 8 == b / 8 - a / 8
  {
  }

  /** The free list has as many entries as there are slots exactly when no slot is in use. */
  lemma FreeCount(p: Planner)
    requires PlannerOk(p) && UpAlign(p.base, 8) <= p.top
    ensures forall i :: 0 <= i < |p.free| ==> TempSlot(p, p.free[i])
    ensures |p.free| == (p.top - UpAlign(p.base, 8)) / 8 <==> NoTempInUse(p)
  {
    var bottom := UpAlign(p.base, 8);
    var indices := seq(|p.free|, i requires 0 <= i < |p.free| => p.free[i] / 8);
    Eighths(bottom, p.top);
    forall i | 0 <= i < |p.free|
      ensures bottom <= p.free[i] && bottom / 8 <= indices[i] < p.top / 8
    {
      FreeSlotIndex(p, i);
    }
    forall i, j | 0 <= i < j < |p.free|
      ensures indices[i] != indices[j]
    {
      EighthsDiffer(p.free[i], p.free[j]);
    }
    Arith.CountInRange(indices, bottom / 8, p.top / 8);
    AllSlotsAllIndices(p, indices);
  }

  lemma EighthsDiffer(a: nat, b: nat)
    requires a % 8 == 0 && b % 8 == 0 && a != b
    ensures a / 8 != b / 8
  {
  }

  lemma FreeSlotIndex(p: Planner, i: nat)
    requires PlannerOk(p) && i < |p.free| && UpAlign(p.base, 8) <= p.top
    ensures UpAlign(p.base, 8) <= p.free[i]
    ensures UpAlign(p.base, 8) / 8 <= p.free[i] / 8 < p.top / 8
  {
    var k, bottom := p.free[i], UpAlign(p.base, 8);
    if k < bottom {
      NextSlot(bottom, k);
    }
    Eighths(k, p.top);
  }

  lemma AllSlotsAllIndices(p: Planner, indices: seq<int>)
    requires PlannerOk(p) && UpAlign(p.base, 8) <= p.top
    requires |indices| == |p.free| && forall i :: 0 <= i < |p.free| ==> indices[i] == p.free[i] / 8
    ensures NoTempInUse(p) <==> forall o :: UpAlign(p.base, 8) / 8 <= o < p.top / 8 ==> o in indices
  {
    var bottom := UpAlign(p.base, 8);
    if NoTempInUse(p) {
      forall o | bottom / 8 <= o < p.top / 8
        ensures o in indices
      {
        Eighths(8 * o, bottom);
        Eighths(8 * o, p.top);
        assert TempSlot(p, 8 * o);
        SlotOrIndex(p, indices, 8 * o);
      }
    }
    if forall o :: bottom / 8 <= o < p.top / 8 ==> o in indices {
      forall k: nat | TempSlot(p, k)
        ensures k in p.free
      {
        SlotOrIndex(p, indices, k);
      }
    }
  }

  lemma SlotOrIndex(p: Planner, indices: seq<int>, k: nat)
    requires PlannerOk(p) && TempSlot(p, k)
    requires |indices| == |p.free| && forall i :: 0 <= i < |p.free| ==> indices[i] == p.free[i] / 8
    ensures k in p.free <==> k / 8 in indices
    ensures UpAlign(p.base, 8) / 8 <= k / 8 < p.top / 8
  {
    Eighths(k, UpAlign(p.base, 8));
    Eighths(k, p.top);
    if k / 8 in indices {
      var i :| 0 <= i < |indices| && indices[i] == k / 8;
      Eighths(p.free[i], k);
      Eighths(k, p.free[i]);
    }
  }

  // ---------- runs ----------

  datatype FrameOp = TakeTemp | ReturnTemp(offset: nat) | DeclareLocal(size: nat, alignment: nat) | DropLocal

  datatype Local = Local(offset: nat, size: nat, alignment: nat)

  /** The planner together with the temporaries and locals its users hold. */
  datatype Ledger = Ledger(p: Planner, temps: set<nat>, locals: seq<Local>)

  /** One operation, or None when its caller has no right to it. */
  function Perform(l: Ledger, op: FrameOp): Option<Ledger> {
    match op
    case TakeTemp =>
      var (p, off) := GetTemp(l.p);
      Some(Ledger(p, l.temps + {off}, l.locals))
    case ReturnTemp(off) =>
      if off !in l.temps then None
      else
        var p :- FreeTemp(l.p, off);
        Some(Ledger(p, l.temps - {off}, l.locals))
    case DeclareLocal(size, alignment) =>
      if l.temps != {} || alignment == 0 then None
      else
        var (p, off) := GetLocalVar(l.p, size, alignment);
        Some(Ledger(p, {}, l.locals + [Local(off, size, alignment)]))
    case DropLocal =>
      if l.temps != {} || l.locals == [] || l.p.oldBases == [] then None
      else Some(Ledger(PopLocalVar(l.p), {}, l.locals[..|l.locals| - 1]))
  }

  function PerformAll(l: Ledger, ops: seq<FrameOp>): Option<Ledger>
    decreases |ops|
  {
    if ops == [] then Some(l)
    else
      var l1 :- Perform(l, ops[0]);
      PerformAll(l1, ops[1..])
  }

  /** Each local starts at or above the end of the one before it, and the base is the end of the last one. */
  ghost predicate LocalsOk(l: Ledger, start: nat) {
    var n := |l.locals|;
    && |l.p.oldBases| == n
    && l.p.base == (if n == 0 then start else End(l.locals[n - 1]))
    && (n > 0 ==> l.p.oldBases[0] == start)
    && (forall i {:trigger l.locals[i]} :: 0 <= i < n ==> l.p.oldBases[i] <= l.locals[i].offset)
    && (forall i {:trigger l.locals[i]} :: 0 <= i < n - 1 ==> l.p.oldBases[i + 1] == End(l.locals[i]))
  }

  function End(v: Local): nat {
    v.offset + v.size
  }

  ghost predicate LocalsAligned(locals: seq<Local>) {
    forall i :: 0 <= i < |locals| ==> locals[i].alignment >= 1 && locals[i].offset % locals[i].alignment == 0
  }

  /** Locals are stacked without overlap up to the base; temporaries fill the slots above it that are not free. */
  ghost predicate LedgerOk(l: Ledger, start: nat) {
    && PlannerOk(l.p) && UpAlign(l.p.base, 8) <= l.p.top
    && LocalsOk(l, start) && LocalsAligned(l.locals)
    && (forall k :: TempSlot(l.p, k) <==> k in l.temps || k in l.p.free)
    && (forall k :: k in l.temps ==> k !in l.p.free)
  }

  /**
   Which operations are legal: a temporary may be returned by its holder, a local declared while no temporary is in use,
   and dropped if there is one; the planner's own assertions add nothing to that.
   */
  lemma LegalOperations(l: Ledger, op: FrameOp, start: nat)
    requires LedgerOk(l, start)
    ensures Perform(l, op).Some? <==> match op
              case TakeTemp => true
              case ReturnTemp(off) => off in l.temps
              case DeclareLocal(_, alignment) => NoTempInUse(l.p) && alignment >= 1
              case DropLocal => NoTempInUse(l.p) && |l.locals| >= 1
  {
    TempsInUse(l, start);
    if op.ReturnTemp? && op.offset in l.temps {
      assert TempSlot(l.p, op.offset);
    }
  }

  lemma PerformKeeps(l: Ledger, op: FrameOp, start: nat)
    requires LedgerOk(l, start) && Perform(l, op).Some?
    ensures LedgerOk(Perform(l, op).value, start)
    ensures l.p.maxEver <= Perform(l, op).value.p.maxEver
  {
    match op
    case TakeTemp => TakeTempKeeps(l, start);
    case ReturnTemp(off) => ReturnTempKeeps(l, off, start);
    case DeclareLocal(size, alignment) => DeclareLocalKeeps(l, size, alignment, start);
    case DropLocal => DropLocalKeeps(l, start);
  }

  lemma TakeTempKeeps(l: Ledger, start: nat)
    requires LedgerOk(l, start)
    ensures LedgerOk(Perform(l, TakeTemp).value, start)
    ensures l.p.maxEver <= Perform(l, TakeTemp).value.p.maxEver
  {
    GetTempTakes(l.p);
    var (p, off) := GetTemp(l.p);
    var l' := Perform(l, TakeTemp).value;
    assert LocalsOk(l', start);
    assert TempSlot(p, off);
    forall k: nat
      ensures TempSlot(p, k) <==> k in l'.temps || k in p.free
      ensures k in l'.temps ==> k !in p.free
    {
      assert Avail(p, k) <==> Avail(l.p, k) && k != off;
      if |l.p.free| == 0 {
        assert TempSlot(p, k) <==> TempSlot(l.p, k) || k == off;
      }
    }
  }

  lemma ReturnTempKeeps(l: Ledger, off: nat, start: nat)
    requires LedgerOk(l, start) && Perform(l, ReturnTemp(off)).Some?
    ensures LedgerOk(Perform(l, ReturnTemp(off)).value, start)
    ensures l.p.maxEver <= Perform(l, ReturnTemp(off)).value.p.maxEver
  {
    assert TempSlot(l.p, off) && off !in l.p.free;
    FreeTempGives(l.p, off);
    var l' := Perform(l, ReturnTemp(off)).value;
    assert l'.p == l.p.(free := l.p.free + [off]);
    assert LocalsOk(l', start);
    SlotsReturned(l, l', off);
  }

  lemma SlotsReturned(l: Ledger, l': Ledger, off: nat)
    requires l'.p == l.p.(free := l.p.free + [off]) && l'.temps == l.temps - {off}
    requires off in l.temps
    requires forall k :: TempSlot(l.p, k) <==> k in l.temps || k in l.p.free
    requires forall k :: k in l.temps ==> k !in l.p.free
    ensures forall k :: TempSlot(l'.p, k) <==> k in l'.temps || k in l'.p.free
    ensures forall k :: k in l'.temps ==> k !in l'.p.free
  {
    forall k: nat
      ensures TempSlot(l'.p, k) == TempSlot(l.p, k)
      ensures k in l'.p.free <==> k in l.p.free || k == off
    {
    }
  }

  lemma DeclareLocalKeeps(l: Ledger, size: nat, alignment: nat, start: nat)
    requires LedgerOk(l, start) && Perform(l, DeclareLocal(size, alignment)).Some?
    ensures LedgerOk(Perform(l, DeclareLocal(size, alignment)).value, start)
    ensures l.p.maxEver <= Perform(l, DeclareLocal(size, alignment)).value.p.maxEver
  {
    var l' := Perform(l, DeclareLocal(size, alignment)).value;
    LocalsExtend(l, l', l'.locals[|l.locals|], start);
    assert forall k: nat :: !TempSlot(l'.p, k);
  }

  lemma LocalsExtend(l: Ledger, l': Ledger, v: Local, start: nat)
    requires LocalsOk(l, start)
    requires l'.locals == l.locals + [v] && l'.p.oldBases == l.p.oldBases + [l.p.base]
    requires l.p.base <= v.offset
    requires l'.p.base == End(v)
    ensures LocalsOk(l', start)
  {
    var n := |l.locals|;
    assert forall i :: 0 <= i < n ==> l'.locals[i] == l.locals[i] && l'.p.oldBases[i] == l.p.oldBases[i];
  }

  lemma DropLocalKeeps(l: Ledger, start: nat)
    requires LedgerOk(l, start) && Perform(l, DropLocal).Some?
    ensures LedgerOk(Perform(l, DropLocal).value, start)
    ensures l.p.maxEver <= Perform(l, DropLocal).value.p.maxEver
  {
    var l' := Perform(l, DropLocal).value;
    var n := |l'.locals|;
    assert forall i :: 0 <= i < n ==> l'.locals[i] == l.locals[i] && l'.p.oldBases[i] == l.p.oldBases[i];
    assert l.p.oldBases[n] <= l.locals[n].offset;
    assert n > 0 ==> l.p.oldBases[n] == End(l.locals[n - 1]);
    assert LocalsOk(l', start);
    UpAlignMonotone(l'.p.base, l.p.base);
    assert forall k: nat :: !TempSlot(l'.p, k);
  }

  lemma UpAlignMonotone(a: nat, b: nat)
    requires a <= b
    ensures UpAlign(a, 8) <= UpAlign(b, 8)
  {
  }

  /** Everything live occupies its own aligned part of the frame. */
  ghost predicate Disjoint(l: Ledger, start: nat) {
    && (forall k :: k in l.temps ==> k % 8 == 0 && start <= k && k + 8 <= l.p.maxEver)
    && LocalsAligned(l.locals)
    && (forall i :: 0 <= i < |l.locals| ==>
          start <= l.locals[i].offset && End(l.locals[i]) <= l.p.maxEver)
    && (forall i, j :: 0 <= i < j < |l.locals| ==> End(l.locals[i]) <= l.locals[j].offset)
    && (forall i, k :: 0 <= i < |l.locals| && k in l.temps ==> End(l.locals[i]) <= k)
  }

  lemma {:induction false} LocalsAscend(l: Ledger, start: nat, i: nat, j: nat)
    requires LocalsOk(l, start) && i <= j < |l.locals|
    ensures start <= l.locals[i].offset
    ensures i < j ==> End(l.locals[i]) <= l.locals[j].offset
    decreases j, j - i
  {
    if i < j {
      LocalsAscend(l, start, i, j - 1);
      assert l.p.oldBases[j] == End(l.locals[j - 1]);
    } else if i > 0 {
      LocalsAscend(l, start, i - 1, i - 1);
      assert l.p.oldBases[i] == End(l.locals[i - 1]);
    }
  }

  lemma LocalsDisjoint(l: Ledger, start: nat)
    requires LocalsOk(l, start)
    ensures forall i :: 0 <= i < |l.locals| ==> start <= l.locals[i].offset && End(l.locals[i]) <= l.p.base
    ensures forall i, j :: 0 <= i < j < |l.locals| ==> End(l.locals[i]) <= l.locals[j].offset
    ensures start <= l.p.base && (l.locals == [] ==> l.p.base == start)
  {
    var n := |l.locals|;
    forall i, j | 0 <= i <= j < n
      ensures start <= l.locals[i].offset
      ensures i < j ==> End(l.locals[i]) <= l.locals[j].offset
    {
      LocalsAscend(l, start, i, j);
    }
    forall i | 0 <= i < n
      ensures start <= l.locals[i].offset && End(l.locals[i]) <= l.p.base
    {
      LocalsAscend(l, start, i, n - 1);
    }
  }

  lemma OkIsDisjoint(l: Ledger, start: nat)
    requires LedgerOk(l, start)
    ensures Disjoint(l, start)
    ensures l.locals == [] ==> l.p.base == start
  {
    LocalsDisjoint(l, start);
    forall k | k in l.temps
      ensures k % 8 == 0 && l.p.base <= k && k + 8 <= l.p.top
    {
      assert TempSlot(l.p, k);
      NextSlot(l.p.top, k);
    }
  }

  lemma {:induction false} PerformAllKeeps(l: Ledger, ops: seq<FrameOp>, start: nat)
    requires LedgerOk(l, start) && PerformAll(l, ops).Some?
    ensures LedgerOk(PerformAll(l, ops).value, start)
    ensures l.p.maxEver <= PerformAll(l, ops).value.p.maxEver
    decreases |ops|
  {
    if ops != [] {
      PerformKeeps(l, ops[0], start);
      PerformAllKeeps(Perform(l, ops[0]).value, ops[1..], start);
    }
  }

  /**
   Frame safety.  After any legal sequence of operations the live temporaries and locals are
   aligned, pairwise disjoint and inside the frame, also inside the frame size any continuation of
   the sequence ends with; when all locals are dropped the base is back where it started.
   */
  lemma FrameSafe(start: nat, ops: seq<FrameOp>, more: seq<FrameOp>)
    requires start % 8 == 0
    requires PerformAll(Ledger(ResetPlanner(start), {}, []), ops).Some?
    requires PerformAll(PerformAll(Ledger(ResetPlanner(start), {}, []), ops).value, more).Some?
    ensures var l := PerformAll(Ledger(ResetPlanner(start), {}, []), ops).value;
            && Disjoint(l, start)
            && (l.locals == [] ==> l.p.base == start)
            && l.p.maxEver <= PerformAll(l, more).value.p.maxEver
            && (NoTempInUse(l.p) <==> l.temps == {})
  {
    var l0 := Ledger(ResetPlanner(start), {}, []);
    InitialOk(start);
    PerformAllKeeps(l0, ops, start);
    var l := PerformAll(l0, ops).value;
    PerformAllKeeps(l, more, start);
    OkIsDisjoint(l, start);
    TempsInUse(l, start);
  }

  lemma InitialOk(start: nat)
    requires start % 8 == 0
    ensures LedgerOk(Ledger(ResetPlanner(start), {}, []), start)
  {
    NextSlot(start, UpAlign(start, 8));
    assert UpAlign(start, 8) == start;
  }

  lemma TempsInUse(l: Ledger, start: nat)
    requires LedgerOk(l, start)
    ensures NoTempInUse(l.p) <==> l.temps == {}
  {
    if l.temps != {} {
      var k :| k in l.temps;
      assert TempSlot(l.p, k);
    }
  }
}
