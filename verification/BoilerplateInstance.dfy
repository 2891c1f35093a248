/**
 Fragment instances: one use of a blueprint, the values of its placeholders, what placement decides about it, and its
 materialisation (PochiVM/fastinterp/fastinterp_codegen_helper.h:12-214).
 */
module BoilerplateInstance {
  import Arith
  import opened BluePrint
  import opened CodeSection
  import opened MachineCode
  import opened StripJump

  /** The length of the jump a stripped instance loses. */
  const RIP_RELATIVE_JMP_LEN := JMP_LEN

  /** A word of the fixup array: a number, or the instance whose address it will be; zero is the null pointer. */
  datatype FixupValue = Number(value: nat) | Pointer(target: FastInterpBoilerplateInstance)

  /** The boilerplate's sites and its final jump, if it has one, are these. */
  ghost predicate Described(bp: BluePrint, sites: seq<Site>, last: nat) {
    && Arranged(bp, sites)
    && (forall i {:trigger sites[i]} :: 0 <= i < |sites| ==>
      sites[i].ord < Ordinals(bp) && (sites[i].kind != DataSite ==> sites[i].ord < bp.boilerplateFns))
    && bp.litcOrd >= -1
    && (bp.litcOrd >= 0 ==> FinalJump(bp, sites, last) && sites[last].ord == bp.litcOrd)
  }

  function Ordinals(bp: BluePrint): nat {
    bp.boilerplateFns + bp.cppFns + bp.constants
  }

  class FastInterpBoilerplateInstance {
    const m_owner: BluePrint
    const m_ordinalInArray: nat
    ghost const sites: seq<Site>
    ghost const last: nat
    var m_log2CodeSectionAlignment: nat
    var m_codeSectionPaddingRequired: nat
    var m_relativeCodeAddr: int
    var m_litcInstanceOrd: int
    var m_isContinuationOfAnotherInstance: bool
    var m_populatedRelativeCodeAddress: bool
    var m_shouldStripLITC: bool
    var m_fixupValues: seq<FixupValue>

    constructor (owner: BluePrint, ordinalInArray: nat, log2CodeSectionAlignment: nat, ghost sites: seq<Site>,
        ghost last: nat)
      requires log2CodeSectionAlignment <= 6 && Described(owner, sites, last)
      ensures m_owner == owner && m_ordinalInArray == ordinalInArray && this.sites == sites && this.last == last
      ensures View() == Slot(log2CodeSectionAlignment, 0, 0, false, false) && !m_isContinuationOfAnotherInstance
      ensures Populating()
      ensures forall k {:trigger m_fixupValues[k]} :: 0 <= k < |m_fixupValues| ==> m_fixupValues[k] == Number(0)
    {
      m_owner, m_ordinalInArray, this.sites, this.last := owner, ordinalInArray, sites, last;
      m_log2CodeSectionAlignment, m_codeSectionPaddingRequired, m_relativeCodeAddr := log2CodeSectionAlignment, 0, 0;
      m_litcInstanceOrd, m_isContinuationOfAnotherInstance := -1, false;
      m_populatedRelativeCodeAddress, m_shouldStripLITC := false, false;
      m_fixupValues := seq(Ordinals(owner), _ => Number(0));
    }

    function GetCodeSectionLength(): nat {
      |m_owner.content|
    }

    /** The instance that the final jump goes to, as far as it is populated. */
    ghost predicate Populating()
      reads this
    {
      && Described(m_owner, sites, last)
      && |m_fixupValues| == Ordinals(m_owner)
      && m_litcInstanceOrd == LitcIn(m_owner, m_fixupValues)
      && forall k {:trigger m_fixupValues[k]} ::
        m_owner.boilerplateFns <= k < |m_fixupValues| ==> m_fixupValues[k].Number?
    }

    method PopulateBoilerplateFnPtrPlaceholder(ordinal: nat, value: FastInterpBoilerplateInstance)
      requires Populating() && ordinal < m_owner.boilerplateFns && m_fixupValues[ordinal] == Number(0)
      modifies this`m_fixupValues, this`m_litcInstanceOrd, value`m_isContinuationOfAnotherInstance
      ensures Populating() && m_fixupValues == old(m_fixupValues)[ordinal := Pointer(value)]
      ensures m_litcInstanceOrd == if ordinal == m_owner.litcOrd then value.m_ordinalInArray else old(m_litcInstanceOrd)
      ensures value.m_isContinuationOfAnotherInstance ==
        (old(value.m_isContinuationOfAnotherInstance) || ordinal == m_owner.litcOrd)
    {
      m_fixupValues := m_fixupValues[ordinal := Pointer(value)];
      if ordinal == m_owner.litcOrd {
        assert m_litcInstanceOrd == -1;
        m_litcInstanceOrd := value.m_ordinalInArray;
        value.m_isContinuationOfAnotherInstance := true;
      }
    }

    method PopulateCppFnPtrPlaceholder(ordinal: nat, value: nat)
      requires Populating() && ordinal < m_owner.cppFns && value != 0
      modifies this`m_fixupValues
      ensures Populating() && m_fixupValues == old(m_fixupValues)[m_owner.boilerplateFns + ordinal := Number(value)]
    {
      m_fixupValues := m_fixupValues[m_owner.boilerplateFns + ordinal := Number(value)];
    }

    /** A constant the compiler has optimised out of the boilerplate is dropped. */
    method PopulateConstantPlaceholder(ordinal: nat, value: nat)
      requires Populating()
      modifies this`m_fixupValues
      ensures Populating()
      ensures m_fixupValues == if ordinal < m_owner.constants
        then old(m_fixupValues)[m_owner.boilerplateFns + m_owner.cppFns + ordinal := Number(value)]
                               else old(m_fixupValues)
    {
      if ordinal < m_owner.constants {
        m_fixupValues := m_fixupValues[m_owner.boilerplateFns + m_owner.cppFns + ordinal := Number(value)];
      }
    }

    method SetAlignmentLog2(log2CodeSectionAlignment: nat)
      requires log2CodeSectionAlignment <= 6
      modifies `m_log2CodeSectionAlignment
      ensures m_log2CodeSectionAlignment == log2CodeSectionAlignment
    {
      m_log2CodeSectionAlignment := log2CodeSectionAlignment;
    }

    /** Gives this instance the first suitable address at or behind len; end is where its code ends. */
    method Place(len: int) returns (end: int)
      modifies `m_relativeCodeAddr, `m_codeSectionPaddingRequired, `m_populatedRelativeCodeAddress
      ensures View() == old(View()).PlacedAt(len)
      ensures end == m_relativeCodeAddr + GetCodeSectionLength()
    {
      var alignment := Arith.Pow2(m_log2CodeSectionAlignment);
      var padding := len % alignment;
      if padding != 0 {
        padding := alignment - padding;
      }
      m_relativeCodeAddr := len + padding;
      m_codeSectionPaddingRequired := padding;
      end := len + padding + GetCodeSectionLength();
      m_populatedRelativeCodeAddress := true;
    }

    /** Drops the final jump; the instance now ends where the jump was. */
    method StripLITC()
      modifies `m_shouldStripLITC
      ensures View() == old(View()).(strip := true)
    {
      m_shouldStripLITC := true;
    }

    /** What placement decides about this instance. */
    function View(): Slot
      reads this
    {
      Slot(m_log2CodeSectionAlignment, m_codeSectionPaddingRequired, m_relativeCodeAddr,
           m_populatedRelativeCodeAddress, m_shouldStripLITC)
    }

    /** Pointers become addresses, NOPs fill the padding, and the code is copied and patched. */
    method Materialize(mem: array<Byte>, baseAddress: nat, ghost insts: Instances, ghost st: seq<Slot>)
      requires Described(m_owner, sites, last) && |m_fixupValues| == Ordinals(m_owner)
      requires forall k {:trigger m_fixupValues[k]} ::
        m_owner.boilerplateFns <= k < |m_fixupValues| ==> m_fixupValues[k].Number?
      requires Showing(insts, st) && Known(insts, m_fixupValues) &&
        (forall i {:trigger st[i]} :: 0 <= i < |st| ==> st[i].addr >= 0)
      requires Fits(m_owner, sites, last, View(), mem.Length)
      modifies this`m_fixupValues, mem
      ensures SectionDone(mem[..], m_owner, sites, last, View(), AddressOf(baseAddress, View()),
        Resolved(old(m_fixupValues), baseAddress, st))
      ensures Frame(old(mem[..]), mem[..], m_relativeCodeAddr - m_codeSectionPaddingRequired,
        View().End(GetCodeSectionLength()))
    {
      ghost var slot, values := View(), Resolved(m_fixupValues, baseAddress, st);
      ResolvePointers(baseAddress, insts, st);
      var fixupValues := seq(|m_fixupValues|,
        k requires 0 <= k < |m_fixupValues| && m_fixupValues[k].Number? reads this => m_fixupValues[k].value);
      assert fixupValues == values && View() == slot;
      var trueCodeBaseAddress := AddressOf(baseAddress, View());
      WriteCode(mem, m_relativeCodeAddr, m_codeSectionPaddingRequired, trueCodeBaseAddress, m_owner, fixupValues,
        m_shouldStripLITC, slot, sites, last);
    }

    method ResolvePointers(baseAddress: nat, ghost insts: Instances, ghost st: seq<Slot>)
      requires |m_fixupValues| == Ordinals(m_owner)
      requires forall k {:trigger m_fixupValues[k]} ::
        m_owner.boilerplateFns <= k < |m_fixupValues| ==> m_fixupValues[k].Number?
      requires Showing(insts, st) && Known(insts, m_fixupValues) &&
        (forall i {:trigger st[i]} :: 0 <= i < |st| ==> st[i].addr >= 0)
      modifies this`m_fixupValues
      ensures |m_fixupValues| == |old(m_fixupValues)|
      ensures forall k {:trigger m_fixupValues[k]} ::
        0 <= k < |m_fixupValues| ==> m_fixupValues[k] == Number(Resolve(old(m_fixupValues[k]), baseAddress, st))
    {
      ghost var was := m_fixupValues;
      for i := 0 to m_owner.boilerplateFns
        invariant |m_fixupValues| == |was| && Showing(insts, st)
        invariant forall k {:trigger m_fixupValues[k]} :: 0 <= k < |was| ==>
                    m_fixupValues[k] == if k < i then Number(Resolve(was[k], baseAddress, st)) else was[k]
      {
        if m_fixupValues[i].Pointer? {
          var instance := m_fixupValues[i].target;
          assert was[i].Pointer? && instance == insts[instance.m_ordinalInArray];
          m_fixupValues := m_fixupValues[i := Number(baseAddress + instance.m_relativeCodeAddr)];
        }
      }
    }
  }

  type Instances = seq<FastInterpBoilerplateInstance>

  datatype Slot = Slot(log2: nat, padding: nat, addr: int, placed: bool, strip: bool) {
    /** Where the code behind an instance of the given length may start. */
    function End(length: nat): int {
      addr + length - (if strip then RIP_RELATIVE_JMP_LEN else 0)
    }

    function Padding(len: int): nat {
      var m := Arith.Pow2(log2);
      if len % m != 0 then m - len % m else 0
    }

    function PlacedAt(len: int): Slot {
      Slot(log2, Padding(len), len + Padding(len), true, strip)
    }
  }

  function AddressOf(baseAddress: nat, slot: Slot): nat {
    if slot.addr >= 0 then baseAddress + slot.addr else 0
  }

  ghost predicate Showing(insts: Instances, st: seq<Slot>)
    reads insts
  {
    |st| == |insts| && forall i :: 0 <= i < |insts| ==> insts[i].View() == st[i]
  }

  /** The pointers of a fixup array lead to instances of the list. */
  ghost predicate Known(insts: Instances, values: seq<FixupValue>) {
    forall k {:trigger values[k]} :: 0 <= k < |values| && values[k].Pointer? ==>
      values[k].target.m_ordinalInArray < |insts| && insts[values[k].target.m_ordinalInArray] == values[k].target
  }

  /** Where the final jump goes, as far as it is populated. */
  function LitcIn(bp: BluePrint, values: seq<FixupValue>): int {
    if 0 <= bp.litcOrd < |values| && values[bp.litcOrd].Pointer? then values[bp.litcOrd].target.m_ordinalInArray else -1
  }

  function Resolve(v: FixupValue, baseAddress: nat, st: seq<Slot>): nat {
    match v
    case Number(n) => n
    case Pointer(x) => if x.m_ordinalInArray < |st| then AddressOf(baseAddress, st[x.m_ordinalInArray]) else 0
  }

  /** The fixup array at run time: numbers as they are, pointers as the addresses of the instances. */
  function Resolved(values: seq<FixupValue>, baseAddress: nat, st: seq<Slot>): (r: seq<nat>)
    ensures |r| == |values| && forall k {:trigger r[k]} :: 0 <= k < |r| ==> r[k] == Resolve(values[k], baseAddress, st)
  {
    seq(|values|, k requires 0 <= k < |values| => Resolve(values[k], baseAddress, st))
  }

  /** The instance has a place in memory for its padding and its code, and a final jump if that is to be stripped. */
  ghost predicate Fits(bp: BluePrint, sites: seq<Site>, last: nat, slot: Slot, size: nat) {
    && slot.padding <= slot.addr && slot.End(|bp.content|) <= size
    && (slot.strip ==> FinalJump(bp, sites, last))
  }

  lemma OrdinalsFit(bp: BluePrint, sites: seq<Site>, last: nat, n: nat)
    requires Described(bp, sites, last) && n == Ordinals(bp)
    ensures OrdinalsOk(bp.symbol32, n) && OrdinalsOk(bp.symbol64, n)
    ensures bp.litcOrd >= 0 ==> EndsInJump(bp)
    ensures FinalJump(bp, sites, last) ==> EndsInJump(bp)
  {
    forall k {:trigger bp.symbol32[k]} | 0 <= k < |bp.symbol32|
      ensures bp.symbol32[k].1 < n
    {
      assert HasRecord(sites, 4, bp.symbol32[k]);
      var i :| RecordAt(sites, i, 4, bp.symbol32[k]);
    }
    forall k {:trigger bp.symbol64[k]} | 0 <= k < |bp.symbol64|
      ensures bp.symbol64[k].1 < n
    {
      assert HasRecord(sites, 8, bp.symbol64[k]);
      var i :| RecordAt(sites, i, 8, bp.symbol64[k]);
    }
    if FinalJump(bp, sites, last) {
      StripArranged(bp, sites, last);
    }
  }

  /** The instance's bytes are finished: NOPs up to its start, then its code, every site done. */
  ghost predicate SectionDone(m: seq<Byte>, bp: BluePrint, sites: seq<Site>, last: nat, slot: Slot, address: nat,
      values: seq<nat>) {
    match slot
    case Slot(_, padding, addr, _, strip) =>
      && padding <= addr <= |m| && (strip ==> EndsInJump(bp) && last < |sites|)
      && m[addr - padding..addr] == Nops(padding)
      && Arranged(Effective(bp, strip), EffectiveSites(sites, strip, last))
      && CodeDone(m, Effective(bp, strip), EffectiveSites(sites, strip, last), addr, address, values)
  }

  lemma Combined(before: seq<Byte>, filled: seq<Byte>, m: seq<Byte>, bp: BluePrint, sites: seq<Site>, last: nat,
      slot: Slot, at: nat, padding: nat,
      strip: bool, address: nat, values: seq<nat>)
    requires slot.addr == at && slot.padding == padding && slot.strip == strip
    requires padding <= at <= |before| && (strip ==> EndsInJump(bp) && last < |sites|)
    requires filled == Patch(before, at - padding, Nops(padding))
    requires Arranged(Effective(bp, strip), EffectiveSites(sites, strip, last))
    requires CodeDone(m, Effective(bp, strip), EffectiveSites(sites, strip, last), at, address, values)
    requires Frame(filled, m, at, at + |Effective(bp, strip).content|)
    ensures SectionDone(m, bp, sites, last, slot, address, values)
    ensures Frame(before, m, at - padding, slot.End(|bp.content|))
  {
    assert filled[at - padding..at] == Nops(padding);
    assert m[at - padding..at] == filled[at - padding..at];
  }

  /** The NOPs and the code of an instance. */
  method WriteCode(mem: array<Byte>, at: nat, padding: nat, address: nat, owner: BluePrint, fixupValues: seq<nat>,
      shouldStripLITC: bool,
      ghost slot: Slot, ghost sites: seq<Site>, ghost last: nat)
    requires slot.addr == at && slot.padding == padding && slot.strip == shouldStripLITC
    requires Described(owner, sites, last) && |fixupValues| == Ordinals(owner) &&
      Fits(owner, sites, last, slot, mem.Length)
    modifies mem
    ensures SectionDone(mem[..], owner, sites, last, slot, address, fixupValues)
    ensures Frame(old(mem[..]), mem[..], at - padding, slot.End(|owner.content|))
  {
    ghost var before := mem[..];
    PopulateNops(mem, at - padding, padding);
    ghost var filled := mem[..];
    OrdinalsFit(owner, sites, last, |fixupValues|);
    MaterializeCodeSection(mem, at, address, owner, fixupValues, shouldStripLITC, sites, last);
    Combined(before, filled, mem[..], owner, sites, last, slot, at, padding, shouldStripLITC, address, fixupValues);
  }
}
