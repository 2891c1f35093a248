/**
 From a compiled section and its relocations to a blueprint, and the two stages of relocation together
 (PochiVM/fastinterp/build_fast_interp_lib.cpp:1236-1523).
 */
module BoilerplateBuild {
  import opened Arith
  import opened BluePrint
  import opened CodeSection
  import opened MachineCode
  import opened Relocation
  import opened StripJump
  import opened Wrappers

  const UD2: seq<Byte> := [0x0F, 0x0B]

  ghost predicate FinalAt(section: seq<Byte>, relocs: seq<Reloc>, j: int)
    requires AllAccepted(section, relocs, |relocs|)
  {
    0 <= j < |relocs| && IsFinalJump(section, relocs[j])
  }

  /** The section ends in a tail call to a placeholder. */
  ghost predicate EndsInTailCall(section: seq<Byte>, relocs: seq<Reloc>)
    requires AllAccepted(section, relocs, |relocs|)
  {
    exists j :: FinalAt(section, relocs, j)
  }

  /** The build makes a blueprint of the section. */
  ghost predicate Buildable(section: seq<Byte>, relocs: seq<Reloc>, noContinuation: bool, appendUd2: bool) {
    && AllAccepted(section, relocs, |relocs|)
    && (noContinuation <==> !EndsInTailCall(section, relocs))
    && (appendUd2 ==> noContinuation)
  }

  /** The field holds the relocation's own part. */
  ghost predicate OwnPart(content: seq<Byte>, r: Reloc) {
    r.typ.TPOFF32? ||
    (r.offset + r.Width() <= |content| && Congruent(Read(content, r.offset, r.Width()), BuildValue(r),
      Range256(r.Width())))
  }

  ghost predicate OwnParts(content: seq<Byte>, relocs: seq<Reloc>) {
    forall j {:trigger OwnPart(content, relocs[j])} :: 0 <= j < |relocs| ==> OwnPart(content, relocs[j])
  }

  ghost predicate OrdinalFits(r: Reloc, hb: nat, hc: nat, hk: nat) {
    r.typ.TPOFF32? ||
    match r.symbol
    case BoilerplateFn(_, ord) => ord < hb
    case CppFn(ord) => ord < hc
    case Constant(ord) => ord < hk
    case ThreadContext => true
    case UnknownSymbol => true
  }

  /** The code is the section, off the patched instructions, and behind it the trap that was asked for. */
  ghost predicate CodeOf(section: seq<Byte>, sites: seq<Site>, content: seq<Byte>, appendUd2: bool) {
    && |section| <= |content| && content[|section|..] == (if appendUd2 then UD2 else [])
    && forall b {:trigger OffSites(sites, 0, b)} ::
      0 <= b < |section| && OffSites(sites, 0, b) ==> content[b] == section[b]
  }

  ghost predicate LitcIs(section: seq<Byte>, relocs: seq<Reloc>, bp: BluePrint, sites: seq<Site>)
    requires AllAccepted(section, relocs, |relocs|)
  {
    if EndsInTailCall(section, relocs) then exists l: nat :: FinalJump(bp, sites, l) && sites[l].ord == bp.litcOrd
    else bp.litcOrd == -1
  }

  /** What a blueprint is of its section: one site for each relocation, holding its own part. */
  ghost predicate Built(section: seq<Byte>, relocs: seq<Reloc>, appendUd2: bool, bp: BluePrint)
    requires Good(section, relocs)
  {
    var sites := Sites(section, relocs, |relocs|, bp.boilerplateFns, bp.cppFns);
    && Arranged(bp, sites) && OwnParts(bp.content, relocs) && CodeOf(section, sites, bp.content, appendUd2)
    && (forall j {:trigger relocs[j]} :: 0 <= j < |relocs| ==>
      OrdinalFits(relocs[j], bp.boilerplateFns, bp.cppFns, bp.constants))
    && LitcIs(section, relocs, bp, sites)
  }

  // ---------- ordinals ----------

  /** Highest is the least bound above the ordinals of its classes. */
  lemma {:induction false} HighestBounds(relocs: seq<Reloc>, n: nat, c1: Class, c2: Class, j: nat)
    requires n <= |relocs| && j < n && (ClassOf(relocs[j]) == c1 || ClassOf(relocs[j]) == c2)
    ensures LocalOrd(relocs[j].symbol) < Highest(relocs, n, c1, c2)
  {
    if j < n - 1 {
      HighestBounds(relocs, n - 1, c1, c2, j);
    }
  }

  lemma {:induction false} HighestAttained(relocs: seq<Reloc>, n: nat, c1: Class, c2: Class) returns (j: nat)
    requires n <= |relocs| && Highest(relocs, n, c1, c2) > 0
    ensures j < n && (ClassOf(relocs[j]) == c1 || ClassOf(relocs[j]) == c2)
    ensures LocalOrd(relocs[j].symbol) + 1 == Highest(relocs, n, c1, c2)
  {
    if Highest(relocs, n, c1, c2) == Highest(relocs, n - 1, c1, c2) {
      j := HighestAttained(relocs, n - 1, c1, c2);
    } else {
      j := n - 1;
    }
  }

  lemma OrdinalsAllFit(section: seq<Byte>, relocs: seq<Reloc>, j: nat)
    requires Good(section, relocs) && j < |relocs|
    ensures OrdinalFits(relocs[j], Highest(relocs, |relocs|, Boilerplate32, Boilerplate64),
      Highest(relocs, |relocs|, Cpp64, Cpp64), Highest(relocs, |relocs|, Constant32, Constant64))
  {
    var r, n := relocs[j], |relocs|;
    if !r.typ.TPOFF32? {
      match r.symbol
      case BoilerplateFn(_, _) => HighestBounds(relocs, n, Boilerplate32, Boilerplate64, j);
      case CppFn(_) => HighestBounds(relocs, n, Cpp64, Cpp64, j);
      case Constant(_) => HighestBounds(relocs, n, Constant32, Constant64, j);
      case ThreadContext =>
      case UnknownSymbol =>
    }
  }

  // ---------- the final jump ----------

  lemma {:induction false} LitcFound(section: seq<Byte>, relocs: seq<Reloc>, n: nat) returns (j: nat)
    requires n <= |relocs| && AllAccepted(section, relocs, n) && LitcOf(section, relocs, n) != -1
    ensures j < n && IsFinalJump(section, relocs[j]) && LitcOf(section, relocs, n) == LocalOrd(relocs[j].symbol)
  {
    if IsFinalJump(section, relocs[n - 1]) {
      j := n - 1;
    } else {
      j := LitcFound(section, relocs, n - 1);
    }
  }

  lemma {:induction false} LitcMissing(section: seq<Byte>, relocs: seq<Reloc>, n: nat, j: nat)
    requires n <= |relocs| && AllAccepted(section, relocs, n) && j < n && IsFinalJump(section, relocs[j])
    ensures LitcOf(section, relocs, n) != -1
  {
    if !IsFinalJump(section, relocs[n - 1]) {
      LitcMissing(section, relocs, n - 1, j);
    }
  }

  /** The recorded ordinal says whether the section ends in a tail call. */
  lemma LitcSays(section: seq<Byte>, relocs: seq<Reloc>)
    requires AllAccepted(section, relocs, |relocs|)
    ensures LitcOf(section, relocs, |relocs|) != -1 <==> EndsInTailCall(section, relocs)
  {
    if LitcOf(section, relocs, |relocs|) != -1 {
      var j := LitcFound(section, relocs, |relocs|);
      assert FinalAt(section, relocs, j);
    } else if EndsInTailCall(section, relocs) {
      var j :| FinalAt(section, relocs, j);
      LitcMissing(section, relocs, |relocs|, j);
    }
  }

  lemma LitcRecorded(section: seq<Byte>, relocs: seq<Reloc>, bp: BluePrint)
    requires Good(section, relocs) && bp.litcOrd == LitcOf(section, relocs, |relocs|)
    requires bp.litcOrd != -1 ==> |bp.content| == |section|
    ensures LitcIs(section, relocs, bp, Sites(section, relocs, |relocs|, bp.boilerplateFns, bp.cppFns))
  {
    var hb, hc := bp.boilerplateFns, bp.cppFns;
    LitcSays(section, relocs);
    if bp.litcOrd != -1 {
      var j := LitcFound(section, relocs, |relocs|);
      var l := SitesComplete(section, relocs, |relocs|, hb, hc, j);
      assert FinalJump(bp, Sites(section, relocs, |relocs|, hb, hc), l);
    }
  }

  // ---------- putting a blueprint together ----------

  method ShiftOrdinals(xs: seq<(nat, nat)>, shift: nat) returns (ys: seq<(nat, nat)>)
    ensures ys == Shifted(xs, shift)
  {
    ys := [];
    for k := 0 to |xs|
      invariant ys == Shifted(xs, shift)[..k]
    {
      ys := ys + [(xs[k].0, xs[k].1 + shift)];
    }
  }

  /** Every list in ascending order, with ordinals into the shared array. */
  function BluePrintOf(content: seq<Byte>, l: Filing): BluePrint {
    var cfp64, u32, u64 := Shifted(l.cfp64, l.boilerplateFns), Shifted(l.u32, l.boilerplateFns + l.cppFns),
      Shifted(l.u64, l.boilerplateFns + l.cppFns);
    BluePrint(content, SortOffsets(l.minusAddr), SortRecords(u32 + l.bpfp32), SortRecords(l.bpfp64 + cfp64 + u64),
              l.boilerplateFns, l.cppFns, l.constants, l.litcOrd, SortOffsets(l.jmp32), SortOffsets(l.jcc32))
  }

  method AssembleBluePrint(content: seq<Byte>, l: Filing) returns (bp: BluePrint)
    ensures bp == BluePrintOf(content, l)
  {
    var cfp64 := ShiftOrdinals(l.cfp64, l.boilerplateFns);
    var u32 := ShiftOrdinals(l.u32, l.boilerplateFns + l.cppFns);
    var u64 := ShiftOrdinals(l.u64, l.boilerplateFns + l.cppFns);
    bp := BluePrint(content, SortOffsets(l.minusAddr), SortRecords(u32 + l.bpfp32), SortRecords(l.bpfp64 + cfp64 + u64),
                    l.boilerplateFns, l.cppFns, l.constants, l.litcOrd, SortOffsets(l.jmp32), SortOffsets(l.jcc32));
  }

  lemma Unshifted(xs: seq<(nat, nat)>)
    ensures Shifted(xs, 0) == xs
  {
  }

  lemma Classes32(section: seq<Byte>, relocs: seq<Reloc>, hb: nat, hc: nat)
    requires Good(section, relocs)
    ensures ListsRecords(SortRecords(ClassRecords(relocs, Constant32, hb, hc) +
      ClassRecords(relocs, Boilerplate32, hb, hc)),
                         Sites(section, relocs, |relocs|, hb, hc), 4)
  {
    var xs, ys := ClassRecords(relocs, Constant32, hb, hc), ClassRecords(relocs, Boilerplate32, hb, hc);
    OneClass(section, relocs, Constant32, hb, hc);
    OneClass(section, relocs, Boilerplate32, hb, hc);
    MoreClasses(section, relocs, xs, ys, {Constant32}, {Boilerplate32}, hb, hc);
    assert {Constant32} + {Boilerplate32} == ClassesOf(4);
    RecordsList(section, relocs, xs + ys, 4, hb, hc);
  }

  lemma Classes64(section: seq<Byte>, relocs: seq<Reloc>, hb: nat, hc: nat)
    requires Good(section, relocs)
    ensures ListsRecords(SortRecords(ClassRecords(relocs, Boilerplate64, hb, hc) + ClassRecords(relocs, Cpp64, hb, hc) +
      ClassRecords(relocs, Constant64, hb, hc)),
                         Sites(section, relocs, |relocs|, hb, hc), 8)
  {
    var xs, ys, zs := ClassRecords(relocs, Boilerplate64, hb, hc), ClassRecords(relocs, Cpp64, hb, hc),
      ClassRecords(relocs, Constant64, hb, hc);
    OneClass(section, relocs, Boilerplate64, hb, hc);
    OneClass(section, relocs, Cpp64, hb, hc);
    OneClass(section, relocs, Constant64, hb, hc);
    MoreClasses(section, relocs, xs, ys, {Boilerplate64}, {Cpp64}, hb, hc);
    MoreClasses(section, relocs, xs + ys, zs, {Boilerplate64} + {Cpp64}, {Constant64}, hb, hc);
    assert {Boilerplate64} + {Cpp64} + {Constant64} == ClassesOf(8);
    RecordsList(section, relocs, xs + ys + zs, 8, hb, hc);
  }

  /** Opcodes, own parts and other bytes of the code, all from what the loop has patched. */
  lemma CodeBuilt(section: seq<Byte>, data: seq<Byte>, relocs: seq<Reloc>, hb: nat, hc: nat)
    requires Good(section, relocs) && InRange(BuildFixups(relocs), |section|)
    requires Patched(section, data, BuildFixups(relocs), |relocs|)
    ensures OpcodesKept(section, data, relocs) && OwnParts(data, relocs)
    ensures CodeOf(section, Sites(section, relocs, |relocs|, hb, hc), data, false)
  {
    var fs, sites := BuildFixups(relocs), Sites(section, relocs, |relocs|, hb, hc);
    forall j {:trigger OpcodeKept(section, data, relocs[j])} | 0 <= j < |relocs|
      ensures OpcodeKept(section, data, relocs[j])
    {
      OpcodeIntact(section, data, relocs, |relocs|, j);
    }
    forall j {:trigger OwnPart(data, relocs[j])} | 0 <= j < |relocs|
      ensures OwnPart(data, relocs[j])
    {
      assert Accepted(section, relocs[j]) && fs[j] == BuildFixup(relocs[j]) && Fixed(section, data, fs[j]);
    }
    forall b {:trigger OffSites(sites, 0, b)} | 0 <= b < |section| && OffSites(sites, 0, b)
      ensures data[b] == section[b]
    {
      forall k {:trigger fs[k]} | 0 <= k < |fs|
        ensures Apart(fs[k], b, b + 1)
      {
        if !relocs[k].typ.TPOFF32? {
          var i := SitesComplete(section, relocs, |relocs|, hb, hc, k);
          assert sites[i].Lo() <= sites[i].offset;
        }
      }
      assert Untouched(fs, |fs|, b);
    }
  }

  /** Bytes behind the code change nothing. */
  lemma CodeExtended(section: seq<Byte>, data: seq<Byte>, relocs: seq<Reloc>, sites: seq<Site>, appendUd2: bool)
    requires AllAccepted(section, relocs, |relocs|) && |data| == |section|
    requires OpcodesKept(section, data, relocs) && OwnParts(data, relocs) && CodeOf(section, sites, data, false)
    ensures var content := data + if appendUd2 then UD2 else [];
            OpcodesKept(section, content, relocs) && OwnParts(content, relocs) &&
              CodeOf(section, sites, content, appendUd2)
  {
    var content := data + if appendUd2 then UD2 else [];
    forall j {:trigger OwnPart(content, relocs[j])} | 0 <= j < |relocs|
      ensures OwnPart(content, relocs[j])
    {
      var r := relocs[j];
      assert OwnPart(data, r) && Accepted(section, r);
      ReadPrefix(data, content, r.offset, r.Width());
    }
    forall j {:trigger OpcodeKept(section, content, relocs[j])} | 0 <= j < |relocs|
      ensures OpcodeKept(section, content, relocs[j])
    {
      assert OpcodeKept(section, data, relocs[j]);
    }
  }

  lemma OffsetsArranged(section: seq<Byte>, relocs: seq<Reloc>, bp: BluePrint, l: Filing, sites: seq<Site>)
    requires Good(section, relocs) && ListsAre(section, l, relocs, |relocs|) && bp == BluePrintOf(bp.content, l)
    requires sites == Sites(section, relocs, |relocs|, l.boilerplateFns, l.cppFns)
    ensures Lists(bp.addr32, sites, Relative) && Lists(bp.jmp32, sites, Jmps) && Lists(bp.jcc32, sites, Jccs)
  {
    OffsetsList(section, relocs, Relative, l.boilerplateFns, l.cppFns);
    OffsetsList(section, relocs, Jmps, l.boilerplateFns, l.cppFns);
    OffsetsList(section, relocs, Jccs, l.boilerplateFns, l.cppFns);
  }

  lemma SymbolLists(section: seq<Byte>, relocs: seq<Reloc>, bp: BluePrint, l: Filing)
    requires Good(section, relocs) && ListsAre(section, l, relocs, |relocs|) && bp == BluePrintOf(bp.content, l)
    ensures var hb, hc := l.boilerplateFns, l.cppFns;
            && bp.symbol32 == SortRecords(ClassRecords(relocs, Constant32, hb, hc) +
              ClassRecords(relocs, Boilerplate32, hb, hc))
            && bp.symbol64 == SortRecords(ClassRecords(relocs, Boilerplate64, hb, hc) +
              ClassRecords(relocs, Cpp64, hb, hc)
                                          + ClassRecords(relocs, Constant64, hb, hc))
  {
    Unshifted(l.bpfp32);
    Unshifted(l.bpfp64);
  }

  lemma BluePrintArranged(section: seq<Byte>, relocs: seq<Reloc>, content: seq<Byte>, l: Filing)
    requires Good(section, relocs) && ListsAre(section, l, relocs, |relocs|) && OpcodesKept(section, content, relocs)
    ensures Arranged(BluePrintOf(content, l), Sites(section, relocs, |relocs|, l.boilerplateFns, l.cppFns))
  {
    var bp, sites := BluePrintOf(content, l), Sites(section, relocs, |relocs|, l.boilerplateFns, l.cppFns);
    SitesFit(section, content, relocs, |relocs|, l.boilerplateFns, l.cppFns);
    OffsetsArranged(section, relocs, bp, l, sites);
    SymbolLists(section, relocs, bp, l);
    Classes32(section, relocs, l.boilerplateFns, l.cppFns);
    Classes64(section, relocs, l.boilerplateFns, l.cppFns);
  }

  lemma BluePrintBuilt(section: seq<Byte>, relocs: seq<Reloc>, data: seq<Byte>, l: Filing, appendUd2: bool)
    requires Good(section, relocs) && ListsAre(section, l, relocs, |relocs|) && InRange(BuildFixups(relocs), |section|)
    requires Patched(section, data, BuildFixups(relocs), |relocs|) && (appendUd2 ==> l.litcOrd == -1)
    ensures Built(section, relocs, appendUd2, BluePrintOf(data + if appendUd2 then UD2 else [], l))
  {
    var content := data + if appendUd2 then UD2 else [];
    var hb, hc := l.boilerplateFns, l.cppFns;
    CodeBuilt(section, data, relocs, hb, hc);
    CodeExtended(section, data, relocs, Sites(section, relocs, |relocs|, hb, hc), appendUd2);
    BluePrintArranged(section, relocs, content, l);
    forall j {:trigger relocs[j]} | 0 <= j < |relocs|
      ensures OrdinalFits(relocs[j], hb, hc, l.constants)
    {
      OrdinalsAllFit(section, relocs, j);
    }
    LitcRecorded(section, relocs, BluePrintOf(content, l));
  }

  /** The first loop: types and raw fields. */
  method CheckTypes(section: seq<Byte>, relocs: seq<Reloc>, data: array<Byte>) returns (ok: bool)
    requires data[..] == section
    ensures ok <==> forall j {:trigger relocs[j]} :: 0 <= j < |relocs| ==> TypeAccepted(section, relocs[j])
  {
    for n := 0 to |relocs|
      invariant forall j {:trigger relocs[j]} :: 0 <= j < n ==> TypeAccepted(section, relocs[j])
    {
      var r := relocs[n];
      if r.typ.UnknownType? || r.offset + r.Width() > |section| {
        return false;
      }
      var word := UnalignedRead(data, r.offset, r.Width());
      if word != 0 || (r.typ.TPOFF32? && !r.symbol.ThreadContext?) {
        return false;
      }
    }
    ok := true;
  }

  /** Makes the blueprint of a section, or gives up: exactly when the section is not one the build can use. */
  method Preprocess(section: seq<Byte>, relocs: seq<Reloc>, noContinuation: bool, appendUd2: bool)
      returns (result: Option<BluePrint>)
    requires Separate(section, relocs)
    ensures result.Some? <==> Buildable(section, relocs, noContinuation, appendUd2)
    ensures result.Some? ==> Built(section, relocs, appendUd2, result.value)
  {
    if appendUd2 && !noContinuation {
      return None;
    }
    var data := new Byte[|section|](i requires 0 <= i < |section| => section[i]);
    assert data[..] == section;
    var ok := CheckTypes(section, relocs, data);
    if !ok {
      NotAllAccepted(section, relocs);
      return None;
    }
    BuildReady(section, relocs);
    var l;
    ok, l := Collect(data, relocs, section);
    if !ok {
      return None;
    }
    LitcSays(section, relocs);
    if noContinuation != (l.litcOrd == -1) {
      return None;
    }
    BluePrintBuilt(section, relocs, data[..], l, appendUd2);
    var bp := AssembleBluePrint(data[..] + if appendUd2 then UD2 else [], l);
    result := Some(bp);
  }

  lemma NotAllAccepted(section: seq<Byte>, relocs: seq<Reloc>)
    requires !forall j {:trigger relocs[j]} :: 0 <= j < |relocs| ==> TypeAccepted(section, relocs[j])
    ensures !AllAccepted(section, relocs, |relocs|)
  {
    var j :| 0 <= j < |relocs| && !TypeAccepted(section, relocs[j]);
    assert !Accepted(section, relocs[j]);
  }

  /** A trap behind the code is UD2. */
  lemma TrapIsUd2(section: seq<Byte>, relocs: seq<Reloc>, appendUd2: bool, bp: BluePrint)
    requires Good(section, relocs) && Built(section, relocs, appendUd2, bp)
    ensures if appendUd2 then |bp.content| == |section| + 2 && bp.content[|section|] == 0x0F &&
        bp.content[|section| + 1] == 0x0B
      else |bp.content| == |section|
  {
    var tail := bp.content[|section|..];
    assert appendUd2 ==> tail[0] == bp.content[|section|] && tail[1] == bp.content[|section| + 1];
  }

  // ---------- both stages ----------

  /**
   The relocation formulas of the System V AMD64 psABI, table 4.10: S + A - P for PC32 and PLT32, S + A for the absolute
   types, cut to the field. `symbol` is S, and P is the place of the field.
   */
  function PsAbi(r: Reloc, symbol: nat, codeAddress: nat): nat {
    match r.typ
    case R64 => (symbol + r.addend) % 0x1_0000_0000_0000_0000
    case PC32 => (symbol + r.addend - (codeAddress + r.offset)) % 0x1_0000_0000
    case PLT32 => (symbol + r.addend - (codeAddress + r.offset)) % 0x1_0000_0000
    case _ => (symbol + r.addend) % 0x1_0000_0000
  }

  lemma BuildValueIs(r: Reloc)
    ensures Congruent(BuildValue(r), r.addend - (if r.PcRelative() then r.offset else 0), Range256(r.Width()))
  {
    WordRanges();
    if r.PcRelative() {
      var a, b := (0 - r.offset) % WORD32, r.addend % WORD32;
      CongruentRemainder(0 - r.offset, WORD32);
      CongruentRemainder(r.addend, WORD32);
      CongruentSum(0 - r.offset, a, r.addend, b, WORD32);
      CongruentRemainder(a + b, WORD32);
      CongruentTrans(BuildValue(r), a + b, 0 - r.offset + r.addend, WORD32);
    } else {
      CongruentRemainder(r.addend, Range256(r.Width()));
    }
  }

  lemma AddendIs(s: Site, address: nat, values: seq<nat>)
    requires s.ord < |values| && (s.pc ==> s.width == 4)
    ensures Congruent(Addend(s, address, values), values[s.ord] - (if s.pc then address else 0), Range256(s.width))
  {
    WordRanges();
    if s.pc {
      CongruentRemainder(0 - address, WORD32);
      CongruentSelf(values[s.ord], WORD32);
      CongruentSum(0 - address, MinusAddress(address), values[s.ord], values[s.ord], WORD32);
    } else {
      CongruentSelf(values[s.ord], Range256(s.width));
    }
  }

  /** Build-time and run-time parts add up to S + A - P or S + A, modulo the field's range. */
  lemma TwoStageSum(r: Reloc, s: Site, content: seq<Byte>, address: nat, values: seq<nat>, x: nat)
    requires s.Valid(content) && s.offset == r.offset && s.width == r.Width() && s.pc == r.PcRelative() &&
      s.ord < |values|
    requires OwnPart(content, r) && !r.typ.TPOFF32?
    requires FieldIs(x, content, s, Addend(s, address, values))
    ensures Congruent(x, values[s.ord] + r.addend - (if r.PcRelative() then address + r.offset else 0),
      Range256(r.Width()))
  {
    var w, v, u := Range256(s.width), Addend(s, address, values), Read(content, s.offset, s.width);
    BuildValueIs(r);
    AddendIs(s, address, values);
    var b, a := r.addend - (if r.PcRelative() then r.offset else 0), values[s.ord] - (if s.pc then address else 0);
    SumOfStages(x, u, v, BuildValue(r), a, b, w);
    assert b + a == values[s.ord] + r.addend - (if r.PcRelative() then address + r.offset else 0);
  }

  lemma SumOfStages(x: int, u: int, v: int, built: int, a: int, b: int, w: nat)
    requires Congruent(x, u + v, w) && Congruent(u, built, w) && Congruent(built, b, w) && Congruent(v, a, w)
    ensures Congruent(x, b + a, w)
  {
    CongruentTrans(u, built, b, w);
    CongruentSum(b, u, a, v, w);
    CongruentTrans(x, u + v, b + a, w);
  }

  /** Build-time and run-time parts add up to the psABI formula. */
  lemma TwoStageValue(r: Reloc, s: Site, content: seq<Byte>, address: nat, values: seq<nat>, x: nat)
    requires s.Valid(content) && s.offset == r.offset && s.width == r.Width() && s.pc == r.PcRelative() &&
      s.ord < |values|
    requires OwnPart(content, r) && !r.typ.TPOFF32?
    requires FieldIs(x, content, s, Addend(s, address, values))
    ensures x == PsAbi(r, values[s.ord], address)
  {
    TwoStageSum(r, s, content, address, values, x);
    CongruentIsMod(x, values[s.ord] + r.addend - (if r.PcRelative() then address + r.offset else 0),
      Range256(r.Width()));
    WordRanges();
  }

  /** A site that is not stripped is still in the list. */
  lemma SiteStays(sites: seq<Site>, strip: bool, last: nat, i: nat) returns (q: nat)
    requires i < |sites| && (strip ==> last < |sites| && i != last)
    ensures q < |EffectiveSites(sites, strip, last)| && EffectiveSites(sites, strip, last)[q] == sites[i]
  {
    q := if strip && i > last then i - 1 else i;
  }

  /** The site of relocation j is still there, and done, unless it was the stripped jump. */
  lemma RelocationSite(section: seq<Byte>, relocs: seq<Reloc>, bp: BluePrint, m: seq<Byte>, dest: nat, address: nat,
      values: seq<nat>,
      strip: bool, last: nat, j: nat, eff: BluePrint, rest: seq<Site>) returns (s: Site)
    requires Good(section, relocs) && j < |relocs| && !relocs[j].typ.TPOFF32?
    requires var sites := Sites(section, relocs, |relocs|, bp.boilerplateFns, bp.cppFns);
             (strip ==> last < |sites| && relocs[j].offset != sites[last].offset) &&
               rest == EffectiveSites(sites, strip, last)
    requires SitesOk(eff.content, rest) && CodeDone(m, eff, rest, dest, address, values)
    ensures s == SiteOf(section, relocs[j], bp.boilerplateFns, bp.cppFns) && s.ord < |values|
    ensures s.Valid(eff.content) && dest + |eff.content| <= |m|
    ensures SiteDone(m, eff.content, dest, s, Addend(s, address, values))
  {
    var sites := Sites(section, relocs, |relocs|, bp.boilerplateFns, bp.cppFns);
    var i := SitesComplete(section, relocs, |relocs|, bp.boilerplateFns, bp.cppFns, j);
    s := sites[i];
    var q := SiteStays(sites, strip, last, i);
    assert rest[q].Valid(eff.content) && SiteResolved(m, eff.content, dest, rest[q], address, values);
  }

  /**
   Two stages, one formula: in materialised code every relocated field, except that of a stripped jump, carries what the
   psABI asks for, with the fixup value of its symbol as S and the place of the code at run time.
   */
  lemma RelocationsHold(section: seq<Byte>, relocs: seq<Reloc>, appendUd2: bool, bp: BluePrint, m: seq<Byte>, dest: nat,
      address: nat,
      values: seq<nat>, strip: bool, last: nat, j: nat)
    requires Good(section, relocs) && Built(section, relocs, appendUd2, bp) && j < |relocs| && !relocs[j].typ.TPOFF32?
    requires var sites := Sites(section, relocs, |relocs|, bp.boilerplateFns, bp.cppFns);
             && (strip ==> EndsInJump(bp) && FinalJump(bp, sites, last) && relocs[j].offset != sites[last].offset)
             && SitesOk(Effective(bp, strip).content, EffectiveSites(sites, strip, last))
             && CodeDone(m, Effective(bp, strip), EffectiveSites(sites, strip, last), dest, address, values)
    ensures var s, code := SiteOf(section, relocs[j], bp.boilerplateFns, bp.cppFns), Effective(bp, strip).content;
            && s.ord < |values| && s.Valid(code) && dest + |code| <= |m|
            && Carries(m, code, dest, s, PsAbi(relocs[j], values[s.ord], address))
  {
    var code := Effective(bp, strip).content;
    var rest := EffectiveSites(Sites(section, relocs, |relocs|, bp.boilerplateFns, bp.cppFns), strip, last);
    var s := RelocationSite(section, relocs, bp, m, dest, address, values, strip, last, j, Effective(bp, strip), rest);
    var x: nat :| FieldIs(x, code, s, Addend(s, address, values)) && Carries(m, code, dest, s, x);
    assert OwnPart(bp.content, relocs[j]);
    PrefixPart(bp.content, code, relocs[j]);
    TwoStageValue(relocs[j], s, code, address, values, x);
  }

  lemma PrefixPart(content: seq<Byte>, code: seq<Byte>, r: Reloc)
    requires OwnPart(content, r) && !r.typ.TPOFF32? && |code| <= |content| && content[..|code|] == code &&
      r.offset + r.Width() <= |code|
    ensures OwnPart(code, r)
  {
    ReadPrefix(code, content, r.offset, r.Width());
  }
}
