/**
 The generated program goes where its links say: every branch of every instance reaches the start of the instance its
 placeholder was populated with, however the code was placed, stripped, padded, patched and shortened.
 */
module ControlFlow {
  import opened Arith
  import opened BluePrint
  import BoilerplateBuild
  import opened BoilerplateInstance
  import opened CodeSection
  import opened CodegenEngine
  import opened MachineCode
  import opened Placement
  import PlacementTheory
  import opened Relocation
  import StripJump

  const HALF32 := 0x8000_0000

  /** A branch field holds what a compiler's addend of -4 leaves after the build: less the place behind the field. */
  ghost predicate BranchFields(content: seq<Byte>, sites: seq<Site>)
    requires SitesOk(content, sites)
  {
    forall i {:trigger sites[i]} :: 0 <= i < |sites| && sites[i].kind != DataSite ==>
      Congruent(Read(content, sites[i].offset, 4), 0 - (sites[i].offset + 4), WORD32)
  }

  ghost predicate CompilerAddends(relocs: seq<Reloc>) {
    forall j {:trigger relocs[j]} :: 0 <= j < |relocs| && relocs[j].symbol.BoilerplateFn? && relocs[j].PcRelative() ==>
      relocs[j].addend == -4
  }

  /** What the build makes of a section is what an instance needs of its blueprint. */
  lemma BuiltIsDescribed(section: seq<Byte>, relocs: seq<Reloc>, appendUd2: bool, bp: BluePrint) returns (last: nat)
    requires Good(section, relocs) && BoilerplateBuild.Built(section, relocs, appendUd2, bp)
    ensures Described(bp, Sites(section, relocs, |relocs|, bp.boilerplateFns, bp.cppFns), last)
  {
    var hb, hc := bp.boilerplateFns, bp.cppFns;
    var sites := Sites(section, relocs, |relocs|, hb, hc);
    forall i {:trigger sites[i]} | 0 <= i < |sites|
      ensures sites[i].ord < Ordinals(bp) && (sites[i].kind != DataSite ==> sites[i].ord < hb)
    {
      var j := SitesSound(section, relocs, |relocs|, hb, hc, i);
      assert BoilerplateBuild.OrdinalFits(relocs[j], hb, hc, bp.constants) && Accepted(section, relocs[j]);
    }
    last := 0;
    if BoilerplateBuild.EndsInTailCall(section, relocs) {
      var l: nat :| StripJump.FinalJump(bp, sites, l) && sites[l].ord == bp.litcOrd;
      last := l;
    }
  }

  lemma BuiltBranchFields(section: seq<Byte>, relocs: seq<Reloc>, appendUd2: bool, bp: BluePrint)
    requires Good(section, relocs) && BoilerplateBuild.Built(section, relocs, appendUd2, bp) && CompilerAddends(relocs)
    ensures BranchFields(bp.content, Sites(section, relocs, |relocs|, bp.boilerplateFns, bp.cppFns))
  {
    var hb, hc := bp.boilerplateFns, bp.cppFns;
    var sites := Sites(section, relocs, |relocs|, hb, hc);
    forall i {:trigger sites[i]} | 0 <= i < |sites| && sites[i].kind != DataSite
      ensures Congruent(Read(bp.content, sites[i].offset, 4), 0 - (sites[i].offset + 4), WORD32)
    {
      var j := SitesSound(section, relocs, |relocs|, hb, hc, i);
      var r := relocs[j];
      assert BoilerplateBuild.OwnPart(bp.content, r) && Accepted(section, r) && sites[i].Valid(bp.content);
      BoilerplateBuild.BuildValueIs(r);
      WordRanges();
      CongruentTrans(Read(bp.content, r.offset, 4), BuildValue(r), r.addend - r.offset, WORD32);
    }
  }

  // ---------- one branch ----------

  /** The branch at this site goes to `target`; a conditional one otherwise runs on behind its six bytes. */
  ghost predicate Reaches(m: seq<Byte>, content: seq<Byte>, dest: nat, s: Site, target: int)
    requires s.Valid(content)
  {
    match s.kind
    case DataSite => false
    case CallSite => Decode(m, dest + s.offset - 1) == Call(target, dest + s.offset + 4)
    case JmpSite => Decode(m, dest + s.offset - 1) == Jump(target)
    case JccSite => BranchTo(m, dest + s.offset - 2, content[s.offset - 1] - 0x80, target)
  }

  lemma SignedOf(x: nat, d: int)
    requires x < WORD32 && Congruent(x, d, WORD32) && -HALF32 <= d < HALF32
    ensures Signed(x, 4) == d
  {
    WordRanges();
    CongruentIsMod(x, d, WORD32);
    if d >= 0 {
      DivModUnique(d, WORD32, 0, d);
    } else {
      DivModUnique(d, WORD32, -1, d + WORD32);
    }
  }

  lemma RelativeField(content: seq<Byte>, s: Site, address: nat, values: seq<nat>, x: nat)
    requires s.Valid(content) && s.pc && s.ord < |values| && FieldIs(x, content, s, Addend(s, address, values))
    ensures s.width == 4 && x < WORD32 && Congruent(x, Read(content, s.offset, 4) + Addend(s, address, values), WORD32)
    ensures Congruent(Addend(s, address, values), values[s.ord] - address, WORD32)
  {
    WordRanges();
    BoilerplateBuild.AddendIs(s, address, values);
  }

  /** A patched branch whose symbol lies at `target` in the same code goes there, wherever the code is. */
  lemma BranchReaches(m: seq<Byte>, content: seq<Byte>, dest: nat, s: Site, address: nat, baseAddress: nat,
      values: seq<nat>, target: nat)
    requires s.Valid(content) && s.kind != DataSite && dest + |content| <= |m| && s.ord < |values| &&
      address == baseAddress + dest
    requires Congruent(Read(content, s.offset, 4), 0 - (s.offset + 4), WORD32)
    requires values[s.ord] == baseAddress + target && target < HALF32 && dest + |content| < HALF32
    requires SiteDone(m, content, dest, s, Addend(s, address, values))
    ensures Reaches(m, content, dest, s, target)
  {
    var v := Addend(s, address, values);
    var x: nat :| FieldIs(x, content, s, v) && Carries(m, content, dest, s, x);
    RelativeField(content, s, address, values, x);
    Displacement(x, Read(content, s.offset, 4), v, s.offset, dest, target, values[s.ord] - address);
    CarriesReaches(m, content, dest, s, x, target);
  }

  lemma CarriesReaches(m: seq<Byte>, content: seq<Byte>, dest: nat, s: Site, x: nat, target: nat)
    requires s.Valid(content) && s.kind != DataSite && dest + |content| <= |m| && Carries(m, content, dest, s, x)
    requires dest + s.offset + 4 + Signed(x, 4) == target
    ensures Reaches(m, content, dest, s, target)
  {
    match s.kind
    case DataSite =>
    case CallSite =>
    case JmpSite =>
    case JccSite =>
  }

  lemma Displacement(x: nat, field: nat, v: nat, offset: nat, dest: nat, target: nat, d: int)
    requires x < WORD32 && Congruent(x, field + v, WORD32) && Congruent(field, 0 - (offset + 4), WORD32) &&
      Congruent(v, d, WORD32)
    requires d == target - dest && target < HALF32 && dest + offset + 4 < HALF32
    ensures dest + offset + 4 + Signed(x, 4) == target
  {
    CongruentSum(0 - (offset + 4), field, d, v, WORD32);
    CongruentTrans(x, field + v, 0 - (offset + 4) + d, WORD32);
    SignedOf(x, 0 - (offset + 4) + d);
  }

  // ---------- the whole program ----------

  /** The start of the instance that v points to. */
  ghost function TargetOf(v: FixupValue, st: seq<Slot>): int
    requires v.Pointer? && v.target.m_ordinalInArray < |st|
  {
    st[v.target.m_ordinalInArray].addr
  }

  /** Site k of the instance is a branch, and its placeholder is populated with an instance. */
  ghost predicate Populated(x: FastInterpBoilerplateInstance, values: seq<FixupValue>, k: nat, n: nat) {
    && Described(x.m_owner, x.sites, x.last) && |values| == Ordinals(x.m_owner)
    && k < |x.sites| && x.sites[k].kind != DataSite
    && values[x.sites[k].ord].Pointer? && values[x.sites[k].ord].target.m_ordinalInArray < n
  }

  /** Site k of instance i leads to `target`: by its branch, or by falling through NOPs where its jump was left out. */
  ghost predicate LeadsTo(m: seq<Byte>, x: FastInterpBoilerplateInstance, slot: Slot, k: nat, target: int)
    requires Described(x.m_owner, x.sites, x.last) && k < |x.sites|
  {
    && slot.addr >= 0 && target >= 0
    && if slot.strip && k == x.last then
         slot.addr + x.sites[k].Lo() == slot.End(|x.m_owner.content|) &&
           NopRun(m, slot.End(|x.m_owner.content|), target)
       else Reaches(m, x.m_owner.content, slot.addr, x.sites[k], target)
  }

  lemma AddressesFit(g: Graph, t: Trace, i: nat)
    requires GoodPlacement(g, t) && i < |t.st|
    ensures 0 <= t.st[i].padding <= t.st[i].addr && t.st[i].addr <= t.st[i].End(g.lens[i]) <= t.len
  {
    var k := InstanceRange(g, t, i);
    assert t.st[i].strip ==> PlacementTheory.Falls(g.litc, t.order, k);
  }

  /** What placement and materialisation leave of one instance. */
  ghost predicate Settled(m: seq<Byte>, x: FastInterpBoilerplateInstance, values: seq<FixupValue>, slot: Slot,
      baseAddress: nat, st: seq<Slot>, len: int) {
    match slot
    case Slot(_, padding, addr, _, strip) =>
      && InstanceDone(m, x, values, slot, baseAddress, st)
      && 0 <= padding <= addr <= len && slot.End(|x.m_owner.content|) <= len
      && (strip ==> StripJump.FinalJump(x.m_owner, x.sites, x.last))
  }

  lemma OneInstance(m: seq<Byte>, insts: Instances, vals: Links, g: Graph, t: Trace, baseAddress: nat, i: nat)
    requires Written(Image(m, insts, vals, g, t, baseAddress)) && i < |insts|
    ensures PlacedProgram(insts, vals, g, t) && |t.st| == |vals| == |insts|
    ensures Settled(m, insts[i], vals[i], t.st[i], baseAddress, t.st, t.len)
  {
    AddressesFit(g, t, i);
    assert DescribedInstance(insts, vals, i) && InstanceDone(m, insts[i], vals[i], t.st[i], baseAddress, t.st);
    InstanceFits(insts, vals, g, t, i, t.len);
  }

  /**
   Materialised code preserves control flow: every populated branch of every instance, and every jump that was left out,
   leads to the start of the instance its placeholder was populated with.
   */
  lemma ControlArrives(m: seq<Byte>, insts: Instances, vals: Links, g: Graph, t: Trace, baseAddress: nat, i: nat,
      k: nat)
    requires Written(Image(m, insts, vals, g, t, baseAddress)) && t.len < HALF32
    requires i < |insts| && Populated(insts[i], vals[i], k, |insts|) &&
      BranchFields(insts[i].m_owner.content, insts[i].sites)
    ensures LeadsTo(m, insts[i], t.st[i], k, TargetOf(vals[i][insts[i].sites[k].ord], t.st))
  {
    var x, slot, v := insts[i], t.st[i], vals[i][insts[i].sites[k].ord];
    OneInstance(m, insts, vals, g, t, baseAddress, i);
    TargetSettled(m, insts, vals, g, t, baseAddress, v);
    if slot.strip && k == x.last {
      StrippedArrives(m, insts, vals, g, t, i);
    } else {
      BranchArrives(m, x, vals[i], slot, baseAddress, t.st, t.len, k);
    }
  }

  /** The instance v points to has its place, and the NOPs in front of it lead to its start. */
  ghost predicate TargetReady(m: seq<Byte>, v: FixupValue, st: seq<Slot>, len: int) {
    && v.Pointer? && v.target.m_ordinalInArray < |st|
    && var slot := st[v.target.m_ordinalInArray];
       0 <= slot.padding <= slot.addr <= len && NopRun(m, slot.addr - slot.padding, slot.addr)
  }

  lemma TargetSettled(m: seq<Byte>, insts: Instances, vals: Links, g: Graph, t: Trace, baseAddress: nat, v: FixupValue)
    requires Written(Image(m, insts, vals, g, t, baseAddress)) && v.Pointer? && v.target.m_ordinalInArray < |insts|
    ensures TargetReady(m, v, t.st, t.len)
  {
    AddressesFit(g, t, v.target.m_ordinalInArray);
    PaddingDone(m, insts, vals, g, t, baseAddress, v.target.m_ordinalInArray);
  }

  lemma PaddingDone(m: seq<Byte>, insts: Instances, vals: Links, g: Graph, t: Trace, baseAddress: nat, j: nat)
    requires Written(Image(m, insts, vals, g, t, baseAddress)) && j < |insts|
    requires 0 <= t.st[j].padding <= t.st[j].addr
    ensures NopRun(m, t.st[j].addr - t.st[j].padding, t.st[j].addr)
  {
    var x := insts[j];
    assert InstanceDone(m, x, vals[j], t.st[j], baseAddress, t.st);
    PaddingRuns(m, x.m_owner, x.sites, x.last, t.st[j], AddressOf(baseAddress, t.st[j]),
      Resolved(vals[j], baseAddress, t.st));
  }

  lemma BranchArrives(m: seq<Byte>, x: FastInterpBoilerplateInstance, values: seq<FixupValue>, slot: Slot,
      baseAddress: nat, st: seq<Slot>, len: int, k: nat)
    requires Settled(m, x, values, slot, baseAddress, st, len) && len < HALF32
    requires Populated(x, values, k, |st|) && BranchFields(x.m_owner.content, x.sites) && !(slot.strip && k == x.last)
    requires TargetReady(m, values[x.sites[k].ord], st, len)
    ensures LeadsTo(m, x, slot, k, TargetOf(values[x.sites[k].ord], st))
  {
    assert x.sites[k].Valid(x.m_owner.content);
    SectionReaches(m, x.m_owner, x.sites, x.last, slot, AddressOf(baseAddress, slot), baseAddress,
      Resolved(values, baseAddress, st), k, TargetOf(values[x.sites[k].ord], st));
  }

  lemma StrippedArrives(m: seq<Byte>, insts: Instances, vals: Links, g: Graph, t: Trace, i: nat)
    requires PlacedProgram(insts, vals, g, t) && i < |insts| && t.st[i].strip &&
      Populated(insts[i], vals[i], insts[i].last, |insts|)
    requires StripJump.FinalJump(insts[i].m_owner, insts[i].sites, insts[i].last) && 0 <= t.st[i].addr
    requires TargetReady(m, vals[i][insts[i].sites[insts[i].last].ord], t.st, t.len)
    ensures LeadsTo(m, insts[i], t.st[i], insts[i].last, TargetOf(vals[i][insts[i].sites[insts[i].last].ord], t.st))
  {
    var j := StrippedNext(insts, vals, g, t, i);
  }

  lemma PaddingRuns(m: seq<Byte>, bp: BluePrint, sites: seq<Site>, last: nat, slot: Slot, address: nat,
      values: seq<nat>)
    requires SectionDone(m, bp, sites, last, slot, address, values)
    ensures NopRun(m, slot.addr - slot.padding, slot.addr)
  {
    NopsRun(m, slot.addr - slot.padding, slot.addr);
  }

  /** The instance behind a stripped one is the one its final jump would have gone to. */
  lemma StrippedNext(insts: Instances, vals: Links, g: Graph, t: Trace, i: nat) returns (j: nat)
    requires PlacedProgram(insts, vals, g, t) && i < |insts| && t.st[i].strip &&
      Populated(insts[i], vals[i], insts[i].last, |insts|)
    requires StripJump.FinalJump(insts[i].m_owner, insts[i].sites, insts[i].last)
    ensures j < |insts| && vals[i][insts[i].sites[insts[i].last].ord].target.m_ordinalInArray == j
    ensures t.st[i].End(|insts[i].m_owner.content|) == t.st[j].addr - t.st[j].padding
    ensures t.st[i].addr + insts[i].sites[insts[i].last].Lo() == t.st[i].End(|insts[i].m_owner.content|)
  {
    FallsIntoContinuation(g, t, i);
    j := g.litc[i];
    assert Next(insts, vals, i) == j;
  }

  lemma SectionReaches(m: seq<Byte>, bp: BluePrint, sites: seq<Site>, last: nat, slot: Slot, address: nat,
      baseAddress: nat, values: seq<nat>, k: nat, target: nat)
    requires SectionDone(m, bp, sites, last, slot, address, values) && slot.End(|bp.content|) < HALF32 &&
      address == baseAddress + slot.addr
    requires k < |sites| && sites[k].kind != DataSite && sites[k].Valid(bp.content) && !(slot.strip && k == last)
    requires Congruent(Read(bp.content, sites[k].offset, 4), 0 - (sites[k].offset + 4), WORD32)
    requires sites[k].ord < |values| && values[sites[k].ord] == baseAddress + target && target < HALF32
    ensures Reaches(m, bp.content, slot.addr, sites[k], target)
  {
    var code := SectionSite(m, bp, sites, last, slot, address, values, k);
    SiteReaches(m, code, bp.content, sites[k], slot.addr, address, baseAddress, values, target);
  }

  /** Every site but a stripped one is done. */
  lemma SectionSite(m: seq<Byte>, bp: BluePrint, sites: seq<Site>, last: nat, slot: Slot, address: nat,
      values: seq<nat>, k: nat) returns (code: seq<Byte>)
    requires SectionDone(m, bp, sites, last, slot, address, values) && k < |sites| && !(slot.strip && k == last)
    ensures slot.addr >= 0 && slot.addr + |code| == slot.End(|bp.content|) <= |m| && |code| <= |bp.content| &&
      bp.content[..|code|] == code
    ensures sites[k].Valid(code) && sites[k].ord < |values| &&
      SiteDone(m, code, slot.addr, sites[k], Addend(sites[k], address, values))
  {
    code := StripJump.Effective(bp, slot.strip).content;
    EffectivePrefix(bp, slot.strip);
    var rest := StripJump.EffectiveSites(sites, slot.strip, last);
    var q := BoilerplateBuild.SiteStays(sites, slot.strip, last, k);
    assert rest[q].Valid(code) && StripJump.SiteResolved(m, code, slot.addr, rest[q], address, values);
  }

  lemma EffectivePrefix(bp: BluePrint, strip: bool)
    requires strip ==> StripJump.EndsInJump(bp)
    ensures |StripJump.Effective(bp, strip).content| == |bp.content| - if strip then JMP_LEN else 0
    ensures bp.content[..|StripJump.Effective(bp, strip).content|] == StripJump.Effective(bp, strip).content
  {
  }

  lemma SiteReaches(m: seq<Byte>, code: seq<Byte>, content: seq<Byte>, s: Site, dest: nat, address: nat,
      baseAddress: nat, values: seq<nat>, target: nat)
    requires |code| <= |content| && content[..|code|] == code && address == baseAddress + dest
    requires s.kind != DataSite && s.Valid(code) && s.Valid(content) && dest + |code| <= |m| && dest + |code| < HALF32
    requires s.ord < |values| && SiteDone(m, code, dest, s, Addend(s, address, values))
    requires Congruent(Read(content, s.offset, 4), 0 - (s.offset + 4), WORD32)
    requires values[s.ord] == baseAddress + target && target < HALF32
    ensures Reaches(m, content, dest, s, target)
  {
    ReadPrefix(code, content, s.offset, 4);
    BranchReaches(m, code, dest, s, address, baseAddress, values, target);
    assert s.kind == JccSite ==> content[s.offset - 1] == content[..|code|][s.offset - 1];
  }

  // ---------- from compiled sections to the running program ----------

  /** A compiled section with its relocations. */
  datatype Section = Section(bytes: seq<Byte>, relocs: seq<Reloc>, appendUd2: bool)

  /** The instance uses a blueprint the build makes of this section. */
  ghost predicate MadeFrom(x: FastInterpBoilerplateInstance, src: Section) {
    match src
    case Section(bytes, relocs, appendUd2) =>
      && Good(bytes, relocs) && BoilerplateBuild.Built(bytes, relocs, appendUd2, x.m_owner) && CompilerAddends(relocs)
      && x.sites == Sites(bytes, relocs, |relocs|, x.m_owner.boilerplateFns, x.m_owner.cppFns)
  }

  /** Relocation r is a branch to a placeholder, and in this array the placeholder leads to an instance. */
  ghost predicate BranchTaken(r: Reloc, values: seq<FixupValue>, n: nat) {
    && !r.typ.TPOFF32? && r.symbol.BoilerplateFn? && r.PcRelative() && r.symbol.ord < |values|
    && values[r.symbol.ord].Pointer? && values[r.symbol.ord].target.m_ordinalInArray < n
  }

  /**
   The back end from end to end: wherever a section that the build accepted branches to a placeholder, the program in
   memory leads to the start of the instance that the placeholder was populated with.
   */
  lemma BackEndPreservesControl(image: Image, src: Section, i: nat, j: nat) returns (k: nat)
    requires i < |image.insts| && |image.vals| == |image.insts| == |image.t.st| && image.t.len < HALF32
    requires j < |src.relocs| && BranchTaken(src.relocs[j], image.vals[i], |image.insts|)
    requires MadeFrom(image.insts[i], src) && Written(image)
    ensures var x := image.insts[i];
            && Described(x.m_owner, x.sites, x.last) && k < |x.sites| && Accepted(src.bytes, src.relocs[j])
            && x.sites[k] == SiteOf(src.bytes, src.relocs[j], x.m_owner.boilerplateFns, x.m_owner.cppFns)
            && LeadsTo(image.m, x, image.t.st[i], k, TargetOf(image.vals[i][src.relocs[j].symbol.ord], image.t.st))
  {
    var Image(m, insts, vals, g, t, baseAddress) := image;
    var x, r := insts[i], src.relocs[j];
    assert DescribedInstance(insts, vals, i) && Accepted(src.bytes, r);
    k := SitesComplete(src.bytes, src.relocs, |src.relocs|, x.m_owner.boilerplateFns, x.m_owner.cppFns, j);
    BuiltBranchFields(src.bytes, src.relocs, src.appendUd2, x.m_owner);
    ControlArrives(m, insts, vals, g, t, baseAddress, i, k);
  }
}
