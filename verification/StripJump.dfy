/**
 A boilerplate without its final jump: because the arrays ascend, dropping the last entry of each removes exactly the
 final jump's fixups (PochiVM/fastinterp/fastinterp_helper.h:131-137, 142-146, 157-161, 181-185), and the code section
 that results is materialised like any other.
 */
module StripJump {
  import opened BluePrint
  import opened CodeSection
  import opened MachineCode

  /** Site l is a jump that ends the code. */
  ghost predicate FinalJump(bp: BluePrint, sites: seq<Site>, l: nat) {
    l < |sites| && sites[l].kind == JmpSite && sites[l].Hi() == |bp.content|
  }

  function RemoveAt<T>(xs: seq<T>, l: nat): (ys: seq<T>)
    requires l < |xs|
    ensures |ys| == |xs| - 1
    ensures forall j {:trigger ys[j]} :: 0 <= j < |ys| ==> ys[j] == xs[if j < l then j else j + 1]
  {
    xs[..l] + xs[l + 1..]
  }

  /** The arrays without their last entries, and the content without the final jump. */
  function Stripped(bp: BluePrint): BluePrint
    requires |bp.content| >= JMP_LEN && |bp.addr32| > 0 && |bp.symbol32| > 0 && |bp.jmp32| > 0
  {
    bp.(content := bp.content[..|bp.content| - JMP_LEN],
        addr32 := bp.addr32[..|bp.addr32| - 1],
        symbol32 := bp.symbol32[..|bp.symbol32| - 1],
        jmp32 := bp.jmp32[..|bp.jmp32| - 1])
  }

  /** The last entries are those of the final jump: what the source asserts before it strips. */
  ghost predicate EndsInJump(bp: BluePrint) {
    && |bp.content| >= JMP_LEN && bp.content[|bp.content| - JMP_LEN] == JMP32
    && |bp.addr32| > 0 && bp.addr32[|bp.addr32| - 1] == |bp.content| - 4
    && |bp.symbol32| > 0 && bp.symbol32[|bp.symbol32| - 1].0 == |bp.content| - 4
    && |bp.jmp32| > 0 && bp.jmp32[|bp.jmp32| - 1] == |bp.content| - 4
  }

  lemma LastOffset(content: seq<Byte>, xs: seq<nat>, sites: seq<Site>, sort: Sort, l: nat)
    requires SitesOk(content, sites) && Lists(xs, sites, sort) && l < |sites| && Wanted(sites[l], sort)
    requires sites[l].offset + 4 == |content|
    ensures |xs| > 0 && xs[|xs| - 1] == |content| - 4
  {
    var k := IndexOf(xs, sites[l].offset);
    if k < |xs| - 1 {
      assert xs[k] < xs[|xs| - 1];
    }
    var i := ListedSite(content, xs, sites, sort, |xs| - 1);
  }

  lemma LastRecord(content: seq<Byte>, xs: seq<(nat, nat)>, sites: seq<Site>, l: nat)
    requires SitesOk(content, sites) && ListsRecords(xs, sites, 4) && l < |sites| && sites[l].width == 4
    requires sites[l].offset + 4 == |content|
    ensures |xs| > 0 && xs[|xs| - 1] == (sites[l].offset, sites[l].ord)
  {
    var k := IndexOf(xs, (sites[l].offset, sites[l].ord));
    if k < |xs| - 1 {
      assert xs[k].0 < xs[|xs| - 1].0;
    }
    var i := RecordedSite(content, xs, sites, 4, |xs| - 1);
  }

  lemma DropOffset(content: seq<Byte>, xs: seq<nat>, sites: seq<Site>, sort: Sort, l: nat)
    requires SitesOk(content, sites) && Lists(xs, sites, sort) && l < |sites| && |xs| > 0 &&
      xs[|xs| - 1] == sites[l].offset
    ensures Lists(xs[..|xs| - 1], RemoveAt(sites, l), sort)
  {
    var ys, rest := xs[..|xs| - 1], RemoveAt(sites, l);
    forall k {:trigger HasSite(rest, sort, ys[k])} | 0 <= k < |ys|
      ensures HasSite(rest, sort, ys[k])
    {
      var i := ListedSite(content, xs, sites, sort, k);
      assert xs[k] < xs[|xs| - 1];
      assert SiteAt(rest, if i < l then i else i - 1, sort, ys[k]);
    }
    forall j {:trigger Wanted(rest[j], sort)} | 0 <= j < |rest| && Wanted(rest[j], sort)
      ensures rest[j].offset in ys
    {
      var i := if j < l then j else j + 1;
      assert Wanted(sites[i], sort);
      var k := IndexOf(xs, sites[i].offset);
      DifferentSites(content, sites, i, l);
      assert ys[k] == xs[k];
    }
  }

  /** A list that does not hold site l stays as it is. */
  lemma KeepOffsets(content: seq<Byte>, xs: seq<nat>, sites: seq<Site>, sort: Sort, l: nat)
    requires SitesOk(content, sites) && Lists(xs, sites, sort) && l < |sites| && !Wanted(sites[l], sort)
    ensures Lists(xs, RemoveAt(sites, l), sort)
  {
    var rest := RemoveAt(sites, l);
    forall k {:trigger HasSite(rest, sort, xs[k])} | 0 <= k < |xs|
      ensures HasSite(rest, sort, xs[k])
    {
      var i := ListedSite(content, xs, sites, sort, k);
      assert SiteAt(rest, if i < l then i else i - 1, sort, xs[k]);
    }
    forall j {:trigger Wanted(rest[j], sort)} | 0 <= j < |rest| && Wanted(rest[j], sort)
      ensures rest[j].offset in xs
    {
      assert Wanted(sites[if j < l then j else j + 1], sort);
    }
  }

  lemma DropRecord(content: seq<Byte>, xs: seq<(nat, nat)>, sites: seq<Site>, l: nat)
    requires SitesOk(content, sites) && ListsRecords(xs, sites, 4) && l < |sites|
    requires |xs| > 0 && xs[|xs| - 1] == (sites[l].offset, sites[l].ord)
    ensures ListsRecords(xs[..|xs| - 1], RemoveAt(sites, l), 4)
  {
    var ys, rest := xs[..|xs| - 1], RemoveAt(sites, l);
    forall k {:trigger HasRecord(rest, 4, ys[k])} | 0 <= k < |ys|
      ensures HasRecord(rest, 4, ys[k])
    {
      assert HasRecord(sites, 4, xs[k]);
      var i :| RecordAt(sites, i, 4, xs[k]);
      assert xs[k].0 < xs[|xs| - 1].0;
      assert RecordAt(rest, if i < l then i else i - 1, 4, ys[k]);
    }
    forall j {:trigger rest[j]} | 0 <= j < |rest| && rest[j].width == 4
      ensures (rest[j].offset, rest[j].ord) in ys
    {
      var i := if j < l then j else j + 1;
      var k := IndexOf(xs, (sites[i].offset, sites[i].ord));
      DifferentSites(content, sites, i, l);
      assert ys[k] == xs[k];
    }
  }

  lemma KeepRecords(content: seq<Byte>, xs: seq<(nat, nat)>, sites: seq<Site>, width: nat, l: nat)
    requires SitesOk(content, sites) && ListsRecords(xs, sites, width) && l < |sites| && sites[l].width != width
    ensures ListsRecords(xs, RemoveAt(sites, l), width)
  {
    var rest := RemoveAt(sites, l);
    forall k {:trigger HasRecord(rest, width, xs[k])} | 0 <= k < |xs|
      ensures HasRecord(rest, width, xs[k])
    {
      assert HasRecord(sites, width, xs[k]);
      var i :| RecordAt(sites, i, width, xs[k]);
      assert RecordAt(rest, if i < l then i else i - 1, width, xs[k]);
    }
  }

  /** The other sites end before the final jump. */
  lemma DropSite(content: seq<Byte>, sites: seq<Site>, l: nat)
    requires SitesOk(content, sites) && l < |sites| && sites[l].kind == JmpSite && sites[l].Hi() == |content|
    ensures SitesOk(content[..|content| - JMP_LEN], RemoveAt(sites, l))
  {
    var rest := RemoveAt(sites, l);
    forall j {:trigger rest[j]} | 0 <= j < |rest|
      ensures rest[j].Valid(content[..|content| - JMP_LEN])
    {
      DifferentSites(content, sites, if j < l then j else j + 1, l);
    }
    forall i, j {:trigger SitesApart(rest[i], rest[j])} | 0 <= i < j < |rest|
      ensures SitesApart(rest[i], rest[j])
    {
      DifferentSites(content, sites, if i < l then i else i + 1, if j < l then j else j + 1);
    }
  }

  /** Stripping removes exactly the final jump: what the source asserts holds, and the other sites stay arranged. */
  lemma StripArranged(bp: BluePrint, sites: seq<Site>, l: nat)
    requires Arranged(bp, sites) && FinalJump(bp, sites, l)
    ensures EndsInJump(bp)
    ensures Arranged(Stripped(bp), RemoveAt(sites, l))
  {
    LastOffset(bp.content, bp.addr32, sites, Relative, l);
    LastRecord(bp.content, bp.symbol32, sites, l);
    LastOffset(bp.content, bp.jmp32, sites, Jmps, l);
    DropSite(bp.content, sites, l);
    DropOffset(bp.content, bp.addr32, sites, Relative, l);
    DropRecord(bp.content, bp.symbol32, sites, l);
    KeepRecords(bp.content, bp.symbol64, sites, 8, l);
    DropOffset(bp.content, bp.jmp32, sites, Jmps, l);
    KeepOffsets(bp.content, bp.jcc32, sites, Jccs, l);
  }

  /** The site carries its content plus its addend. */
  ghost predicate SiteResolved(m: seq<Byte>, content: seq<Byte>, dest: nat, s: Site, address: nat, values: seq<nat>)
    requires s.Valid(content) && dest + |content| <= |m|
  {
    s.ord < |values| && SiteDone(m, content, dest, s, Addend(s, address, values))
  }

  /** Every site is done, and every other byte of the code is the boilerplate's. */
  ghost predicate CodeDone(m: seq<Byte>, bp: BluePrint, sites: seq<Site>, dest: nat, address: nat, values: seq<nat>)
    requires SitesOk(bp.content, sites)
  {
    && dest + |bp.content| <= |m|
    && (forall i {:trigger SiteResolved(m, bp.content, dest, sites[i], address, values)} :: 0 <= i < |sites| ==>
          SiteResolved(m, bp.content, dest, sites[i], address, values))
    && (forall b {:trigger OffSites(sites, dest, b)} ::
      dest <= b < dest + |bp.content| && OffSites(sites, dest, b) ==> m[b] == bp.content[b - dest])
  }

  ghost predicate Frame(m: seq<Byte>, m': seq<Byte>, lo: int, hi: int) {
    |m| == |m'| && SameBytes(m, m', 0, lo) && SameBytes(m, m', hi, |m|)
  }

  function Effective(bp: BluePrint, strip: bool): BluePrint
    requires strip ==> EndsInJump(bp)
  {
    if strip then Stripped(bp) else bp
  }

  function EffectiveSites(sites: seq<Site>, strip: bool, l: nat): seq<Site>
    requires strip ==> l < |sites|
  {
    if strip then RemoveAt(sites, l) else sites
  }

  /** Copies a boilerplate to its place and patches it, leaving out its final jump if asked to. */
  method MaterializeCodeSection(mem: array<Byte>, dest: nat, address: nat, bp: BluePrint, values: seq<nat>,
      shouldStripLITC: bool,
      ghost sites: seq<Site>, ghost l: nat)
    requires Arranged(bp, sites) && (shouldStripLITC ==> FinalJump(bp, sites, l) && EndsInJump(bp))
    requires OrdinalsOk(bp.symbol32, |values|) && OrdinalsOk(bp.symbol64, |values|)
    requires dest + |Effective(bp, shouldStripLITC).content| <= mem.Length
    modifies mem
    ensures Arranged(Effective(bp, shouldStripLITC), EffectiveSites(sites, shouldStripLITC, l))
    ensures CodeDone(mem[..], Effective(bp, shouldStripLITC), EffectiveSites(sites, shouldStripLITC, l), dest, address,
      values)
    ensures Frame(old(mem[..]), mem[..], dest, dest + |Effective(bp, shouldStripLITC).content|)
  {
    ghost var eff, rest := Effective(bp, shouldStripLITC), EffectiveSites(sites, shouldStripLITC, l);
    var trueContentLength, addrs, symbols, jmps := |bp.content|, |bp.addr32|, |bp.symbol32|, |bp.jmp32|;
    if shouldStripLITC {
      StripArranged(bp, sites, l);
      assert bp.content[trueContentLength - JMP_LEN] == JMP32;
      trueContentLength := trueContentLength - JMP_LEN;
      assert addrs > 0 && bp.addr32[addrs - 1] == trueContentLength + 1;
      assert symbols > 0 && bp.symbol32[symbols - 1].0 == trueContentLength + 1;
      assert jmps > 0 && bp.jmp32[jmps - 1] == trueContentLength + 1;
      addrs, symbols, jmps := addrs - 1, symbols - 1, jmps - 1;
    }
    assert bp.content[..trueContentLength] == eff.content && bp.addr32[..addrs] == eff.addr32;
    assert bp.symbol32[..symbols] == eff.symbol32 && bp.jmp32[..jmps] == eff.jmp32;
    PatchCode(mem, dest, address, bp.content[..trueContentLength], bp.addr32[..addrs], bp.symbol32[..symbols],
      bp.symbol64, bp.jmp32[..jmps], bp.jcc32, values, eff, rest);
  }

  /** The copy and the loops, over as much of each array as is wanted. */
  method PatchCode(mem: array<Byte>, dest: nat, address: nat, content: seq<Byte>, addr32: seq<nat>,
      symbol32: seq<(nat, nat)>,
      symbol64: seq<(nat, nat)>, jmp32: seq<nat>, jcc32: seq<nat>, values: seq<nat>, ghost bp: BluePrint,
        ghost sites: seq<Site>)
    requires bp.content == content && bp.addr32 == addr32 && bp.symbol32 == symbol32 && bp.symbol64 == symbol64
    requires bp.jmp32 == jmp32 && bp.jcc32 == jcc32
    requires Arranged(bp, sites) && OrdinalsOk(symbol32, |values|) && OrdinalsOk(symbol64, |values|) &&
      dest + |content| <= mem.Length
    modifies mem
    ensures CodeDone(mem[..], bp, sites, dest, address, values) && Frame(old(mem[..]), mem[..], dest, dest + |content|)
  {
    ghost var before := mem[..];
    CopyBytes(mem, dest, content);
    ghost var m0 := mem[..];
    ghost var g := FixAll(mem, dest, address, addr32, symbol32, symbol64, values, bp, sites);
    JumpsReady(content, jmp32, sites, Jmps, dest, g.m3);
    JmpOpcodesReady(bp, sites, dest, address, values, g);
    ShortenJmps(mem, dest, jmp32);
    g := g.(m4 := mem[..]);
    JumpsReady(content, jcc32, sites, Jccs, dest, g.m4);
    JccOpcodesReady(bp, sites, dest, address, values, g);
    ShortenJccs(mem, dest, jcc32);
    g := g.(m5 := mem[..]);
    Finish(bp, sites, dest, address, values, before, g);
  }

  /** The three fixup loops. */
  method FixAll(mem: array<Byte>, dest: nat, address: nat, addr32: seq<nat>, symbol32: seq<(nat, nat)>,
      symbol64: seq<(nat, nat)>,
      values: seq<nat>, ghost bp: BluePrint, ghost sites: seq<Site>)
    returns (ghost g: Stages)
    requires bp.addr32 == addr32 && bp.symbol32 == symbol32 && bp.symbol64 == symbol64
    requires Arranged(bp, sites) && OrdinalsOk(symbol32, |values|) && OrdinalsOk(symbol64, |values|) &&
      dest + |bp.content| <= mem.Length
    requires forall k {:trigger bp.content[k]} :: 0 <= k < |bp.content| ==> mem[dest + k] == bp.content[k]
    modifies mem
    ensures g.m0 == old(mem[..]) && g.m3 == mem[..] && FixupsDone(bp, sites, dest, address, values, g)
  {
    ghost var m0 := mem[..];
    var addend := MinusAddress(address);
    AddrReady(bp.content, addr32, sites, dest, addend, mem.Length);
    FixAddresses(mem, dest, addr32, addend);
    ghost var m1 := mem[..];
    RecordsReady(bp.content, symbol32, sites, 4, dest, values, mem.Length);
    FixSymbols(mem, dest, symbol32, 4, values);
    ghost var m2 := mem[..];
    RecordsReady(bp.content, symbol64, sites, 8, dest, values, mem.Length);
    FixSymbols(mem, dest, symbol64, 8, values);
    g := Stages(m0, m1, m2, mem[..], [], []);
  }

  lemma JmpOpcodesReady(bp: BluePrint, sites: seq<Site>, dest: nat, address: nat, values: seq<nat>, g: Stages)
    requires Arranged(bp, sites) && OrdinalsOk(bp.symbol32, |values|) && OrdinalsOk(bp.symbol64, |values|)
    requires FixupsDone(bp, sites, dest, address, values, g) && JumpsOk(g.m3, Absolute(bp.jmp32, dest), 1)
    ensures JmpOpcodes(g.m3, Absolute(bp.jmp32, dest))
  {
    var ops := Absolute(bp.jmp32, dest);
    forall k {:trigger ops[k]} | 0 <= k < |ops|
      ensures g.m3[ops[k] - 1] == JMP32
    {
      var i := ListedSite(bp.content, bp.jmp32, sites, Jmps, k);
      SiteGrown(bp, sites, dest, address, values, g, i);
      assert g.m0[dest + (sites[i].offset - 1)] == bp.content[sites[i].offset - 1];
    }
  }

  lemma JccOpcodesReady(bp: BluePrint, sites: seq<Site>, dest: nat, address: nat, values: seq<nat>, g: Stages)
    requires Arranged(bp, sites) && OrdinalsOk(bp.symbol32, |values|) && OrdinalsOk(bp.symbol64, |values|)
    requires FixupsDone(bp, sites, dest, address, values, g) && JumpsOk(g.m4, Absolute(bp.jcc32, dest), 2)
    requires JumpsOk(g.m3, Absolute(bp.jmp32, dest), 1) && JmpsKept(g.m3, g.m4, Absolute(bp.jmp32, dest), |bp.jmp32|)
    ensures JccOpcodes(g.m4, Absolute(bp.jcc32, dest))
  {
    var ops := Absolute(bp.jcc32, dest);
    forall k {:trigger ops[k]} | 0 <= k < |ops|
      ensures g.m4[ops[k] - 2] == 0x0F && 0x80 <= g.m4[ops[k] - 1] <= 0x8F
    {
      var i := ListedSite(bp.content, bp.jcc32, sites, Jccs, k);
      SiteGrown(bp, sites, dest, address, values, g, i);
      JmpEffect(bp.content, bp.jmp32, sites, g.m3, g.m4, dest, i);
      assert g.m0[dest + (sites[i].offset - 1)] == bp.content[sites[i].offset - 1];
      assert g.m0[dest + (sites[i].offset - 2)] == bp.content[sites[i].offset - 2];
    }
  }

  lemma Finish(bp: BluePrint, sites: seq<Site>, dest: nat, address: nat, values: seq<nat>, before: seq<Byte>, g: Stages)
    requires Arranged(bp, sites) && OrdinalsOk(bp.symbol32, |values|) && OrdinalsOk(bp.symbol64, |values|)
    requires FixupsDone(bp, sites, dest, address, values, g) && JumpsDone(bp, dest, g)
    requires dest + |bp.content| <= |before| && g.m0 == Patch(before, dest, bp.content)
    ensures CodeDone(g.m5, bp, sites, dest, address, values) && Frame(before, g.m5, dest, dest + |bp.content|)
  {
    forall i {:trigger SiteResolved(g.m5, bp.content, dest, sites[i], address, values)} | 0 <= i < |sites|
      ensures sites[i].Valid(bp.content) && SiteResolved(g.m5, bp.content, dest, sites[i], address, values)
    {
      SiteFinished(bp, sites, dest, address, values, g, i);
    }
    OthersFinished(bp, sites, dest, address, values, g);
    FrameFinished(bp, sites, dest, before, g);
  }

  lemma FrameFinished(bp: BluePrint, sites: seq<Site>, dest: nat, before: seq<Byte>, g: Stages)
    requires SitesOk(bp.content, sites) && OthersSame(g.m0, g.m5, sites, dest)
    requires dest + |bp.content| <= |before| && g.m0 == Patch(before, dest, bp.content)
    ensures Frame(before, g.m5, dest, dest + |bp.content|)
    ensures forall b {:trigger OffSites(sites, dest, b)} ::
      dest <= b < dest + |bp.content| && OffSites(sites, dest, b) ==> g.m5[b] == bp.content[b - dest]
  {
    forall b {:trigger g.m5[b]} | 0 <= b < |before| && !(dest <= b < dest + |bp.content|)
      ensures g.m5[b] == before[b]
    {
      assert OffSites(sites, dest, b);
    }
  }
}
