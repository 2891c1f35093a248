/**
 The patched places of a boilerplate and what becomes of each of them when its code section is materialised, with or
 without its final jump (PochiVM/fastinterp/fastinterp_helper.h:128-198).
 */
module CodeSection {
  import Arith
  import opened BluePrint
  import opened MachineCode

  datatype Kind = JmpSite | JccSite | CallSite | DataSite

  /** One relocated field: its instruction, its place, whether it is relative to its own address, and its fixup
   * value. */
  datatype Site = Site(kind: Kind, offset: nat, width: nat, pc: bool, ord: nat) {
    /** Where the instruction bytes that matter begin. */
    function Lo(): int {
      match kind
      case JmpSite => offset - 1
      case JccSite => offset - 2
      case CallSite => offset - 1
      case DataSite => offset
    }

    function Hi(): nat {
      offset + width
    }

    ghost predicate Valid(content: seq<Byte>) {
      && 0 <= Lo() && Hi() <= |content| && (width == 4 || width == 8) && (pc ==> width == 4)
      && (kind != DataSite ==> pc)
      && (kind == JmpSite ==> content[offset - 1] == JMP32)
      && (kind == CallSite ==> content[offset - 1] == CALL32)
      && (kind == JccSite ==> content[offset - 2] == 0x0F && 0x80 <= content[offset - 1] <= 0x8F)
    }
  }

  /** Instructions do not overlap. */
  ghost predicate SitesApart(s: Site, t: Site) {
    s.Hi() <= t.Lo() || t.Hi() <= s.Lo()
  }

  ghost predicate SitesOk(content: seq<Byte>, sites: seq<Site>) {
    && (forall i {:trigger sites[i]} :: 0 <= i < |sites| ==> sites[i].Valid(content))
    && (forall i, j {:trigger SitesApart(sites[i], sites[j])} ::
      0 <= i < j < |sites| ==> SitesApart(sites[i], sites[j]))
  }

  ghost predicate Ascending(xs: seq<nat>) {
    forall i, j {:trigger xs[i], xs[j]} :: 0 <= i < j < |xs| ==> xs[i] < xs[j]
  }

  ghost predicate AscendingRecords(xs: seq<(nat, nat)>) {
    forall i, j {:trigger xs[i], xs[j]} :: 0 <= i < j < |xs| ==> xs[i].0 < xs[j].0
  }

  /** The sorts of site a plain offset list may collect. */
  datatype Sort = Relative | Jmps | Jccs

  predicate Wanted(s: Site, sort: Sort) {
    match sort
    case Relative => s.pc
    case Jmps => s.kind == JmpSite
    case Jccs => s.kind == JccSite
  }

  /** Each offset of the list is that of a site of the wanted sort, and each such site is listed. */
  ghost predicate Lists(xs: seq<nat>, sites: seq<Site>, sort: Sort) {
    && Ascending(xs)
    && (forall k {:trigger HasSite(sites, sort, xs[k])} :: 0 <= k < |xs| ==> HasSite(sites, sort, xs[k]))
    && (forall i {:trigger Wanted(sites[i], sort)} ::
      0 <= i < |sites| && Wanted(sites[i], sort) ==> sites[i].offset in xs)
  }

  ghost predicate HasSite(sites: seq<Site>, sort: Sort, offset: nat) {
    exists i :: SiteAt(sites, i, sort, offset)
  }

  ghost predicate SiteAt(sites: seq<Site>, i: int, sort: Sort, offset: nat) {
    0 <= i < |sites| && Wanted(sites[i], sort) && sites[i].offset == offset
  }

  ghost predicate ListsRecords(xs: seq<(nat, nat)>, sites: seq<Site>, width: nat) {
    && AscendingRecords(xs)
    && (forall k {:trigger HasRecord(sites, width, xs[k])} :: 0 <= k < |xs| ==> HasRecord(sites, width, xs[k]))
    && (forall i {:trigger sites[i]} :: 0 <= i < |sites| && sites[i].width == width ==>
      (sites[i].offset, sites[i].ord) in xs)
  }

  ghost predicate HasRecord(sites: seq<Site>, width: nat, record: (nat, nat)) {
    exists i :: RecordAt(sites, i, width, record)
  }

  ghost predicate RecordAt(sites: seq<Site>, i: int, width: nat, record: (nat, nat)) {
    0 <= i < |sites| && sites[i].width == width && (sites[i].offset, sites[i].ord) == record
  }

  /** The blueprint's arrays are the sites in ascending order. */
  ghost predicate Arranged(bp: BluePrint, sites: seq<Site>) {
    && SitesOk(bp.content, sites)
    && Lists(bp.addr32, sites, Relative)
    && ListsRecords(bp.symbol32, sites, 4)
    && ListsRecords(bp.symbol64, sites, 8)
    && Lists(bp.jmp32, sites, Jmps)
    && Lists(bp.jcc32, sites, Jccs)
  }

  // ---------- from sites to arrays ----------

  lemma IndexOf<T>(xs: seq<T>, x: T) returns (k: nat)
    requires x in xs
    ensures k < |xs| && xs[k] == x
  {
    k :| 0 <= k < |xs| && xs[k] == x;
  }

  lemma ListedSite(content: seq<Byte>, xs: seq<nat>, sites: seq<Site>, sort: Sort, k: nat) returns (i: nat)
    requires SitesOk(content, sites) && Lists(xs, sites, sort) && k < |xs|
    ensures i < |sites| && Wanted(sites[i], sort) && sites[i].offset == xs[k] && sites[i].Valid(content)
  {
    assert HasSite(sites, sort, xs[k]);
    i :| SiteAt(sites, i, sort, xs[k]);
  }

  lemma RecordedSite(content: seq<Byte>, xs: seq<(nat, nat)>, sites: seq<Site>, width: nat, k: nat) returns (i: nat)
    requires SitesOk(content, sites) && ListsRecords(xs, sites, width) && k < |xs|
    ensures i < |sites| && sites[i].width == width && sites[i].offset == xs[k].0 && sites[i].Valid(content)
  {
    assert HasRecord(sites, width, xs[k]);
    i :| RecordAt(sites, i, width, xs[k]);
  }

  /** Sites at different offsets are apart. */
  lemma DifferentSites(content: seq<Byte>, sites: seq<Site>, i: nat, j: nat)
    requires SitesOk(content, sites) && i < |sites| && j < |sites|
    ensures sites[i].offset == sites[j].offset ==> i == j
    ensures i != j ==> sites[i].Hi() <= sites[j].Lo() || sites[j].Hi() <= sites[i].Lo()
  {
    if i < j {
      assert SitesApart(sites[i], sites[j]);
    } else if j < i {
      assert SitesApart(sites[j], sites[i]);
    }
  }

  /** A list's fixups stay in the code and off each other. */
  lemma AddrReady(content: seq<Byte>, xs: seq<nat>, sites: seq<Site>, dest: nat, addend: nat, size: nat)
    requires SitesOk(content, sites) && Lists(xs, sites, Relative) && dest + |content| <= size
    ensures InRange(AddrFixups(xs, dest, addend), size) && AllApart(AddrFixups(xs, dest, addend))
  {
    var fs := AddrFixups(xs, dest, addend);
    forall k {:trigger fs[k]} | 0 <= k < |fs|
      ensures fs[k].at + fs[k].width <= size
    {
      var i := ListedSite(content, xs, sites, Relative, k);
    }
    forall j, k {:trigger PairApart(fs, j, k)} | 0 <= j < k < |fs|
      ensures PairApart(fs, j, k)
    {
      var p := ListedSite(content, xs, sites, Relative, j);
      var q := ListedSite(content, xs, sites, Relative, k);
      DifferentSites(content, sites, p, q);
    }
  }

  lemma RecordsReady(content: seq<Byte>, xs: seq<(nat, nat)>, sites: seq<Site>, width: nat, dest: nat, values: seq<nat>,
      size: nat)
    requires SitesOk(content, sites) && ListsRecords(xs, sites, width) && OrdinalsOk(xs, |values|) &&
      dest + |content| <= size
    ensures InRange(SymbolFixups(xs, width, dest, values), size) && AllApart(SymbolFixups(xs, width, dest, values))
  {
    var fs := SymbolFixups(xs, width, dest, values);
    forall k {:trigger fs[k]} | 0 <= k < |fs|
      ensures fs[k].at + fs[k].width <= size
    {
      var i := RecordedSite(content, xs, sites, width, k);
    }
    forall j, k {:trigger PairApart(fs, j, k)} | 0 <= j < k < |fs|
      ensures PairApart(fs, j, k)
    {
      var p := RecordedSite(content, xs, sites, width, j);
      var q := RecordedSite(content, xs, sites, width, k);
      DifferentSites(content, sites, p, q);
    }
  }

  function OpcodeLength(sort: Sort): nat {
    if sort.Jmps? then 1 else 2
  }

  lemma JumpsReady(content: seq<Byte>, xs: seq<nat>, sites: seq<Site>, sort: Sort, dest: nat, m: seq<Byte>)
    requires SitesOk(content, sites) && Lists(xs, sites, sort) && !sort.Relative? && dest + |content| <= |m|
    ensures JumpsOk(m, Absolute(xs, dest), OpcodeLength(sort))
  {
    var ops, before := Absolute(xs, dest), OpcodeLength(sort);
    forall k {:trigger ops[k]} | 0 <= k < |ops|
      ensures before <= ops[k] && ops[k] + 4 <= |m|
    {
      var i := ListedSite(content, xs, sites, sort, k);
    }
    forall j, k {:trigger JumpsApart(ops, j, k, before)} | 0 <= j < k < |ops|
      ensures JumpsApart(ops, j, k, before)
    {
      var p := ListedSite(content, xs, sites, sort, j);
      var q := ListedSite(content, xs, sites, sort, k);
      DifferentSites(content, sites, p, q);
    }
  }

  // ---------- what each loop does to one site ----------

  /** A site's field has grown by v, and its opcode is unchanged. */
  ghost predicate Grown(m: seq<Byte>, m': seq<Byte>, dest: nat, s: Site, v: nat)
    requires dest + s.Hi() <= |m| == |m'|
  {
    && Arith.Congruent(Read(m', dest + s.offset, s.width), Read(m, dest + s.offset, s.width) + v, Range256(s.width))
    && SameBytes(m, m', dest + s.Lo(), dest + s.offset)
  }

  ghost predicate Held(m: seq<Byte>, m': seq<Byte>, dest: nat, s: Site) {
    SameBytes(m, m', dest + s.Lo(), dest + s.Hi())
  }

  lemma HeldGrown(m: seq<Byte>, m': seq<Byte>, dest: nat, s: Site)
    requires dest + s.Hi() <= |m| == |m'| && 0 <= s.Lo() && Held(m, m', dest, s)
    ensures Grown(m, m', dest, s, 0)
  {
    ReadSame(m, m', dest + s.offset, s.width);
    Arith.CongruentSelf(Read(m, dest + s.offset, s.width), Range256(s.width));
  }

  lemma GrownTwice(m: seq<Byte>, m1: seq<Byte>, m2: seq<Byte>, dest: nat, s: Site, v: nat, u: nat)
    requires dest + s.Hi() <= |m| == |m1| == |m2| && Grown(m, m1, dest, s, v) && Grown(m1, m2, dest, s, u)
    ensures Grown(m, m2, dest, s, v + u)
  {
    var at, w := dest + s.offset, s.width;
    Arith.CongruentAdd(Read(m1, at, w), Read(m, at, w) + v, Read(m2, at, w), u, Range256(w));
    assert Read(m, at, w) + v + u == Read(m, at, w) + (v + u);
  }

  /** No byte of any instruction that is patched. */
  ghost predicate OffSites(sites: seq<Site>, dest: nat, b: int) {
    forall i {:trigger sites[i]} :: 0 <= i < |sites| ==> b < dest + sites[i].Lo() || dest + sites[i].Hi() <= b
  }

  ghost predicate OthersSame(m: seq<Byte>, m': seq<Byte>, sites: seq<Site>, dest: nat) {
    |m| == |m'| && forall b {:trigger OffSites(sites, dest, b)} ::
      0 <= b < |m| && OffSites(sites, dest, b) ==> m'[b] == m[b]
  }

  lemma OneFixup(content: seq<Byte>, sites: seq<Site>, m: seq<Byte>, m': seq<Byte>, fs: seq<Fixup>, dest: nat, i: nat,
      k: nat)
    requires SitesOk(content, sites) && i < |sites| && dest + |content| <= |m|
    requires InRange(fs, |m|) && AllApart(fs) && Patched(m, m', fs, |fs|) && k < |fs|
    requires fs[k].at == dest + sites[i].offset && fs[k].width == sites[i].width
    requires OpcodeClear(fs, sites[i], dest)
    ensures Grown(m, m', dest, sites[i], fs[k].value)
  {
    assert Fixed(m, m', fs[k]);
    RangeKept(m, m', fs, |fs|, dest + sites[i].Lo(), dest + sites[i].offset);
  }

  /** No fixup of the list touches a site's opcode. */
  ghost predicate OpcodeClear(fs: seq<Fixup>, s: Site, dest: nat) {
    forall k {:trigger fs[k]} :: 0 <= k < |fs| ==> Apart(fs[k], dest + s.Lo(), dest + s.offset)
  }

  ghost predicate SiteClear(fs: seq<Fixup>, s: Site, dest: nat) {
    forall k {:trigger fs[k]} :: 0 <= k < |fs| ==> Apart(fs[k], dest + s.Lo(), dest + s.Hi())
  }

  lemma NoFixup(content: seq<Byte>, sites: seq<Site>, m: seq<Byte>, m': seq<Byte>, fs: seq<Fixup>, dest: nat, i: nat)
    requires SitesOk(content, sites) && i < |sites| && dest + |content| <= |m|
    requires InRange(fs, |m|) && Patched(m, m', fs, |fs|) && SiteClear(fs, sites[i], dest)
    ensures Grown(m, m', dest, sites[i], 0)
  {
    RangeKept(m, m', fs, |fs|, dest + sites[i].Lo(), dest + sites[i].Hi());
    HeldGrown(m, m', dest, sites[i]);
  }

  /** The relative-address loop adds its addend exactly to the relative sites. */
  lemma AddrEffect(content: seq<Byte>, xs: seq<nat>, sites: seq<Site>, m: seq<Byte>, m': seq<Byte>, dest: nat,
      addend: nat, i: nat)
    requires SitesOk(content, sites) && Lists(xs, sites, Relative) && dest + |content| <= |m| && i < |sites|
    requires InRange(AddrFixups(xs, dest, addend), |m|) && AllApart(AddrFixups(xs, dest, addend))
    requires Patched(m, m', AddrFixups(xs, dest, addend), |xs|)
    ensures Grown(m, m', dest, sites[i], if sites[i].pc then addend else 0)
  {
    var fs := AddrFixups(xs, dest, addend);
    forall k {:trigger fs[k]} | 0 <= k < |fs|
      ensures Apart(fs[k], dest + sites[i].Lo(), dest + sites[i].offset)
      ensures !sites[i].pc ==> Apart(fs[k], dest + sites[i].Lo(), dest + sites[i].Hi())
    {
      var j := ListedSite(content, xs, sites, Relative, k);
      DifferentSites(content, sites, i, j);
    }
    if sites[i].pc {
      assert Wanted(sites[i], Relative);
      var k := IndexOf(xs, sites[i].offset);
      OneFixup(content, sites, m, m', fs, dest, i, k);
    } else {
      NoFixup(content, sites, m, m', fs, dest, i);
    }
  }

  /** A symbol loop adds to each site of its width the value of that site's symbol. */
  lemma RecordsEffect(content: seq<Byte>, xs: seq<(nat, nat)>, sites: seq<Site>, m: seq<Byte>, m': seq<Byte>,
      width: nat, dest: nat,
      values: seq<nat>, i: nat)
    requires SitesOk(content, sites) && ListsRecords(xs, sites, width) && OrdinalsOk(xs, |values|) &&
      dest + |content| <= |m| && i < |sites|
    requires InRange(SymbolFixups(xs, width, dest, values), |m|) && AllApart(SymbolFixups(xs, width, dest, values))
    requires Patched(m, m', SymbolFixups(xs, width, dest, values), |xs|)
    ensures sites[i].width == width ==> sites[i].ord < |values|
    ensures Grown(m, m', dest, sites[i], if sites[i].width == width then values[sites[i].ord] else 0)
  {
    var fs := SymbolFixups(xs, width, dest, values);
    forall k {:trigger fs[k]} | 0 <= k < |fs|
      ensures Apart(fs[k], dest + sites[i].Lo(), dest + sites[i].offset)
      ensures sites[i].width != width ==> Apart(fs[k], dest + sites[i].Lo(), dest + sites[i].Hi())
    {
      var j := RecordedSite(content, xs, sites, width, k);
      DifferentSites(content, sites, i, j);
    }
    if sites[i].width == width {
      var k := IndexOf(xs, (sites[i].offset, sites[i].ord));
      OneFixup(content, sites, m, m', fs, dest, i, k);
    } else {
      NoFixup(content, sites, m, m', fs, dest, i);
    }
  }

  lemma AddrOthers(content: seq<Byte>, xs: seq<nat>, sites: seq<Site>, m: seq<Byte>, m': seq<Byte>, dest: nat,
      addend: nat)
    requires SitesOk(content, sites) && Lists(xs, sites, Relative)
    requires InRange(AddrFixups(xs, dest, addend), |m|) && Patched(m, m', AddrFixups(xs, dest, addend), |xs|)
    ensures OthersSame(m, m', sites, dest)
  {
    var fs := AddrFixups(xs, dest, addend);
    forall b {:trigger OffSites(sites, dest, b)} | 0 <= b < |m| && OffSites(sites, dest, b)
      ensures m'[b] == m[b]
    {
      forall k {:trigger fs[k]} | 0 <= k < |fs|
        ensures Apart(fs[k], b, b + 1)
      {
        var j := ListedSite(content, xs, sites, Relative, k);
      }
      assert Untouched(fs, |fs|, b);
    }
  }

  lemma RecordsOthers(content: seq<Byte>, xs: seq<(nat, nat)>, sites: seq<Site>, m: seq<Byte>, m': seq<Byte>,
      width: nat, dest: nat, values: seq<nat>)
    requires SitesOk(content, sites) && ListsRecords(xs, sites, width) && OrdinalsOk(xs, |values|)
    requires InRange(SymbolFixups(xs, width, dest, values), |m|) &&
      Patched(m, m', SymbolFixups(xs, width, dest, values), |xs|)
    ensures OthersSame(m, m', sites, dest)
  {
    var fs := SymbolFixups(xs, width, dest, values);
    forall b {:trigger OffSites(sites, dest, b)} | 0 <= b < |m| && OffSites(sites, dest, b)
      ensures m'[b] == m[b]
    {
      forall k {:trigger fs[k]} | 0 <= k < |fs|
        ensures Apart(fs[k], b, b + 1)
      {
        var j := RecordedSite(content, xs, sites, width, k);
      }
      assert Untouched(fs, |fs|, b);
    }
  }

  // ---------- the jump loops ----------

  lemma JmpEffect(content: seq<Byte>, xs: seq<nat>, sites: seq<Site>, m: seq<Byte>, m': seq<Byte>, dest: nat, i: nat)
    requires SitesOk(content, sites) && Lists(xs, sites, Jmps) && dest + |content| <= |m| && i < |sites|
    requires JumpsOk(m, Absolute(xs, dest), 1) && JmpsKept(m, m', Absolute(xs, dest), |xs|)
    ensures if sites[i].kind == JmpSite then SameJump(m, m', dest + sites[i].offset - 1)
      else Held(m, m', dest, sites[i])
  {
    var ops := Absolute(xs, dest);
    if sites[i].kind == JmpSite {
      assert Wanted(sites[i], Jmps);
      var k := IndexOf(xs, sites[i].offset);
      assert SameJump(m, m', ops[k] - 1);
    } else {
      forall k {:trigger ops[k]} | 0 <= k < |ops|
        ensures dest + sites[i].Hi() <= ops[k] - 1 || ops[k] + 4 <= dest + sites[i].Lo()
      {
        var j := ListedSite(content, xs, sites, Jmps, k);
        DifferentSites(content, sites, i, j);
      }
      JumpRangeKept(m, m', ops, |ops|, 1, dest + sites[i].Lo(), dest + sites[i].Hi());
    }
  }

  lemma JccEffect(content: seq<Byte>, xs: seq<nat>, sites: seq<Site>, m: seq<Byte>, m': seq<Byte>, dest: nat, i: nat)
    requires SitesOk(content, sites) && Lists(xs, sites, Jccs) && dest + |content| <= |m| && i < |sites|
    requires JumpsOk(m, Absolute(xs, dest), 2) && JccsKept(m, m', Absolute(xs, dest), |xs|)
    ensures if sites[i].kind == JccSite then SameBranch(m, m', dest + sites[i].offset - 2)
      else Held(m, m', dest, sites[i])
  {
    var ops := Absolute(xs, dest);
    if sites[i].kind == JccSite {
      assert Wanted(sites[i], Jccs);
      var k := IndexOf(xs, sites[i].offset);
      assert SameBranch(m, m', ops[k] - 2);
    } else {
      forall k {:trigger ops[k]} | 0 <= k < |ops|
        ensures dest + sites[i].Hi() <= ops[k] - 2 || ops[k] + 4 <= dest + sites[i].Lo()
      {
        var j := ListedSite(content, xs, sites, Jccs, k);
        DifferentSites(content, sites, i, j);
      }
      JumpRangeKept(m, m', ops, |ops|, 2, dest + sites[i].Lo(), dest + sites[i].Hi());
    }
  }

  lemma JumpOthers(content: seq<Byte>, xs: seq<nat>, sites: seq<Site>, sort: Sort, m: seq<Byte>, m': seq<Byte>,
      dest: nat)
    requires SitesOk(content, sites) && Lists(xs, sites, sort) && !sort.Relative? && |m| == |m'|
    requires JumpsOk(m, Absolute(xs, dest), OpcodeLength(sort))
    requires var ops, before := Absolute(xs, dest), OpcodeLength(sort);
             forall b {:trigger OutsideJumps(ops, |ops|, before, b)} ::
               0 <= b < |m| && OutsideJumps(ops, |ops|, before, b) ==> m'[b] == m[b]
    ensures OthersSame(m, m', sites, dest)
  {
    var ops, before := Absolute(xs, dest), OpcodeLength(sort);
    forall b {:trigger OffSites(sites, dest, b)} | 0 <= b < |m| && OffSites(sites, dest, b)
      ensures m'[b] == m[b]
    {
      forall k {:trigger ops[k]} | 0 <= k < |ops|
        ensures b < ops[k] - before || ops[k] + 4 <= b
      {
        var j := ListedSite(content, xs, sites, sort, k);
      }
      assert OutsideJumps(ops, |ops|, before, b);
    }
  }

  // ---------- the finished site ----------

  /** What the fixups add to a site: minus the code's address if it is relative, plus the value of its symbol. */
  function Addend(s: Site, address: nat, values: seq<nat>): nat
    requires s.ord < |values|
  {
    (if s.pc then MinusAddress(address) else 0) + values[s.ord]
  }

  /** The conditional jump at `at` goes to `target`, or runs on, through NOPs at most, behind its six bytes. */
  ghost predicate BranchTo(m: seq<Byte>, at: nat, cond: nat, target: int) {
    var i := Decode(m, at);
    i.CondJump? && i.cond == cond && i.target == target && i.next <= at + 6 && NopRun(m, i.next, at + 6)
  }

  /** The site carries the field value x: as data, or as the displacement of a jump that may have been shortened. */
  ghost predicate Carries(m: seq<Byte>, content: seq<Byte>, dest: nat, s: Site, x: nat)
    requires s.Valid(content) && dest + |content| <= |m|
  {
    match s.kind
    case DataSite => Read(m, dest + s.offset, s.width) == x
    case CallSite => Decode(m, dest + s.offset - 1) == Call(dest + s.offset + 4 + Signed(x, 4), dest + s.offset + 4)
    case JmpSite => Decode(m, dest + s.offset - 1) == Jump(dest + s.offset + 4 + Signed(x, 4))
    case JccSite => BranchTo(m, dest + s.offset - 2, content[s.offset - 1] - 0x80, dest + s.offset + 4 + Signed(x, 4))
  }

  /** The field value of a site is its boilerplate content plus v, modulo its range. */
  ghost predicate FieldIs(x: nat, content: seq<Byte>, s: Site, v: nat)
    requires s.Valid(content)
  {
    x < Range256(s.width) && Arith.Congruent(x, Read(content, s.offset, s.width) + v, Range256(s.width))
  }

  ghost predicate SiteDone(m: seq<Byte>, content: seq<Byte>, dest: nat, s: Site, v: nat)
    requires s.Valid(content) && dest + |content| <= |m|
  {
    (exists x :: FieldIs(x, content, s, v) && Carries(m, content, dest, s, x)) && SiteShortest(m, dest, s)
  }

  /** A jump that may be shortened has been, if its target is near enough. */
  ghost predicate SiteShortest(m: seq<Byte>, dest: nat, s: Site) {
    && (s.kind == JmpSite ==> s.offset >= 1 && ShortestJump(m, dest + s.offset - 1))
    && (s.kind == JccSite ==> s.offset >= 2 && ShortestBranch(m, dest + s.offset - 2))
  }

  lemma HeldShortest(m: seq<Byte>, m': seq<Byte>, content: seq<Byte>, dest: nat, s: Site)
    requires s.Valid(content) && dest + |content| <= |m| == |m'| && SiteShortest(m, dest, s) && Held(m, m', dest, s)
    ensures SiteShortest(m', dest, s)
  {
    if s.kind == JmpSite {
      ShortestKept(m, m', dest + s.offset - 1);
    } else if s.kind == JccSite {
      ShortestKept(m, m', dest + s.offset - 2);
    }
  }

  /** Right after the fixups, before any jump is shortened. */
  lemma CarriesFresh(m0: seq<Byte>, m: seq<Byte>, content: seq<Byte>, dest: nat, s: Site, v: nat) returns (x: nat)
    requires s.Valid(content) && dest + |content| <= |m0| == |m|
    requires forall k {:trigger content[k]} :: 0 <= k < |content| ==> m0[dest + k] == content[k]
    requires Grown(m0, m, dest, s, v)
    ensures FieldIs(x, content, s, v) && Carries(m, content, dest, s, x)
  {
    x := Read(m, dest + s.offset, s.width);
    ReadShifted(m0, content, dest, s.offset, s.width);
    FreshDecodes(m0, m, content, dest, s);
  }

  lemma {:induction false} ReadShifted(m: seq<Byte>, content: seq<Byte>, dest: nat, o: nat, n: nat)
    requires dest + |content| <= |m| && o + n <= |content|
    requires forall k {:trigger content[k]} :: 0 <= k < |content| ==> m[dest + k] == content[k]
    ensures Read(m, dest + o, n) == Read(content, o, n)
    decreases n
  {
    if n > 0 {
      ReadShifted(m, content, dest, o + 1, n - 1);
      assert dest + (o + 1) == (dest + o) + 1;
    }
  }

  lemma FreshDecodes(m0: seq<Byte>, m: seq<Byte>, content: seq<Byte>, dest: nat, s: Site)
    requires s.Valid(content) && dest + |content| <= |m0| == |m|
    requires forall k {:trigger content[k]} :: 0 <= k < |content| ==> m0[dest + k] == content[k]
    requires SameBytes(m0, m, dest + s.Lo(), dest + s.offset)
    ensures Carries(m, content, dest, s, Read(m, dest + s.offset, s.width))
  {
    match s.kind
    case DataSite =>
    case CallSite =>
      assert m[dest + s.offset - 1] == content[s.offset - 1];
      JumpDecoded(m, dest + s.offset - 1);
    case JmpSite =>
      assert m[dest + s.offset - 1] == content[s.offset - 1];
      JumpDecoded(m, dest + s.offset - 1);
    case JccSite =>
      assert m[dest + s.offset - 1] == content[s.offset - 1] && m[dest + s.offset - 2] == content[s.offset - 2];
      BranchDecoded(m, dest + s.offset - 2);
  }

  lemma JumpDecoded(m: seq<Byte>, at: nat)
    requires at + 5 <= |m|
    ensures m[at] == JMP32 ==> Decode(m, at) == Jump(at + 5 + Signed(Read(m, at + 1, 4), 4))
    ensures m[at] == CALL32 ==> Decode(m, at) == Call(at + 5 + Signed(Read(m, at + 1, 4), 4), at + 5)
  {
  }

  lemma BranchDecoded(m: seq<Byte>, at: nat)
    requires at + 6 <= |m| && m[at] == 0x0F && 0x80 <= m[at + 1] <= 0x8F
    ensures BranchTo(m, at, m[at + 1] - 0x80, at + 6 + Signed(Read(m, at + 2, 4), 4))
  {
    NoNops(m, at + 6);
  }

  /** Shortening keeps what a site carries. */
  lemma CarriesOn(m: seq<Byte>, m': seq<Byte>, content: seq<Byte>, dest: nat, s: Site, x: nat)
    requires s.Valid(content) && dest + |content| <= |m| == |m'| && Carries(m, content, dest, s, x)
    requires Held(m, m', dest, s) || (s.kind == JmpSite && SameJump(m, m', dest + s.offset - 1))
    ensures Carries(m', content, dest, s, x)
  {
    if Held(m, m', dest, s) {
      HeldCarries(m, m', content, dest, s, x);
    }
  }

  lemma HeldCarries(m: seq<Byte>, m': seq<Byte>, content: seq<Byte>, dest: nat, s: Site, x: nat)
    requires s.Valid(content) && dest + |content| <= |m| == |m'| && Carries(m, content, dest, s, x) &&
      Held(m, m', dest, s)
    ensures Carries(m', content, dest, s, x)
  {
    match s.kind
    case DataSite => ReadSame(m, m', dest + s.offset, s.width);
    case CallSite => TransferKept(m, m', dest + s.offset - 1);
    case JmpSite => TransferKept(m, m', dest + s.offset - 1);
    case JccSite =>
      TransferKept(m, m', dest + s.offset - 2);
      NopRunKept(m, m', Decode(m, dest + s.offset - 2).next, dest + s.offset + 4);
  }

  lemma BranchCarries(m: seq<Byte>, m': seq<Byte>, content: seq<Byte>, dest: nat, s: Site, x: nat)
    requires s.Valid(content) && dest + |content| <= |m| == |m'| && s.kind == JccSite && Carries(m, content, dest, s, x)
    requires SameBranch(m, m', dest + s.offset - 2)
    ensures Carries(m', content, dest, s, x)
  {
  }

  // ---------- the whole code section ----------

  /** The states of the buffer between the loops. */
  datatype Stages = Stages(m0: seq<Byte>, m1: seq<Byte>, m2: seq<Byte>, m3: seq<Byte>, m4: seq<Byte>, m5: seq<Byte>)

  ghost predicate FixupsDone(bp: BluePrint, sites: seq<Site>, dest: nat, address: nat, values: seq<nat>, g: Stages)
    requires Arranged(bp, sites) && OrdinalsOk(bp.symbol32, |values|) && OrdinalsOk(bp.symbol64, |values|)
  {
    var a, b, c := AddrFixups(bp.addr32, dest, MinusAddress(address)), SymbolFixups(bp.symbol32, 4, dest, values),
      SymbolFixups(bp.symbol64, 8, dest, values);
    && dest + |bp.content| <= |g.m0| == |g.m1| == |g.m2| == |g.m3|
    && (forall k {:trigger bp.content[k]} :: 0 <= k < |bp.content| ==> g.m0[dest + k] == bp.content[k])
    && InRange(a, |g.m0|) && AllApart(a) && Patched(g.m0, g.m1, a, |a|)
    && InRange(b, |g.m1|) && AllApart(b) && Patched(g.m1, g.m2, b, |b|)
    && InRange(c, |g.m2|) && AllApart(c) && Patched(g.m2, g.m3, c, |c|)
  }

  ghost predicate JumpsDone(bp: BluePrint, dest: nat, g: Stages) {
    && JumpsOk(g.m3, Absolute(bp.jmp32, dest), 1) && JmpsKept(g.m3, g.m4, Absolute(bp.jmp32, dest), |bp.jmp32|)
    && JumpsOk(g.m4, Absolute(bp.jcc32, dest), 2) && JccsKept(g.m4, g.m5, Absolute(bp.jcc32, dest), |bp.jcc32|)
  }

  /** Every site has grown by its addend once the three fixup loops are done. */
  lemma SiteGrown(bp: BluePrint, sites: seq<Site>, dest: nat, address: nat, values: seq<nat>, g: Stages, i: nat)
    requires Arranged(bp, sites) && OrdinalsOk(bp.symbol32, |values|) && OrdinalsOk(bp.symbol64, |values|) &&
      i < |sites|
    requires FixupsDone(bp, sites, dest, address, values, g)
    ensures sites[i].ord < |values|
    ensures Grown(g.m0, g.m3, dest, sites[i], Addend(sites[i], address, values))
  {
    var s := sites[i];
    AddrEffect(bp.content, bp.addr32, sites, g.m0, g.m1, dest, MinusAddress(address), i);
    RecordsEffect(bp.content, bp.symbol32, sites, g.m1, g.m2, 4, dest, values, i);
    RecordsEffect(bp.content, bp.symbol64, sites, g.m2, g.m3, 8, dest, values, i);
    GrownThrice(g, dest, s, if s.pc then MinusAddress(address) else 0, if s.width == 4 then values[s.ord] else 0,
                if s.width == 8 then values[s.ord] else 0, Addend(s, address, values));
  }

  lemma GrownThrice(g: Stages, dest: nat, s: Site, u: nat, v: nat, w: nat, sum: nat)
    requires dest + s.Hi() <= |g.m0| == |g.m1| == |g.m2| == |g.m3| && u + v + w == sum
    requires Grown(g.m0, g.m1, dest, s, u) && Grown(g.m1, g.m2, dest, s, v) && Grown(g.m2, g.m3, dest, s, w)
    ensures Grown(g.m0, g.m3, dest, s, sum)
  {
    GrownTwice(g.m0, g.m1, g.m2, dest, s, u, v);
    GrownTwice(g.m0, g.m2, g.m3, dest, s, u + v, w);
  }

  /** After all loops every site is done. */
  lemma SiteFinished(bp: BluePrint, sites: seq<Site>, dest: nat, address: nat, values: seq<nat>, g: Stages, i: nat)
    requires Arranged(bp, sites) && OrdinalsOk(bp.symbol32, |values|) && OrdinalsOk(bp.symbol64, |values|) &&
      i < |sites|
    requires FixupsDone(bp, sites, dest, address, values, g) && JumpsDone(bp, dest, g)
    ensures sites[i].ord < |values| && dest + |bp.content| <= |g.m5|
    ensures SiteDone(g.m5, bp.content, dest, sites[i], Addend(sites[i], address, values))
  {
    var s := sites[i];
    SiteGrown(bp, sites, dest, address, values, g, i);
    var v := Addend(s, address, values);
    var x := CarriesFresh(g.m0, g.m3, bp.content, dest, s, v);
    JmpEffect(bp.content, bp.jmp32, sites, g.m3, g.m4, dest, i);
    CarriesOn(g.m3, g.m4, bp.content, dest, s, x);
    JccEffect(bp.content, bp.jcc32, sites, g.m4, g.m5, dest, i);
    if s.kind == JccSite {
      BranchCarries(g.m4, g.m5, bp.content, dest, s, x);
    } else {
      CarriesOn(g.m4, g.m5, bp.content, dest, s, x);
      HeldShortest(g.m4, g.m5, bp.content, dest, s);
    }
  }

  /** Bytes of no instruction that is patched are the copied ones. */
  lemma OthersFinished(bp: BluePrint, sites: seq<Site>, dest: nat, address: nat, values: seq<nat>, g: Stages)
    requires Arranged(bp, sites) && OrdinalsOk(bp.symbol32, |values|) && OrdinalsOk(bp.symbol64, |values|)
    requires FixupsDone(bp, sites, dest, address, values, g) && JumpsDone(bp, dest, g)
    ensures OthersSame(g.m0, g.m5, sites, dest)
  {
    AddrOthers(bp.content, bp.addr32, sites, g.m0, g.m1, dest, MinusAddress(address));
    RecordsOthers(bp.content, bp.symbol32, sites, g.m1, g.m2, 4, dest, values);
    RecordsOthers(bp.content, bp.symbol64, sites, g.m2, g.m3, 8, dest, values);
    JumpOthers(bp.content, bp.jmp32, sites, Jmps, g.m3, g.m4, dest);
    JumpOthers(bp.content, bp.jcc32, sites, Jccs, g.m4, g.m5, dest);
    OthersTrans(g, sites, dest);
  }

  lemma OthersTrans(g: Stages, sites: seq<Site>, dest: nat)
    requires OthersSame(g.m0, g.m1, sites, dest) && OthersSame(g.m1, g.m2, sites, dest) &&
      OthersSame(g.m2, g.m3, sites, dest)
    requires OthersSame(g.m3, g.m4, sites, dest) && OthersSame(g.m4, g.m5, sites, dest)
    ensures OthersSame(g.m0, g.m5, sites, dest)
  {
  }
}
