/**
 The first stage of relocation, at build time: every relocation's own part is added to the code, and what is left for
 run time is filed into sorted arrays (PochiVM/fastinterp/build_fast_interp_lib.cpp:1257-1523).
 */
module Relocation {
  import opened BluePrint
  import opened CodeSection
  import opened MachineCode

  datatype RelocType = R64 | PLT32 | PC32 | TPOFF32 | R32S | R32 | UnknownType

  datatype Symbol =
    | BoilerplateFn(mustTail: bool, ord: nat)
    | CppFn(ord: nat)
    | Constant(ord: nat)
    | ThreadContext
    | UnknownSymbol

  datatype Reloc = Reloc(typ: RelocType, offset: nat, addend: int, symbol: Symbol) {
    predicate PcRelative() {
      typ.PLT32? || typ.PC32?
    }

    function Width(): nat {
      if typ.R64? then 8 else 4
    }
  }

  const MAX_ORD := 64

  /** The opcode in front of a branch's field is one the build accepts for its placeholder. */
  predicate BranchAccepted(section: seq<Byte>, r: Reloc, mustTail: bool)
    requires r.offset + 4 <= |section|
  {
    && r.offset > 0
    && if mustTail then
         || section[r.offset - 1] == JMP32
         || (r.offset >= 2 && section[r.offset - 2] == 0x0F && 0x80 <= section[r.offset - 1] <= 0x8F &&
           r.offset + 4 != |section|)
       else section[r.offset - 1] == CALL32
  }

  /** The build does not give up on this relocation. */
  predicate Accepted(section: seq<Byte>, r: Reloc) {
    && !r.typ.UnknownType? && r.offset + r.Width() <= |section|
    && Read(section, r.offset, r.Width()) == 0
    && if r.typ.TPOFF32? then r.symbol.ThreadContext?
       else match r.symbol
         case BoilerplateFn(mustTail, ord) =>
           ord < MAX_ORD && if r.PcRelative() then BranchAccepted(section, r, mustTail) else r.typ.R64?
         case CppFn(ord) => ord < MAX_ORD && r.typ.R64?
         case Constant(ord) => ord < MAX_ORD && (r.typ.R64? || r.typ.R32? || r.typ.R32S?)
         case ThreadContext => false
         case UnknownSymbol => false
  }

  /** Ordinals have a bound of 64, and a branch to another fragment is E9 or 0F 80 to 0F 8F, a call E8. */
  lemma AcceptedBounds(section: seq<Byte>, r: Reloc)
    requires Accepted(section, r) && !r.typ.TPOFF32?
    ensures match r.symbol
            case BoilerplateFn(mustTail, ord) =>
              ord < 64 && (r.typ == R64 || (r.offset > 0 && (r.typ == PC32 || r.typ == PLT32) &&
                if mustTail then section[r.offset - 1] == 0xE9 ||
                    (r.offset >= 2 && section[r.offset - 2] == 0x0F && 0x80 <= section[r.offset - 1] <= 0x8F)
                  else section[r.offset - 1] == 0xE8))
            case CppFn(ord) => ord < 64 && r.typ == R64
            case Constant(ord) => ord < 64 && (r.typ == R64 || r.typ == R32 || r.typ == R32S)
            case _ => false
  {
  }

  function KindOf(section: seq<Byte>, r: Reloc): Kind
    requires Accepted(section, r)
  {
    if !r.symbol.BoilerplateFn? || !r.PcRelative() then DataSite
    else if !r.symbol.mustTail then CallSite
    else if section[r.offset - 1] == JMP32 then JmpSite
    else JccSite
  }

  /** Ordinals share one array: boilerplates first, then functions, then constants. */
  function GlobalOrd(symbol: Symbol, boilerplateFns: nat, cppFns: nat): nat {
    match symbol
    case BoilerplateFn(_, ord) => ord
    case CppFn(ord) => boilerplateFns + ord
    case Constant(ord) => boilerplateFns + cppFns + ord
    case ThreadContext => 0
    case UnknownSymbol => 0
  }

  function SiteOf(section: seq<Byte>, r: Reloc, boilerplateFns: nat, cppFns: nat): Site
    requires Accepted(section, r)
  {
    Site(KindOf(section, r), r.offset, r.Width(), r.PcRelative(), GlobalOrd(r.symbol, boilerplateFns, cppFns))
  }

  /** The relocation's own part: its addend, less its offset when it is relative, cut to the field. */
  function BuildValue(r: Reloc): nat {
    if r.PcRelative() then ((0 - r.offset) % WORD32 + r.addend % WORD32) % WORD32
    else if r.typ.R64? then r.addend % WORD64
    else r.addend % WORD32
  }

  /** Which of the build's lists a symbol record goes to. */
  datatype Class = Boilerplate32 | Boilerplate64 | Cpp64 | Constant32 | Constant64 | Unfiled

  function ClassOf(r: Reloc): Class {
    if r.typ.TPOFF32? then Unfiled
    else match r.symbol
      case BoilerplateFn(_, _) => if r.PcRelative() then Boilerplate32 else Boilerplate64
      case CppFn(_) => Cpp64
      case Constant(_) => if r.typ.R64? then Constant64 else Constant32
      case ThreadContext => Unfiled
      case UnknownSymbol => Unfiled
  }

  function LocalOrd(symbol: Symbol): nat {
    match symbol
    case BoilerplateFn(_, ord) => ord
    case CppFn(ord) => ord
    case Constant(ord) => ord
    case ThreadContext => 0
    case UnknownSymbol => 0
  }

  function Records(relocs: seq<Reloc>, n: nat, c: Class): seq<(nat, nat)>
    requires n <= |relocs|
  {
    if n == 0 then []
    else Records(relocs, n - 1, c) + if ClassOf(relocs[n - 1]) == c
      then [(relocs[n - 1].offset, LocalOrd(relocs[n - 1].symbol))] else []
  }

  ghost predicate AllAccepted(section: seq<Byte>, relocs: seq<Reloc>, n: nat)
    requires n <= |relocs|
  {
    forall j {:trigger relocs[j]} :: 0 <= j < n ==> Accepted(section, relocs[j])
  }

  predicate InSort(section: seq<Byte>, r: Reloc, sort: Sort)
    requires Accepted(section, r)
  {
    match sort
    case Relative => !r.typ.TPOFF32? && r.PcRelative()
    case Jmps => !r.typ.TPOFF32? && KindOf(section, r) == JmpSite
    case Jccs => !r.typ.TPOFF32? && KindOf(section, r) == JccSite
  }

  function Offsets(section: seq<Byte>, relocs: seq<Reloc>, n: nat, sort: Sort): seq<nat>
    requires n <= |relocs| && AllAccepted(section, relocs, n)
  {
    if n == 0 then []
    else Offsets(section, relocs, n - 1, sort) + if InSort(section, relocs[n - 1], sort) then [relocs[n - 1].offset]
      else []
  }

  function Max(a: nat, b: nat): nat {
    if a < b then b else a
  }

  /** One more than the highest ordinal of a kind of symbol. */
  function Highest(relocs: seq<Reloc>, n: nat, c1: Class, c2: Class): nat
    requires n <= |relocs|
  {
    if n == 0 then 0
    else if ClassOf(relocs[n - 1]) == c1 || ClassOf(relocs[n - 1]) == c2
      then Max(Highest(relocs, n - 1, c1, c2), LocalOrd(relocs[n - 1].symbol) + 1)
    else Highest(relocs, n - 1, c1, c2)
  }

  /** The tail call that ends the code. */
  predicate IsFinalJump(section: seq<Byte>, r: Reloc)
    requires Accepted(section, r)
  {
    !r.typ.TPOFF32? && KindOf(section, r) == JmpSite && r.offset + 4 == |section|
  }

  /** Where the bytes that matter of a relocation's instruction begin. */
  function LoOf(section: seq<Byte>, r: Reloc): int {
    if !r.symbol.BoilerplateFn? || !r.PcRelative() then r.offset
    else if 1 <= r.offset <= |section| && (section[r.offset - 1] == JMP32 || section[r.offset - 1] == CALL32)
      then r.offset - 1
    else r.offset - 2
  }

  /** The instructions two relocations belong to do not overlap. */
  ghost predicate RelocsApart(section: seq<Byte>, r: Reloc, q: Reloc) {
    r.offset + r.Width() <= LoOf(section, q) || q.offset + q.Width() <= LoOf(section, r)
  }

  /** Each relocated field is part of an instruction of its own. */
  ghost predicate Separate(section: seq<Byte>, relocs: seq<Reloc>) {
    forall i, j {:trigger RelocsApart(section, relocs[i], relocs[j])} ::
      0 <= i < j < |relocs| ==> RelocsApart(section, relocs[i], relocs[j])
  }

  // ---------- sorting ----------

  function InsertOffset(xs: seq<nat>, x: nat): seq<nat> {
    if xs == [] || x <= xs[0] then [x] + xs else [xs[0]] + InsertOffset(xs[1..], x)
  }

  function SortOffsets(xs: seq<nat>): seq<nat> {
    if xs == [] then [] else InsertOffset(SortOffsets(xs[..|xs| - 1]), xs[|xs| - 1])
  }

  function InsertRecord(xs: seq<(nat, nat)>, x: (nat, nat)): seq<(nat, nat)> {
    if xs == [] || x.0 <= xs[0].0 then [x] + xs else [xs[0]] + InsertRecord(xs[1..], x)
  }

  function SortRecords(xs: seq<(nat, nat)>): seq<(nat, nat)> {
    if xs == [] then [] else InsertRecord(SortRecords(xs[..|xs| - 1]), xs[|xs| - 1])
  }

  lemma PrependOffset(x: nat, xs: seq<nat>)
    requires Ascending(xs) && forall y :: y in xs ==> x < y
    ensures Ascending([x] + xs)
  {
    var all := [x] + xs;
    forall i, j {:trigger all[i], all[j]} | 0 <= i < j < |all|
      ensures all[i] < all[j]
    {
      assert all[j] == xs[j - 1] && xs[j - 1] in xs;
      assert i > 0 ==> all[i] == xs[i - 1];
    }
  }

  lemma {:induction false} InsertOffsetOk(xs: seq<nat>, x: nat)
    requires Ascending(xs) && x !in xs
    ensures Ascending(InsertOffset(xs, x)) && forall y :: y in InsertOffset(xs, x) <==> y == x || y in xs
  {
    if xs != [] && x > xs[0] {
      InsertOffsetOk(xs[1..], x);
      assert xs == [xs[0]] + xs[1..];
      PrependOffset(xs[0], InsertOffset(xs[1..], x));
    } else {
      forall y | y in xs
        ensures x < y
      {
        var k := IndexOf(xs, y);
        assert k > 0 ==> xs[0] < xs[k];
      }
      PrependOffset(x, xs);
    }
  }

  ghost predicate DistinctOffsets(xs: seq<nat>) {
    forall i, j {:trigger xs[i], xs[j]} :: 0 <= i < j < |xs| ==> xs[i] != xs[j]
  }

  lemma {:induction false} SortOffsetsOk(xs: seq<nat>)
    requires DistinctOffsets(xs)
    ensures Ascending(SortOffsets(xs)) && forall y :: y in SortOffsets(xs) <==> y in xs
  {
    if xs != [] {
      var last := |xs| - 1;
      SortOffsetsOk(xs[..last]);
      assert xs == xs[..last] + [xs[last]];
      InsertOffsetOk(SortOffsets(xs[..last]), xs[last]);
    }
  }

  lemma PrependRecord(x: (nat, nat), xs: seq<(nat, nat)>)
    requires AscendingRecords(xs) && forall y :: y in xs ==> x.0 < y.0
    ensures AscendingRecords([x] + xs)
  {
    var all := [x] + xs;
    forall i, j {:trigger all[i], all[j]} | 0 <= i < j < |all|
      ensures all[i].0 < all[j].0
    {
      assert all[j] == xs[j - 1] && xs[j - 1] in xs;
      assert i > 0 ==> all[i] == xs[i - 1];
    }
  }

  lemma {:induction false} InsertRecordOk(xs: seq<(nat, nat)>, x: (nat, nat))
    requires AscendingRecords(xs) && forall y :: y in xs ==> y.0 != x.0
    ensures AscendingRecords(InsertRecord(xs, x)) && forall y :: y in InsertRecord(xs, x) <==> y == x || y in xs
  {
    if xs != [] && x.0 > xs[0].0 {
      InsertRecordOk(xs[1..], x);
      assert xs == [xs[0]] + xs[1..];
      PrependRecord(xs[0], InsertRecord(xs[1..], x));
    } else {
      forall y | y in xs
        ensures x.0 < y.0
      {
        var k := IndexOf(xs, y);
        assert k > 0 ==> xs[0].0 < xs[k].0;
      }
      PrependRecord(x, xs);
    }
  }

  lemma {:induction false} SortRecordsOk(xs: seq<(nat, nat)>)
    requires forall i, j :: 0 <= i < j < |xs| ==> xs[i].0 != xs[j].0
    ensures AscendingRecords(SortRecords(xs)) && forall y :: y in SortRecords(xs) <==> y in xs
  {
    if xs != [] {
      var last := |xs| - 1;
      SortRecordsOk(xs[..last]);
      assert xs == xs[..last] + [xs[last]];
      InsertRecordOk(SortRecords(xs[..last]), xs[last]);
    }
  }

  // ---------- the lists hold what they should ----------

  ghost predicate Good(section: seq<Byte>, relocs: seq<Reloc>) {
    AllAccepted(section, relocs, |relocs|) && Separate(section, relocs)
  }

  lemma OffsetsDistinct(section: seq<Byte>, relocs: seq<Reloc>, i: nat, j: nat)
    requires Good(section, relocs) && i < j < |relocs|
    ensures relocs[i].offset != relocs[j].offset
  {
    assert RelocsApart(section, relocs[i], relocs[j]);
  }

  ghost predicate RecordFrom(relocs: seq<Reloc>, j: int, c: Class, y: (nat, nat)) {
    0 <= j < |relocs| && ClassOf(relocs[j]) == c && y == (relocs[j].offset, LocalOrd(relocs[j].symbol))
  }

  lemma {:induction false} RecordsSound(relocs: seq<Reloc>, n: nat, c: Class, k: nat) returns (j: nat)
    requires n <= |relocs| && k < |Records(relocs, n, c)|
    ensures j < n && RecordFrom(relocs, j, c, Records(relocs, n, c)[k])
  {
    if k < |Records(relocs, n - 1, c)| {
      j := RecordsSound(relocs, n - 1, c, k);
    } else {
      j := n - 1;
    }
  }

  lemma {:induction false} RecordsComplete(relocs: seq<Reloc>, n: nat, c: Class, j: nat)
    requires n <= |relocs| && j < n && ClassOf(relocs[j]) == c
    ensures (relocs[j].offset, LocalOrd(relocs[j].symbol)) in Records(relocs, n, c)
  {
    if j < n - 1 {
      RecordsComplete(relocs, n - 1, c, j);
    }
  }

  ghost predicate DistinctRecords(xs: seq<(nat, nat)>) {
    forall i, j {:trigger xs[i], xs[j]} :: 0 <= i < j < |xs| ==> xs[i].0 != xs[j].0
  }

  lemma {:induction false} RecordsDistinct(section: seq<Byte>, relocs: seq<Reloc>, n: nat, c: Class)
    requires Good(section, relocs) && n <= |relocs|
    ensures DistinctRecords(Records(relocs, n, c))
  {
    if n > 0 {
      RecordsDistinct(section, relocs, n - 1, c);
      var init := Records(relocs, n - 1, c);
      forall k | 0 <= k < |init|
        ensures init[k].0 != relocs[n - 1].offset
      {
        var j := RecordsSound(relocs, n - 1, c, k);
        OffsetsDistinct(section, relocs, j, n - 1);
      }
    }
  }

  /** The records of a class, with their ordinals moved to the class's part of the shared array. */
  function Shifted(xs: seq<(nat, nat)>, shift: nat): (ys: seq<(nat, nat)>)
    ensures |ys| == |xs| && forall k {:trigger ys[k]} :: 0 <= k < |xs| ==> ys[k] == (xs[k].0, xs[k].1 + shift)
  {
    seq(|xs|, k requires 0 <= k < |xs| => (xs[k].0, xs[k].1 + shift))
  }

  /** A record of a relocation, with its final ordinal. */
  ghost predicate FinalRecord(relocs: seq<Reloc>, j: int, y: (nat, nat), hb: nat, hc: nat) {
    0 <= j < |relocs| && y == (relocs[j].offset, GlobalOrd(relocs[j].symbol, hb, hc))
  }

  function ClassShift(c: Class, hb: nat, hc: nat): nat {
    if c == Cpp64 then hb else if c == Constant32 || c == Constant64 then hb + hc else 0
  }

  function ClassRecords(relocs: seq<Reloc>, c: Class, hb: nat, hc: nat): seq<(nat, nat)> {
    Shifted(Records(relocs, |relocs|, c), ClassShift(c, hb, hc))
  }

  lemma ClassSound(relocs: seq<Reloc>, c: Class, hb: nat, hc: nat, k: nat) returns (j: nat)
    requires k < |ClassRecords(relocs, c, hb, hc)| && c != Unfiled
    ensures j < |relocs| && ClassOf(relocs[j]) == c &&
      FinalRecord(relocs, j, ClassRecords(relocs, c, hb, hc)[k], hb, hc)
  {
    j := RecordsSound(relocs, |relocs|, c, k);
  }

  lemma ClassComplete(relocs: seq<Reloc>, c: Class, hb: nat, hc: nat, j: nat)
    requires j < |relocs| && ClassOf(relocs[j]) == c && c != Unfiled
    ensures (relocs[j].offset, GlobalOrd(relocs[j].symbol, hb, hc)) in ClassRecords(relocs, c, hb, hc)
  {
    RecordsComplete(relocs, |relocs|, c, j);
    var xs := Records(relocs, |relocs|, c);
    var k := IndexOf(xs, (relocs[j].offset, LocalOrd(relocs[j].symbol)));
    assert ClassRecords(relocs, c, hb, hc)[k] == (relocs[j].offset, GlobalOrd(relocs[j].symbol, hb, hc));
  }

  /** Lists of different classes, one after the other, still have distinct offsets. */
  ghost predicate FromClasses(relocs: seq<Reloc>, xs: seq<(nat, nat)>, classes: set<Class>, hb: nat, hc: nat) {
    && DistinctRecords(xs)
    && (forall k {:trigger xs[k]} :: 0 <= k < |xs| ==> IsFinal(relocs, classes, xs[k], hb, hc))
    && (forall j {:trigger ClassOf(relocs[j])} :: 0 <= j < |relocs| && ClassOf(relocs[j]) in classes ==>
          (relocs[j].offset, GlobalOrd(relocs[j].symbol, hb, hc)) in xs)
  }

  ghost predicate IsFinal(relocs: seq<Reloc>, classes: set<Class>, y: (nat, nat), hb: nat, hc: nat) {
    exists j :: FinalRecord(relocs, j, y, hb, hc) && ClassOf(relocs[j]) in classes
  }

  lemma OneClass(section: seq<Byte>, relocs: seq<Reloc>, c: Class, hb: nat, hc: nat)
    requires Good(section, relocs) && c != Unfiled
    ensures FromClasses(relocs, ClassRecords(relocs, c, hb, hc), {c}, hb, hc)
  {
    var xs := ClassRecords(relocs, c, hb, hc);
    RecordsDistinct(section, relocs, |relocs|, c);
    forall k {:trigger xs[k]} | 0 <= k < |xs|
      ensures IsFinal(relocs, {c}, xs[k], hb, hc)
    {
      var j := ClassSound(relocs, c, hb, hc, k);
    }
    forall j {:trigger ClassOf(relocs[j])} | 0 <= j < |relocs| && ClassOf(relocs[j]) in {c}
      ensures (relocs[j].offset, GlobalOrd(relocs[j].symbol, hb, hc)) in xs
    {
      ClassComplete(relocs, c, hb, hc, j);
    }
  }

  lemma MoreClasses(section: seq<Byte>, relocs: seq<Reloc>, xs: seq<(nat, nat)>, ys: seq<(nat, nat)>, c1: set<Class>,
      c2: set<Class>, hb: nat, hc: nat)
    requires Good(section, relocs) && c1 !! c2
    requires FromClasses(relocs, xs, c1, hb, hc) && FromClasses(relocs, ys, c2, hb, hc)
    ensures FromClasses(relocs, xs + ys, c1 + c2, hb, hc)
  {
    var all := xs + ys;
    forall i, j {:trigger all[i], all[j]} | 0 <= i < j < |all|
      ensures all[i].0 != all[j].0
    {
      if i < |xs| <= j {
        assert IsFinal(relocs, c1, xs[i], hb, hc) && IsFinal(relocs, c2, ys[j - |xs|], hb, hc);
        var p :| FinalRecord(relocs, p, xs[i], hb, hc) && ClassOf(relocs[p]) in c1;
        var q :| FinalRecord(relocs, q, ys[j - |xs|], hb, hc) && ClassOf(relocs[q]) in c2;
        if p < q {
          OffsetsDistinct(section, relocs, p, q);
        } else if q < p {
          OffsetsDistinct(section, relocs, q, p);
        }
      }
    }
    forall k {:trigger all[k]} | 0 <= k < |all|
      ensures IsFinal(relocs, c1 + c2, all[k], hb, hc)
    {
      if k < |xs| {
        assert IsFinal(relocs, c1, xs[k], hb, hc);
        var p :| FinalRecord(relocs, p, xs[k], hb, hc) && ClassOf(relocs[p]) in c1;
      } else {
        assert IsFinal(relocs, c2, ys[k - |xs|], hb, hc);
        var q :| FinalRecord(relocs, q, ys[k - |xs|], hb, hc) && ClassOf(relocs[q]) in c2;
      }
    }
  }

  // ---------- the build loop ----------

  /** What the build collects while it walks the relocations. */
  datatype Filing = Filing(minusAddr: seq<nat>, bpfp32: seq<(nat, nat)>, bpfp64: seq<(nat, nat)>,
    cfp64: seq<(nat, nat)>,
    u32: seq<(nat, nat)>, u64: seq<(nat, nat)>, jmp32: seq<nat>, jcc32: seq<nat>,
    boilerplateFns: nat, cppFns: nat, constants: nat, litcOrd: int)

  function LitcOf(section: seq<Byte>, relocs: seq<Reloc>, n: nat): int
    requires n <= |relocs| && AllAccepted(section, relocs, n)
  {
    if n == 0 then -1
    else if IsFinalJump(section, relocs[n - 1]) then LocalOrd(relocs[n - 1].symbol)
    else LitcOf(section, relocs, n - 1)
  }

  ghost predicate ListsAre(section: seq<Byte>, l: Filing, relocs: seq<Reloc>, n: nat)
    requires n <= |relocs| && AllAccepted(section, relocs, n)
  {
    match l
    case Filing(minusAddr, bpfp32, bpfp64, cfp64, u32, u64, jmp32, jcc32, boilerplateFns, cppFns, constants, litcOrd) =>
      && minusAddr == Offsets(section, relocs, n, Relative)
      && bpfp32 == Records(relocs, n, Boilerplate32) && bpfp64 == Records(relocs, n, Boilerplate64)
      && cfp64 == Records(relocs, n, Cpp64)
      && u32 == Records(relocs, n, Constant32) && u64 == Records(relocs, n, Constant64)
      && jmp32 == Offsets(section, relocs, n, Jmps) && jcc32 == Offsets(section, relocs, n, Jccs)
      && boilerplateFns == Highest(relocs, n, Boilerplate32, Boilerplate64)
      && cppFns == Highest(relocs, n, Cpp64, Cpp64) && constants == Highest(relocs, n, Constant32, Constant64)
      && litcOrd == LitcOf(section, relocs, n)
  }

  /** The fixups of the build loop; a thread-local relocation is only listed. */
  function BuildFixups(relocs: seq<Reloc>): (fs: seq<Fixup>)
    ensures |fs| == |relocs|
    ensures forall i {:trigger fs[i]} :: 0 <= i < |fs| ==> fs[i] == BuildFixup(relocs[i])
  {
    seq(|relocs|, i requires 0 <= i < |relocs| => BuildFixup(relocs[i]))
  }

  function BuildFixup(r: Reloc): Fixup {
    if r.typ.TPOFF32? then Fixup(r.offset, 0, 0) else Fixup(r.offset, r.Width(), BuildValue(r))
  }

  /** The part of the acceptance test that looks at the type and the raw field. */
  predicate TypeAccepted(section: seq<Byte>, r: Reloc) {
    && !r.typ.UnknownType? && r.offset + r.Width() <= |section|
    && Read(section, r.offset, r.Width()) == 0
    && (r.typ.TPOFF32? ==> r.symbol.ThreadContext?)
  }

  lemma BuildReady(section: seq<Byte>, relocs: seq<Reloc>)
    requires Separate(section, relocs) && forall j {:trigger relocs[j]} ::
      0 <= j < |relocs| ==> TypeAccepted(section, relocs[j])
    ensures InRange(BuildFixups(relocs), |section|) && AllApart(BuildFixups(relocs))
  {
    var fs := BuildFixups(relocs);
    forall i {:trigger fs[i]} | 0 <= i < |fs|
      ensures fs[i].at + fs[i].width <= |section|
    {
      assert TypeAccepted(section, relocs[i]);
    }
    forall i, j {:trigger PairApart(fs, i, j)} | 0 <= i < j < |fs|
      ensures PairApart(fs, i, j)
    {
      assert RelocsApart(section, relocs[i], relocs[j]);
    }
  }

  /** The opcode bytes of a relocation are those of the section whenever the loop looks at them. */
  lemma OpcodeIntact(section: seq<Byte>, data: seq<Byte>, relocs: seq<Reloc>, n: nat, k: nat)
    requires Separate(section, relocs) && n <= |relocs| && k < |relocs|
    requires InRange(BuildFixups(relocs), |section|) && Patched(section, data, BuildFixups(relocs), n)
    ensures SameBytes(section, data, LoOf(section, relocs[k]), relocs[k].offset)
  {
    var fs := BuildFixups(relocs);
    forall i {:trigger fs[i]} | 0 <= i < n
      ensures Apart(fs[i], LoOf(section, relocs[k]), relocs[k].offset)
    {
      if i < k {
        assert RelocsApart(section, relocs[i], relocs[k]);
      } else if k < i {
        assert RelocsApart(section, relocs[k], relocs[i]);
      }
    }
    RangeKept(section, data, fs, n, LoOf(section, relocs[k]), relocs[k].offset);
  }

  /** The lists with one more relocation filed. */
  function Filed(section: seq<Byte>, l: Filing, r: Reloc): Filing
    requires Accepted(section, r)
  {
    if r.typ.TPOFF32? then l
    else match r.symbol
      case BoilerplateFn(mustTail, ord) =>
        var l1 := l.(boilerplateFns := Max(l.boilerplateFns, ord + 1));
        if r.PcRelative() then
          var l2 := l1.(minusAddr := l1.minusAddr + [r.offset], bpfp32 := l1.bpfp32 + [(r.offset, ord)]);
          var l3 := if KindOf(section, r) == JmpSite then l2.(jmp32 := l2.jmp32 + [r.offset])
                    else if KindOf(section, r) == JccSite then l2.(jcc32 := l2.jcc32 + [r.offset]) else l2;
          if IsFinalJump(section, r) then l3.(litcOrd := ord) else l3
        else l1.(bpfp64 := l1.bpfp64 + [(r.offset, ord)])
      case CppFn(ord) => l.(cppFns := Max(l.cppFns, ord + 1), cfp64 := l.cfp64 + [(r.offset, ord)])
      case Constant(ord) =>
        var l1 := l.(constants := Max(l.constants, ord + 1));
        if r.typ.R64? then l1.(u64 := l1.u64 + [(r.offset, ord)]) else l1.(u32 := l1.u32 + [(r.offset, ord)])
      case ThreadContext => l
      case UnknownSymbol => l
  }

  lemma FiledOk(section: seq<Byte>, l: Filing, relocs: seq<Reloc>, n: nat)
    requires n < |relocs| && AllAccepted(section, relocs, n + 1) && ListsAre(section, l, relocs, n)
    ensures ListsAre(section, Filed(section, l, relocs[n]), relocs, n + 1)
  {
    var r := relocs[n];
    FiledRecords(l, relocs, n, section);
  }

  lemma FiledRecords(l: Filing, relocs: seq<Reloc>, n: nat, section: seq<Byte>)
    requires n < |relocs| && AllAccepted(section, relocs, n + 1) && ListsAre(section, l, relocs, n)
    ensures var l' := Filed(section, l, relocs[n]);
            && l'.bpfp32 == Records(relocs, n + 1, Boilerplate32) && l'.bpfp64 == Records(relocs, n + 1, Boilerplate64)
            && l'.cfp64 == Records(relocs, n + 1, Cpp64)
            && l'.u32 == Records(relocs, n + 1, Constant32) && l'.u64 == Records(relocs, n + 1, Constant64)
  {
    assert Accepted(section, relocs[n]);
  }

  /** Looks at one relocation's symbol and opcode, and files it. */
  method FileReloc(data: array<Byte>, l: Filing, r: Reloc, ghost section: seq<Byte>) returns (ok: bool, l': Filing)
    requires TypeAccepted(section, r) && data.Length == |section| &&
      SameBytes(section, data[..], LoOf(section, r), r.offset)
    ensures ok <==> Accepted(section, r)
    ensures ok ==> l' == Filed(section, l, r)
  {
    l' := l;
    if r.typ.TPOFF32? {
      return true, l';
    }
    if r.PcRelative() {
      l' := l'.(minusAddr := l'.minusAddr + [r.offset]);
    }
    if r.symbol.BoilerplateFn? {
      var ord := r.symbol.ord;
      if ord >= MAX_ORD {
        return false, l';
      }
      l' := l'.(boilerplateFns := Max(l'.boilerplateFns, ord + 1));
      if r.PcRelative() {
        if r.offset == 0 {
          return false, l';
        }
        var opcode := data[r.offset - 1];
        assert opcode == section[r.offset - 1];
        if r.symbol.mustTail {
          if opcode != JMP32 {
            if !(r.offset >= 2 && data[r.offset - 2] == 0x0F && 0x80 <= opcode <= 0x8F) {
              return false, l';
            }
            l' := l'.(jcc32 := l'.jcc32 + [r.offset]);
          } else {
            l' := l'.(jmp32 := l'.jmp32 + [r.offset]);
          }
          if r.offset + 4 == data.Length {
            if opcode != JMP32 {
              return false, l';
            }
            l' := l'.(litcOrd := ord);
          }
        } else if opcode != CALL32 {
          return false, l';
        }
        l' := l'.(bpfp32 := l'.bpfp32 + [(r.offset, ord)]);
      } else if r.typ.R64? {
        l' := l'.(bpfp64 := l'.bpfp64 + [(r.offset, ord)]);
      } else {
        return false, l';
      }
    } else if r.symbol.CppFn? {
      var ord := r.symbol.ord;
      if ord >= MAX_ORD || !r.typ.R64? {
        return false, l';
      }
      l' := l'.(cppFns := Max(l'.cppFns, ord + 1), cfp64 := l'.cfp64 + [(r.offset, ord)]);
    } else if r.symbol.Constant? {
      var ord := r.symbol.ord;
      if ord >= MAX_ORD {
        return false, l';
      }
      l' := l'.(constants := Max(l'.constants, ord + 1));
      if r.typ.R64? {
        l' := l'.(u64 := l'.u64 + [(r.offset, ord)]);
      } else if r.typ.R32? || r.typ.R32S? {
        l' := l'.(u32 := l'.u32 + [(r.offset, ord)]);
      } else {
        return false, l';
      }
    } else {
      return false, l';
    }
    ok := true;
  }

  /** The loop over the relocations: their own parts go into the code, the rest into the lists. */
  method Collect(data: array<Byte>, relocs: seq<Reloc>, ghost section: seq<Byte>) returns (ok: bool, l: Filing)
    requires data[..] == section && Separate(section, relocs)
    requires forall j {:trigger relocs[j]} :: 0 <= j < |relocs| ==> TypeAccepted(section, relocs[j])
    requires InRange(BuildFixups(relocs), |section|) && AllApart(BuildFixups(relocs))
    modifies data
    ensures ok <==> AllAccepted(section, relocs, |relocs|)
    ensures ok ==> ListsAre(section, l, relocs, |relocs|) && Patched(section, data[..], BuildFixups(relocs), |relocs|)
  {
    ok, l := true, Filing([], [], [], [], [], [], [], [], 0, 0, 0, -1);
    var n := 0;
    while n < |relocs|
      invariant n <= |relocs| && AllAccepted(section, relocs, n) && ListsAre(section, l, relocs, n)
      invariant Patched(section, data[..], BuildFixups(relocs), n)
    {
      ApplyOwnPart(data, relocs, n, section);
      OpcodeIntact(section, data[..], relocs, n + 1, n);
      var l';
      ok, l' := FileReloc(data, l, relocs[n], section);
      if !ok {
        return;
      }
      FiledOk(section, l, relocs, n);
      l := l';
      n := n + 1;
    }
  }

  /** Adds a relocation's own part to its field, unless it is a thread-local one. */
  method ApplyOwnPart(data: array<Byte>, relocs: seq<Reloc>, n: nat, ghost section: seq<Byte>)
    requires n < |relocs| && InRange(BuildFixups(relocs), |section|) && AllApart(BuildFixups(relocs))
    requires Patched(section, data[..], BuildFixups(relocs), n)
    modifies data
    ensures Patched(section, data[..], BuildFixups(relocs), n + 1)
  {
    ghost var fs, before := BuildFixups(relocs), data[..];
    var r := relocs[n];
    assert fs[n] == BuildFixup(r) && fs[n].at + fs[n].width <= |section|;
    if !r.typ.TPOFF32? {
      UnalignedAddAndWriteback(data, r.offset, r.Width(), BuildValue(r));
    } else {
      assert AddBack(before, r.offset, 0, 0) == before;
    }
    PatchStep(section, before, data[..], fs, n);
  }

  // ---------- the sites of a section ----------

  /** The patched places, in the order of the relocations. */
  function Sites(section: seq<Byte>, relocs: seq<Reloc>, n: nat, hb: nat, hc: nat): seq<Site>
    requires n <= |relocs| && AllAccepted(section, relocs, n)
  {
    if n == 0 then []
    else Sites(section, relocs, n - 1, hb, hc) + if relocs[n - 1].typ.TPOFF32? then []
      else [SiteOf(section, relocs[n - 1], hb, hc)]
  }

  lemma {:induction false} SitesSound(section: seq<Byte>, relocs: seq<Reloc>, n: nat, hb: nat, hc: nat, i: nat)
      returns (j: nat)
    requires n <= |relocs| && AllAccepted(section, relocs, n) && i < |Sites(section, relocs, n, hb, hc)|
    ensures j < n && !relocs[j].typ.TPOFF32? &&
      Sites(section, relocs, n, hb, hc)[i] == SiteOf(section, relocs[j], hb, hc)
  {
    if i < |Sites(section, relocs, n - 1, hb, hc)| {
      j := SitesSound(section, relocs, n - 1, hb, hc, i);
    } else {
      j := n - 1;
    }
  }

  lemma {:induction false} SitesComplete(section: seq<Byte>, relocs: seq<Reloc>, n: nat, hb: nat, hc: nat, j: nat)
      returns (i: nat)
    requires n <= |relocs| && AllAccepted(section, relocs, n) && j < n && !relocs[j].typ.TPOFF32?
    ensures i < |Sites(section, relocs, n, hb, hc)| &&
      Sites(section, relocs, n, hb, hc)[i] == SiteOf(section, relocs[j], hb, hc)
  {
    if j < n - 1 {
      i := SitesComplete(section, relocs, n - 1, hb, hc, j);
    } else {
      i := |Sites(section, relocs, n - 1, hb, hc)|;
    }
  }

  /** The code still has the section's bytes in front of a relocation's field. */
  ghost predicate OpcodeKept(section: seq<Byte>, content: seq<Byte>, r: Reloc) {
    && |section| <= |content|
    && forall b {:trigger content[b]} :: 0 <= b < |section| && LoOf(section, r) <= b < r.offset ==>
      content[b] == section[b]
  }

  ghost predicate OpcodesKept(section: seq<Byte>, content: seq<Byte>, relocs: seq<Reloc>) {
    forall j {:trigger OpcodeKept(section, content, relocs[j])} ::
      0 <= j < |relocs| ==> OpcodeKept(section, content, relocs[j])
  }

  lemma SiteValid(section: seq<Byte>, content: seq<Byte>, r: Reloc, hb: nat, hc: nat)
    requires Accepted(section, r) && !r.typ.TPOFF32? && OpcodeKept(section, content, r)
    ensures SiteOf(section, r, hb, hc).Valid(content)
    ensures SiteOf(section, r, hb, hc).Lo() == LoOf(section, r)
  {
  }

  lemma {:induction false} SitesFit(section: seq<Byte>, content: seq<Byte>, relocs: seq<Reloc>, n: nat, hb: nat,
      hc: nat)
    requires Good(section, relocs) && OpcodesKept(section, content, relocs) && n <= |relocs|
    ensures SitesOk(content, Sites(section, relocs, n, hb, hc))
  {
    if n > 0 {
      SitesFit(section, content, relocs, n - 1, hb, hc);
      if !relocs[n - 1].typ.TPOFF32? {
        OneMoreSite(section, content, relocs, n - 1, hb, hc);
      }
    }
  }

  lemma OneMoreSite(section: seq<Byte>, content: seq<Byte>, relocs: seq<Reloc>, n: nat, hb: nat, hc: nat)
    requires Good(section, relocs) && OpcodesKept(section, content, relocs) && n < |relocs| && !relocs[n].typ.TPOFF32?
    requires SitesOk(content, Sites(section, relocs, n, hb, hc))
    ensures SitesOk(content, Sites(section, relocs, n, hb, hc) + [SiteOf(section, relocs[n], hb, hc)])
  {
    var known := Sites(section, relocs, n, hb, hc);
    var added := SiteOf(section, relocs[n], hb, hc);
    var all := known + [added];
    assert OpcodeKept(section, content, relocs[n]);
    SiteValid(section, content, relocs[n], hb, hc);
    forall i, k {:trigger SitesApart(all[i], all[k])} | 0 <= i < k < |all|
      ensures SitesApart(all[i], all[k])
    {
      if k == |known| {
        var j := SitesSound(section, relocs, n, hb, hc, i);
        assert RelocsApart(section, relocs[j], relocs[n]) && OpcodeKept(section, content, relocs[j]);
        SiteValid(section, content, relocs[j], hb, hc);
      } else {
        assert SitesApart(known[i], known[k]);
      }
    }
  }

  // ---------- the arrays of a section ----------

  lemma {:induction false} OffsetsSound(section: seq<Byte>, relocs: seq<Reloc>, n: nat, sort: Sort, k: nat)
      returns (j: nat)
    requires n <= |relocs| && AllAccepted(section, relocs, n) && k < |Offsets(section, relocs, n, sort)|
    ensures j < n && InSort(section, relocs[j], sort) && relocs[j].offset == Offsets(section, relocs, n, sort)[k]
  {
    if k < |Offsets(section, relocs, n - 1, sort)| {
      j := OffsetsSound(section, relocs, n - 1, sort, k);
    } else {
      j := n - 1;
    }
  }

  lemma {:induction false} OffsetsComplete(section: seq<Byte>, relocs: seq<Reloc>, n: nat, sort: Sort, j: nat)
    requires n <= |relocs| && AllAccepted(section, relocs, n) && j < n && InSort(section, relocs[j], sort)
    ensures relocs[j].offset in Offsets(section, relocs, n, sort)
  {
    if j < n - 1 {
      OffsetsComplete(section, relocs, n - 1, sort, j);
    }
  }

  lemma {:induction false} OffsetsDiffer(section: seq<Byte>, relocs: seq<Reloc>, n: nat, sort: Sort)
    requires Good(section, relocs) && n <= |relocs|
    ensures DistinctOffsets(Offsets(section, relocs, n, sort))
  {
    if n > 0 {
      OffsetsDiffer(section, relocs, n - 1, sort);
      var init := Offsets(section, relocs, n - 1, sort);
      forall k | 0 <= k < |init|
        ensures init[k] != relocs[n - 1].offset
      {
        var j := OffsetsSound(section, relocs, n - 1, sort, k);
        OffsetsDistinct(section, relocs, j, n - 1);
      }
    }
  }

  /** A sorted offset list lists the sites of its sort. */
  lemma OffsetsList(section: seq<Byte>, relocs: seq<Reloc>, sort: Sort, hb: nat, hc: nat)
    requires Good(section, relocs)
    ensures Lists(SortOffsets(Offsets(section, relocs, |relocs|, sort)), Sites(section, relocs, |relocs|, hb, hc), sort)
  {
    var xs, sites := Offsets(section, relocs, |relocs|, sort), Sites(section, relocs, |relocs|, hb, hc);
    var ys := SortOffsets(xs);
    OffsetsDiffer(section, relocs, |relocs|, sort);
    SortOffsetsOk(xs);
    forall k {:trigger HasSite(sites, sort, ys[k])} | 0 <= k < |ys|
      ensures HasSite(sites, sort, ys[k])
    {
      assert ys[k] in xs;
      var p := IndexOf(xs, ys[k]);
      var j := OffsetsSound(section, relocs, |relocs|, sort, p);
      var i := SitesComplete(section, relocs, |relocs|, hb, hc, j);
      assert SiteAt(sites, i, sort, ys[k]);
    }
    forall i {:trigger Wanted(sites[i], sort)} | 0 <= i < |sites| && Wanted(sites[i], sort)
      ensures sites[i].offset in ys
    {
      var j := SitesSound(section, relocs, |relocs|, hb, hc, i);
      OffsetsComplete(section, relocs, |relocs|, sort, j);
    }
  }

  function ClassesOf(width: nat): set<Class> {
    if width == 4 then {Constant32, Boilerplate32} else {Boilerplate64, Cpp64, Constant64}
  }

  lemma ClassWidth(section: seq<Byte>, r: Reloc, width: nat)
    requires Accepted(section, r) && !r.typ.TPOFF32? && (width == 4 || width == 8)
    ensures r.Width() == width <==> ClassOf(r) in ClassesOf(width)
  {
  }

  /** A sorted record list lists the sites of its width. */
  lemma RecordsList(section: seq<Byte>, relocs: seq<Reloc>, xs: seq<(nat, nat)>, width: nat, hb: nat, hc: nat)
    requires Good(section, relocs) && (width == 4 || width == 8) && FromClasses(relocs, xs, ClassesOf(width), hb, hc)
    ensures ListsRecords(SortRecords(xs), Sites(section, relocs, |relocs|, hb, hc), width)
  {
    var sites, ys := Sites(section, relocs, |relocs|, hb, hc), SortRecords(xs);
    SortRecordsOk(xs);
    forall k {:trigger HasRecord(sites, width, ys[k])} | 0 <= k < |ys|
      ensures HasRecord(sites, width, ys[k])
    {
      assert ys[k] in xs;
      var p := IndexOf(xs, ys[k]);
      assert IsFinal(relocs, ClassesOf(width), xs[p], hb, hc);
      var j :| FinalRecord(relocs, j, xs[p], hb, hc) && ClassOf(relocs[j]) in ClassesOf(width);
      ClassWidth(section, relocs[j], width);
      var i := SitesComplete(section, relocs, |relocs|, hb, hc, j);
      assert RecordAt(sites, i, width, ys[k]);
    }
    forall i {:trigger sites[i]} | 0 <= i < |sites| && sites[i].width == width
      ensures (sites[i].offset, sites[i].ord) in ys
    {
      var j := SitesSound(section, relocs, |relocs|, hb, hc, i);
      ClassWidth(section, relocs[j], width);
    }
  }
}
