/**
 The code generation engine: instances and the links between them, and the three phases of materialisation
 (PochiVM/fastinterp/fastinterp_codegen_helper.hpp:10-196, PochiVM/fastinterp/fastinterp_codegen_helper.h:243-355,
 PochiVM/fastinterp/fastinterp_snippet.hpp:9-24).
 */
module CodegenEngine {
  import opened BluePrint
  import opened BoilerplateInstance
  import opened CodeSection
  import opened MachineCode
  import opened Placement
  import PlacementTheory
  import StripJump

  // ---------- the links between instances ----------

  /** The fixup values of all instances, as they are before materialisation. */
  type Links = seq<seq<FixupValue>>

  ghost predicate Holding(insts: Instances, vals: Links)
    reads insts
  {
    |vals| == |insts| && forall i {:trigger vals[i]} :: 0 <= i < |insts| ==> insts[i].m_fixupValues == vals[i]
  }

  /** Instance i ends by jumping to this one. */
  function Next(insts: Instances, vals: Links, i: nat): int
    requires i < |insts| == |vals|
  {
    LitcIn(insts[i].m_owner, vals[i])
  }

  ghost predicate IsNext(insts: Instances, vals: Links, i: int, j: int)
    requires |insts| == |vals|
  {
    0 <= i < |insts| && Next(insts, vals, i) == j
  }

  ghost predicate Followed(insts: Instances, vals: Links, j: int)
    requires |insts| == |vals|
  {
    exists i :: IsNext(insts, vals, i, j)
  }

  ghost predicate InstanceOk(insts: Instances, vals: Links, i: nat)
    requires i < |insts| == |vals|
    reads insts
  {
    && insts[i].m_ordinalInArray == i && insts[i].Populating() && Known(insts, insts[i].m_fixupValues)
    && !insts[i].m_populatedRelativeCodeAddress && !insts[i].m_shouldStripLITC
    && (insts[i].m_isContinuationOfAnotherInstance <==> Followed(insts, vals, i))
  }

  /** What instantiating and populating keep. */
  ghost predicate Linked(insts: Instances, vals: Links)
    reads insts
  {
    && Holding(insts, vals)
    && forall i {:trigger InstanceOk(insts, vals, i)} :: 0 <= i < |insts| ==> InstanceOk(insts, vals, i)
  }

  lemma LinkedDistinct(insts: Instances, vals: Links, i: nat, j: nat)
    requires Linked(insts, vals) && i < |insts| && j < |insts|
    ensures i != j ==> insts[i] != insts[j]
  {
    assert InstanceOk(insts, vals, i) && InstanceOk(insts, vals, j);
  }

  ghost function GraphOf(insts: Instances, vals: Links): (g: Graph)
    requires |insts| == |vals|
    ensures |g.litc| == |g.lens| == |insts|
    ensures forall i :: 0 <= i < |insts| ==>
      g.litc[i] == Next(insts, vals, i) && g.lens[i] == |insts[i].m_owner.content|
  {
    Graph(seq(|insts|, i requires 0 <= i < |insts| => Next(insts, vals, i)),
          seq(|insts|, i requires 0 <= i < |insts| => |insts[i].m_owner.content|))
  }

  ghost function Views(insts: Instances): (st: seq<Slot>)
    reads insts
    ensures Showing(insts, st)
  {
    seq(|insts|, i requires 0 <= i < |insts| reads insts => insts[i].View())
  }

  lemma NextInRange(insts: Instances, vals: Links, i: nat)
    requires Linked(insts, vals) && i < |insts|
    ensures -1 <= Next(insts, vals, i) < |insts|
    ensures Next(insts, vals, i) == insts[i].m_litcInstanceOrd
    ensures Next(insts, vals, i) >= 0 ==> |insts[i].m_owner.content| >= RIP_RELATIVE_JMP_LEN
    ensures Next(insts, vals, i) >= 0 ==> StripJump.FinalJump(insts[i].m_owner, insts[i].sites, insts[i].last)
  {
    assert InstanceOk(insts, vals, i) && vals[i] == insts[i].m_fixupValues;
  }

  /** Linked instances form the graph that placement works on. */
  lemma LinkedIsWired(insts: Instances, vals: Links)
    requires Linked(insts, vals)
    ensures Wired(insts, GraphOf(insts, vals)) && Unpopulated(Views(insts))
  {
    var g := GraphOf(insts, vals);
    forall i | 0 <= i < |insts|
      ensures -1 <= g.litc[i] < |insts| && (g.litc[i] >= 0 ==> g.lens[i] >= RIP_RELATIVE_JMP_LEN)
      ensures insts[i].m_litcInstanceOrd == g.litc[i] && insts[i].m_ordinalInArray == i
      ensures insts[i].m_isContinuationOfAnotherInstance <==> !PlacementTheory.NoInbound(g.litc, i)
      ensures !insts[i].m_populatedRelativeCodeAddress && !insts[i].m_shouldStripLITC
    {
      NextInRange(insts, vals, i);
      assert InstanceOk(insts, vals, i);
      if !PlacementTheory.NoInbound(g.litc, i) {
        var p :| 0 <= p < |g.litc| && g.litc[p] == i;
        assert IsNext(insts, vals, p, i);
      }
      if Followed(insts, vals, i) {
        var p :| IsNext(insts, vals, p, i);
        assert g.litc[p] == i;
      }
    }
    forall i, j | 0 <= i < j < |insts|
      ensures insts[i] != insts[j]
    {
      LinkedDistinct(insts, vals, i, j);
    }
  }

  /** Following a new link: only the final jump's placeholder makes a continuation. */
  lemma FollowedStep(insts: Instances, vals: Links, i: nat, ordinal: nat, j: nat, k: nat)
    requires |insts| == |vals| && i < |insts| && j < |insts| && insts[j].m_ordinalInArray == j
    requires ordinal < |vals[i]| && vals[i][ordinal] == Number(0)
    ensures var vals' := vals[i := vals[i][ordinal := Pointer(insts[j])]];
            Followed(insts, vals', k) <==> Followed(insts, vals, k) || (k == j && ordinal == insts[i].m_owner.litcOrd)
  {
    var vals' := vals[i := vals[i][ordinal := Pointer(insts[j])]];
    if Followed(insts, vals, k) {
      var p :| IsNext(insts, vals, p, k);
      assert IsNext(insts, vals', p, k);
    }
    if Followed(insts, vals', k) {
      var p :| IsNext(insts, vals', p, k);
      assert p != i ==> IsNext(insts, vals, p, k);
      assert p == i && ordinal != insts[i].m_owner.litcOrd ==> IsNext(insts, vals, p, k);
    }
    if k == j && ordinal == insts[i].m_owner.litcOrd {
      assert IsNext(insts, vals', i, k);
    }
  }

  /** The placeholder `ordinal` of instance i now leads to instance j. */
  method Link(insts: Instances, i: nat, ordinal: nat, j: nat, ghost vals: Links)
    requires Linked(insts, vals) && i < |insts| && j < |insts|
    requires ordinal < insts[i].m_owner.boilerplateFns && ordinal < |vals[i]| && vals[i][ordinal] == Number(0)
    modifies insts`m_fixupValues, insts`m_litcInstanceOrd, insts`m_isContinuationOfAnotherInstance
    ensures Linked(insts, vals[i := vals[i][ordinal := Pointer(insts[j])]])
  {
    assert InstanceOk(insts, vals, i) && InstanceOk(insts, vals, j);
    ghost var vals' := vals[i := vals[i][ordinal := Pointer(insts[j])]];
    forall k {:trigger InstanceOk(insts, vals, k)} | 0 <= k < |insts|
      ensures InstanceOk(insts, vals, k) && (k != i ==> insts[k] != insts[i]) && (k != j ==> insts[k] != insts[j])
      ensures Followed(insts, vals', k) <==> Followed(insts, vals, k) || (k == j && ordinal == insts[i].m_owner.litcOrd)
    {
      LinkedDistinct(insts, vals, k, i);
      LinkedDistinct(insts, vals, k, j);
      FollowedStep(insts, vals, i, ordinal, j, k);
    }
    insts[i].PopulateBoilerplateFnPtrPlaceholder(ordinal, insts[j]);
    forall k {:trigger InstanceOk(insts, vals', k)} | 0 <= k < |insts|
      ensures InstanceOk(insts, vals', k) && insts[k].m_fixupValues == vals'[k]
    {
      assert old(InstanceOk(insts, vals, k) && insts[k].m_fixupValues == vals[k]);
    }
    assert Holding(insts, vals') by {
      forall k {:trigger vals'[k]} | 0 <= k < |insts|
        ensures insts[k].m_fixupValues == vals'[k]
      {
        assert InstanceOk(insts, vals', k);
      }
    }
  }

  /** An instance of the list. */
  ghost predicate Member(insts: Instances, x: FastInterpBoilerplateInstance) {
    x.m_ordinalInArray < |insts| && insts[x.m_ordinalInArray] == x
  }

  /** Placeholder ord of x is there and not populated yet. */
  ghost predicate OpenSlot(insts: Instances, vals: Links, x: FastInterpBoilerplateInstance, ord: nat)
    requires |vals| == |insts|
  {
    && Member(insts, x) && ord < x.m_owner.boilerplateFns
    && ord < |vals[x.m_ordinalInArray]| && vals[x.m_ordinalInArray][ord] == Number(0)
  }

  function NoValues(bp: BluePrint): seq<FixupValue> {
    seq(Ordinals(bp), _ => Number(0))
  }

  /** A new instance leads nowhere, and nothing leads to it. */
  lemma FollowedExtended(insts: Instances, vals: Links, x: FastInterpBoilerplateInstance, k: nat)
    requires Linked(insts, vals) && k <= |insts|
    ensures Followed(insts + [x], vals + [NoValues(x.m_owner)], k) <==> Followed(insts, vals, k)
    ensures k == |insts| ==> !Followed(insts, vals, k)
  {
    var insts', vals' := insts + [x], vals + [NoValues(x.m_owner)];
    if Followed(insts, vals, k) {
      var p :| IsNext(insts, vals, p, k);
      NextInRange(insts, vals, p);
      assert IsNext(insts', vals', p, k);
    }
    if Followed(insts', vals', k) {
      var p :| IsNext(insts', vals', p, k);
      assert p < |insts| ==> IsNext(insts, vals, p, k);
    }
  }

  lemma LinkedExtended(insts: Instances, vals: Links, x: FastInterpBoilerplateInstance)
    requires Linked(insts, vals) && x !in insts && x.m_ordinalInArray == |insts| && x.Populating()
    requires x.m_fixupValues == NoValues(x.m_owner) && !x.m_isContinuationOfAnotherInstance
    requires !x.m_populatedRelativeCodeAddress && !x.m_shouldStripLITC
    ensures Linked(insts + [x], vals + [NoValues(x.m_owner)])
  {
    var insts', vals' := insts + [x], vals + [NoValues(x.m_owner)];
    forall k {:trigger InstanceOk(insts', vals', k)} | 0 <= k < |insts'|
      ensures InstanceOk(insts', vals', k)
    {
      FollowedExtended(insts, vals, x, k);
      if k < |insts| {
        assert InstanceOk(insts, vals, k);
      }
    }
  }

  /** A chain of fragments: where it is entered, and the fragment whose placeholder 0 is its continuation. */
  datatype FastInterpSnippet = FastInterpSnippet(entry: FastInterpBoilerplateInstance?,
    tail: FastInterpBoilerplateInstance?) {
    predicate Empty() {
      entry == null && tail == null
    }
  }

  /** Joining two snippets: the first one's tail now continues with the second one's entry. */
  method AddContinuation(insts: Instances, first: FastInterpSnippet, other: FastInterpSnippet, ghost vals: Links)
    returns (r: FastInterpSnippet, ghost vals': Links)
    requires Linked(insts, vals)
    requires !first.Empty() && !other.Empty() ==>
               first.tail != null && other.entry != null && Member(insts, other.entry) &&
                 OpenSlot(insts, vals, first.tail, 0)
    modifies insts`m_fixupValues, insts`m_litcInstanceOrd, insts`m_isContinuationOfAnotherInstance
    ensures Linked(insts, vals')
    ensures other.Empty() ==> r == first && vals' == vals
    ensures !other.Empty() && first.Empty() ==> r == other && vals' == vals
    ensures !other.Empty() && !first.Empty() ==>
              && r == FastInterpSnippet(first.entry, other.tail)
              && vals' ==
                 vals[first.tail.m_ordinalInArray := vals[first.tail.m_ordinalInArray][0 := Pointer(other.entry)]]
  {
    vals' := vals;
    if other.entry == null && other.tail == null {
      return first, vals';
    }
    if first.entry == null && first.tail == null {
      return other, vals';
    }
    Link(insts, first.tail.m_ordinalInArray, 0, other.entry.m_ordinalInArray, vals);
    vals' := vals[first.tail.m_ordinalInArray := vals[first.tail.m_ordinalInArray][0 := Pointer(other.entry)]];
    r := FastInterpSnippet(first.entry, other.tail);
  }

  // ---------- phase 1: calls of generated functions ----------

  /** A placeholder to be populated with the entry of a generated function. */
  datatype EntryUse<F> = EntryUse(inst: FastInterpBoilerplateInstance, fn: F, ord: nat)

  ghost predicate SameSlot<F>(u: EntryUse<F>, v: EntryUse<F>) {
    u.inst == v.inst && u.ord == v.ord
  }

  ghost predicate UsesOk<F>(insts: Instances, vals: Links, uses: seq<EntryUse<F>>, n: nat)
    requires |vals| == |insts| && n <= |uses|
  {
    && (forall q {:trigger uses[q]} :: n <= q < |uses| ==> OpenSlot(insts, vals, uses[q].inst, uses[q].ord))
    && (forall p, q {:trigger SameSlot(uses[p], uses[q])} :: 0 <= p < q < |uses| ==> !SameSlot(uses[p], uses[q]))
  }

  ghost predicate UsedBy<F>(uses: seq<EntryUse<F>>, n: nat, inst: FastInterpBoilerplateInstance, ord: nat)
    requires n <= |uses|
  {
    exists q {:trigger uses[q]} :: 0 <= q < n && uses[q].inst == inst && uses[q].ord == ord
  }

  /** The first n placeholders lead to the entries of their functions; nothing else has changed. */
  ghost predicate UsesDone<F(!new)>(insts: Instances, vals: Links, vals': Links, uses: seq<EntryUse<F>>, n: nat,
      entries: map<F, FastInterpBoilerplateInstance>)
    requires n <= |uses|
  {
    && |vals'| == |vals| == |insts|
    && (forall q {:trigger uses[q]} :: 0 <= q < n ==>
          && Member(insts, uses[q].inst) && uses[q].fn in entries &&
            uses[q].ord < |vals'[uses[q].inst.m_ordinalInArray]|
          && vals'[uses[q].inst.m_ordinalInArray][uses[q].ord] == Pointer(entries[uses[q].fn]))
    && (forall i, k {:trigger vals'[i][k]} ::
      0 <= i < |insts| && |vals'[i]| == |vals[i]| && 0 <= k < |vals[i]| && !UsedBy(uses, n, insts[i], k) ==>
          vals'[i][k] == vals[i][k])
    && (forall i {:trigger vals'[i]} :: 0 <= i < |insts| ==> |vals'[i]| == |vals[i]|)
  }

  lemma UseStep<F(!new)>(insts: Instances, vals: Links, now: Links, uses: seq<EntryUse<F>>, n: nat,
      entries: map<F, FastInterpBoilerplateInstance>)
    requires n < |uses| && UsesDone(insts, vals, now, uses, n, entries) && UsesOk(insts, now, uses, n) &&
      uses[n].fn in entries
    ensures var u := uses[n];
            var now' := now[u.inst.m_ordinalInArray := now[u.inst.m_ordinalInArray][u.ord := Pointer(entries[u.fn])]];
            UsesDone(insts, vals, now', uses, n + 1, entries) && UsesOk(insts, now', uses, n + 1)
  {
    var u := uses[n];
    assert OpenSlot(insts, now, u.inst, u.ord);
    var i := u.inst.m_ordinalInArray;
    var now' := now[i := now[i][u.ord := Pointer(entries[u.fn])]];
    forall q {:trigger uses[q]} | 0 <= q < |uses| && q != n && Member(insts, uses[q].inst) &&
      uses[q].ord < |now[uses[q].inst.m_ordinalInArray]|
      ensures now'[uses[q].inst.m_ordinalInArray][uses[q].ord] == now[uses[q].inst.m_ordinalInArray][uses[q].ord]
    {
      assert if q < n then !SameSlot(uses[q], uses[n]) else !SameSlot(uses[n], uses[q]);
    }
    forall j, k {:trigger now'[j][k]} | 0 <= j < |insts| && |now'[j]| == |vals[j]| && 0 <= k < |vals[j]| &&
      !UsedBy(uses, n + 1, insts[j], k)
      ensures now'[j][k] == vals[j][k]
    {
      assert now[j][k] == vals[j][k];
    }
  }

  /** The phase 1 loop. */
  method PopulateEntryPoints<F(==,!new)>(insts: Instances, uses: seq<EntryUse<F>>,
      entryPoints: map<F, FastInterpBoilerplateInstance>, ghost vals: Links)
    returns (ghost vals': Links)
    requires Linked(insts, vals) && UsesOk(insts, vals, uses, 0)
    requires forall q {:trigger uses[q]} :: 0 <= q < |uses| ==>
      uses[q].fn in entryPoints && Member(insts, entryPoints[uses[q].fn])
    modifies insts`m_fixupValues, insts`m_litcInstanceOrd, insts`m_isContinuationOfAnotherInstance
    ensures Linked(insts, vals') && UsesDone(insts, vals, vals', uses, |uses|, entryPoints)
  {
    vals' := vals;
    for n := 0 to |uses|
      invariant Linked(insts, vals') && UsesDone(insts, vals, vals', uses, n, entryPoints) &&
        UsesOk(insts, vals', uses, n)
    {
      var u := uses[n];
      assert OpenSlot(insts, vals', u.inst, u.ord);
      var target := entryPoints[u.fn];
      UseStep(insts, vals, vals', uses, n, entryPoints);
      Link(insts, u.inst.m_ordinalInArray, u.ord, target.m_ordinalInArray, vals');
      vals' := vals'[u.inst.m_ordinalInArray := vals'[u.inst.m_ordinalInArray][u.ord := Pointer(target)]];
    }
  }

  // ---------- phase 3: materialising every instance ----------

  /** Instance x, with these values, is finished in its place. */
  ghost predicate InstanceDone(m: seq<Byte>, x: FastInterpBoilerplateInstance, values: seq<FixupValue>, slot: Slot,
      baseAddress: nat, st: seq<Slot>) {
    SectionDone(m, x.m_owner, x.sites, x.last, slot, AddressOf(baseAddress, slot), Resolved(values, baseAddress, st))
  }

  /** The bytes of instance i of a placement. */
  lemma InstanceRange(g: Graph, t: Trace, i: nat) returns (k: nat)
    requires GoodPlacement(g, t) && i < |t.st|
    ensures k < |t.order| && t.order[k] == i
    ensures t.st[i].addr - t.st[i].padding == t.pos[k] && t.st[i].End(g.lens[i]) == t.pos[k + 1]
    ensures 0 <= t.pos[k] <= t.pos[k + 1] <= t.len && 0 <= t.st[i].padding
  {
    k := PlacementTheory.PositionOf(t.order, |t.st|, i);
    assert SlotLaid(t.st[t.order[k]], g.lens[t.order[k]], t.pos[k], t.pos[k + 1]);
    PositionsAscend(g, t, 0, k);
    PositionsAscend(g, t, k, k + 1);
    PositionsAscend(g, t, k + 1, |t.order|);
  }

  /** The bytes of different instances are disjoint. */
  lemma InstancesApart(g: Graph, t: Trace, i: nat, j: nat)
    requires GoodPlacement(g, t) && i < |t.st| && j < |t.st| && i != j
    ensures || t.st[i].End(g.lens[i]) <= t.st[j].addr - t.st[j].padding
            || t.st[j].End(g.lens[j]) <= t.st[i].addr - t.st[i].padding
  {
    var p := InstanceRange(g, t, i);
    var q := InstanceRange(g, t, j);
    if p < q {
      PositionsAscend(g, t, p + 1, q);
    } else {
      PositionsAscend(g, t, q + 1, p);
    }
  }

  /** A finished instance stays finished while its bytes stay. */
  lemma SectionKept(m: seq<Byte>, m': seq<Byte>, bp: BluePrint, sites: seq<Site>, last: nat, slot: Slot, address: nat,
      values: seq<nat>)
    requires SectionDone(m, bp, sites, last, slot, address, values)
    requires SameBytes(m, m', slot.addr - slot.padding, slot.End(|bp.content|))
    ensures SectionDone(m', bp, sites, last, slot, address, values)
  {
    var eff, rest := StripJump.Effective(bp, slot.strip), StripJump.EffectiveSites(sites, slot.strip, last);
    assert m'[slot.addr - slot.padding..slot.addr] == m[slot.addr - slot.padding..slot.addr];
    CodeKept(m, m', eff, rest, slot.addr, address, values);
  }

  lemma CodeKept(m: seq<Byte>, m': seq<Byte>, bp: BluePrint, sites: seq<Site>, dest: nat, address: nat,
      values: seq<nat>)
    requires SitesOk(bp.content, sites) && StripJump.CodeDone(m, bp, sites, dest, address, values) &&
      SameBytes(m, m', dest, dest + |bp.content|)
    ensures StripJump.CodeDone(m', bp, sites, dest, address, values)
  {
    forall i {:trigger StripJump.SiteResolved(m', bp.content, dest, sites[i], address, values)} | 0 <= i < |sites|
      ensures sites[i].Valid(bp.content) && StripJump.SiteResolved(m', bp.content, dest, sites[i], address, values)
    {
      assert sites[i].Valid(bp.content) && StripJump.SiteResolved(m, bp.content, dest, sites[i], address, values);
      SiteKept(m, m', bp.content, dest, sites[i], Addend(sites[i], address, values));
    }
  }

  lemma SiteKept(m: seq<Byte>, m': seq<Byte>, content: seq<Byte>, dest: nat, s: Site, v: nat)
    requires s.Valid(content) && dest + |content| <= |m| && SiteDone(m, content, dest, s, v) &&
      SameBytes(m, m', dest, dest + |content|)
    ensures SiteDone(m', content, dest, s, v)
  {
    var x :| FieldIs(x, content, s, v) && Carries(m, content, dest, s, x);
    HeldCarries(m, m', content, dest, s, x);
    HeldShortest(m, m', content, dest, s);
  }

  /** Every instance of the program is finished. */
  ghost predicate ProgramDone(m: seq<Byte>, insts: Instances, vals: Links, st: seq<Slot>, baseAddress: nat, n: nat)
    requires n <= |insts| == |vals| == |st|
  {
    forall i {:trigger InstanceDone(m, insts[i], vals[i], st[i], baseAddress, st)} :: 0 <= i < n ==>
      InstanceDone(m, insts[i], vals[i], st[i], baseAddress, st)
  }

  ghost predicate PlacedProgram(insts: Instances, vals: Links, g: Graph, t: Trace) {
    match t
    case Trace(st, _, _, _, _) =>
      && |vals| == |insts| == |st| && GoodPlacement(g, t) && g == GraphOf(insts, vals)
      && AllDescribed(insts, vals)
  }

  ghost predicate AllDescribed(insts: Instances, vals: Links)
    requires |vals| == |insts|
  {
    forall i {:trigger DescribedInstance(insts, vals, i)} :: 0 <= i < |insts| ==> DescribedInstance(insts, vals, i)
  }

  ghost predicate DescribedInstance(insts: Instances, vals: Links, i: nat)
    requires i < |insts| == |vals|
  {
    && Described(insts[i].m_owner, insts[i].sites, insts[i].last) && |vals[i]| == Ordinals(insts[i].m_owner) &&
      Known(insts, vals[i])
    && forall k {:trigger vals[i][k]} :: insts[i].m_owner.boilerplateFns <= k < |vals[i]| ==> vals[i][k].Number?
  }

  /** A stripped instance has a final jump, and room. */
  lemma InstanceFits(insts: Instances, vals: Links, g: Graph, t: Trace, i: nat, size: nat)
    requires PlacedProgram(insts, vals, g, t) && i < |insts| && t.len <= size
    ensures Fits(insts[i].m_owner, insts[i].sites, insts[i].last, t.st[i], size)
  {
    var k := InstanceRange(g, t, i);
    assert t.st[i].strip ==> PlacementTheory.Falls(g.litc, t.order, k);
    assert DescribedInstance(insts, vals, i);
  }

  /** The phase 3 loop. */
  method MaterializeAll(insts: Instances, mem: array<Byte>, baseAddress: nat, ghost vals: Links, ghost g: Graph,
      ghost t: Trace)
    requires PlacedProgram(insts, vals, g, t) && Holding(insts, vals) && Showing(insts, t.st) && t.len <= mem.Length
    requires forall i, j :: 0 <= i < j < |insts| ==> insts[i] != insts[j]
    modifies mem, insts`m_fixupValues
    ensures ProgramDone(mem[..], insts, vals, t.st, baseAddress, |insts|)
  {
    for i := 0 to |insts|
      invariant ProgramDone(mem[..], insts, vals, t.st, baseAddress, i)
      invariant forall k {:trigger vals[k]} :: i <= k < |insts| ==> insts[k].m_fixupValues == vals[k]
    {
      ghost var before := mem[..];
      InstanceFits(insts, vals, g, t, i, mem.Length);
      MaterializeOne(insts, i, mem, baseAddress, vals, g, t);
      OthersStayDone(before, mem[..], insts, vals, g, t, baseAddress, i);
    }
  }

  method MaterializeOne(insts: Instances, i: nat, mem: array<Byte>, baseAddress: nat, ghost vals: Links, ghost g: Graph,
      ghost t: Trace)
    requires PlacedProgram(insts, vals, g, t) && i < |insts| && Showing(insts, t.st) &&
      insts[i].m_fixupValues == vals[i]
    requires Fits(insts[i].m_owner, insts[i].sites, insts[i].last, t.st[i], mem.Length)
    modifies mem, {insts[i]}`m_fixupValues
    ensures InstanceDone(mem[..], insts[i], vals[i], t.st[i], baseAddress, t.st)
    ensures StripJump.Frame(old(mem[..]), mem[..], t.st[i].addr - t.st[i].padding, t.st[i].End(g.lens[i]))
  {
    assert DescribedInstance(insts, vals, i) && insts[i].View() == t.st[i];
    forall j {:trigger t.st[j]} | 0 <= j < |t.st|
      ensures t.st[j].addr >= 0
    {
      var k := InstanceRange(g, t, j);
    }
    insts[i].Materialize(mem, baseAddress, insts, t.st);
  }

  lemma OthersStayDone(m: seq<Byte>, m': seq<Byte>, insts: Instances, vals: Links, g: Graph, t: Trace, baseAddress: nat,
      i: nat)
    requires PlacedProgram(insts, vals, g, t) && i < |insts| && ProgramDone(m, insts, vals, t.st, baseAddress, i)
    requires InstanceDone(m', insts[i], vals[i], t.st[i], baseAddress, t.st)
    requires StripJump.Frame(m, m', t.st[i].addr - t.st[i].padding, t.st[i].End(g.lens[i]))
    ensures ProgramDone(m', insts, vals, t.st, baseAddress, i + 1)
  {
    forall j {:trigger InstanceDone(m', insts[j], vals[j], t.st[j], baseAddress, t.st)} | 0 <= j < i
      ensures InstanceDone(m', insts[j], vals[j], t.st[j], baseAddress, t.st)
    {
      assert InstanceDone(m, insts[j], vals[j], t.st[j], baseAddress, t.st);
      OtherStaysDone(m, m', insts[j], vals[j], g, t, baseAddress, i, j);
    }
  }

  lemma OtherStaysDone(m: seq<Byte>, m': seq<Byte>, x: FastInterpBoilerplateInstance, values: seq<FixupValue>, g: Graph,
      t: Trace, baseAddress: nat,
      i: nat, j: nat)
    requires GoodPlacement(g, t) && j < i < |t.st| && g.lens[j] == |x.m_owner.content|
    requires InstanceDone(m, x, values, t.st[j], baseAddress, t.st)
    requires StripJump.Frame(m, m', t.st[i].addr - t.st[i].padding, t.st[i].End(g.lens[i]))
    ensures InstanceDone(m', x, values, t.st[j], baseAddress, t.st)
  {
    var p := InstanceRange(g, t, i);
    var q := InstanceRange(g, t, j);
    InstancesApart(g, t, i, j);
    SectionKept(m, m', x.m_owner, x.sites, x.last, t.st[j], AddressOf(baseAddress, t.st[j]),
      Resolved(values, baseAddress, t.st));
  }

  // ---------- the engine ----------

  const PAGE := 4096

  class FastInterpCodegenEngine<F(==,!new)> {
    var m_allBoilerplateInstances: Instances
    /** For each function its entry, and the wrapper through which C++ calls it. */
    var m_functionEntryPoint: map<F, FastInterpBoilerplateInstance>
    var m_cdeclWrapper: map<F, FastInterpBoilerplateInstance>
    var m_boilerplateFnEntryPointPlaceholders: seq<EntryUse<F>>
    var m_materialized: bool

    constructor ()
      ensures Valid([]) && m_allBoilerplateInstances == [] && m_functionEntryPoint == map[] &&
        m_boilerplateFnEntryPointPlaceholders == []
    {
      m_allBoilerplateInstances, m_functionEntryPoint, m_cdeclWrapper := [], map[], map[];
      m_boilerplateFnEntryPointPlaceholders, m_materialized := [], false;
    }

    ghost predicate Valid(vals: Links)
      reads this, m_allBoilerplateInstances
    {
      && Linked(m_allBoilerplateInstances, vals) && !m_materialized
      && m_functionEntryPoint.Keys == m_cdeclWrapper.Keys
      && (forall fn {:trigger m_functionEntryPoint[fn]} ::
        fn in m_functionEntryPoint ==> Member(m_allBoilerplateInstances, m_functionEntryPoint[fn]))
      && (forall fn {:trigger m_cdeclWrapper[fn]} ::
        fn in m_cdeclWrapper ==> Member(m_allBoilerplateInstances, m_cdeclWrapper[fn]))
    }

    method InstantiateBoilerplate(boilerplate: BluePrint, log2CodeSectionAlignment: nat, ghost sites: seq<Site>,
        ghost last: nat, ghost vals: Links)
      returns (inst: FastInterpBoilerplateInstance)
      requires Valid(vals) && log2CodeSectionAlignment <= 6 && Described(boilerplate, sites, last)
      modifies this`m_allBoilerplateInstances
      ensures fresh(inst) && inst.m_owner == boilerplate && inst.sites == sites && inst.last == last
      ensures m_allBoilerplateInstances == old(m_allBoilerplateInstances) + [inst]
      ensures Valid(vals + [NoValues(boilerplate)]) && Member(m_allBoilerplateInstances, inst)
    {
      inst := new FastInterpBoilerplateInstance(boilerplate, |m_allBoilerplateInstances|, log2CodeSectionAlignment,
        sites, last);
      assert inst.m_fixupValues == NoValues(boilerplate);
      assert Linked(m_allBoilerplateInstances, vals);
      NotContinued(m_allBoilerplateInstances, vals);
      LinkedExtended(m_allBoilerplateInstances, vals, inst);
      m_allBoilerplateInstances := m_allBoilerplateInstances + [inst];
    }

    lemma NotContinued(insts: Instances, vals: Links)
      requires Linked(insts, vals)
      ensures !Followed(insts, vals, |insts|)
    {
      if Followed(insts, vals, |insts|) {
        var p :| IsNext(insts, vals, p, |insts|);
        NextInRange(insts, vals, p);
      }
    }

    method PopulateBoilerplateFnPtrPlaceholderAsFunctionEntryPoint(inst: FastInterpBoilerplateInstance, fn: F, ord: nat)
      modifies this`m_boilerplateFnEntryPointPlaceholders
      ensures m_boilerplateFnEntryPointPlaceholders == old(m_boilerplateFnEntryPointPlaceholders) +
        [EntryUse(inst, fn, ord)]
    {
      m_boilerplateFnEntryPointPlaceholders := m_boilerplateFnEntryPointPlaceholders + [EntryUse(inst, fn, ord)];
    }

    /** A function is entered at inst, and from C++ through a wrapper that calls it. */
    method RegisterGeneratedFunctionEntryPoint(fn: F, inst: FastInterpBoilerplateInstance, wrapper: BluePrint,
        ghost sites: seq<Site>, ghost last: nat,
        ghost vals: Links)
      returns (ghost vals': Links)
      requires Valid(vals) && fn !in m_functionEntryPoint && Member(m_allBoilerplateInstances, inst)
      requires Described(wrapper, sites, last) && wrapper.boilerplateFns > 0
      modifies this`m_allBoilerplateInstances, this`m_functionEntryPoint, this`m_cdeclWrapper
      modifies m_allBoilerplateInstances`m_fixupValues, m_allBoilerplateInstances`m_litcInstanceOrd
      modifies m_allBoilerplateInstances`m_isContinuationOfAnotherInstance
      ensures Valid(vals') && vals' == vals + [NoValues(wrapper)[0 := Pointer(inst)]]
      ensures |m_allBoilerplateInstances| == |vals| + 1 &&
        m_allBoilerplateInstances[..|vals|] == old(m_allBoilerplateInstances)
      ensures m_functionEntryPoint == old(m_functionEntryPoint)[fn := inst]
      ensures m_cdeclWrapper == old(m_cdeclWrapper)[fn := m_allBoilerplateInstances[|vals|]]
    {
      var cdeclWrapper;
      cdeclWrapper, vals' := InstantiateWrapper(inst, wrapper, sites, last, vals);
      m_functionEntryPoint := m_functionEntryPoint[fn := inst];
      m_cdeclWrapper := m_cdeclWrapper[fn := cdeclWrapper];
    }

    /** A wrapper that calls inst. */
    method InstantiateWrapper(inst: FastInterpBoilerplateInstance, wrapper: BluePrint, ghost sites: seq<Site>,
        ghost last: nat, ghost vals: Links)
      returns (cdeclWrapper: FastInterpBoilerplateInstance, ghost vals': Links)
      requires Valid(vals) && Member(m_allBoilerplateInstances, inst)
      requires Described(wrapper, sites, last) && wrapper.boilerplateFns > 0
      modifies this`m_allBoilerplateInstances
      modifies m_allBoilerplateInstances`m_fixupValues, m_allBoilerplateInstances`m_litcInstanceOrd
      modifies m_allBoilerplateInstances`m_isContinuationOfAnotherInstance
      ensures Valid(vals') && vals' == vals + [NoValues(wrapper)[0 := Pointer(inst)]]
      ensures m_allBoilerplateInstances == old(m_allBoilerplateInstances) + [cdeclWrapper] &&
        |vals| == |old(m_allBoilerplateInstances)|
      ensures Member(m_allBoilerplateInstances, cdeclWrapper) && Member(m_allBoilerplateInstances, inst)
    {
      cdeclWrapper := InstantiateBoilerplate(wrapper, 0, sites, last, vals);
      ghost var vals1 := vals + [NoValues(wrapper)];
      assert Member(m_allBoilerplateInstances, inst) && vals1[|vals|][0] == Number(0);
      Link(m_allBoilerplateInstances, cdeclWrapper.m_ordinalInArray, 0, inst.m_ordinalInArray, vals1);
      vals' := vals1[|vals| := vals1[|vals|][0 := Pointer(inst)]];
    }

    /**
     All phases: the remaining placeholders are populated, the instances are placed, and every one of them is written
     to the memory found at baseAddress; functions are then called through their wrappers' addresses.
     */
    method Materialize(baseAddress: nat, ghost vals: Links)
      returns (mem: array<Byte>, entryPointMap: map<F, nat>, ghost vals': Links, ghost g: Graph, ghost t: Trace)
      requires Valid(vals) && baseAddress % PAGE == 0
      requires UsesReady(m_allBoilerplateInstances, vals, m_boilerplateFnEntryPointPlaceholders, m_functionEntryPoint)
      modifies this`m_materialized, m_allBoilerplateInstances
      ensures m_materialized && fresh(mem)
      ensures UsesDone(m_allBoilerplateInstances, vals, vals', m_boilerplateFnEntryPointPlaceholders,
        |m_boilerplateFnEntryPointPlaceholders|, m_functionEntryPoint)
      ensures Written(Image(mem[..], m_allBoilerplateInstances, vals', g, t, baseAddress))
      ensures EntriesAre(entryPointMap, m_cdeclWrapper, t.st, baseAddress)
    {
      mem, entryPointMap, vals', g, t := Emit(m_allBoilerplateInstances, m_boilerplateFnEntryPointPlaceholders,
        m_functionEntryPoint, m_cdeclWrapper, baseAddress, vals);
      m_materialized := true;
    }
  }

  /** The placeholders that are left for phase 1 are free, and their functions are registered. */
  ghost predicate UsesReady<F>(insts: Instances, vals: Links, uses: seq<EntryUse<F>>,
      entries: map<F, FastInterpBoilerplateInstance>) {
    && |vals| == |insts| && UsesOk(insts, vals, uses, 0)
    && forall q {:trigger uses[q]} :: 0 <= q < |uses| ==> uses[q].fn in entries && Member(insts, entries[uses[q].fn])
  }

  ghost predicate EntriesAre<F(!new)>(addresses: map<F, nat>, wrappers: map<F, FastInterpBoilerplateInstance>,
      st: seq<Slot>, baseAddress: nat) {
    && addresses.Keys == wrappers.Keys
    && forall fn {:trigger addresses[fn]} :: fn in addresses ==>
         wrappers[fn].m_ordinalInArray < |st| && addresses[fn] ==
           AddressOf(baseAddress, st[wrappers[fn].m_ordinalInArray])
  }

  /** A program in memory: its bytes, instances, links, placement and address. */
  datatype Image = Image(m: seq<Byte>, insts: Instances, vals: Links, g: Graph, t: Trace, baseAddress: nat)

  /** The memory holds the whole program, in an order no other order beats. */
  ghost predicate Written(image: Image) {
    match image
    case Image(m, insts, vals, g, t, baseAddress) =>
      && PlacedProgram(insts, vals, g, t) && Optimal(g, t.order)
      && t.len <= |m| < t.len + PAGE && |m| % PAGE == 0
      && ProgramDone(m, insts, vals, t.st, baseAddress, |insts|)
  }

  /** The memory is a whole number of 4096-byte pages, and no page more than the code needs. */
  lemma WrittenPages(image: Image)
    requires Written(image)
    ensures |image.m| % 4096 == 0 && image.t.len <= |image.m| < image.t.len + 4096
  {
  }

  /** The three phases. */
  method Emit<F(==,!new)>(insts: Instances, uses: seq<EntryUse<F>>, entryPoints: map<F, FastInterpBoilerplateInstance>,
      wrappers: map<F, FastInterpBoilerplateInstance>, baseAddress: nat, ghost vals: Links)
    returns (mem: array<Byte>, entryPointMap: map<F, nat>, ghost vals': Links, ghost g: Graph, ghost t: Trace)
    requires Linked(insts, vals) && UsesReady(insts, vals, uses, entryPoints)
    requires forall fn {:trigger wrappers[fn]} :: fn in wrappers ==> Member(insts, wrappers[fn])
    modifies insts
    ensures fresh(mem) && UsesDone(insts, vals, vals', uses, |uses|, entryPoints)
    ensures Written(Image(mem[..], insts, vals', g, t, baseAddress)) &&
      EntriesAre(entryPointMap, wrappers, t.st, baseAddress)
  {
    vals' := PopulateEntryPoints(insts, uses, entryPoints, vals);
    mem, g, t := PlaceAndWrite(insts, baseAddress, vals');
    entryPointMap := EntryAddresses(insts, wrappers, baseAddress, t.st);
  }

  method EntryAddresses<F(!new)>(insts: Instances, wrappers: map<F, FastInterpBoilerplateInstance>, baseAddress: nat,
      ghost st: seq<Slot>)
    returns (addresses: map<F, nat>)
    requires Showing(insts, st) && forall fn {:trigger wrappers[fn]} :: fn in wrappers ==> Member(insts, wrappers[fn])
    ensures EntriesAre(addresses, wrappers, st, baseAddress)
  {
    addresses := map fn | fn in wrappers :: AddressOf(baseAddress, wrappers[fn].View());
  }

  /** Phases 2 and 3. */
  method PlaceAndWrite(insts: Instances, baseAddress: nat, ghost vals: Links)
      returns (mem: array<Byte>, ghost g: Graph, ghost t: Trace)
    requires Linked(insts, vals)
    modifies insts`m_relativeCodeAddr, insts`m_codeSectionPaddingRequired, insts`m_populatedRelativeCodeAddress
    modifies insts`m_shouldStripLITC, insts`m_log2CodeSectionAlignment, insts`m_fixupValues
    ensures fresh(mem) && Written(Image(mem[..], insts, vals, g, t, baseAddress)) && Showing(insts, t.st)
  {
    g := GraphOf(insts, vals);
    LinkedIsWired(insts, vals);
    LinkedDescribes(insts, vals);
    var codeSectionLength;
    codeSectionLength, t := PlaceCodeSections(insts, g, Views(insts));
    ProgramPlaced(insts, vals, g, t);
    mem := WriteProgram(insts, codeSectionLength, baseAddress, vals, g, t);
  }

  lemma ProgramPlaced(insts: Instances, vals: Links, g: Graph, t: Trace)
    requires |insts| == |vals| == |t.st| && GoodPlacement(g, t) && g == GraphOf(insts, vals) &&
      AllDescribed(insts, vals)
    ensures PlacedProgram(insts, vals, g, t)
  {
  }

  /** Phase 3: memory for the program, filled. */
  method WriteProgram(insts: Instances, codeSectionLength: int, baseAddress: nat, ghost vals: Links, ghost g: Graph,
      ghost t: Trace)
    returns (mem: array<Byte>)
    requires PlacedProgram(insts, vals, g, t) && Optimal(g, t.order) && t.len == codeSectionLength
    requires Holding(insts, vals) && Showing(insts, t.st) && Wired(insts, g)
    modifies insts`m_fixupValues
    ensures fresh(mem) && Written(Image(mem[..], insts, vals, g, t, baseAddress))
  {
    PositionsAscend(g, t, 0, |t.order|);
    PageRounding(codeSectionLength);
    var mmapLength := (codeSectionLength + (PAGE - 1)) / PAGE * PAGE;
    mem := new Byte[mmapLength](_ => 0);
    MaterializeAll(insts, mem, baseAddress, vals, g, t);
  }

  lemma PageRounding(n: nat)
    ensures n <= (n + (PAGE - 1)) / PAGE * PAGE < n + PAGE && (n + (PAGE - 1)) / PAGE * PAGE % PAGE == 0
  {
  }

  lemma LinkedDescribes(insts: Instances, vals: Links)
    requires Linked(insts, vals)
    ensures AllDescribed(insts, vals)
  {
    forall i {:trigger DescribedInstance(insts, vals, i)} | 0 <= i < |insts|
      ensures DescribedInstance(insts, vals, i)
    {
      DescribedOne(insts, vals, i);
    }
  }

  lemma DescribedOne(insts: Instances, vals: Links, i: nat)
    requires Linked(insts, vals) && i < |insts|
    ensures DescribedInstance(insts, vals, i)
  {
    assert InstanceOk(insts, vals, i);
    assert insts[i].m_fixupValues == vals[i];
    var values := vals[i];
    assert insts[i].Populating();
    assert forall k {:trigger values[k]} :: insts[i].m_owner.boilerplateFns <= k < |values| ==> values[k].Number?;
  }
}
