/**
 Copying one boilerplate into place and patching it (PochiVM/fastinterp/fastinterp_helper.h:128-198).
 */
module BluePrint {
  import Arith
  import opened MachineCode

  const JMP_LEN := 5
  const WORD32 := 0x1_0000_0000
  const WORD64 := 0x1_0000_0000_0000_0000

  /** The static description of a boilerplate; symbol records pair an offset with an ordinal into the fixup values. */
  datatype BluePrint = BluePrint(
    content: seq<Byte>,
    addr32: seq<nat>,
    symbol32: seq<(nat, nat)>,
    symbol64: seq<(nat, nat)>,
    boilerplateFns: nat,
    cppFns: nat,
    constants: nat,
    litcOrd: int,
    jmp32: seq<nat>,
    jcc32: seq<nat>)

  // ---------- additive fixups ----------

  datatype Fixup = Fixup(at: nat, width: nat, value: nat)

  ghost predicate InRange(fs: seq<Fixup>, size: nat) {
    forall i {:trigger fs[i]} :: 0 <= i < |fs| ==> fs[i].at + fs[i].width <= size
  }

  ghost predicate Apart(f: Fixup, lo: int, hi: int) {
    f.at + f.width <= lo || hi <= f.at
  }

  /** No two fixups of a list overlap. */
  ghost predicate AllApart(fs: seq<Fixup>) {
    forall i, j {:trigger PairApart(fs, i, j)} :: 0 <= i < j < |fs| ==> PairApart(fs, i, j)
  }

  ghost predicate PairApart(fs: seq<Fixup>, i: nat, j: nat)
    requires i < |fs| && j < |fs|
  {
    Apart(fs[i], fs[j].at, fs[j].at + fs[j].width)
  }

  /** The field of a fixup has grown by its value, modulo its range. */
  ghost predicate Fixed(m: seq<Byte>, m': seq<Byte>, f: Fixup)
    requires f.at + f.width <= |m| == |m'|
  {
    Arith.Congruent(Read(m', f.at, f.width), Read(m, f.at, f.width) + f.value, Range256(f.width))
  }

  ghost predicate Untouched(fs: seq<Fixup>, n: nat, b: int)
    requires n <= |fs|
  {
    forall k {:trigger fs[k]} :: 0 <= k < n ==> Apart(fs[k], b, b + 1)
  }

  /** The first n fixups have been applied, and nothing else has changed. */
  ghost predicate Patched(m: seq<Byte>, m': seq<Byte>, fs: seq<Fixup>, n: nat)
    requires n <= |fs| && InRange(fs, |m|)
  {
    && |m| == |m'|
    && (forall k {:trigger Fixed(m, m', fs[k])} :: 0 <= k < n ==> Fixed(m, m', fs[k]))
    && (forall b {:trigger Untouched(fs, n, b)} :: 0 <= b < |m| && Untouched(fs, n, b) ==> m'[b] == m[b])
  }

  lemma OwnField(m: seq<Byte>, f: Fixup)
    requires f.at + f.width <= |m|
    ensures Fixed(m, AddBack(m, f.at, f.width, f.value), f)
  {
    ReadPatched(m, f.at, Read(m, f.at, f.width) + f.value, f.width);
  }

  lemma OutsideField(m: seq<Byte>, f: Fixup, lo: nat, hi: nat)
    requires f.at + f.width <= |m| && Apart(f, lo, hi)
    ensures SameBytes(m, AddBack(m, f.at, f.width, f.value), lo, hi)
  {
  }

  /** A range no fixup touches keeps its bytes. */
  lemma RangeKept(m: seq<Byte>, m': seq<Byte>, fs: seq<Fixup>, n: nat, lo: int, hi: int)
    requires n <= |fs| && InRange(fs, |m|) && Patched(m, m', fs, n)
    requires forall k {:trigger fs[k]} :: 0 <= k < n ==> Apart(fs[k], lo, hi)
    ensures SameBytes(m, m', lo, hi)
  {
    forall b {:trigger m'[b]} | 0 <= b < |m| && lo <= b < hi
      ensures m'[b] == m[b]
    {
      assert Untouched(fs, n, b);
    }
  }

  /** One more fixup of the list. */
  lemma PatchStep(m: seq<Byte>, m1: seq<Byte>, m2: seq<Byte>, fs: seq<Fixup>, n: nat)
    requires n < |fs| && InRange(fs, |m|) && AllApart(fs) && Patched(m, m1, fs, n)
    requires m2 == AddBack(m1, fs[n].at, fs[n].width, fs[n].value)
    ensures Patched(m, m2, fs, n + 1)
  {
    forall k {:trigger Fixed(m, m2, fs[k])} | 0 <= k < n + 1
      ensures Fixed(m, m2, fs[k])
    {
      if k == n {
        NewlyFixed(m, m1, fs, n);
      } else {
        StillFixed(m, m1, fs, n, k);
      }
    }
    forall b {:trigger Untouched(fs, n + 1, b)} | 0 <= b < |m| && Untouched(fs, n + 1, b)
      ensures m2[b] == m[b]
    {
      assert Apart(fs[n], b, b + 1);
      OutsideField(m1, fs[n], b, b + 1);
      assert Untouched(fs, n, b);
    }
  }

  lemma NewlyFixed(m: seq<Byte>, m1: seq<Byte>, fs: seq<Fixup>, n: nat)
    requires n < |fs| && InRange(fs, |m|) && AllApart(fs) && Patched(m, m1, fs, n)
    ensures Fixed(m, AddBack(m1, fs[n].at, fs[n].width, fs[n].value), fs[n])
  {
    forall k {:trigger fs[k]} | 0 <= k < n
      ensures Apart(fs[k], fs[n].at, fs[n].at + fs[n].width)
    {
      assert PairApart(fs, k, n);
    }
    RangeKept(m, m1, fs, n, fs[n].at, fs[n].at + fs[n].width);
    ReadSame(m, m1, fs[n].at, fs[n].width);
    OwnField(m1, fs[n]);
  }

  lemma StillFixed(m: seq<Byte>, m1: seq<Byte>, fs: seq<Fixup>, n: nat, k: nat)
    requires k < n < |fs| && InRange(fs, |m|) && AllApart(fs) && Patched(m, m1, fs, n)
    ensures Fixed(m, AddBack(m1, fs[n].at, fs[n].width, fs[n].value), fs[k])
  {
    assert PairApart(fs, k, n) && Fixed(m, m1, fs[k]);
    OutsideField(m1, fs[n], fs[k].at, fs[k].at + fs[k].width);
    ReadSame(m1, AddBack(m1, fs[n].at, fs[n].width, fs[n].value), fs[k].at, fs[k].width);
  }

  // ---------- the fixup loops ----------

  function AddrFixups(offsets: seq<nat>, dest: nat, addend: nat): (fs: seq<Fixup>)
    ensures |fs| == |offsets|
    ensures forall i {:trigger fs[i]} :: 0 <= i < |fs| ==> fs[i] == Fixup(dest + offsets[i], 4, addend)
  {
    seq(|offsets|, i requires 0 <= i < |offsets| => Fixup(dest + offsets[i], 4, addend))
  }

  predicate OrdinalsOk(records: seq<(nat, nat)>, n: nat) {
    forall i {:trigger records[i]} :: 0 <= i < |records| ==> records[i].1 < n
  }

  /** The value of each record's symbol; the field keeps as many low bytes of the sum as it holds. */
  function SymbolFixups(records: seq<(nat, nat)>, width: nat, dest: nat, values: seq<nat>): (fs: seq<Fixup>)
    requires OrdinalsOk(records, |values|)
    ensures |fs| == |records|
    ensures forall i {:trigger fs[i]} :: 0 <= i < |fs| ==>
      fs[i] == Fixup(dest + records[i].0, width, values[records[i].1])
  {
    seq(|records|, i requires 0 <= i < |records| => Fixup(dest + records[i].0, width, values[records[i].1]))
  }

  /** The truncated negation of the code's own address. */
  function MinusAddress(address: nat): nat {
    (0 - address) % WORD32
  }

  method FixAddresses(mem: array<Byte>, dest: nat, offsets: seq<nat>, addend: nat)
    requires InRange(AddrFixups(offsets, dest, addend), mem.Length) && AllApart(AddrFixups(offsets, dest, addend))
    modifies mem
    ensures Patched(old(mem[..]), mem[..], AddrFixups(offsets, dest, addend), |offsets|)
  {
    ghost var m, fs := mem[..], AddrFixups(offsets, dest, addend);
    var i := 0;
    while i < |offsets|
      invariant i <= |offsets| && Patched(m, mem[..], fs, i)
    {
      ghost var m1 := mem[..];
      assert fs[i] == Fixup(dest + offsets[i], 4, addend);
      UnalignedAddAndWriteback(mem, dest + offsets[i], 4, addend);
      PatchStep(m, m1, mem[..], fs, i);
      i := i + 1;
    }
  }

  method FixSymbols(mem: array<Byte>, dest: nat, records: seq<(nat, nat)>, width: nat, values: seq<nat>)
    requires OrdinalsOk(records, |values|)
    requires InRange(SymbolFixups(records, width, dest, values), mem.Length) &&
      AllApart(SymbolFixups(records, width, dest, values))
    modifies mem
    ensures Patched(old(mem[..]), mem[..], SymbolFixups(records, width, dest, values), |records|)
  {
    ghost var m, fs := mem[..], SymbolFixups(records, width, dest, values);
    var i := 0;
    while i < |records|
      invariant i <= |records| && Patched(m, mem[..], fs, i)
    {
      ghost var m1 := mem[..];
      assert fs[i] == Fixup(dest + records[i].0, width, values[records[i].1]);
      UnalignedAddAndWriteback(mem, dest + records[i].0, width, values[records[i].1]);
      PatchStep(m, m1, mem[..], fs, i);
      i := i + 1;
    }
  }

  // ---------- shortening all jumps ----------

  /** Operand positions of jumps whose opcodes take `before` bytes, none overlapping another. */
  ghost predicate JumpsOk(m: seq<Byte>, ops: seq<nat>, before: nat) {
    && (forall k {:trigger ops[k]} :: 0 <= k < |ops| ==> before <= ops[k] && ops[k] + 4 <= |m|)
    && (forall j, k {:trigger JumpsApart(ops, j, k, before)} :: 0 <= j < k < |ops| ==> JumpsApart(ops, j, k, before))
  }

  ghost predicate JumpsApart(ops: seq<nat>, j: nat, k: nat, before: nat)
    requires j < |ops| && k < |ops|
  {
    ops[j] + 4 <= ops[k] - before || ops[k] + 4 <= ops[j] - before
  }

  ghost predicate OutsideJumps(ops: seq<nat>, n: nat, before: nat, b: int)
    requires n <= |ops|
  {
    forall k {:trigger ops[k]} :: 0 <= k < n ==> b < ops[k] - before || ops[k] + 4 <= b
  }

  ghost predicate SameJump(m: seq<Byte>, m': seq<Byte>, at: nat) {
    Decode(m, at).Jump? && Decode(m', at) == Decode(m, at) && ShortestJump(m', at)
  }

  /** The first n jumps go where they went, are as short as they can be, and nothing else has changed. */
  ghost predicate JmpsKept(m: seq<Byte>, m': seq<Byte>, ops: seq<nat>, n: nat)
    requires n <= |ops| && JumpsOk(m, ops, 1)
  {
    && |m| == |m'|
    && (forall k {:trigger SameJump(m, m', ops[k] - 1)} :: 0 <= k < n ==> SameJump(m, m', ops[k] - 1))
    && (forall b {:trigger OutsideJumps(ops, n, 1, b)} :: 0 <= b < |m| && OutsideJumps(ops, n, 1, b) ==> m'[b] == m[b])
  }

  ghost predicate JccsKept(m: seq<Byte>, m': seq<Byte>, ops: seq<nat>, n: nat)
    requires n <= |ops| && JumpsOk(m, ops, 2)
  {
    && |m| == |m'|
    && (forall k {:trigger SameBranch(m, m', ops[k] - 2)} :: 0 <= k < n ==> SameBranch(m, m', ops[k] - 2))
    && (forall b {:trigger OutsideJumps(ops, n, 2, b)} :: 0 <= b < |m| && OutsideJumps(ops, n, 2, b) ==> m'[b] == m[b])
  }

  lemma JumpRangeKept(m: seq<Byte>, m': seq<Byte>, ops: seq<nat>, n: nat, before: nat, lo: int, hi: int)
    requires n <= |ops| && |m| == |m'|
    requires forall b {:trigger OutsideJumps(ops, n, before, b)} ::
      0 <= b < |m| && OutsideJumps(ops, n, before, b) ==> m'[b] == m[b]
    requires forall k {:trigger ops[k]} :: 0 <= k < n ==> hi <= ops[k] - before || ops[k] + 4 <= lo
    ensures SameBytes(m, m', lo, hi)
  {
    forall b {:trigger m'[b]} | 0 <= b < |m| && lo <= b < hi
      ensures m'[b] == m[b]
    {
      assert OutsideJumps(ops, n, before, b);
    }
  }

  /** The bytes of jump n are still those of the input when its turn comes. */
  lemma TurnComes(m: seq<Byte>, m1: seq<Byte>, ops: seq<nat>, n: nat, before: nat)
    requires JumpsOk(m, ops, before) && n < |ops| && |m| == |m1|
    requires forall b {:trigger OutsideJumps(ops, n, before, b)} ::
      0 <= b < |m| && OutsideJumps(ops, n, before, b) ==> m1[b] == m[b]
    ensures SameBytes(m, m1, ops[n] - before, ops[n] + 4)
  {
    forall k {:trigger ops[k]} | 0 <= k < n
      ensures ops[n] + 4 <= ops[k] - before || ops[k] + 4 <= ops[n] - before
    {
      assert JumpsApart(ops, k, n, before);
    }
    JumpRangeKept(m, m1, ops, n, before, ops[n] - before, ops[n] + 4);
  }

  /** Jump n has been shortened, and nothing else has changed. */
  lemma JmpStep(m: seq<Byte>, m1: seq<Byte>, m2: seq<Byte>, ops: seq<nat>, n: nat)
    requires JumpsOk(m, ops, 1) && n < |ops| && JmpsKept(m, m1, ops, n)
    requires SameJump(m, m2, ops[n] - 1)
    requires SameBytes(m1, m2, 0, ops[n] - 1) && SameBytes(m1, m2, ops[n] + 4, |m|)
    ensures JmpsKept(m, m2, ops, n + 1)
  {
    forall k {:trigger SameJump(m, m2, ops[k] - 1)} | 0 <= k < n + 1
      ensures SameJump(m, m2, ops[k] - 1)
    {
      if k < n {
        OtherBytes(m1, m2, ops, n, k, 1);
        assert SameJump(m, m1, ops[k] - 1);
        JumpStill(m, m1, m2, ops[k] - 1);
      }
    }
    OutsideStep(m, m1, m2, ops, n, 1);
  }

  lemma JumpStill(m: seq<Byte>, m1: seq<Byte>, m2: seq<Byte>, at: nat)
    requires SameJump(m, m1, at) && SameBytes(m1, m2, at, at + 5)
    ensures SameJump(m, m2, at)
  {
    TransferKept(m1, m2, at);
    ShortestKept(m1, m2, at);
  }

  /** Shortening one jump leaves the bytes of another alone. */
  lemma OtherBytes(m1: seq<Byte>, m2: seq<Byte>, ops: seq<nat>, n: nat, k: nat, before: nat)
    requires JumpsOk(m1, ops, before) && k < n < |ops|
    requires SameBytes(m1, m2, 0, ops[n] - before) && SameBytes(m1, m2, ops[n] + 4, |m1|)
    ensures SameBytes(m1, m2, ops[k] - before, ops[k] + 4)
  {
    assert JumpsApart(ops, k, n, before);
  }

  lemma JccStep(m: seq<Byte>, m1: seq<Byte>, m2: seq<Byte>, ops: seq<nat>, n: nat)
    requires JumpsOk(m, ops, 2) && n < |ops| && JccsKept(m, m1, ops, n) && SameBranch(m, m2, ops[n] - 2)
    requires SameBytes(m1, m2, 0, ops[n] - 2) && SameBytes(m1, m2, ops[n] + 4, |m|)
    ensures JccsKept(m, m2, ops, n + 1)
  {
    forall k {:trigger SameBranch(m, m2, ops[k] - 2)} | 0 <= k < n + 1
      ensures SameBranch(m, m2, ops[k] - 2)
    {
      if k < n {
        OtherBranch(m, m1, m2, ops, n, k);
      }
    }
    OutsideStep(m, m1, m2, ops, n, 2);
  }

  lemma OtherBranch(m: seq<Byte>, m1: seq<Byte>, m2: seq<Byte>, ops: seq<nat>, n: nat, k: nat)
    requires JumpsOk(m, ops, 2) && k < n < |ops| && JccsKept(m, m1, ops, n)
    requires SameBytes(m1, m2, 0, ops[n] - 2) && SameBytes(m1, m2, ops[n] + 4, |m|)
    ensures SameBranch(m, m2, ops[k] - 2)
  {
    OtherBytes(m1, m2, ops, n, k, 2);
    assert SameBranch(m, m1, ops[k] - 2);
    BranchStill(m, m1, m2, ops[k] - 2);
  }

  lemma BranchStill(m: seq<Byte>, m1: seq<Byte>, m2: seq<Byte>, at: nat)
    requires SameBranch(m, m1, at) && SameBytes(m1, m2, at, at + 6)
    ensures SameBranch(m, m2, at)
  {
    TransferKept(m1, m2, at);
    ShortestKept(m1, m2, at);
    NopRunKept(m1, m2, Decode(m1, at).next, at + 6);
  }

  lemma OutsideStep(m: seq<Byte>, m1: seq<Byte>, m2: seq<Byte>, ops: seq<nat>, n: nat, before: nat)
    requires JumpsOk(m, ops, before) && n < |ops| && |m| == |m1|
    requires SameBytes(m1, m2, 0, ops[n] - before) && SameBytes(m1, m2, ops[n] + 4, |m|)
    requires forall b {:trigger OutsideJumps(ops, n, before, b)} ::
      0 <= b < |m| && OutsideJumps(ops, n, before, b) ==> m1[b] == m[b]
    ensures forall b {:trigger OutsideJumps(ops, n + 1, before, b)} ::
      0 <= b < |m| && OutsideJumps(ops, n + 1, before, b) ==> m2[b] == m[b]
  {
    forall b {:trigger OutsideJumps(ops, n + 1, before, b)} | 0 <= b < |m| && OutsideJumps(ops, n + 1, before, b)
      ensures m2[b] == m[b]
    {
      assert b < ops[n] - before || ops[n] + 4 <= b;
      assert OutsideJumps(ops, n, before, b);
      assert m2[b] == m1[b];
    }
  }

  lemma JumpDecodes(m: seq<Byte>, m1: seq<Byte>, m2: seq<Byte>, at: nat)
    requires SameJump(m1, m2, at) && SameBytes(m1, m, at, at + 5)
    ensures SameJump(m, m2, at)
  {
    TransferKept(m1, m, at);
  }

  lemma BranchDecodes(m: seq<Byte>, m1: seq<Byte>, m2: seq<Byte>, at: nat)
    requires SameBranch(m1, m2, at) && SameBytes(m1, m, at, at + 6)
    ensures SameBranch(m, m2, at)
  {
    TransferKept(m1, m, at);
    SameBranchTrans(m, m1, m2, at);
  }

  function Absolute(offsets: seq<nat>, dest: nat): (ops: seq<nat>)
    ensures |ops| == |offsets| && forall i {:trigger ops[i]} :: 0 <= i < |ops| ==> ops[i] == dest + offsets[i]
  {
    seq(|offsets|, i requires 0 <= i < |offsets| => dest + offsets[i])
  }

  ghost predicate JmpOpcodes(m: seq<Byte>, ops: seq<nat>)
    requires JumpsOk(m, ops, 1)
  {
    forall k {:trigger ops[k]} :: 0 <= k < |ops| ==> m[ops[k] - 1] == JMP32
  }

  ghost predicate JccOpcodes(m: seq<Byte>, ops: seq<nat>)
    requires JumpsOk(m, ops, 2)
  {
    forall k {:trigger ops[k]} :: 0 <= k < |ops| ==> m[ops[k] - 2] == 0x0F && 0x80 <= m[ops[k] - 1] <= 0x8F
  }

  method ShortenJmps(mem: array<Byte>, dest: nat, offsets: seq<nat>)
    requires JumpsOk(mem[..], Absolute(offsets, dest), 1) && JmpOpcodes(mem[..], Absolute(offsets, dest))
    modifies mem
    ensures JmpsKept(old(mem[..]), mem[..], Absolute(offsets, dest), |offsets|)
  {
    ghost var m, ops := mem[..], Absolute(offsets, dest);
    var i := 0;
    while i < |offsets|
      invariant i <= |offsets| && JmpsKept(m, mem[..], ops, i)
    {
      assert ops[i] == dest + offsets[i];
      ShortenJmp(mem, dest + offsets[i], m, ops, i);
      i := i + 1;
    }
  }

  method ShortenJmp(mem: array<Byte>, op: nat, ghost m: seq<Byte>, ghost ops: seq<nat>, ghost i: nat)
    requires JumpsOk(m, ops, 1) && JmpOpcodes(m, ops) && i < |ops| && op == ops[i] && JmpsKept(m, mem[..], ops, i)
    modifies mem
    ensures JmpsKept(m, mem[..], ops, i + 1)
  {
    ghost var m1 := mem[..];
    TurnComes(m, m1, ops, i, 1);
    assert m1[op - 1] == m[op - 1];
    TryRewriteJmp(mem, op);
    JumpDecodes(m, m1, mem[..], op - 1);
    JmpStep(m, m1, mem[..], ops, i);
  }

  method ShortenJccs(mem: array<Byte>, dest: nat, offsets: seq<nat>)
    requires JumpsOk(mem[..], Absolute(offsets, dest), 2) && JccOpcodes(mem[..], Absolute(offsets, dest))
    modifies mem
    ensures JccsKept(old(mem[..]), mem[..], Absolute(offsets, dest), |offsets|)
  {
    ghost var m, ops := mem[..], Absolute(offsets, dest);
    var i := 0;
    while i < |offsets|
      invariant i <= |offsets| && JccsKept(m, mem[..], ops, i)
    {
      assert ops[i] == dest + offsets[i];
      ShortenJcc(mem, dest + offsets[i], m, ops, i);
      i := i + 1;
    }
  }

  method ShortenJcc(mem: array<Byte>, op: nat, ghost m: seq<Byte>, ghost ops: seq<nat>, ghost i: nat)
    requires JumpsOk(m, ops, 2) && JccOpcodes(m, ops) && i < |ops| && op == ops[i] && JccsKept(m, mem[..], ops, i)
    modifies mem
    ensures JccsKept(m, mem[..], ops, i + 1)
  {
    ghost var m1 := mem[..];
    TurnComes(m, m1, ops, i, 2);
    assert m1[op - 2] == m[op - 2] && m1[op - 1] == m[op - 1];
    TryRewriteJcc(mem, op);
    BranchDecodes(m, m1, mem[..], op - 2);
    JccStep(m, m1, mem[..], ops, i);
  }
}
