/**
 The bytes the code generator writes: little-endian fields, the recommended multi-byte NOPs, relative jumps, and the
 in-place shortening of jumps (PochiVM/fastinterp/x86_64_populate_nop_instruction_helper.h:10-42,
 PochiVM/fastinterp/x86_64_rewrite_jmp_jcc_instruction_helper.h:19-56).
 Encodings follow the Intel 64 Software Developer's Manual, volume 2: JMP, Jcc and CALL, and table 4-12 for NOP.
 Positions are indices into the code buffer; jump targets are positions too.
 */
module MachineCode {
  import Arith

  type Byte = b: nat | b < 256

  const JMP32: Byte := 0xE9
  const JMP8: Byte := 0xEB
  const CALL32: Byte := 0xE8

  // ---------- little-endian fields ----------

  function Range256(n: nat): (r: nat)
    ensures r >= 1
  {
    if n == 0 then 1 else 256 * Range256(n - 1)
  }

  lemma WordRanges()
    ensures Range256(1) == 0x100 && Range256(4) == 0x1_0000_0000 && Range256(8) == 0x1_0000_0000_0000_0000
  {
    assert Range256(2) == 0x1_0000 && Range256(3) == 0x100_0000;
    assert Range256(5) == 0x100_0000_0000 && Range256(6) == 0x1_0000_0000_0000 && Range256(7) == 0x100_0000_0000_0000;
  }

  function Read(m: seq<Byte>, at: nat, n: nat): (v: nat)
    requires at + n <= |m|
    ensures v < Range256(n)
    decreases n
  {
    if n == 0 then 0 else m[at] + 256 * Read(m, at + 1, n - 1)
  }

  /** The n low bytes of v, least significant first. */
  function Bytes(v: nat, n: nat): (s: seq<Byte>)
    ensures |s| == n
  {
    if n == 0 then [] else [v % 256] + Bytes(v / 256, n - 1)
  }

  /** m with some bytes replaced. */
  function Patch(m: seq<Byte>, at: nat, s: seq<Byte>): (m': seq<Byte>)
    requires at + |s| <= |m|
    ensures |m'| == |m|
    ensures forall k {:trigger m'[k]} :: 0 <= k < |m| ==> m'[k] == if at <= k < at + |s| then s[k - at] else m[k]
  {
    m[..at] + s + m[at + |s|..]
  }

  ghost predicate SameBytes(m: seq<Byte>, m': seq<Byte>, lo: int, hi: int) {
    |m| == |m'| && forall k {:trigger m'[k]} :: 0 <= k < |m| && lo <= k < hi ==> m'[k] == m[k]
  }

  lemma {:induction false} ReadSame(m: seq<Byte>, m': seq<Byte>, at: nat, n: nat)
    requires at + n <= |m| && SameBytes(m, m', at, at + n)
    ensures Read(m', at, n) == Read(m, at, n)
    decreases n
  {
    if n > 0 {
      ReadSame(m, m', at + 1, n - 1);
    }
  }

  lemma {:induction false} ReadPrefix(m: seq<Byte>, m': seq<Byte>, at: nat, n: nat)
    requires at + n <= |m| <= |m'| && m'[..|m|] == m
    ensures Read(m', at, n) == Read(m, at, n)
    decreases n
  {
    if n > 0 {
      assert m[at] == m'[..|m|][at];
      ReadPrefix(m, m', at + 1, n - 1);
    }
  }

  /** Reading back the low bytes of v gives v, up to a multiple of the field's range. */
  lemma {:induction false} ReadBytes(m: seq<Byte>, at: nat, v: nat, n: nat)
    requires at + n <= |m| && m[at..at + n] == Bytes(v, n)
    ensures Arith.Congruent(Read(m, at, n), v, Range256(n))
    decreases n
  {
    if n == 0 {
      Arith.TimesIs(0 - v, 1);
      assert Arith.ApartBy(Read(m, at, n), v, 0 - v, Range256(n));
    } else {
      var rest := Bytes(v / 256, n - 1);
      assert m[at] == m[at..at + n][0] == v % 256;
      assert m[at + 1..at + n] == m[at..at + n][1..] == rest;
      ReadBytes(m, at + 1, v / 256, n - 1);
      var q :| Arith.ApartBy(Read(m, at + 1, n - 1), v / 256, q, Range256(n - 1));
      ShiftedMultiple(v, q, Range256(n - 1));
      assert Arith.ApartBy(Read(m, at, n), v, q, Range256(n));
    }
  }

  lemma ShiftedMultiple(v: nat, q: int, r: nat)
    ensures v % 256 + 256 * (v / 256 + Arith.Times(q, r)) == v + Arith.Times(q, 256 * r)
  {
    Arith.TimesIs(q, r);
    Arith.TimesIs(q, 256 * r);
    assert 256 * (q * r) == q * (256 * r);
  }

  lemma ReadPatched(m: seq<Byte>, at: nat, v: nat, n: nat)
    requires at + n <= |m|
    ensures Arith.Congruent(Read(Patch(m, at, Bytes(v, n)), at, n), v, Range256(n))
  {
    assert Patch(m, at, Bytes(v, n))[at..at + n] == Bytes(v, n);
    ReadBytes(Patch(m, at, Bytes(v, n)), at, v, n);
  }

  /** The value of an n-byte field as two's complement. */
  function Signed(v: nat, n: nat): int
    requires n >= 1
  {
    if 2 * v >= Range256(n) then v - Range256(n) else v
  }

  /** Fields are little-endian: the byte at the lowest address counts least. */
  lemma LittleEndian(m: seq<Byte>, at: nat)
    requires at + 4 <= |m|
    ensures Read(m, at, 1) == m[at]
    ensures Read(m, at, 4) == m[at] as int + 0x100 * (m[at + 1] as int) + 0x1_0000 * (m[at + 2] as int)
                              + 0x100_0000 * (m[at + 3] as int)
  {
    assert Read(m, at, 1) == m[at] as int + 0x100 * Read(m, at + 1, 0);
    assert Read(m, at + 3, 1) == m[at + 3] as int + 0x100 * Read(m, at + 4, 0);
    assert Read(m, at + 2, 2) == m[at + 2] as int + 0x100 * Read(m, at + 3, 1);
    assert Read(m, at + 1, 3) == m[at + 1] as int + 0x100 * Read(m, at + 2, 2);
  }

  lemma LittleEndianHalves(m: seq<Byte>, at: nat)
    requires at + 8 <= |m|
    ensures Read(m, at, 8) == Read(m, at, 4) + 0x1_0000_0000 * Read(m, at + 4, 4)
  {
    LittleEndian(m, at);
    assert Read(m, at + 3, 5) == m[at + 3] as int + 0x100 * Read(m, at + 4, 4);
    assert Read(m, at + 2, 6) == m[at + 2] as int + 0x100 * Read(m, at + 3, 5);
    assert Read(m, at + 1, 7) == m[at + 1] as int + 0x100 * Read(m, at + 2, 6);
  }

  /** Displacements of one and of four bytes are two's complement. */
  lemma TwosComplement(v: nat)
    ensures v < 0x100 ==> -0x80 <= Signed(v, 1) < 0x80 && (Signed(v, 1) - v) % 0x100 == 0
    ensures v < 0x1_0000_0000 ==>
              -0x8000_0000 <= Signed(v, 4) < 0x8000_0000 && (Signed(v, 4) - v) % 0x1_0000_0000 == 0
  {
    WordRanges();
  }

  /** Adding to a field; the bytes that do not fit are dropped. */
  function AddBack(m: seq<Byte>, at: nat, n: nat, value: nat): seq<Byte>
    requires at + n <= |m|
  {
    Patch(m, at, Bytes(Read(m, at, n) + value, n))
  }

  method UnalignedWrite(a: array<Byte>, at: nat, n: nat, value: nat)
    requires at + n <= a.Length
    modifies a
    ensures a[..] == Patch(old(a[..]), at, Bytes(value, n))
  {
    var i, v := 0, value;
    while i < n
      invariant i <= n && Bytes(value, n)[i..] == Bytes(v, n - i)
      invariant forall k {:trigger a[k]} :: 0 <= k < a.Length ==>
                  a[k] == if at <= k < at + i then Bytes(value, n)[k - at] else old(a[k])
    {
      assert Bytes(value, n)[i..][0] == v % 256;
      assert Bytes(value, n)[i + 1..] == Bytes(value, n)[i..][1..];
      a[at + i] := v % 256;
      v := v / 256;
      i := i + 1;
    }
  }

  method UnalignedRead(a: array<Byte>, at: nat, n: nat) returns (value: nat)
    requires at + n <= a.Length
    ensures value == Read(a[..], at, n)
  {
    value := 0;
    var i := n;
    while i > 0
      invariant 0 <= i <= n && value == Read(a[..], at + i, n - i)
    {
      i := i - 1;
      value := a[at + i] + 256 * value;
    }
  }

  method UnalignedAddAndWriteback(a: array<Byte>, at: nat, n: nat, value: nat)
    requires at + n <= a.Length
    modifies a
    ensures a[..] == AddBack(old(a[..]), at, n, value)
  {
    var v := UnalignedRead(a, at, n);
    UnalignedWrite(a, at, n, v + value);
  }

  // ---------- NOP ----------

  /** The recommended NOP of each length. */
  function Nop(length: nat): (s: seq<Byte>)
    requires 1 <= length <= 9
    ensures |s| == length
  {
    if length == 1 then [0x90]
    else if length == 2 then [0x66, 0x90]
    else if length == 3 then [0x0F, 0x1F, 0x00]
    else if length == 4 then [0x0F, 0x1F, 0x40, 0x00]
    else if length == 5 then [0x0F, 0x1F, 0x44, 0x00, 0x00]
    else if length == 6 then [0x66, 0x0F, 0x1F, 0x44, 0x00, 0x00]
    else if length == 7 then [0x0F, 0x1F, 0x80, 0x00, 0x00, 0x00, 0x00]
    else if length == 8 then [0x0F, 0x1F, 0x84, 0x00, 0x00, 0x00, 0x00, 0x00]
    else [0x66, 0x0F, 0x1F, 0x84, 0x00, 0x00, 0x00, 0x00, 0x00]
  }

  /** The filler for a range: the longest NOPs first. */
  function Nops(length: nat): (s: seq<Byte>)
    ensures |s| == length
  {
    if length == 0 then []
    else
      var choice := if length < 9 then length else 9;
      Nop(choice) + Nops(length - choice)
  }

  lemma NopsSplit(all: seq<Byte>, k: nat, left: nat, choice: nat)
    requires k <= |all| && left > 0 && all[k..] == Nops(left) && choice == if left < 9 then left else 9
    ensures all[k..k + choice] == Nop(choice) && all[k + choice..] == Nops(left - choice)
  {
    assert all[k..] == Nop(choice) + Nops(left - choice);
    assert all[k..k + choice] == all[k..][..choice] && all[k + choice..] == all[k..][choice..];
  }

  lemma PatchMore(m: seq<Byte>, at: nat, s: seq<Byte>, k: nat, n: nat)
    requires at + |s| <= |m| && k + n <= |s|
    ensures Patch(Patch(m, at, s[..k]), at + k, s[k..k + n]) == Patch(m, at, s[..k + n])
  {
  }

  method PopulateNops(a: array<Byte>, addr: nat, length: nat)
    requires addr + length <= a.Length
    modifies a
    ensures a[..] == Patch(old(a[..]), addr, Nops(length))
  {
    var nops: seq<seq<Byte>> := [
      [],
      [0x90],
      [0x66, 0x90],
      [0x0F, 0x1F, 0x00],
      [0x0F, 0x1F, 0x40, 0x00],
      [0x0F, 0x1F, 0x44, 0x00, 0x00],
      [0x66, 0x0F, 0x1F, 0x44, 0x00, 0x00],
      [0x0F, 0x1F, 0x80, 0x00, 0x00, 0x00, 0x00],
      [0x0F, 0x1F, 0x84, 0x00, 0x00, 0x00, 0x00, 0x00],
      [0x66, 0x0F, 0x1F, 0x84, 0x00, 0x00, 0x00, 0x00, 0x00]];
    assert forall n {:trigger nops[n]} :: 1 <= n <= 9 ==> nops[n] == Nop(n);
    var done, left: nat := 0, length;
    ghost var all, m := Nops(length), a[..];
    assert Patch(m, addr, all[..0]) == m;
    while left > 0
      invariant done + left == length && all[done..] == Nops(left)
      invariant a[..] == Patch(m, addr, all[..done])
      decreases left
    {
      var choice := if left < 9 then left else 9;
      NopsSplit(all, done, left, choice);
      FillMore(a, addr, done, nops[choice], all, m);
      done, left := done + choice, left - choice;
    }
    assert all[..length] == all;
  }

  method FillMore(a: array<Byte>, addr: nat, done: nat, s: seq<Byte>, ghost all: seq<Byte>, ghost m: seq<Byte>)
    requires |m| == a.Length && addr + |all| <= |m| && done + |s| <= |all| && all[done..done + |s|] == s
    requires a[..] == Patch(m, addr, all[..done])
    modifies a
    ensures a[..] == Patch(m, addr, all[..done + |s|])
  {
    ghost var before := a[..];
    CopyBytes(a, addr + done, s);
    PatchedMore(m, before, a[..], addr, all, done, s);
  }

  lemma PatchedMore(m: seq<Byte>, before: seq<Byte>, after: seq<Byte>, addr: nat, all: seq<Byte>, done: nat,
      s: seq<Byte>)
    requires addr + |all| <= |m| && done + |s| <= |all| && all[done..done + |s|] == s
    requires before == Patch(m, addr, all[..done]) && after == Patch(before, addr + done, s)
    ensures after == Patch(m, addr, all[..done + |s|])
  {
    PatchMore(m, addr, all, done, |s|);
  }

  method CopyBytes(a: array<Byte>, at: nat, s: seq<Byte>)
    requires at + |s| <= a.Length
    modifies a
    ensures a[..] == Patch(old(a[..]), at, s)
  {
    var i := 0;
    while i < |s|
      invariant i <= |s|
      invariant forall k {:trigger a[k]} :: 0 <= k < a.Length ==> a[k] == if at <= k < at + i then s[k - at]
        else old(a[k])
    {
      a[at + i] := s[i];
      i := i + 1;
    }
  }

  // ---------- decoding ----------

  datatype Instr =
    | Jump(target: int)
    | CondJump(cond: nat, target: int, next: nat)
    | Call(target: int, next: nat)
    | NopTo(next: nat)
    | Opaque

  /** The three fields of a ModRM byte. */
  function ModOf(modRm: Byte): nat {
    modRm / 64
  }

  function RegOf(modRm: Byte): nat {
    modRm / 8 % 8
  }

  function RmOf(modRm: Byte): nat {
    modRm % 8
  }

  /**
   How many bytes a memory or register operand takes, from its ModRM byte on: a SIB byte follows when the operand is in
   memory and the r/m field is 4; a displacement of one or four bytes follows for the modes 1 and 2, and one of four
   bytes in mode 0 when the r/m field, or the base field of the SIB byte, is 5.
   */
  function OperandLength(modRm: Byte, sib: Byte): (length: nat)
    ensures 1 <= length <= 6
  {
    var withSib := ModOf(modRm) != 3 && RmOf(modRm) == 4;
    var displacement :=
      if ModOf(modRm) == 1 then 1
      else if ModOf(modRm) == 2 then 4
      else if ModOf(modRm) == 0 && (RmOf(modRm) == 5 || (withSib && sib % 8 == 5)) then 4
      else 0;
    (if withSib then 2 else 1) + displacement
  }

  /** Tables 2-2 and 2-3 of the manual, by the fields of the two bytes. */
  lemma OperandLengths(mode: nat, reg: nat, rm: nat, scale: nat, base: nat)
    requires mode < 4 && reg < 8 && rm < 8 && scale < 32 && base < 8
    ensures var length := OperandLength(mode * 64 + reg * 8 + rm, scale * 8 + base);
            && RegOf(mode * 64 + reg * 8 + rm) == reg
            && (mode == 3 ==> length == 1)
            && (mode == 2 ==> length == if rm == 4 then 6 else 5)
            && (mode == 1 ==> length == if rm == 4 then 3 else 2)
            && (mode == 0 && rm != 4 && rm != 5 ==> length == 1)
            && (mode == 0 && rm == 5 ==> length == 5)
            && (mode == 0 && rm == 4 ==> length == if base == 5 then 6 else 2)
  {
    assert (mode * 64 + reg * 8 + rm) / 8 == mode * 8 + reg;
    assert (scale * 8 + base) % 8 == base;
  }

  function ByteAt(m: seq<Byte>, at: nat): Byte {
    if at < |m| then m[at] else 0
  }

  /** The length of a NOP by its opcode: 90, or 0F 1F with reg field 0 and an operand. Zero for anything else. */
  function BareNopLength(m: seq<Byte>, at: nat): (length: nat)
    ensures length <= 8
  {
    if ByteAt(m, at) == 0x90 then 1
    else if ByteAt(m, at) == 0x0F && ByteAt(m, at + 1) == 0x1F && RegOf(ByteAt(m, at + 2)) == 0 then
      2 + OperandLength(ByteAt(m, at + 2), ByteAt(m, at + 3))
    else 0
  }

  /** The length of the NOP at a position, with an operand-size prefix or without; zero when there is none. */
  function NopLength(m: seq<Byte>, at: nat): (length: nat)
    ensures length <= 9 && (length > 0 ==> at + length <= |m|)
  {
    var prefix := if ByteAt(m, at) == 0x66 then 1 else 0;
    var bare := BareNopLength(m, at + prefix);
    if bare > 0 && at + prefix + bare <= |m| then prefix + bare else 0
  }

  /** One NOP takes these bytes. */
  predicate NopAt(m: seq<Byte>, at: nat, length: nat) {
    length > 0 && NopLength(m, at) == length
  }

  /** Nothing else is taken for a NOP: 90, or 0F 1F with reg field 0, with a prefix 66 or without. */
  lemma OnlyNops(m: seq<Byte>, at: nat, length: nat)
    requires NopAt(m, at, length)
    ensures at + length <= |m|
    ensures var p := if m[at] == 0x66 then 1 else 0;
            && p < length
            && ((m[at + p] == 0x90 && length == p + 1)
                || (length >= p + 3 && m[at + p] == 0x0F && m[at + p + 1] == 0x1F && m[at + p + 2] / 8 % 8 == 0))
  {
  }

  /** The control transfer or NOP at a position; everything else is opaque straight-line code. */
  function Decode(m: seq<Byte>, at: nat): Instr {
    if at + 5 <= |m| && m[at] == JMP32 then Jump(at + 5 + Signed(Read(m, at + 1, 4), 4))
    else if at + 2 <= |m| && m[at] == JMP8 then Jump(at + 2 + Signed(Read(m, at + 1, 1), 1))
    else if at + 5 <= |m| && m[at] == CALL32 then Call(at + 5 + Signed(Read(m, at + 1, 4), 4), at + 5)
    else if at + 2 <= |m| && 0x70 <= m[at] <= 0x7F
      then CondJump(m[at] - 0x70, at + 2 + Signed(Read(m, at + 1, 1), 1), at + 2)
    else if at + 6 <= |m| && m[at] == 0x0F && 0x80 <= m[at + 1] <= 0x8F then
      CondJump(m[at + 1] - 0x80, at + 6 + Signed(Read(m, at + 2, 4), 4), at + 6)
    else if NopLength(m, at) > 0 then NopTo(at + NopLength(m, at))
    else Opaque
  }

  /** The opcodes of the manual: E9 and EB jump, E8 calls, 70 to 7F and 0F 80 to 0F 8F jump on a condition. */
  lemma OpcodesDecode(m: seq<Byte>, at: nat)
    requires at + 6 <= |m|
    ensures m[at] == 0xE9 ==> Decode(m, at) == Jump(at + 5 + Signed(Read(m, at + 1, 4), 4))
    ensures m[at] == 0xEB ==> Decode(m, at) == Jump(at + 2 + Signed(Read(m, at + 1, 1), 1))
    ensures m[at] == 0xE8 ==> Decode(m, at) == Call(at + 5 + Signed(Read(m, at + 1, 4), 4), at + 5)
    ensures 0x70 <= m[at] <= 0x7F ==>
              Decode(m, at) == CondJump(m[at] % 16, at + 2 + Signed(Read(m, at + 1, 1), 1), at + 2)
    ensures m[at] == 0x0F && 0x80 <= m[at + 1] <= 0x8F ==>
              Decode(m, at) == CondJump(m[at + 1] % 16, at + 6 + Signed(Read(m, at + 2, 4), 4), at + 6)
  {
  }

  /** And nothing else does. */
  lemma NothingElseDecodes(m: seq<Byte>, at: nat)
    ensures match Decode(m, at)
            case Jump(_) => at < |m| && (m[at] == 0xE9 || m[at] == 0xEB)
            case Call(_, _) => at < |m| && m[at] == 0xE8
            case CondJump(_, _, _) =>
              at + 1 < |m| && (0x70 <= m[at] <= 0x7F || (m[at] == 0x0F && 0x80 <= m[at + 1] <= 0x8F))
            case NopTo(next) => at < next && NopAt(m, at, next - at)
            case Opaque => forall length: nat :: !NopAt(m, at, length)
  {
  }

  /** From `from`, only NOPs run until `to`. */
  ghost predicate NopRun(m: seq<Byte>, from: nat, to: nat) {
    exists cuts :: Cuts(m, from, to, cuts)
  }

  /** The positions at which the NOPs of a run begin, and its end. */
  ghost predicate Cuts(m: seq<Byte>, from: nat, to: nat, cuts: seq<nat>) {
    && |cuts| > 0 && cuts[0] == from && cuts[|cuts| - 1] == to
    && forall k: nat {:trigger CutAt(m, cuts, k)} :: k < |cuts| - 1 ==> CutAt(m, cuts, k)
  }

  ghost predicate CutAt(m: seq<Byte>, cuts: seq<nat>, k: nat)
    requires k < |cuts| - 1
  {
    cuts[k] < cuts[k + 1] && NopAt(m, cuts[k], cuts[k + 1] - cuts[k])
  }

  lemma {:induction false} CutsAscend(m: seq<Byte>, from: nat, to: nat, cuts: seq<nat>, j: nat, k: nat)
    requires Cuts(m, from, to, cuts) && j <= k < |cuts|
    ensures cuts[j] <= cuts[k]
  {
    if j < k {
      CutsAscend(m, from, to, cuts, j, k - 1);
      assert CutAt(m, cuts, k - 1);
    }
  }

  /** Each recommended sequence is, by the rule of the encoding, one NOP of its length. */
  lemma NopDecodes(m: seq<Byte>, at: nat, length: nat)
    requires 1 <= length <= 9 && at + length <= |m| && m[at..at + length] == Nop(length)
    ensures NopAt(m, at, length) && Decode(m, at) == NopTo(at + length)
  {
    var s, b := Nop(length), m[at..at + length];
    assert m[at] == b[0] == s[0] && (length >= 2 ==> m[at + 1] == b[1] == s[1]) &&
      (length >= 3 ==> m[at + 2] == b[2] == s[2]) && (length >= 4 ==> m[at + 3] == b[3] == s[3]) &&
      (length >= 5 ==> m[at + 4] == b[4] == s[4]);
  }

  /** The bytes of a NOP decide that it is one. */
  lemma NopKept(m: seq<Byte>, m': seq<Byte>, at: nat, length: nat)
    requires NopAt(m, at, length) && SameBytes(m, m', at, at + length)
    ensures NopAt(m', at, length)
  {
    var prefix := if m[at] == 0x66 then 1 else 0;
    assert m'[at] == m[at] && m'[at + prefix] == m[at + prefix];
    if m[at + prefix] == 0x0F {
      assert m'[at + prefix + 1] == m[at + prefix + 1] && m'[at + prefix + 2] == m[at + prefix + 2];
      if OperandLength(m[at + prefix + 2], 0) > 1 {
        assert m'[at + prefix + 3] == m[at + prefix + 3];
      }
    }
  }

  lemma NopThen(m: seq<Byte>, at: nat, next: nat, to: nat)
    requires at < next && NopAt(m, at, next - at) && NopRun(m, next, to)
    ensures NopRun(m, at, to)
  {
    var cuts :| Cuts(m, next, to, cuts);
    var all := [at] + cuts;
    forall k: nat {:trigger CutAt(m, all, k)} | k < |all| - 1
      ensures CutAt(m, all, k)
    {
      if k == 0 {
        assert all[0] == at && all[1] == next;
      } else {
        assert CutAt(m, cuts, k - 1);
        assert all[k] == cuts[k - 1] && all[k + 1] == cuts[k];
      }
    }
    assert Cuts(m, at, to, all);
  }

  lemma NoNops(m: seq<Byte>, at: nat)
    ensures NopRun(m, at, at)
  {
    assert Cuts(m, at, at, [at]);
  }

  /** The filler of a range runs straight through it. */
  lemma {:induction false} NopsRun(m: seq<Byte>, at: nat, to: nat)
    requires at <= to <= |m| && m[at..to] == Nops(to - at)
    ensures NopRun(m, at, to)
    decreases if at <= to then to - at else 0
  {
    if at < to {
      var next := if to - at < 9 then to else at + 9;
      FirstNop(m, at, next, to);
      NopsRun(m, next, to);
      NopThen(m, at, next, to);
    } else {
      NoNops(m, at);
    }
  }

  /** The filler begins with its longest NOP, and the rest of it is filler too. */
  lemma FirstNop(m: seq<Byte>, at: nat, next: nat, to: nat)
    requires at < to <= |m| && m[at..to] == Nops(to - at) && next == if to - at < 9 then to else at + 9
    ensures NopAt(m, at, next - at) && m[next..to] == Nops(to - next)
  {
    var s := m[at..to];
    assert s[0..] == s;
    NopsSplit(s, 0, to - at, next - at);
    assert m[at..next] == s[0..next - at] && m[next..to] == s[next - at..];
    NopDecodes(m, at, next - at);
  }

  /** How many bytes a decoded instruction takes. */
  function Length(m: seq<Byte>, at: nat): nat {
    match Decode(m, at)
    case Jump(_) => if m[at] == JMP32 then 5 else 2
    case CondJump(_, _, next) => next - at
    case Call(_, _) => 5
    case NopTo(next) => next - at
    case Opaque => 0
  }

  lemma JumpKept(m: seq<Byte>, m': seq<Byte>, at: nat)
    requires (Decode(m, at).Jump? || Decode(m, at).Call?) && SameBytes(m, m', at, at + Length(m, at))
    ensures Decode(m', at) == Decode(m, at)
  {
    assert m'[at] == m[at];
    if m[at] == JMP8 {
      ReadSame(m, m', at + 1, 1);
    } else {
      ReadSame(m, m', at + 1, 4);
    }
  }

  /** Five unchanged bytes are enough for a jump, six for a conditional one. */
  lemma TransferKept(m: seq<Byte>, m': seq<Byte>, at: nat)
    requires Decode(m, at).Jump? || Decode(m, at).Call? || Decode(m, at).CondJump?
    requires SameBytes(m, m', at, at + if Decode(m, at).CondJump? then 6 else 5)
    ensures Decode(m', at) == Decode(m, at)
  {
    if Decode(m, at).CondJump? {
      CondKept(m, m', at);
    } else {
      JumpKept(m, m', at);
    }
  }

  lemma CondKept(m: seq<Byte>, m': seq<Byte>, at: nat)
    requires Decode(m, at).CondJump? && SameBytes(m, m', at, at + Length(m, at))
    ensures Decode(m', at) == Decode(m, at)
  {
    if m[at] == 0x0F {
      assert m'[at + 1] == m[at + 1];
      ReadSame(m, m', at + 2, 4);
    } else {
      ReadSame(m, m', at + 1, 1);
    }
  }

  lemma NopRunKept(m: seq<Byte>, m': seq<Byte>, from: nat, to: nat)
    requires NopRun(m, from, to) && SameBytes(m, m', from, to)
    ensures NopRun(m', from, to)
  {
    var cuts :| Cuts(m, from, to, cuts);
    forall k: nat {:trigger CutAt(m', cuts, k)} | k < |cuts| - 1
      ensures CutAt(m', cuts, k)
    {
      assert CutAt(m, cuts, k);
      CutsAscend(m, from, to, cuts, 0, k);
      CutsAscend(m, from, to, cuts, k + 1, |cuts| - 1);
      NopKept(m, m', cuts[k], cuts[k + 1] - cuts[k]);
    }
    assert Cuts(m', from, to, cuts);
  }

  // ---------- jump shortening ----------

  /** A jump is in its two-byte form exactly if its target is within the reach of that form. */
  ghost predicate ShortestJump(m: seq<Byte>, at: nat) {
    at < |m| && Decode(m, at).Jump? && (m[at] == 0xEB <==> -128 <= Decode(m, at).target - (at + 2) <= 127)
  }

  ghost predicate ShortestBranch(m: seq<Byte>, at: nat) {
    var i := Decode(m, at);
    i.CondJump? && (i.next == at + 2 <==> -128 <= i.target - (at + 2) <= 127)
  }

  lemma ShortestKept(m: seq<Byte>, m': seq<Byte>, at: nat)
    requires ShortestJump(m, at) || ShortestBranch(m, at)
    requires SameBytes(m, m', at, at + if Decode(m, at).CondJump? then 6 else 5)
    ensures ShortestJump(m, at) ==> ShortestJump(m', at)
    ensures ShortestBranch(m, at) ==> ShortestBranch(m', at)
  {
    TransferKept(m, m', at);
    if ShortestJump(m, at) {
      assert m'[at] == m[at];
    }
  }

  /** A displacement in one byte, two's complement. */
  function Short(operand: int): Byte
    requires -128 <= operand <= 127
  {
    if operand < 0 then operand + 256 else operand
  }

  /** jmp rel32 becomes jmp rel8 and a three-byte NOP when the displacement fits. */
  function RewriteJmp(m: seq<Byte>, op: nat): (m': seq<Byte>)
    requires 1 <= op && op + 4 <= |m|
    ensures |m'| == |m|
  {
    var operand := Signed(Read(m, op, 4), 4) + 3;
    if -128 <= operand <= 127 then Patch(m, op - 1, [JMP8, Short(operand)] + Nops(3)) else m
  }

  /** Subtracting 0x10 from a byte, with wrap-around. */
  function Minus16(b: Byte): Byte {
    if b >= 0x10 then b - 0x10 else b + 0xF0
  }

  /** jcc rel32 becomes jcc rel8 and a four-byte NOP when the displacement fits. */
  function RewriteJcc(m: seq<Byte>, op: nat): (m': seq<Byte>)
    requires 2 <= op && op + 4 <= |m|
    ensures |m'| == |m|
  {
    var operand := Signed(Read(m, op, 4), 4) + 4;
    if -128 <= operand <= 127 then Patch(m, op - 2, [Minus16(m[op - 1]), Short(operand)] + Nops(4)) else m
  }

  /** The bytes of a shortened jump: EB, the displacement, and 0F 1F 00. */
  lemma ShortJmpBytes(m: seq<Byte>, op: nat)
    requires 1 <= op && op + 4 <= |m| && -131 <= Signed(Read(m, op, 4), 4) <= 124
    ensures var m' := RewriteJmp(m, op);
            && m'[op - 1] == 0xEB && m'[op] == (Signed(Read(m, op, 4), 4) + 3) % 256
            && m'[op + 1] == 0x0F && m'[op + 2] == 0x1F && m'[op + 3] == 0x00
  {
    ShortIsRemainder(Signed(Read(m, op, 4), 4) + 3);
    assert Nops(3) == Nop(3) + Nops(0);
  }

  /** The bytes of a shortened conditional jump: 70 plus the condition, the displacement, and 0F 1F 40 00. */
  lemma ShortJccBytes(m: seq<Byte>, op: nat)
    requires 2 <= op && op + 4 <= |m| && m[op - 1] >= 0x80 && -132 <= Signed(Read(m, op, 4), 4) <= 123
    ensures var m' := RewriteJcc(m, op);
            && m'[op - 2] == 0x70 + (m[op - 1] - 0x80) && m'[op - 1] == (Signed(Read(m, op, 4), 4) + 4) % 256
            && m'[op] == 0x0F && m'[op + 1] == 0x1F && m'[op + 2] == 0x40 && m'[op + 3] == 0x00
  {
    ShortIsRemainder(Signed(Read(m, op, 4), 4) + 4);
    assert Nops(4) == Nop(4) + Nops(0);
  }

  lemma ShortIsRemainder(operand: int)
    requires -128 <= operand <= 127
    ensures Short(operand) == operand % 256
  {
  }

  /** Longer displacements leave the instruction as it is. */
  lemma LongStays(m: seq<Byte>, op: nat)
    requires 2 <= op && op + 4 <= |m|
    ensures !(-131 <= Signed(Read(m, op, 4), 4) <= 124) ==> RewriteJmp(m, op) == m
    ensures !(-132 <= Signed(Read(m, op, 4), 4) <= 123) ==> RewriteJcc(m, op) == m
  {
  }

  lemma ShortSigned(operand: int)
    requires -128 <= operand <= 127
    ensures Signed(Short(operand), 1) == operand
  {
    WordRanges();
  }

  lemma ReadOne(m: seq<Byte>, at: nat)
    requires at < |m|
    ensures Read(m, at, 1) == m[at]
  {
    assert Read(m, at + 1, 0) == 0;
  }

  /** Shortening keeps the target of a jump, is done whenever it can be, and touches nothing but the instruction. */
  lemma RewriteJmpKeeps(m: seq<Byte>, op: nat)
    requires 1 <= op && op + 4 <= |m| && m[op - 1] == JMP32
    ensures Decode(m, op - 1).Jump? && Decode(RewriteJmp(m, op), op - 1) == Decode(m, op - 1)
    ensures ShortestJump(RewriteJmp(m, op), op - 1)
    ensures SameBytes(m, RewriteJmp(m, op), 0, op - 1) && SameBytes(m, RewriteJmp(m, op), op + 4, |m|)
  {
    var operand := Signed(Read(m, op, 4), 4) + 3;
    if -128 <= operand <= 127 {
      ShortSigned(operand);
      ReadOne(RewriteJmp(m, op), op);
    }
  }

  /** Shortening keeps the condition and the target of a conditional jump; not taken, NOPs lead to the old next
   * instruction. */
  lemma RewriteJccKeeps(m: seq<Byte>, op: nat)
    requires 2 <= op && op + 4 <= |m| && m[op - 2] == 0x0F && 0x80 <= m[op - 1] <= 0x8F
    ensures SameBranch(m, RewriteJcc(m, op), op - 2)
    ensures SameBytes(m, RewriteJcc(m, op), 0, op - 2) && SameBytes(m, RewriteJcc(m, op), op + 4, |m|)
  {
    if -128 <= Signed(Read(m, op, 4), 4) + 4 <= 127 {
      ShortJcc(m, op);
    } else {
      NoNops(m, op + 4);
    }
  }

  lemma ShortJcc(m: seq<Byte>, op: nat)
    requires 2 <= op && op + 4 <= |m| && m[op - 2] == 0x0F && 0x80 <= m[op - 1] <= 0x8F
    requires -128 <= Signed(Read(m, op, 4), 4) + 4 <= 127
    ensures Decode(RewriteJcc(m, op), op - 2) == CondJump(m[op - 1] - 0x80, op + 4 + Signed(Read(m, op, 4), 4), op)
    ensures NopRun(RewriteJcc(m, op), op, op + 4)
  {
    var operand := Signed(Read(m, op, 4), 4) + 4;
    var m' := RewriteJcc(m, op);
    assert m'[op..op + 4] == Nops(4);
    NopsRun(m', op, op + 4);
    ShortCondDecodes(m', op - 2, m[op - 1] - 0x80, operand);
  }

  lemma ShortCondDecodes(m: seq<Byte>, at: nat, cond: nat, operand: int)
    requires at + 2 <= |m| && cond < 16 && -128 <= operand <= 127
    requires m[at] == 0x70 + cond && m[at + 1] == Short(operand)
    ensures Decode(m, at) == CondJump(cond, at + 2 + operand, at + 2)
  {
    ShortSigned(operand);
    ReadOne(m, at + 1);
  }

  /** A sum of 32-bit integers that wraps around. */
  function Wrapped(x: int): int {
    if x >= 0x8000_0000 then x - 0x1_0000_0000 else x
  }

  /** It is the sum modulo 2^32, in the range of the type. */
  lemma WrappedInRange(x: int)
    requires -0x8000_0000 <= x < 0x1_8000_0000 - 0x8000_0000
    ensures -0x8000_0000 <= Wrapped(x) < 0x8000_0000 && (Wrapped(x) - x) % 0x1_0000_0000 == 0
  {
  }

  /** A displacement that wraps around is not short: the overflow never shortens a jump. */
  lemma WrapKeepsShort(word: nat, n: nat)
    requires word < Range256(4) && n <= 4
    ensures var x := Signed(word, 4) + n;
            -128 <= x <= 127 <==> -128 <= Wrapped(x) <= 127
    ensures var x := Signed(word, 4) + n; -128 <= Wrapped(x) <= 127 ==> Wrapped(x) == x
  {
    WordRanges();
  }

  /** Shortens a jump in place, if its displacement allows: the target stays, and only the instruction is touched. */
  method TryRewriteJmp(a: array<Byte>, op: nat)
    requires 1 <= op && op + 4 <= a.Length && a[op - 1] == JMP32
    modifies a
    ensures Decode(old(a[..]), op - 1).Jump? && Decode(a[..], op - 1) == Decode(old(a[..]), op - 1)
    ensures ShortestJump(a[..], op - 1)
    ensures SameBytes(old(a[..]), a[..], 0, op - 1) && SameBytes(old(a[..]), a[..], op + 4, a.Length)
  {
    RewriteJmpKeeps(a[..], op);
    RewriteJmpInPlace(a, op);
  }

  method RewriteJmpInPlace(a: array<Byte>, op: nat)
    requires 1 <= op && op + 4 <= a.Length && a[op - 1] == JMP32
    modifies a
    ensures a[..] == RewriteJmp(old(a[..]), op)
  {
    var word := UnalignedRead(a, op, 4);
    var operand := Wrapped(Signed(word, 4) + 3);
    WrapKeepsShort(word, 3);
    if -128 <= operand <= 127 {
      a[op - 1] := JMP8;
      a[op] := Short(operand);
      PopulateNops(a, op + 1, 3);
    }
  }

  /** A conditional jump that goes where it went, and runs on, through NOPs at most, to where it ran on. */
  ghost predicate SameBranch(m: seq<Byte>, m': seq<Byte>, at: nat) {
    var i, i' := Decode(m, at), Decode(m', at);
    && i.CondJump? && i'.CondJump? && i'.cond == i.cond && i'.target == i.target
    && i.next == at + 6 && i'.next <= i.next && NopRun(m', i'.next, i.next) && ShortestBranch(m', at)
  }

  /** Shortens a conditional jump in place, if its displacement allows. */
  method TryRewriteJcc(a: array<Byte>, op: nat)
    requires 2 <= op && op + 4 <= a.Length && a[op - 2] == 0x0F && 0x80 <= a[op - 1] <= 0x8F
    modifies a
    ensures SameBranch(old(a[..]), a[..], op - 2)
    ensures SameBytes(old(a[..]), a[..], 0, op - 2) && SameBytes(old(a[..]), a[..], op + 4, a.Length)
  {
    RewriteJccKeeps(a[..], op);
    RewriteJccInPlace(a, op);
  }

  method RewriteJccInPlace(a: array<Byte>, op: nat)
    requires 2 <= op && op + 4 <= a.Length && a[op - 2] == 0x0F && 0x80 <= a[op - 1] <= 0x8F
    modifies a
    ensures a[..] == RewriteJcc(old(a[..]), op)
  {
    var word := UnalignedRead(a, op, 4);
    var operand := Wrapped(Signed(word, 4) + 4);
    WrapKeepsShort(word, 4);
    if -128 <= operand <= 127 {
      a[op - 2] := Minus16(a[op - 1]);
      a[op - 1] := Short(operand);
      PopulateNops(a, op, 4);
    }
  }

  lemma SameBranchTrans(m: seq<Byte>, m1: seq<Byte>, m2: seq<Byte>, at: nat)
    requires Decode(m1, at) == Decode(m, at) && SameBranch(m1, m2, at)
    ensures SameBranch(m, m2, at)
  {
  }
}
