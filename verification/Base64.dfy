/**
 The Base64 codec and its line breaks (PochiVM/mini_db_backend/base64_util.cpp:46-218; RFC 4648, sections 4 and 5).
 Strings are sequences of byte values; masks and shifts are written as remainders, quotients and products.
 */
module Base64 {
  import opened Wrappers

  type Octet = b: nat | b < 256
  type Bytes = seq<Octet>

  const NEWLINE: Octet := 10

  /** The character of a six-bit value: A to Z, a to z, 0 to 9, and + and /, or - and _ in the URL alphabet. */
  function CharAt(k: nat, url: bool): Octet
    requires k < 64
  {
    if k < 26 then 65 + k
    else if k < 52 then 97 + (k - 26)
    else if k < 62 then 48 + (k - 52)
    else if k == 62 then (if url then 45 else 43)
    else (if url then 95 else 47)
  }

  /** The value of a character of either alphabet; other characters are errors. */
  function PosOfChar(c: Octet): (r: Option<nat>)
    ensures r.Some? ==> r.value < 64
  {
    if 65 <= c <= 90 then Some(c - 65)
    else if 97 <= c <= 122 then Some(c - 97 + 26)
    else if 48 <= c <= 57 then Some(c - 48 + 52)
    else if c == 43 || c == 45 then Some(62)
    else if c == 47 || c == 95 then Some(63)
    else None
  }

  /** The trailing character: = or, in the URL form, a full stop. */
  function Pad(url: bool): Octet {
    if url then 46 else 61
  }

  predicate IsPad(c: Octet) {
    c == 61 || c == 46
  }

  /** Tables 1 and 2 of RFC 4648, and its pad; the URL form of the code pads with a full stop. */
  lemma AlphabetOfRfc(k: nat, url: bool)
    requires k < 64
    ensures k < 26 ==> CharAt(k, url) == 'A' as int + k
    ensures 26 <= k < 52 ==> CharAt(k, url) == 'a' as int + (k - 26)
    ensures 52 <= k < 62 ==> CharAt(k, url) == '0' as int + (k - 52)
    ensures k == 62 ==> CharAt(k, url) == (if url then '-' else '+') as int
    ensures k == 63 ==> CharAt(k, url) == (if url then '_' else '/') as int
    ensures Pad(url) == (if url then '.' else '=') as int
  {
  }

  /** Exactly these characters have a value, pad, or end a line. */
  lemma CharactersKnown(c: Octet)
    ensures PosOfChar(c).Some? <==>
      'A' as int <= c <= 'Z' as int || 'a' as int <= c <= 'z' as int || '0' as int <= c <= '9' as int ||
      c == '+' as int || c == '-' as int || c == '/' as int || c == '_' as int
    ensures IsPad(c) <==> c == '=' as int || c == '.' as int
    ensures NEWLINE == '\n' as int
  {
  }

  lemma AlphabetInverts(k: nat, url: bool)
    requires k < 64
    ensures PosOfChar(CharAt(k, url)) == Some(k) && !IsPad(CharAt(k, url)) && CharAt(k, url) != NEWLINE
  {
  }

  // ---------- groups ----------

  /** The six-bit values of one to three bytes. */
  function Sextets(s: Bytes): (r: seq<nat>)
    requires 1 <= |s| <= 3
    ensures |r| == |s| + 1 && forall i {:trigger r[i]} :: 0 <= i < |r| ==> r[i] < 64
  {
    if |s| == 1 then [s[0] / 4, s[0] % 4 * 16]
    else if |s| == 2 then [s[0] / 4, s[0] % 4 * 16 + s[1] / 16, s[1] % 16 * 4]
    else [s[0] / 4, s[0] % 4 * 16 + s[1] / 16, s[1] % 16 * 4 + s[2] / 64, s[2] % 64]
  }

  /** The sextets are the bits of the bytes, most significant first, filled up with zeros. */
  lemma SextetsAreBits(s: Bytes)
    requires 1 <= |s| <= 3
    ensures var x := Sextets(s);
            match |s|
            case 1 => x[0] * 0x40 + x[1] == (s[0] as int) * 0x10
            case 2 => x[0] * 0x1000 + x[1] * 0x40 + x[2] == ((s[0] as int) * 0x100 + s[1]) * 4
            case _ => x[0] * 0x4_0000 + x[1] * 0x1000 + x[2] * 0x40 + x[3]
                      == (s[0] as int) * 0x1_0000 + (s[1] as int) * 0x100 + s[2]
  {
  }

  /** One to three bytes as four characters. */
  function EncodeGroup(s: Bytes, url: bool): (r: Bytes)
    requires 1 <= |s| <= 3
    ensures |r| == 4
  {
    var x := Sextets(s);
    [CharAt(x[0], url), CharAt(x[1], url), if |s| > 1 then CharAt(x[2], url) else Pad(url),
     if |s| > 2 then CharAt(x[3], url) else Pad(url)]
  }

  function Head(s: Bytes): (r: Bytes)
    ensures s != [] ==> 1 <= |r| <= 3
  {
    if |s| <= 3 then s else s[..3]
  }

  function Tail(s: Bytes): (r: Bytes)
    ensures s != [] ==> |r| < |s|
    ensures |r| == if |s| <= 3 then 0 else |s| - 3
  {
    if |s| <= 3 then [] else s[3..]
  }

  function Encoded(s: Bytes, url: bool): Bytes
    decreases |s|
  {
    if s == [] then [] else EncodeGroup(Head(s), url) + Encoded(Tail(s), url)
  }

  function FirstOctet(p0: nat, p1: nat): Octet
    requires p0 < 64 && p1 < 64
  {
    p0 * 4 + p1 / 16
  }

  function SecondOctet(p1: nat, p2: nat): Octet
    requires p1 < 64 && p2 < 64
  {
    p1 % 16 * 16 + p2 / 4
  }

  function ThirdOctet(p2: nat, p3: nat): Octet
    requires p2 < 64 && p3 < 64
  {
    p2 % 4 * 64 + p3
  }

  /** Four characters as one to three bytes. */
  function DecodeGroup(c0: Octet, c1: Octet, c2: Octet, c3: Octet): Option<Bytes> {
    var p1 :- PosOfChar(c1);
    var p0 :- PosOfChar(c0);
    var first := FirstOctet(p0, p1);
    if IsPad(c2) then Some([first])
    else
      var p2 :- PosOfChar(c2);
      var second := SecondOctet(p1, p2);
      if IsPad(c3) then Some([first, second])
      else
        var p3 :- PosOfChar(c3);
        Some([first, second, ThirdOctet(p2, p3)])
  }

  /** The bytes so far, in front of what is decoded next. */
  function Before(done: Bytes, next: Option<Bytes>): Option<Bytes> {
    if next.None? then None else Some(done + next.value)
  }

  /** The character at an index; behind the end there is a 0, as behind every std::string. */
  function CharOrZero(s: Bytes, i: nat): Octet {
    if i < |s| then s[i] else 0
  }

  function FirstGroup(s: Bytes): Option<Bytes> {
    DecodeGroup(CharOrZero(s, 0), CharOrZero(s, 1), CharOrZero(s, 2), CharOrZero(s, 3))
  }

  function BehindFirst(s: Bytes): (r: Bytes)
    ensures |r| == if |s| <= 4 then 0 else |s| - 4
  {
    if |s| <= 4 then [] else s[4..]
  }

  /** The bytes of a string of any length, or None where a character is rejected. */
  function Decoded(s: Bytes): Option<Bytes>
    decreases |s|
  {
    if s == [] then Some([])
    else
      var head := FirstGroup(s);
      if head.None? then None else Before(head.value, Decoded(BehindFirst(s)))
  }

  predicate InAlphabet(c: Octet) {
    PosOfChar(c).Some?
  }

  /**
   Whether decoding reads the character behind the last one: the second character of a group is read first, the third
   once the first two are accepted, and the fourth unless the third is a pad.
   */
  predicate ReadsBehind(s: Bytes)
    decreases |s|
  {
    if |s| >= 4 then FirstGroup(s).Some? && ReadsBehind(BehindFirst(s))
    else if |s| <= 1 then |s| == 1
    else InAlphabet(s[0]) && InAlphabet(s[1]) && (|s| == 3 ==> InAlphabet(s[2]))
  }

  // ---------- which strings decode, and which are read behind their end ----------

  /** The i-th character is accepted in its place. */
  predicate Suits(s: Bytes, i: nat)
    requires i < |s|
  {
    if i % 4 < 2 then InAlphabet(s[i])
    else InAlphabet(s[i]) || IsPad(s[i]) || (i % 4 == 3 && IsPad(s[i - 1]))
  }

  ghost predicate SuitsUpTo(s: Bytes, n: nat)
    requires n <= |s|
  {
    forall i {:trigger Suits(s, i)} :: 0 <= i < n ==> Suits(s, i)
  }

  /** The last group of four is whole, or lacks only the character behind a pad. */
  predicate EndsWhole(s: Bytes) {
    |s| % 4 == 0 || (|s| % 4 == 3 && IsPad(s[|s| - 1]))
  }

  lemma SuitsBehind(s: Bytes, n: nat)
    requires 4 <= n <= |s|
    ensures SuitsUpTo(s, n) <==> SuitsUpTo(s, 4) && SuitsUpTo(s[4..], n - 4)
  {
    forall i | 0 <= i < n - 4
      ensures Suits(s[4..], i) <==> Suits(s, i + 4)
    {
      assert (i + 4) % 4 == i % 4;
    }
    if SuitsUpTo(s, 4) && SuitsUpTo(s[4..], n - 4) {
      forall i | 0 <= i < n
        ensures Suits(s, i)
      {
        if i >= 4 {
          assert Suits(s[4..], i - 4);
        }
      }
    }
  }

  lemma FirstGroupSuits(s: Bytes)
    requires |s| >= 4
    ensures FirstGroup(s).Some? <==> SuitsUpTo(s, 4)
  {
    assert Suits(s, 0) <==> InAlphabet(s[0]);
    assert Suits(s, 1) <==> InAlphabet(s[1]);
    assert Suits(s, 2) <==> InAlphabet(s[2]) || IsPad(s[2]);
    assert Suits(s, 3) <==> InAlphabet(s[3]) || IsPad(s[3]) || IsPad(s[2]);
  }

  lemma ShortSuits(s: Bytes, n: nat)
    requires n <= |s| < 4
    ensures SuitsUpTo(s, n) <==>
      (n > 0 ==> InAlphabet(s[0])) && (n > 1 ==> InAlphabet(s[1])) && (n > 2 ==> InAlphabet(s[2]) || IsPad(s[2]))
  {
    assert n > 0 ==> (Suits(s, 0) <==> InAlphabet(s[0]));
    assert n > 1 ==> (Suits(s, 1) <==> InAlphabet(s[1]));
    assert n > 2 ==> (Suits(s, 2) <==> InAlphabet(s[2]) || IsPad(s[2]));
  }

  lemma ShortDecodes(s: Bytes)
    requires 0 < |s| < 4
    ensures Decoded(s).Some? <==> |s| == 3 && InAlphabet(s[0]) && InAlphabet(s[1]) && IsPad(s[2])
  {
    assert Decoded(BehindFirst(s)) == Some([]);
  }

  lemma DecodesBehind(s: Bytes)
    requires |s| >= 4
    ensures Decoded(s).Some? <==> FirstGroup(s).Some? && Decoded(s[4..]).Some?
  {
    assert BehindFirst(s) == s[4..];
  }

  lemma ReadsBehindLater(s: Bytes)
    requires |s| >= 4
    ensures ReadsBehind(s) <==> FirstGroup(s).Some? && ReadsBehind(s[4..])
  {
    assert BehindFirst(s) == s[4..];
  }

  lemma EndsLater(s: Bytes)
    requires |s| >= 4
    ensures EndsWhole(s) <==> EndsWhole(s[4..])
    ensures |s[4..]| % 4 == |s| % 4
  {
  }

  /** Exactly these strings decode, of any length. */
  lemma {:induction false} DecodesExactly(s: Bytes)
    ensures Decoded(s).Some? <==> SuitsUpTo(s, |s|) && EndsWhole(s)
    decreases |s|
  {
    if |s| >= 4 {
      DecodesExactly(s[4..]);
      DecodesBehind(s);
      EndsLater(s);
      SuitsBehind(s, |s|);
      FirstGroupSuits(s);
    } else if s != [] {
      ShortDecodes(s);
      ShortSuits(s, |s|);
    }
  }

  /**
   Exactly these strings are read behind their end: the last group is not whole, and all in front of the missing
   character is accepted. A single last character is not looked at before.
   */
  lemma {:induction false} OverreadExactly(s: Bytes)
    ensures ReadsBehind(s) <==> !EndsWhole(s) && SuitsUpTo(s, if |s| % 4 == 1 then |s| - 1 else |s|)
    decreases |s|
  {
    var n := if |s| % 4 == 1 then |s| - 1 else |s|;
    if |s| >= 4 {
      OverreadExactly(s[4..]);
      ReadsBehindLater(s);
      EndsLater(s);
      SuitsBehind(s, n);
      FirstGroupSuits(s);
    } else {
      ShortSuits(s, n);
    }
  }

  lemma PlaceSuits(s: Bytes, i: nat)
    requires i < |s| && (InAlphabet(s[i]) || (IsPad(s[i]) && i % 4 == 2))
    ensures Suits(s, i)
  {
  }

  /** The last character stands in the second place of its group, or in the third. */
  lemma LastPlace(s: Bytes)
    requires |s| % 4 >= 2
    ensures (|s| - 1) % 4 == |s| % 4 - 1
  {
  }

  ghost predicate AlphabetThenPad(s: Bytes) {
    forall i {:trigger s[i]} :: 0 <= i < |s| ==> InAlphabet(s[i]) || (i == |s| - 1 && IsPad(s[i]))
  }

  /** One character short, an encoding is read behind its end; with a pad in the third place it decodes. */
  lemma OneCharacterShort()
    ensures ReadsBehind([81, 81, 81]) && Decoded([81, 81, 81]) == None
    ensures !ReadsBehind([81, 81, 61]) && Decoded([81, 81, 61]) == Some([65])
  {
    assert BehindFirst([81, 81, 81]) == [] && BehindFirst([81, 81, 61]) == [];
    var s: Bytes := [81, 81, 61];
    assert FirstGroup(s) == Some([65]) && [65] + [] == [65];
  }

  /** For characters of the alphabet, the last one perhaps a pad, only the length and that pad count. */
  lemma AlphabetOverread(s: Bytes)
    requires AlphabetThenPad(s)
    ensures ReadsBehind(s) <==> |s| % 4 != 0 && !(|s| % 4 >= 2 && IsPad(s[|s| - 1]))
  {
    OverreadExactly(s);
    AlphabetSuits(s);
  }

  lemma AlphabetSuits(s: Bytes)
    requires AlphabetThenPad(s)
    ensures !EndsWhole(s) && SuitsUpTo(s, if |s| % 4 == 1 then |s| - 1 else |s|) <==>
      |s| % 4 != 0 && !(|s| % 4 >= 2 && IsPad(s[|s| - 1]))
  {
    if |s| % 4 >= 2 {
      LastPlace(s);
      if |s| % 4 == 2 && IsPad(s[|s| - 1]) {
        assert !Suits(s, |s| - 1);
      } else {
        AllSuit(s, |s|);
      }
    } else if |s| % 4 == 1 {
      AllSuit(s, |s| - 1);
    }
  }

  lemma AllSuit(s: Bytes, n: nat)
    requires n <= |s|
    requires forall i {:trigger s[i]} :: 0 <= i < n ==> InAlphabet(s[i]) || (IsPad(s[i]) && i % 4 == 2)
    ensures SuitsUpTo(s, n)
  {
    forall i | 0 <= i < n
      ensures Suits(s, i)
    {
      PlaceSuits(s, i);
    }
  }

  // ---------- round trips ----------

  lemma SextetsJoin(s: Bytes)
    requires 1 <= |s| <= 3
    ensures var x := Sextets(s);
            && FirstOctet(x[0], x[1]) == s[0]
            && (|s| > 1 ==> SecondOctet(x[1], x[2]) == s[1])
            && (|s| > 2 ==> ThirdOctet(x[2], x[3]) == s[2])
  {
  }

  lemma GroupRoundTrip(s: Bytes, url: bool)
    requires 1 <= |s| <= 3
    ensures var g := EncodeGroup(s, url); DecodeGroup(g[0], g[1], g[2], g[3]) == Some(s)
  {
    var x := Sextets(s);
    SextetsJoin(s);
    AlphabetInverts(x[0], url);
    AlphabetInverts(x[1], url);
    if |s| > 1 {
      AlphabetInverts(x[2], url);
    }
    if |s| > 2 {
      AlphabetInverts(x[3], url);
    }
    assert s == if |s| == 1 then [s[0]] else if |s| == 2 then [s[0], s[1]] else [s[0], s[1], s[2]];
  }

  lemma GroupHasNoBreak(s: Bytes, url: bool)
    requires 1 <= |s| <= 3
    ensures Plain(EncodeGroup(s, url))
  {
    var x := Sextets(s);
    AlphabetInverts(x[0], url);
    AlphabetInverts(x[1], url);
    if |s| > 1 {
      AlphabetInverts(x[2], url);
    }
    if |s| > 2 {
      AlphabetInverts(x[3], url);
    }
  }

  /** No line break. */
  ghost predicate Plain(s: Bytes) {
    forall i {:trigger s[i]} :: 0 <= i < |s| ==> s[i] != NEWLINE
  }

  /** An encoding is a multiple of four characters, none of them a line break. */
  lemma {:induction false} EncodedShape(s: Bytes, url: bool)
    ensures |Encoded(s, url)| == (|s| + 2) / 3 * 4 && Plain(Encoded(s, url))
    decreases |s|
  {
    if s != [] {
      GroupHasNoBreak(Head(s), url);
      EncodedShape(Tail(s), url);
    }
  }

  lemma DecodedStep(group: Bytes, rest: Bytes)
    requires |group| == 4
    ensures var head := DecodeGroup(group[0], group[1], group[2], group[3]);
            Decoded(group + rest) == if head.None? then None else Before(head.value, Decoded(rest))
  {
    assert BehindFirst(group + rest) == rest;
  }

  /** Decoding the encoding of any bytes, in either alphabet, gives them back and stays inside the string. */
  lemma {:induction false} RoundTrip(s: Bytes, url: bool)
    ensures Decoded(Encoded(s, url)) == Some(s) && !ReadsBehind(Encoded(s, url))
    decreases |s|
  {
    EncodedShape(s, url);
    OverreadExactly(Encoded(s, url));
    if s != [] {
      RoundTrip(Tail(s), url);
      GroupRoundTrip(Head(s), url);
      DecodedStep(EncodeGroup(Head(s), url), Encoded(Tail(s), url));
      assert s == Head(s) + Tail(s);
    }
  }

  /** Encodings of section 10 of RFC 4648: f, fo and foo. */
  lemma RfcExamples()
    ensures Encoded([0x66], false) == [0x5A, 0x67, 0x3D, 0x3D]
    ensures Encoded([0x66, 0x6F], false) == [0x5A, 0x6D, 0x38, 0x3D]
    ensures Encoded([0x66, 0x6F, 0x6F], false) == [0x5A, 0x6D, 0x39, 0x76]
  {
    OneGroup([0x66], false);
    OneGroup([0x66, 0x6F], false);
    OneGroup([0x66, 0x6F, 0x6F], false);
  }

  lemma OneGroup(s: Bytes, url: bool)
    requires 1 <= |s| <= 3
    ensures Encoded(s, url) == EncodeGroup(s, url)
  {
    assert Encoded(Tail(s), url) == [];
  }

  // ---------- line breaks ----------

  function NoBreaks(s: Bytes): Bytes {
    if s == [] then [] else if s[0] == NEWLINE then NoBreaks(s[1..]) else [s[0]] + NoBreaks(s[1..])
  }

  /** A line break behind every `distance` characters that more characters follow. */
  function Broken(s: Bytes, distance: nat): Bytes
    requires distance > 0
  {
    if |s| <= distance then s else s[..distance] + [NEWLINE] + Broken(s[distance..], distance)
  }

  lemma LineBelow(line: nat, width: nat, place: nat, bound: nat)
    requires line * width + place < bound
    ensures line > 0 ==> line * width == (line - 1) * width + width
    ensures bound <= width ==> line == 0
    ensures line == 0 ==> line * width == 0
  {
    if line > 0 {
      assert line * width == (line - 1) * width + width;
    }
  }

  /** Counting lines and places from zero, place `distance` of a line holds its break, the others the text in order. */
  lemma {:induction false} BrokenPlaces(s: Bytes, distance: nat, line: nat, place: nat)
    requires distance > 0 && place <= distance && line * (distance + 1) + place < |Broken(s, distance)|
    ensures place == distance ==> Broken(s, distance)[line * (distance + 1) + place] == '\n' as int
    ensures place < distance ==>
              line * distance + place < |s| &&
              Broken(s, distance)[line * (distance + 1) + place] == s[line * distance + place]
    decreases line
  {
    LineBelow(line, distance + 1, place, |Broken(s, distance)|);
    if |s| > distance && line > 0 {
      var at, from := line * (distance + 1) + place, line * distance + place;
      assert from == (line - 1) * distance + place + distance;
      BrokenPlaces(s[distance..], distance, line - 1, place);
      assert Broken(s, distance)[at] == Broken(s[distance..], distance)[at - (distance + 1)];
      assert place < distance ==> s[distance..][from - distance] == s[from];
    }
  }

  lemma Regroup(a: Bytes, b: Bytes, c: Bytes)
    ensures a + b + c == a + (b + c)
  {
  }

  lemma {:induction false} NoBreaksSplit(s: Bytes, t: Bytes)
    ensures NoBreaks(s + t) == NoBreaks(s) + NoBreaks(t)
  {
    if s == [] {
      assert s + t == t;
    } else {
      NoBreaksSplit(s[1..], t);
      assert (s + t)[0] == s[0] && (s + t)[1..] == s[1..] + t;
      Regroup([s[0]], NoBreaks(s[1..]), NoBreaks(t));
    }
  }

  lemma {:induction false} NoBreaksInPlain(s: Bytes)
    requires Plain(s)
    ensures NoBreaks(s) == s
  {
    if s != [] {
      NoBreaksInPlain(s[1..]);
    }
  }

  lemma LineSplit(line: Bytes)
    requires Plain(line)
    ensures NoBreaks(line + [NEWLINE]) == line
  {
    NoBreaksInPlain(line);
    NoBreaksSplit(line, [NEWLINE]);
    assert NoBreaks([NEWLINE]) == [] && line + [] == line;
  }

  /** Removing line breaks undoes inserting them. */
  lemma {:induction false} BreaksRemoved(s: Bytes, distance: nat)
    requires distance > 0 && Plain(s)
    ensures NoBreaks(Broken(s, distance)) == s
  {
    if |s| <= distance {
      NoBreaksInPlain(s);
    } else {
      var line, rest := s[..distance], s[distance..];
      BreaksRemoved(rest, distance);
      NoBreaksSplit(line + [NEWLINE], Broken(rest, distance));
      LineSplit(line);
      assert s == line + rest;
    }
  }

  /** Any distance + 1 characters in a row contain a line break. */
  ghost predicate LinesAtMost(s: Bytes, distance: nat) {
    forall i: nat {:trigger HasBreak(s, i, distance)} :: i + distance < |s| ==> HasBreak(s, i, distance)
  }

  ghost predicate HasBreak(s: Bytes, i: nat, distance: nat) {
    exists k: nat :: BreakAt(s, k) && i <= k <= i + distance
  }

  ghost predicate BreakAt(s: Bytes, k: nat) {
    k < |s| && s[k] == NEWLINE
  }

  lemma {:induction false} LinesAreShort(s: Bytes, distance: nat)
    requires distance > 0
    ensures LinesAtMost(Broken(s, distance), distance)
  {
    if |s| > distance {
      var rest := Broken(s[distance..], distance);
      LinesAreShort(s[distance..], distance);
      var b := s[..distance] + [NEWLINE] + rest;
      assert BreakAt(b, distance);
      forall i: nat {:trigger HasBreak(b, i, distance)} | i + distance < |b|
        ensures HasBreak(b, i, distance)
      {
        if i > distance {
          var o := i - (distance + 1);
          assert HasBreak(rest, o, distance);
          var k: nat :| BreakAt(rest, k) && o <= k <= o + distance;
          assert BreakAt(b, k + distance + 1);
        }
      }
    }
  }

  /** The round trip through lines of any width: removing the line breaks and decoding gives the bytes back. */
  lemma BrokenRoundTrip(s: Bytes, distance: nat)
    requires distance > 0
    ensures LinesAtMost(Broken(Encoded(s, false), distance), distance)
    ensures Decoded(NoBreaks(Broken(Encoded(s, false), distance))) == Some(s)
  {
    EncodedShape(s, false);
    LinesAreShort(Encoded(s, false), distance);
    BreaksRemoved(Encoded(s, false), distance);
    RoundTrip(s, false);
  }

  // ---------- the loops ----------

  method Encode(s: Bytes, url: bool) returns (ret: Bytes)
    ensures ret == Encoded(s, url)
  {
    ret := [];
    var pos := 0;
    assert s[0..] == s;
    while pos < |s|
      invariant pos <= |s| + 2 && ret + Encoded(From(s, pos), url) == Encoded(s, url)
    {
      var group := EncodeAt(s, pos, url);
      Regroup(ret, group, Encoded(From(s, pos + 3), url));
      assert Tail(From(s, pos)) == From(s, pos + 3);
      ret := ret + group;
      pos := pos + 3;
    }
  }

  /** The characters of the group that begins at pos. */
  method EncodeAt(s: Bytes, pos: nat, url: bool) returns (ret: Bytes)
    requires pos < |s|
    ensures ret == EncodeGroup(Head(From(s, pos)), url)
  {
    var b0 := s[pos];
    ret := [CharAt(b0 / 4, url)];
    if pos + 1 < |s| {
      var b1 := s[pos + 1];
      ret := ret + [CharAt(b0 % 4 * 16 + b1 / 16, url)];
      if pos + 2 < |s| {
        var b2 := s[pos + 2];
        ret := ret + [CharAt(b1 % 16 * 4 + b2 / 64, url)];
        ret := ret + [CharAt(b2 % 64, url)];
      } else {
        ret := ret + [CharAt(b1 % 16 * 4, url)];
        ret := ret + [Pad(url)];
      }
    } else {
      ret := ret + [CharAt(b0 % 4 * 16, url)];
      ret := ret + [Pad(url)];
      ret := ret + [Pad(url)];
    }
  }

  ghost function From(s: Bytes, pos: nat): Bytes {
    if pos <= |s| then s[pos..] else []
  }

  method RemoveLinebreaks(s: Bytes) returns (r: Bytes)
    ensures r == NoBreaks(s)
  {
    r := [];
    assert s[0..] == s;
    for i := 0 to |s|
      invariant r + NoBreaks(s[i..]) == NoBreaks(s)
    {
      assert s[i..][1..] == s[i + 1..];
      if s[i] != NEWLINE {
        r := r + [s[i]];
      }
    }
  }

  /**
   Decodes, if asked to after removing line breaks; a character of neither alphabet is an error. `behind` says whether
   the character behind the last one is read: in a std::string that is its terminator, in a view it is foreign.
   */
  method Decode(encoded: Bytes, removeLinebreaks: bool) returns (result: Option<Bytes>, ghost behind: bool)
    ensures result == Decoded(if removeLinebreaks then NoBreaks(encoded) else encoded)
    ensures behind == ReadsBehind(if removeLinebreaks then NoBreaks(encoded) else encoded)
  {
    if |encoded| == 0 {
      return Some([]), false;
    }
    var s := encoded;
    if removeLinebreaks {
      s := RemoveLinebreaks(encoded);
    }
    result, behind := DecodeLoop(s);
  }

  method DecodeLoop(s: Bytes) returns (result: Option<Bytes>, ghost behind: bool)
    ensures result == Decoded(s)
    ensures behind == ReadsBehind(s)
  {
    var ret: Bytes, pos := [], 0;
    behind := false;
    assert s[0..] == s;
    BeforeNothing(Decoded(s));
    while pos < |s|
      invariant Decoded(s) == Before(ret, Decoded(From(s, pos)))
      invariant behind ==> pos >= |s|
      invariant ReadsBehind(s) == (behind || ReadsBehind(From(s, pos)))
    {
      DecodedFrom(s, pos, ret);
      var group;
      group, behind := DecodeAt(s, pos);
      if group.None? {
        return None, behind;
      }
      ret := ret + group.value;
      pos := pos + 4;
    }
    assert From(s, pos) == [] && ret + [] == ret;
    result := Some(ret);
  }

  /** The character at an index no greater than the length. */
  method ReadAt(s: Bytes, i: nat) returns (c: Octet, ghost behind: bool)
    requires i <= |s|
    ensures c == CharOrZero(s, i)
    ensures behind == (i == |s|)
  {
    behind := i == |s|;
    c := if i < |s| then s[i] else 0;
  }

  /** The bytes of the group of characters that begins at pos. */
  method DecodeAt(s: Bytes, pos: nat) returns (result: Option<Bytes>, ghost behind: bool)
    requires pos < |s|
    ensures result == FirstGroup(From(s, pos))
    ensures behind == (|From(s, pos)| < 4 && ReadsBehind(From(s, pos)))
  {
    var ret: Bytes := [];
    var c;
    c, behind := ReadAt(s, pos + 1);
    var p1 := PosOfChar(c);
    if p1.None? {
      return None, behind;
    }
    c, behind := ReadAt(s, pos);
    var p0 := PosOfChar(c);
    if p0.None? {
      return None, behind;
    }
    ret := ret + [FirstOctet(p0.value, p1.value)];
    c, behind := ReadAt(s, pos + 2);
    if !IsPad(c) {
      var p2 := PosOfChar(c);
      if p2.None? {
        return None, behind;
      }
      ret := ret + [SecondOctet(p1.value, p2.value)];
      c, behind := ReadAt(s, pos + 3);
      if !IsPad(c) {
        var p3 := PosOfChar(c);
        if p3.None? {
          return None, behind;
        }
        ret := ret + [ThirdOctet(p2.value, p3.value)];
      }
    }
    result := Some(ret);
    assert ret == FirstGroup(From(s, pos)).value;
  }

  lemma DecodedFrom(s: Bytes, pos: nat, ret: Bytes)
    requires pos < |s|
    ensures var t, head := From(s, pos), FirstGroup(From(s, pos));
            Before(ret, Decoded(t)) == if head.None? then None else Before(ret + head.value, Decoded(From(s, pos + 4)))
    ensures var t := From(s, pos);
            |t| >= 4 ==> ReadsBehind(t) == (FirstGroup(t).Some? && ReadsBehind(From(s, pos + 4)))
    ensures |From(s, pos)| < 4 ==> From(s, pos + 4) == []
  {
    assert BehindFirst(From(s, pos)) == From(s, pos + 4);
    if FirstGroup(From(s, pos)).Some? {
      BeforeTwice(ret, FirstGroup(From(s, pos)).value, Decoded(From(s, pos + 4)));
    }
  }

  lemma BeforeNothing(next: Option<Bytes>)
    ensures Before([], next) == next
  {
    if next.Some? {
      assert [] + next.value == next.value;
    }
  }

  lemma BeforeTwice(a: Bytes, b: Bytes, next: Option<Bytes>)
    ensures Before(a, Before(b, next)) == Before(a + b, next)
  {
    if next.Some? {
      assert a + (b + next.value) == a + b + next.value;
    }
  }

  /** Line breaks are inserted into the string from front to back. */
  method InsertLinebreaks(s: Bytes, distance: nat) returns (str: Bytes)
    requires distance > 0
    ensures str == Broken(s, distance)
  {
    if |s| == 0 {
      return [];
    }
    str := s;
    var pos := distance;
    ghost var from: nat := 0;
    assert str[0..] == s && str[..0] + Broken(s, distance) == Broken(s, distance);
    while pos < |str|
      invariant pos == from + distance && BrokenUpTo(s, str, from, distance)
      decreases if from <= |str| then BreaksLeft(|str| - from, distance) else 0
    {
      ghost var before := str;
      str := str[..pos] + [NEWLINE] + str[pos..];
      BreakStep(before, str, from, pos, distance);
      from := pos + 1;
      pos := pos + distance + 1;
    }
    assert str == str[..from] + str[from..];
  }

  ghost predicate BrokenUpTo(s: Bytes, str: Bytes, from: nat, distance: nat)
    requires distance > 0
  {
    from <= |str| && str[..from] + Broken(str[from..], distance) == Broken(s, distance)
  }

  /** PEM lines hold 64 characters, MIME lines 76. */
  method EncodeWithLineBreaks(s: Bytes, lineLength: nat) returns (r: Bytes)
    requires lineLength > 0
    ensures r == Broken(Encoded(s, false), lineLength)
  {
    var plain := Encode(s, false);
    r := InsertLinebreaks(plain, lineLength);
  }

  ghost function BreaksLeft(n: nat, distance: nat): nat
    requires distance > 0
  {
    if n <= distance then 0 else 1 + BreaksLeft(n - distance, distance)
  }

  lemma BreakStep(before: Bytes, after: Bytes, from: nat, pos: nat, distance: nat)
    requires distance > 0 && from + distance == pos < |before| && after == before[..pos] + [NEWLINE] + before[pos..]
    ensures after[..pos + 1] + Broken(after[pos + 1..], distance) == before[..from] + Broken(before[from..], distance)
  {
    assert after[pos + 1..] == before[pos..] == before[from..][distance..];
    assert after[..pos + 1] == before[..from] + (before[from..][..distance] + [NEWLINE]);
  }
}
