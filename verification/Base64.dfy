/** Unpadded base64url (sections 5 and 3.2 of RFC 4648), as Go's RawURLEncoding writes and reads it, and the
    two SQL functions that do the same for 12-byte ids. Characters are ASCII codes. */
module Base64 {
  import opened Lists

  /** Bytes as integers below 256. */
  predicate Bytes(b: seq<int>) {
    forall k :: 0 <= k < |b| ==> 0 <= b[k] < 256
  }

  const PAD := 61
  const PLUS := 43
  const SLASH := 47
  const MINUS := 45
  const UNDERSCORE := 95

  /** The alphabets of table 1 and table 2 differ in the last two digits. */
  function Digit(n: int, url: bool): int
    requires 0 <= n < 64
  {
    if n < 26 then 65 + n
    else if n < 52 then 97 + n - 26
    else if n < 62 then 48 + n - 52
    else if n == 62 then (if url then MINUS else PLUS)
    else if url then UNDERSCORE else SLASH
  }

  function Undigit(c: int, url: bool): Option<int> {
    if 65 <= c < 91 then Some(c - 65)
    else if 97 <= c < 123 then Some(c - 97 + 26)
    else if 48 <= c < 58 then Some(c - 48 + 52)
    else if c == (if url then MINUS else PLUS) then Some(62)
    else if c == (if url then UNDERSCORE else SLASH) then Some(63)
    else None
  }

  lemma DigitReads(n: int, url: bool)
    requires 0 <= n < 64
    ensures Undigit(Digit(n, url), url) == Some(n)
    ensures Digit(n, url) != PAD && Digit(n, url) != 10 && Digit(n, url) != 13
  {
  }

  /** Three bytes make four digits; one or two bytes left over make two or three. */
  function Sextets(b: seq<int>): seq<int>
    requires Bytes(b)
  {
    if |b| == 0 then []
    else if |b| == 1 then [b[0] / 4, b[0] % 4 * 16]
    else if |b| == 2 then [b[0] / 4, b[0] % 4 * 16 + b[1] / 16, b[1] % 16 * 4]
    else [b[0] / 4, b[0] % 4 * 16 + b[1] / 16, b[1] % 16 * 4 + b[2] / 64, b[2] % 64] + Sextets(b[3..])
  }

  ghost predicate Below64(d: seq<int>) {
    forall k :: 0 <= k < |d| ==> 0 <= d[k] < 64
  }

  function Write(d: seq<int>, url: bool): seq<int>
    requires Below64(d)
  {
    if d == [] then [] else [Digit(d[0], url)] + Write(d[1..], url)
  }

  lemma {:induction false} SextetsBelow(b: seq<int>)
    requires Bytes(b)
    ensures Below64(Sextets(b))
    ensures |Sextets(b)| == (4 * |b| + 2) / 3
    decreases |b|
  {
    if |b| >= 3 { SextetsBelow(b[3..]); }
  }

  /** `EncodeToString`. */
  function Encode(b: seq<int>, url: bool): seq<int>
    requires Bytes(b)
  {
    SextetsBelow(b);
    Write(Sextets(b), url)
  }

  /** The value of the digits `s[i]`, `s[i + 1]`, …, None if one of them is no digit. */
  function Digits(s: seq<int>, url: bool): Option<seq<int>> {
    if s == [] then Some([])
    else if Undigit(s[0], url).None? then None
    else match Digits(s[1..], url) case None => None case Some(r) => Some([Undigit(s[0], url).value] + r)
  }

  function Groups(d: seq<int>): Option<seq<int>> {
    if |d| == 0 then Some([])
    else if |d| == 1 then None
    else if |d| == 2 then Some([d[0] * 4 + d[1] / 16])
    else if |d| == 3 then Some([d[0] * 4 + d[1] / 16, d[1] % 16 * 16 + d[2] / 4])
    else match Groups(d[4..])
      case None => None
      case Some(r) => Some([d[0] * 4 + d[1] / 16, d[1] % 16 * 16 + d[2] / 4, d[2] % 4 * 64 + d[3]] + r)
  }

  /** Line ends are passed over, everything else must be a digit. */
  function StripLines(s: seq<int>): seq<int> {
    if s == [] then [] else (if s[0] == 10 || s[0] == 13 then [] else [s[0]]) + StripLines(s[1..])
  }

  /** `DecodeString`. The bits left over behind the last byte are not looked at. */
  function Decode(s: seq<int>, url: bool): Option<seq<int>> {
    match Digits(StripLines(s), url) case None => None case Some(d) => Groups(d)
  }

  // ---------------------------------------------------------------- round trip

  lemma {:induction false} WriteConcat(a: seq<int>, b: seq<int>, url: bool)
    requires Below64(a) && Below64(b)
    ensures Below64(a + b) && Write(a + b, url) == Write(a, url) + Write(b, url)
    decreases |a|
  {
    hide Digit;
    if a == [] {
      assert a + b == b;
    } else {
      assert (a + b)[1..] == a[1..] + b;
      WriteConcat(a[1..], b, url);
    }
  }

  lemma SixBits(x: int, y: int, z: int)
    requires 0 <= x < 256 && 0 <= y < 256 && 0 <= z < 256
    ensures x / 4 * 4 + (x % 4 * 16 + y / 16) / 16 == x
    ensures (x % 4 * 16 + y / 16) % 16 * 16 + (y % 16 * 4 + z / 64) / 4 == y
    ensures (y % 16 * 4 + z / 64) % 4 * 64 + z % 64 == z
  {
  }

  lemma {:induction false} SextetsGroup(b: seq<int>)
    requires Bytes(b)
    ensures Groups(Sextets(b)) == Some(b)
    decreases |b|
  {
    if |b| >= 3 {
      SextetsGroup(b[3..]);
      var d, x, y, z := Sextets(b), b[0], b[1], b[2];
      SixBits(x, y, z);
      assert d[4..] == Sextets(b[3..]) && |d| >= 4;
      assert d[0] == x / 4 && d[1] == x % 4 * 16 + y / 16 && d[2] == y % 16 * 4 + z / 64 && d[3] == z % 64;
      hide Sextets, Bytes;
      assert [x, y, z] + b[3..] == b;
    } else if |b| == 2 {
      SixBits(b[0], b[1], 0);
      assert b == [b[0], b[1]];
    } else if |b| == 1 {
      assert b == [b[0]];
    }
  }

  lemma {:induction false} WriteReads(d: seq<int>, url: bool)
    requires Below64(d)
    ensures StripLines(Write(d, url)) == Write(d, url) && Digits(Write(d, url), url) == Some(d)
    decreases |d|
  {
    if d != [] {
      DigitReads(d[0], url);
      hide Digit, Undigit;
      WriteReads(d[1..], url);
      var s := Write(d, url);
      assert s[1..] == Write(d[1..], url) && s[0] == Digit(d[0], url);
      assert d == [d[0]] + d[1..];
    }
  }

  /** Decoding undoes encoding, for every string of bytes and either alphabet. */
  lemma DecodeEncode(b: seq<int>, url: bool)
    requires Bytes(b)
    ensures Decode(Encode(b, url), url) == Some(b)
  {
    SextetsBelow(b);
    SextetsGroup(b);
    WriteReads(Sextets(b), url);
  }

  /** Four digits are the 24 bits of three bytes, the first of them the highest. */
  lemma TwentyFourBits(b: seq<int>)
    requires Bytes(b) && |b| >= 3
    ensures var d := Sextets(b);
            && |d| >= 4 && d[0] * 0x4_0000 + d[1] * 0x1000 + d[2] * 0x40 + d[3] == b[0] * 0x1_0000 + b[1] * 0x100 + b[2]
            && d[4..] == Sextets(b[3..])
  {
  }

  /** From the test vectors of section 10 of RFC 4648, without padding: "f", "fo", "foo". */
  lemma TestVectors()
    ensures Encode([102], true) == [90, 103]
    ensures Encode([102, 111], true) == [90, 109, 56]
    ensures Encode([102, 111, 111], true) == [90, 109, 57, 118]
  {
    WriteThree(25, 38, 60, true);
    WriteThree(25, 32, 0, true);
    WriteThree(25, 38, 61, true);
    var b: seq<int> := [102, 111, 111];
    assert b[3..] == [] && Sextets(b) == [25, 38, 61, 47] + Sextets(b[3..]) && Sextets([]) == [];
    assert Sextets(b) == [25, 38, 61] + [47];
    WriteConcat([25, 38, 61], [47], true);
    assert [47][1..] == [] && Write([47], true) == [118] + [];
    assert Sextets([102]) == [25, 32] && Sextets([102, 111]) == [25, 38, 60];
  }

  /** A text in which the alphabets differ. */
  lemma LastDigits()
    ensures Encode([251, 255], true) == [45, 95, 56] && Encode([251, 255], false) == [43, 47, 56]
  {
    WriteThree(62, 63, 60, true);
    WriteThree(62, 63, 60, false);
    assert Sextets([251, 255]) == [62, 63, 60];
  }

  lemma WriteThree(a: int, b: int, c: int, url: bool)
    requires 0 <= a < 64 && 0 <= b < 64 && 0 <= c < 64
    ensures Write([a, b], url) == [Digit(a, url), Digit(b, url)]
    ensures Write([a, b, c], url) == [Digit(a, url), Digit(b, url), Digit(c, url)]
  {
    hide Digit;
    var d, e := [a, b, c], [a, b];
    assert d[1..] == [b, c] && [b, c][1..] == [c] && [c][1..] == [] && e[1..] == [b] && [b][1..] == [];
    assert Write([c], url) == [Digit(c, url)] && Write([b], url) == [Digit(b, url)];
    assert Write([b, c], url) == [Digit(b, url)] + Write([c], url);
  }

  // ---------------------------------------------------------------- the SQL text form

  /** replace(s, from, to) for single characters. */
  function Replace(s: seq<int>, from: int, to: int): seq<int> {
    if s == [] then [] else [if s[0] == from then to else s[0]] + Replace(s[1..], from, to)
  }

  function RTrim(s: seq<int>, c: int): seq<int> {
    if s != [] && s[|s| - 1] == c then RTrim(s[..|s| - 1], c) else s
  }

  function Repeat(c: int, n: nat): seq<int> {
    if n == 0 then [] else [c] + Repeat(c, n - 1)
  }

  /** rpad cuts off what is longer. */
  function RPad(s: seq<int>, n: nat, c: int): seq<int> {
    if |s| >= n then s[..n] else s + Repeat(c, n - |s|)
  }

  /** The last line of encode(b, 'base64'): padded to whole groups. */
  function EncodePadded(b: seq<int>): seq<int>
    requires Bytes(b)
  {
    Encode(b, false) + Repeat(PAD, (3 - |b| % 3) % 3)
  }

  const LINE := 57
  const LINE_END := 10

  /** encode(b, 'base64'): a line end behind every 76 characters. */
  function EncodeLines(b: seq<int>): seq<int>
    requires Bytes(b)
  {
    if |b| < LINE then EncodePadded(b) else Encode(b[..LINE], false) + [LINE_END] + EncodeLines(b[LINE..])
  }

  /** pgbid_to_text. */
  function ToText(b: seq<int>): seq<int>
    requires Bytes(b)
  {
    RTrim(Replace(Replace(EncodeLines(b), SLASH, UNDERSCORE), PLUS, MINUS), PAD)
  }

  /** The bytes of a group of four digits, fewer once the padding has begun. */
  function Out(v: int, end: nat): seq<int> {
    [v / 65536 % 256] + (if end == 0 || end > 1 then [v / 256 % 256] else []) + (if end == 0 || end > 2 then [v % 256] else [])
  }

  /** decode(s, 'base64'), character by character: `end` remembers where the padding began. */
  function DecodeFrom(s: seq<int>, end: nat, pos: nat, val: int, out: seq<int>): Option<seq<int>>
    decreases |s|
  {
    if s == [] then (if pos == 0 then Some(out) else None)
    else if s[0] == PAD && end == 0 && pos != 2 && pos != 3 then None
    else if s[0] != PAD && Undigit(s[0], false).None? then None
    else
      var e := if s[0] == PAD && end == 0 then pos - 1 else end;
      var v := val * 64 + if s[0] == PAD then 0 else Undigit(s[0], false).value;
      if pos < 3 then DecodeFrom(s[1..], e, pos + 1, v, out)
      else DecodeFrom(s[1..], e, 0, 0, out + Out(v, e))
  }

  /** pgbid_to_bytea. */
  function ToBytea(t: seq<int>): Option<seq<int>> {
    DecodeFrom(RPad(Replace(Replace(t, UNDERSCORE, SLASH), MINUS, PLUS), 16, PAD), 0, 0, 0, [])
  }

  // ---------------------------------------------------------------- pgbid_to_text is the Go text

  lemma {:induction false} ReplaceConcat(a: seq<int>, b: seq<int>, from: int, to: int)
    ensures Replace(a + b, from, to) == Replace(a, from, to) + Replace(b, from, to)
    decreases |a|
  {
    if a == [] {
      assert a + b == b;
    } else {
      assert (a + b)[1..] == a[1..] + b;
      ReplaceConcat(a[1..], b, from, to);
    }
  }

  lemma {:induction false} ReplacePads(n: nat, from: int, to: int)
    requires from != PAD
    ensures Replace(Repeat(PAD, n), from, to) == Repeat(PAD, n) && |Repeat(PAD, n)| == n
    decreases n
  {
    if n > 0 {
      ReplacePads(n - 1, from, to);
      assert Repeat(PAD, n)[1..] == Repeat(PAD, n - 1);
    }
  }

  /** Changing the two special digits is changing the alphabet, both ways. */
  lemma {:induction false} ChangeAlphabet(d: seq<int>)
    requires Below64(d)
    ensures Replace(Replace(Write(d, false), SLASH, UNDERSCORE), PLUS, MINUS) == Write(d, true)
    ensures Replace(Replace(Write(d, true), UNDERSCORE, SLASH), MINUS, PLUS) == Write(d, false)
    ensures |Write(d, true)| == |Write(d, false)| == |d|
    decreases |d|
  {
    if d != [] {
      ChangeAlphabet(d[1..]);
      var s, u := Write(d, false), Write(d, true);
      assert s[1..] == Write(d[1..], false) && u[1..] == Write(d[1..], true);
      assert Replace(s, SLASH, UNDERSCORE)[1..] == Replace(s[1..], SLASH, UNDERSCORE);
      assert Replace(u, UNDERSCORE, SLASH)[1..] == Replace(u[1..], UNDERSCORE, SLASH);
    }
  }

  lemma {:induction false} TrimPads(s: seq<int>, n: nat)
    requires s != [] ==> s[|s| - 1] != PAD
    ensures RTrim(s + Repeat(PAD, n), PAD) == s
    decreases n
  {
    if n == 0 {
      assert s + [] == s;
    } else {
      RepeatEnd(PAD, n - 1);
      var t := s + Repeat(PAD, n);
      assert t[|t| - 1] == PAD && t[..|t| - 1] == s + Repeat(PAD, n - 1);
      TrimPads(s, n - 1);
    }
  }

  lemma {:induction false} RepeatEnd(c: int, n: nat)
    ensures Repeat(c, n + 1) == Repeat(c, n) + [c] && |Repeat(c, n)| == n
    decreases n
  {
    if n > 0 { RepeatEnd(c, n - 1); }
  }

  lemma {:induction false} WriteLast(d: seq<int>, url: bool)
    requires Below64(d) && d != []
    ensures |Write(d, url)| == |d| && Write(d, url)[|d| - 1] == Digit(d[|d| - 1], url)
    decreases |d|
  {
    hide Digit;
    if |d| > 1 { WriteLast(d[1..], url); }
  }

  lemma WriteNothing()
    ensures Write([], true) == []
  {
  }

  /** Without a line end the SQL text form is the Go text form. */
  lemma OneLine(b: seq<int>)
    requires Bytes(b) && |b| < LINE
    ensures ToText(b) == Encode(b, true)
  {
    hide Write, Sextets, Digit, Replace, RTrim, Repeat;
    var d, k := Sextets(b), (3 - |b| % 3) % 3;
    WriteNothing();
    SextetsBelow(b);
    ReplaceConcat(Encode(b, false), Repeat(PAD, k), SLASH, UNDERSCORE);
    ReplacePads(k, SLASH, UNDERSCORE);
    ReplaceConcat(Replace(Encode(b, false), SLASH, UNDERSCORE), Repeat(PAD, k), PLUS, MINUS);
    ReplacePads(k, PLUS, MINUS);
    ChangeAlphabet(d);
    if d != [] {
      WriteLast(d, true);
      DigitReads(d[|d| - 1], true);
    }
    TrimPads(Encode(b, true), k);
  }

  lemma {:induction false} TrimStops(x: seq<int>, y: seq<int>)
    requires x != [] && x[|x| - 1] != PAD
    ensures x <= RTrim(x + y, PAD)
    decreases |y|
  {
    if y == [] {
      assert x + y == x;
    } else {
      var t := x + y;
      if t[|t| - 1] == PAD {
        assert t[..|t| - 1] == x + y[..|y| - 1];
        TrimStops(x, y[..|y| - 1]);
      }
    }
  }

  lemma ReplaceOne(c: int, from: int, to: int)
    requires c != from
    ensures Replace([c], from, to) == [c]
  {
    assert [c][1..] == [];
  }

  /** A line end stays in the text behind the first 76 characters. */
  lemma FirstLine(b: seq<int>)
    requires Bytes(b) && |b| >= LINE
    ensures Bytes(b[..LINE]) && |Encode(b[..LINE], true)| == 76
    ensures Encode(b[..LINE], true) + [LINE_END] <= ToText(b)
  {
    hide Write, Sextets, Digit, Replace, RTrim;
    var f := b[..LINE];
    SextetsBelow(f);
    var line, rest := Encode(f, false), EncodeLines(b[LINE..]);
    ChangeAlphabet(Sextets(f));
    var x := Encode(f, true) + [LINE_END];
    ReplaceConcat(line + [LINE_END], rest, SLASH, UNDERSCORE);
    ReplaceConcat(line, [LINE_END], SLASH, UNDERSCORE);
    ReplaceOne(LINE_END, SLASH, UNDERSCORE);
    var once, tail := Replace(line, SLASH, UNDERSCORE), Replace(rest, SLASH, UNDERSCORE);
    ReplaceConcat(once + [LINE_END], tail, PLUS, MINUS);
    ReplaceConcat(once, [LINE_END], PLUS, MINUS);
    ReplaceOne(LINE_END, PLUS, MINUS);
    TrimStops(x, Replace(tail, PLUS, MINUS));
  }

  lemma FirstDigit(b: seq<int>)
    requires Bytes(b) && b != []
    ensures |Encode(b, true)| > 0 && Encode(b, true)[0] != LINE_END
  {
    SextetsBelow(b);
    DigitReads(Sextets(b)[0], true);
  }

  /** The SQL text form is the Go text form exactly for ids below 57 bytes; PostgreSQL breaks longer lines. */
  lemma TextForms(b: seq<int>)
    requires Bytes(b)
    ensures ToText(b) == Encode(b, true) <==> |b| < LINE
  {
    hide ToText, Encode;
    if |b| < LINE {
      OneLine(b);
    } else {
      var f, t := b[..LINE], b[LINE..];
      FirstLine(b);
      assert f + t == b;
      EncodeConcat(f, t, true);
      if t == [] {
        assert f == b;
      } else {
        FirstDigit(t);
        assert Encode(b, true)[76] == Encode(t, true)[0];
      }
    }
  }

  // ---------------------------------------------------------------- pgbid_to_bytea undoes it

  /** One digit before any padding. */
  lemma DigitStep(d: int, rest: seq<int>, pos: nat, val: int, out: seq<int>)
    requires 0 <= d < 64
    ensures DecodeFrom([Digit(d, false)] + rest, 0, pos, val, out) ==
            if pos < 3 then DecodeFrom(rest, 0, pos + 1, val * 64 + d, out) else DecodeFrom(rest, 0, 0, 0, out + Out(val * 64 + d, 0))
  {
    DigitReads(d, false);
    hide Digit, Undigit, Out;
    assert ([Digit(d, false)] + rest)[1..] == rest;
  }

  lemma DigitsStep(d: seq<int>, k: nat, rest: seq<int>, pos: nat, val: int, out: seq<int>)
    requires Below64(d) && k < |d|
    ensures var v := val * 64 + d[k];
            DecodeFrom(Write(d[k..], false) + rest, 0, pos, val, out) ==
            if pos < 3 then DecodeFrom(Write(d[k + 1..], false) + rest, 0, pos + 1, v, out)
            else DecodeFrom(Write(d[k + 1..], false) + rest, 0, 0, 0, out + Out(v, 0))
  {
    hide Digit, DecodeFrom, Out;
    assert d[k..][1..] == d[k + 1..] && d[k..][0] == d[k];
    assert Write(d[k..], false) + rest == [Digit(d[k], false)] + (Write(d[k + 1..], false) + rest);
    DigitStep(d[k], Write(d[k + 1..], false) + rest, pos, val, out);
  }

  lemma FourDigits(d: seq<int>, rest: seq<int>, out: seq<int>)
    requires Below64(d) && |d| >= 4
    ensures DecodeFrom(Write(d, false) + rest, 0, 0, 0, out) ==
            DecodeFrom(Write(d[4..], false) + rest, 0, 0, 0, out + Out(((d[0] * 64 + d[1]) * 64 + d[2]) * 64 + d[3], 0))
  {
    hide DecodeFrom, Write, Digit, Out;
    assert d[0..] == d;
    DigitsStep(d, 0, rest, 0, 0, out);
    DigitsStep(d, 1, rest, 1, d[0], out);
    DigitsStep(d, 2, rest, 2, d[0] * 64 + d[1], out);
    DigitsStep(d, 3, rest, 3, (d[0] * 64 + d[1]) * 64 + d[2], out);
  }

  lemma Quotients(x: int, y: int, z: int)
    requires 0 <= x < 256 && 0 <= y < 256 && 0 <= z < 256
    ensures var v := x * 65536 + y * 256 + z; v / 65536 == x && v / 256 == x * 256 + y && v % 256 == z
  {
  }

  lemma ThreeBytes(x: int, y: int, z: int)
    requires 0 <= x < 256 && 0 <= y < 256 && 0 <= z < 256
    ensures var v := x * 65536 + y * 256 + z; Out(v, 0) == [x, y, z] && Out(v, 1) == [x] && Out(v, 2) == [x, y]
  {
    Quotients(x, y, z);
    assert (x * 256 + y) % 256 == y && x % 256 == x;
  }

  lemma Shifted(x: int, y: int, z: int)
    requires 0 <= x < 256 && 0 <= y < 256 && 0 <= z < 256
    ensures Out(((x / 4 * 64 + (x % 4 * 16 + y / 16)) * 64 + (y % 16 * 4 + z / 64)) * 64 + z % 64, 0) == [x, y, z]
  {
    hide Out;
    ThreeBytes(x, y, z);
    assert ((x / 4 * 64 + (x % 4 * 16 + y / 16)) * 64 + (y % 16 * 4 + z / 64)) * 64 + z % 64 == x * 65536 + y * 256 + z;
  }

  lemma EncodeNothing()
    ensures Encode([], false) == []
  {
  }

  /** Whole groups decode to their bytes, whatever follows. */
  lemma {:induction false} GroupsDecode(b: seq<int>, rest: seq<int>, out: seq<int>)
    requires Bytes(b) && |b| % 3 == 0
    ensures DecodeFrom(Encode(b, false) + rest, 0, 0, 0, out) == DecodeFrom(rest, 0, 0, 0, out + b)
    decreases |b|
  {
    hide DecodeFrom, Write, Out;
    SextetsBelow(b);
    if b == [] {
      EncodeNothing();
      assert [] + rest == rest && out + [] == out;
    } else {
      var d, t, x, y, z := Sextets(b), b[3..], b[0], b[1], b[2];
      assert d[4..] == Sextets(t);
      FourDigits(d, rest, out);
      Shifted(x, y, z);
      GroupsDecode(t, rest, out + [x, y, z]);
      assert out + [x, y, z] + t == out + b by { assert b == [x, y, z] + t; }
    }
  }

  lemma {:induction false} EncodeConcat(a: seq<int>, b: seq<int>, url: bool)
    requires Bytes(a + b) && Bytes(a) && Bytes(b) && |a| % 3 == 0
    ensures Encode(a + b, url) == Encode(a, url) + Encode(b, url)
    decreases |a|
  {
    hide Write;
    SextetsBelow(a);
    SextetsBelow(b);
    SextetsConcat(a, b);
    WriteConcat(Sextets(a), Sextets(b), url);
  }

  lemma {:induction false} SextetsConcat(a: seq<int>, b: seq<int>)
    requires Bytes(a + b) && Bytes(a) && Bytes(b) && |a| % 3 == 0
    ensures Sextets(a + b) == Sextets(a) + Sextets(b)
    decreases |a|
  {
    if a == [] {
      assert a + b == b;
    } else {
      assert (a + b)[3..] == a[3..] + b;
      SextetsConcat(a[3..], b);
    }
  }

  /** Behind the end of the data every further group of pads adds as many zero bytes as the last group had. */
  lemma {:induction false} PadGroups(end: nat, k: nat, out: seq<int>)
    requires end == 1 || end == 2
    ensures DecodeFrom(Repeat(PAD, 4 * k), end, 0, 0, out).Some?
    ensures |DecodeFrom(Repeat(PAD, 4 * k), end, 0, 0, out).value| == |out| + end * k
    ensures k == 0 ==> DecodeFrom(Repeat(PAD, 4 * k), end, 0, 0, out).value == out
    decreases k
  {
    if k > 0 {
      hide DecodeFrom, Repeat;
      PadStep(4 * k - 1, end, 0, 0, out);
      PadStep(4 * k - 2, end, 1, 0, out);
      PadStep(4 * k - 3, end, 2, 0, out);
      PadStep(4 * k - 4, end, 3, 0, out);
      PadGroups(end, k - 1, out + Out(0, end));
    }
  }

  /** One pad, the first of which remembers where it stands. */
  lemma PadStep(n: nat, end: nat, pos: nat, val: int, out: seq<int>)
    requires end == 0 ==> pos == 2 || pos == 3
    ensures var e := if end == 0 then pos - 1 else end;
            DecodeFrom(Repeat(PAD, n + 1), end, pos, val, out) ==
            if pos < 3 then DecodeFrom(Repeat(PAD, n), e, pos + 1, val * 64, out)
            else DecodeFrom(Repeat(PAD, n), e, 0, 0, out + Out(val * 64, e))
  {
    hide Out;
    var s := Repeat(PAD, n + 1);
    assert s[1..] == Repeat(PAD, n) && s[0] == PAD;
  }

  lemma TailBits(x: int, y: int)
    requires 0 <= x < 256 && 0 <= y < 256
    ensures Out((x / 4 * 64 + x % 4 * 16) * 64 * 64, 1) == [x]
    ensures Out(((x / 4 * 64 + (x % 4 * 16 + y / 16)) * 64 + y % 16 * 4) * 64, 2) == [x, y]
  {
    hide Out;
    ThreeBytes(x, 0, 0);
    ThreeBytes(x, y, 0);
    assert (x / 4 * 64 + x % 4 * 16) * 64 * 64 == x * 65536;
    assert ((x / 4 * 64 + (x % 4 * 16 + y / 16)) * 64 + y % 16 * 4) * 64 == x * 65536 + y * 256;
  }

  lemma NoDigits(d: seq<int>, n: nat, p: seq<int>)
    requires Below64(d) && n == |d|
    ensures Below64(d[n..]) && d[0..] == d && Write(d[n..], false) + p == p
  {
    assert d[n..] == [];
  }

  lemma TwoDigits(d: seq<int>, k: nat, out: seq<int>)
    requires Below64(d) && |d| == 2
    ensures DecodeFrom(Write(d, false) + Repeat(PAD, 4 * k + 2), 0, 0, 0, out) ==
            DecodeFrom(Repeat(PAD, 4 * k), 1, 0, 0, out + Out((d[0] * 64 + d[1]) * 64 * 64, 1))
  {
    hide *;
    var p := Repeat(PAD, 4 * k + 2);
    NoDigits(d, 2, p);
    DigitsStep(d, 0, p, 0, 0, out);
    DigitsStep(d, 1, p, 1, d[0], out);
    PadStep(4 * k + 1, 0, 2, d[0] * 64 + d[1], out);
    PadStep(4 * k, 1, 3, (d[0] * 64 + d[1]) * 64, out);
  }

  lemma ThreeDigits(d: seq<int>, k: nat, out: seq<int>)
    requires Below64(d) && |d| == 3
    ensures DecodeFrom(Write(d, false) + Repeat(PAD, 4 * k + 1), 0, 0, 0, out) ==
            DecodeFrom(Repeat(PAD, 4 * k), 2, 0, 0, out + Out(((d[0] * 64 + d[1]) * 64 + d[2]) * 64, 2))
  {
    hide *;
    var p := Repeat(PAD, 4 * k + 1);
    NoDigits(d, 3, p);
    DigitsStep(d, 0, p, 0, 0, out);
    DigitsStep(d, 1, p, 1, d[0], out);
    DigitsStep(d, 2, p, 2, d[0] * 64 + d[1], out);
    PadStep(4 * k, 0, 3, (d[0] * 64 + d[1]) * 64 + d[2], out);
  }

  /** One byte left over: two digits and two pads. */
  lemma TailOne(x: int, k: nat, out: seq<int>)
    requires 0 <= x < 256
    ensures DecodeFrom(Encode([x], false) + Repeat(PAD, 4 * k + 2), 0, 0, 0, out) ==
            DecodeFrom(Repeat(PAD, 4 * k), 1, 0, 0, out + [x])
  {
    SextetsBelow([x]);
    TwoDigits(Sextets([x]), k, out);
    TailBits(x, 0);
    hide DecodeFrom, Write, Out, Repeat;
  }

  /** Two bytes left over: three digits and one pad. */
  lemma TailTwo(x: int, y: int, k: nat, out: seq<int>)
    requires 0 <= x < 256 && 0 <= y < 256
    ensures DecodeFrom(Encode([x, y], false) + Repeat(PAD, 4 * k + 1), 0, 0, 0, out) ==
            DecodeFrom(Repeat(PAD, 4 * k), 2, 0, 0, out + [x, y])
  {
    SextetsBelow([x, y]);
    ThreeDigits(Sextets([x, y]), k, out);
    TailBits(x, y);
    hide DecodeFrom, Write, Out, Repeat;
  }

  lemma {:induction false} WriteTake(d: seq<int>, n: nat, url: bool)
    requires Below64(d) && n <= |d|
    ensures |Write(d, url)| == |d| && Write(d, url)[..n] == Write(d[..n], url)
    decreases |d|
  {
    hide Digit;
    if d != [] {
      if n > 0 {
        WriteTake(d[1..], n - 1, url);
        assert d[..n][1..] == d[1..][..n - 1];
      } else {
        WriteTake(d[1..], 0, url);
      }
    }
  }

  /** The characters pgbid_to_bytea decodes: 16 of them, cut off or padded. */
  lemma Padded(b: seq<int>)
    requires Bytes(b) && |b| <= 12
    ensures ToBytea(ToText(b)) == DecodeFrom(RPad(Encode(b, false), 16, PAD), 0, 0, 0, [])
    ensures |Encode(b, false)| == (4 * |b| + 2) / 3
  {
    hide DecodeFrom, Write, Sextets;
    OneLine(b);
    SextetsBelow(b);
    ChangeAlphabet(Sextets(b));
  }

  lemma AtMostTwelve(b: seq<int>)
    requires Bytes(b) && |b| <= 12
    ensures ToBytea(ToText(b)) == Some(b) <==> 10 <= |b|
  {
    hide *;
    var n := |b|;
    BytesSplit(b, n - n % 3);
    Padded(b);
    var e := Encode(b, false);
    var pads := 16 - |e|;
    var full, tail := b[..n - n % 3], b[n - n % 3..];
    assert full + tail == b;
    var p := Repeat(PAD, pads);
    PadTo(e, 16);
    EncodeConcat(full, tail, false);
    assert e + p == Encode(full, false) + (Encode(tail, false) + p);
    GroupsDecode(full, Encode(tail, false) + p, []);
    assert [] + full == full;
    TailDecodes(full, tail, pads);
  }

  /** pgbid_to_bytea undoes pgbid_to_text for 10, 11 and 12 bytes and for no other length: shorter ids are
      refused or get zero bytes, longer ones are cut. */
  lemma ByteaUndoesText(b: seq<int>)
    requires Bytes(b)
    ensures ToBytea(ToText(b)) == Some(b) <==> 10 <= |b| <= 12
  {
    hide *;
    if |b| > 12 { CutToTwelve(b); } else { AtMostTwelve(b); }
  }

  lemma BytesSplit(b: seq<int>, n: nat)
    requires Bytes(b) && n <= |b|
    ensures Bytes(b[..n]) && Bytes(b[n..])
    ensures n < |b| ==> 0 <= b[n] < 256
  {
  }

  lemma PadTo(e: seq<int>, n: nat)
    requires |e| <= n
    ensures RPad(e, n, PAD) == e + Repeat(PAD, n - |e|)
  {
    if |e| == n { assert e[..n] == e + []; }
  }

  /** Pads alone are no text; nothing is no bytes. */
  lemma OnlyPads(pads: nat, out: seq<int>)
    ensures DecodeFrom(Repeat(PAD, pads), 0, 0, 0, out) == if pads == 0 then Some(out) else None
    ensures Encode([], false) == []
  {
    if pads > 0 { assert Repeat(PAD, pads)[0] == PAD; }
  }

  lemma TailDecodes(full: seq<int>, tail: seq<int>, pads: nat)
    requires Bytes(tail) && |full| % 3 == 0 && |tail| < 3 && |full| + |tail| <= 12
    requires pads == 16 - (4 * |full + tail| + 2) / 3
    ensures DecodeFrom(Encode(tail, false) + Repeat(PAD, pads), 0, 0, 0, full) == Some(full + tail) <==> 10 <= |full + tail| <= 12
  {
    hide *;
    BytesSplit(tail, 0);
    if |tail| == 2 { BytesSplit(tail, 1); }
    var p := Repeat(PAD, pads);
    if tail == [] {
      OnlyPads(pads, full);
      assert [] + p == p;
      assert full + tail == full;
    } else if |tail| == 1 {
      assert tail == [tail[0]];
      var k := (pads - 2) / 4;
      TailOne(tail[0], k, full);
      PadGroups(1, k, full + tail);
    } else {
      assert tail == [tail[0], tail[1]];
      var k := (pads - 1) / 4;
      TailTwo(tail[0], tail[1], k, full);
      PadGroups(2, k, full + tail);
    }
  }

  lemma {:induction false} ReplaceTake(s: seq<int>, n: nat, from: int, to: int)
    requires n <= |s|
    ensures |Replace(s, from, to)| == |s| && Replace(s, from, to)[..n] == Replace(s[..n], from, to)
    decreases |s|
  {
    if s != [] {
      if n > 0 {
        ReplaceTake(s[1..], n - 1, from, to);
        assert s[..n][1..] == s[1..][..n - 1];
      } else {
        ReplaceTake(s[1..], 0, from, to);
      }
    }
  }

  /** The first twelve bytes make the first sixteen characters, on one line or several. */
  lemma FirstSixteen(b: seq<int>)
    requires Bytes(b) && |b| > 12
    ensures Bytes(b[..12]) && |ToText(b)| >= 16 && ToText(b)[..16] == Encode(b[..12], true)
  {
    hide ToText;
    var c := if |b| < LINE then b else b[..LINE];
    TakeSixteen(c);
    assert c[..12] == b[..12];
    if |b| < LINE {
      OneLine(b);
    } else {
      FirstLine(b);
      assert ToText(b)[..16] == Encode(c, true)[..16];
    }
  }

  lemma TakeSixteen(b: seq<int>)
    requires Bytes(b) && |b| > 12
    ensures Bytes(b[..12]) && |Encode(b, true)| >= 16 && Encode(b, true)[..16] == Encode(b[..12], true)
  {
    hide Write, Sextets;
    var a, t := b[..12], b[12..];
    assert a + t == b;
    SextetsBelow(a);
    SextetsBelow(t);
    SextetsBelow(b);
    SextetsConcat(a, t);
    WriteTake(Sextets(b), 16, true);
    assert Sextets(b)[..16] == Sextets(a);
  }

  lemma CutToTwelve(b: seq<int>)
    requires Bytes(b) && |b| > 12
    ensures ToBytea(ToText(b)) == Some(b[..12])
  {
    var a, t := b[..12], ToText(b);
    assert DecodeFrom([], 0, 0, 0, a) == Some(a);
    hide DecodeFrom, Write, Sextets, ToText, Replace;
    FirstSixteen(b);
    SextetsBelow(a);
    ChangeAlphabet(Sextets(a));
    ReplaceTake(t, 16, UNDERSCORE, SLASH);
    ReplaceTake(Replace(t, UNDERSCORE, SLASH), 16, MINUS, PLUS);
    assert RPad(Replace(Replace(t, UNDERSCORE, SLASH), MINUS, PLUS), 16, PAD) == Encode(a, false) + [];
    GroupsDecode(a, [], []);
    assert [] + a == a;
  }
}
