/** Composite IDs: the length-prefixed byte form, the text form, and what parsing makes of them. */
module IdCodec {
  import opened Lists
  import B = Base64

  /** The value kinds of an ID field. */
  datatype Kind = IntKind | UintKind | BytesKind | StrKind

  /** One field's value; a BID is bytes. */
  datatype Part = IntPart(v: int) | UintPart(u: int) | BytesPart(b: seq<int>) | StrPart(s: seq<int>)

  const TWO63 := 0x8000_0000_0000_0000
  const TWO64 := 0x1_0000_0000_0000_0000

  ghost predicate PartOk(p: Part) {
    match p
    case IntPart(v) => -TWO63 <= v < TWO63
    case UintPart(u) => 0 <= u < TWO64
    case BytesPart(b) => B.Bytes(b)
    case StrPart(s) => B.Bytes(s)
  }

  function KindOf(p: Part): Kind {
    match p case IntPart(_) => IntKind case UintPart(_) => UintKind case BytesPart(_) => BytesKind case StrPart(_) => StrKind
  }

  predicate Zero(p: Part) {
    match p case IntPart(v) => v == 0 case UintPart(u) => u == 0 case BytesPart(b) => b == [] case StrPart(s) => s == []
  }

  // ---------------------------------------------------------------- fixed-width numbers

  function Pow(k: nat): nat {
    if k == 0 then 1 else 256 * Pow(k - 1)
  }

  function BigEndian(n: int, k: nat): seq<int>
    decreases k
  {
    if k == 0 then [] else BigEndian(n / 256, k - 1) + [n % 256]
  }

  function Number(b: seq<int>): int {
    if b == [] then 0 else Number(b[..|b| - 1]) * 256 + b[|b| - 1]
  }

  lemma {:induction false} NumberOfBigEndian(n: int, k: nat)
    requires 0 <= n < Pow(k)
    ensures |BigEndian(n, k)| == k && B.Bytes(BigEndian(n, k)) && Number(BigEndian(n, k)) == n
    decreases k
  {
    if k > 0 {
      NumberOfBigEndian(n / 256, k - 1);
      var b := BigEndian(n, k);
      assert b[..|b| - 1] == BigEndian(n / 256, k - 1);
    }
  }

  lemma EightBytes()
    ensures Pow(8) == TWO64
  {
    assert Pow(2) == 0x1_0000;
    assert Pow(4) == 256 * (256 * Pow(2));
    assert Pow(6) == 256 * (256 * Pow(4));
    assert Pow(8) == 256 * (256 * Pow(6));
  }

  /** Two's complement in 64 bits, both ways. */
  function Unsigned(v: int): int {
    if v < 0 then v + TWO64 else v
  }

  function Signed(u: int): int {
    if u >= TWO63 then u - TWO64 else u
  }

  // ---------------------------------------------------------------- parts as bytes

  function PartBytes(p: Part): seq<int> {
    match p
    case IntPart(v) => BigEndian(Unsigned(v), 8)
    case UintPart(u) => BigEndian(u, 8)
    case BytesPart(b) => b
    case StrPart(s) => s
  }

  /** `ParseBytes` of the default value of a kind: an integer of another width stays zero without a word,
      an unsigned one is refused. */
  function ParsePart(k: Kind, b: seq<int>): Option<Part> {
    match k
    case IntKind => Some(IntPart(if |b| in {0, 1, 2, 4, 8} then Signed(Number(b)) else 0))
    case UintKind => if |b| in {0, 1, 2, 4, 8} then Some(UintPart(Number(b))) else None
    case BytesKind => Some(BytesPart(b))
    case StrKind => Some(StrPart(b))
  }

  lemma PartRoundTrip(p: Part)
    requires PartOk(p)
    ensures ParsePart(KindOf(p), PartBytes(p)) == Some(p) && B.Bytes(PartBytes(p))
    ensures p.IntPart? || p.UintPart? ==> |PartBytes(p)| == 8
  {
    EightBytes();
    match p
    case IntPart(v) => NumberOfBigEndian(Unsigned(v), 8);
    case UintPart(u) => NumberOfBigEndian(u, 8);
    case BytesPart(_) =>
    case StrPart(_) =>
  }

  lemma NumberOfEight(b: seq<int>)
    requires |b| == 8
    ensures Number(b) == Four(b[..4]) * 0x1_0000_0000 + Four(b[4..])
  {
    assert Number(b) == Number(b[..4]) * 0x1_0000_0000 + Four(b[4..]) by {
      assert b[..7][..6] == b[..6] && b[..6][..5] == b[..5] && b[..5][..4] == b[..4];
      assert Number(b[..5]) == Number(b[..4]) * 256 + b[4];
      assert Number(b[..6]) == Number(b[..5]) * 256 + b[5];
      assert Number(b[..7]) == Number(b[..6]) * 256 + b[6];
    }
    assert b[..4][..3] == b[..3] && b[..3][..2] == b[..2] && b[..2][..1] == b[..1] && b[..1][..0] == [];
    assert Number(b[..1]) == b[0] && Number(b[..2]) == Number(b[..1]) * 256 + b[1];
    assert Number(b[..3]) == Number(b[..2]) * 256 + b[2] && Number(b[..4]) == Number(b[..3]) * 256 + b[3];
  }

  /** Four bytes as a number, the most significant first. */
  function Four(b: seq<int>): int
    requires |b| == 4
  {
    b[0] * 0x100_0000 + b[1] * 0x1_0000 + b[2] * 0x100 + b[3]
  }

  /** A number is eight bytes, the most significant first; a negative one in two's complement. */
  lemma NumberBytes(v: int)
    requires -TWO63 <= v < TWO64
    ensures v < TWO63 ==> var b := PartBytes(IntPart(v));
            |b| == 8 && B.Bytes(b) && Four(b[..4]) * 0x1_0000_0000 + Four(b[4..]) == if v < 0 then v + TWO64 else v
    ensures v >= 0 ==> var b := PartBytes(UintPart(v));
            |b| == 8 && B.Bytes(b) && Four(b[..4]) * 0x1_0000_0000 + Four(b[4..]) == v
  {
    EightBytes();
    NumberOfBigEndian(Unsigned(v), 8);
    hide BigEndian, Number, Pow, Four;
    NumberOfEight(BigEndian(Unsigned(v), 8));
  }

  /** Numbers are read from 0, 1, 2, 4 or 8 bytes, the most significant first; from other bytes an integer is
      zero and an unsigned one an error. */
  lemma OtherWidths(b: seq<int>)
    ensures |b| == 0 ==> ParsePart(IntKind, b) == Some(IntPart(0)) && ParsePart(UintKind, b) == Some(UintPart(0))
    ensures |b| == 1 && 0 <= b[0] < 256 ==>
      ParsePart(IntKind, b) == Some(IntPart(b[0])) && ParsePart(UintKind, b) == Some(UintPart(b[0]))
    ensures |b| == 2 && B.Bytes(b) ==> var n := b[0] * 256 + b[1];
      ParsePart(IntKind, b) == Some(IntPart(n)) && ParsePart(UintKind, b) == Some(UintPart(n))
    ensures |b| == 4 && B.Bytes(b) ==>
      ParsePart(IntKind, b) == Some(IntPart(Four(b))) && ParsePart(UintKind, b) == Some(UintPart(Four(b)))
    ensures |b| == 8 && B.Bytes(b) ==> var n := Four(b[..4]) * 0x1_0000_0000 + Four(b[4..]);
      && ParsePart(IntKind, b) == Some(IntPart(if n < 0x8000_0000_0000_0000 then n else n - 0x1_0000_0000_0000_0000))
      && ParsePart(UintKind, b) == Some(UintPart(n))
    ensures |b| == 3 || |b| == 5 || |b| == 6 || |b| == 7 || |b| > 8 ==>
      ParsePart(IntKind, b) == Some(IntPart(0)) && ParsePart(UintKind, b) == None
  {
    SmallNumbers(b);
    if |b| == 8 { NumberOfEight(b); }
    hide Number;
  }

  lemma SmallNumbers(b: seq<int>)
    ensures |b| == 0 ==> Number(b) == 0
    ensures |b| == 1 ==> Number(b) == b[0]
    ensures |b| == 2 ==> Number(b) == b[0] * 256 + b[1]
    ensures |b| == 4 ==> Number(b) == Four(b)
  {
    if |b| == 2 {
      assert b[..1][..0] == [] && Number(b[..1]) == b[0];
    } else if |b| == 4 {
      assert b[..3][..2] == b[..2] && b[..2][..1] == b[..1] && b[..1][..0] == [];
      assert Number(b[..1]) == b[0] && Number(b[..2]) == b[0] * 256 + b[1];
      assert Number(b[..3]) == Number(b[..2]) * 256 + b[2];
    }
  }

  // ---------------------------------------------------------------- IDs as bytes

  /** Every part behind its length, which is cut to one byte. */
  function IdBytes(vs: seq<Part>): seq<int> {
    if vs == [] then [] else [|PartBytes(vs[0])| % 256] + PartBytes(vs[0]) + IdBytes(vs[1..])
  }

  method Bytes(vs: seq<Part>) returns (b: seq<int>)
    ensures b == IdBytes(vs)
  {
    hide PartBytes;
    b := [];
    for k := 0 to |vs|
      invariant b + IdBytes(vs[k..]) == IdBytes(vs)
    {
      var vb := PartBytes(vs[k]);
      assert vs[k..][1..] == vs[k + 1..];
      assert b + ([|vb| % 256] + vb + IdBytes(vs[k + 1..])) == b + [|vb| % 256] + vb + IdBytes(vs[k + 1..]);
      b := b + [|vb| % 256];
      b := b + vb;
    }
    assert vs[|vs|..] == [] && b + [] == b;
  }

  /** What parsing ends with: the values (fields the bytes did not reach have none), an error, or an index
      out of range. */
  datatype Outcome = Parsed(values: seq<Option<Part>>) | Refused | Panicked

  function Somes(vs: seq<Part>): (r: seq<Option<Part>>)
    ensures |r| == |vs| && forall k :: 0 <= k < |vs| ==> r[k] == Some(vs[k])
  {
    seq(|vs|, k requires 0 <= k < |vs| => Some(vs[k]))
  }

  function Nones(n: nat): (r: seq<Option<Part>>)
    ensures |r| == n && forall k :: 0 <= k < n ==> r[k] == None
  {
    seq(n, k => None)
  }

  /** The values of all fields; those the bytes did not reach have none. */
  function AllFields(kinds: seq<Kind>, done: seq<Part>): seq<Option<Part>> {
    Somes(done) + Nones(if |done| <= |kinds| then |kinds| - |done| else 0)
  }

  /** The loop of `ParseIDBytes` from byte `i` with the values `done` so far. The slice may run into the
      spare capacity behind the `n` bytes; the step to the next part is added up in one byte. */
  function ParseFrom(kinds: seq<Kind>, buf: seq<int>, n: nat, i: nat, done: seq<Part>): Outcome
    requires n <= |buf| && B.Bytes(buf)
    decreases |kinds| - |done|
  {
    if i >= n then Parsed(AllFields(kinds, done))
    else if |done| >= |kinds| then Panicked
    else if i + 1 + buf[i] > |buf| then Panicked
    else match ParsePart(kinds[|done|], buf[i + 1..i + 1 + buf[i]])
      case None => Refused
      case Some(p) => ParseFrom(kinds, buf, n, i + (buf[i] + 1) % 256, done + [p])
  }

  /** `ParseIDBytes`: a single field takes all of the bytes, without a length. */
  function ParseId(kinds: seq<Kind>, buf: seq<int>, n: nat): Outcome
    requires n <= |buf| && B.Bytes(buf)
  {
    if n == 0 then Refused
    else if |kinds| == 1 then
      (match ParsePart(kinds[0], buf[..n]) case None => Refused case Some(p) => Parsed([Some(p)]))
    else ParseFrom(kinds, buf, n, 0, [])
  }

  method ParseIDBytes(kinds: seq<Kind>, buf: seq<int>, n: nat) returns (r: Outcome)
    requires n <= |buf| && B.Bytes(buf)
    ensures r == ParseId(kinds, buf, n)
  {
    hide ParsePart, AllFields, Number;
    if n == 0 { return Refused; }
    if |kinds| == 1 {
      match ParsePart(kinds[0], buf[..n])
      case None => return Refused;
      case Some(p) => return Parsed([Some(p)]);
    }
    var values: seq<Part> := [];
    var i, fi := 0, 0;
    while i < n
      invariant 0 <= i && fi == |values| && (fi <= |kinds| || i < n)
      invariant ParseFrom(kinds, buf, n, i, values) == ParseId(kinds, buf, n)
      decreases |kinds| - fi
    {
      if fi >= |kinds| || i + 1 + buf[i] > |buf| { return Panicked; }
      var tmp := buf[i + 1..i + 1 + buf[i]];
      match ParsePart(kinds[fi], tmp) {
        case None => return Refused;
        case Some(p) => values := values + [p];
      }
      i := i + (buf[i] + 1) % 256;
      fi := fi + 1;
    }
    r := Parsed(AllFields(kinds, values));
  }

  // ---------------------------------------------------------------- when parsing undoes the byte form

  ghost predicate AllOk(vs: seq<Part>) {
    forall k :: 0 <= k < |vs| ==> PartOk(vs[k])
  }

  function Kinds(vs: seq<Part>): (r: seq<Kind>)
    ensures |r| == |vs| && forall k :: 0 <= k < |vs| ==> r[k] == KindOf(vs[k])
  {
    seq(|vs|, k requires 0 <= k < |vs| => KindOf(vs[k]))
  }

  lemma {:induction false} IdBytesAreBytes(vs: seq<Part>)
    requires AllOk(vs)
    ensures B.Bytes(IdBytes(vs)) && |IdBytes(vs)| >= |vs|
    decreases |vs|
  {
    if vs != [] {
      PartRoundTrip(vs[0]);
      IdBytesAreBytes(vs[1..]);
    }
  }

  lemma {:induction false} IdBytesSplit(vs: seq<Part>, k: nat)
    requires k < |vs|
    ensures IdBytes(vs[k..]) == [|PartBytes(vs[k])| % 256] + PartBytes(vs[k]) + IdBytes(vs[k + 1..])
  {
    assert vs[k..][1..] == vs[k + 1..];
  }

  lemma Slices(buf: seq<int>, i: nat, n: nat, h: int, p: seq<int>, rest: seq<int>)
    requires i <= n <= |buf| && buf[i..n] == [h] + p + rest
    ensures var j := i + 1 + |p|; j <= n && buf[i] == h && buf[i + 1..j] == p && buf[j..n] == rest
  {
    var j, t := i + 1 + |p|, buf[i..n];
    assert |t| == n - i && t[0] == buf[i];
    forall k | 0 <= k < |p| ensures buf[i + 1..j][k] == p[k] { assert t[1 + k] == buf[i + 1 + k]; }
    forall k | 0 <= k < |rest| ensures buf[j..n][k] == rest[k] { assert t[1 + |p| + k] == buf[j + k]; }
  }

  lemma ParseStep(kinds: seq<Kind>, buf: seq<int>, n: nat, i: nat, done: seq<Part>, l: nat, p: Part)
    requires n <= |buf| && B.Bytes(buf) && i < n && |done| < |kinds| && buf[i] == l <= 254 && i + 1 + l <= |buf|
    requires ParsePart(kinds[|done|], buf[i + 1..i + 1 + l]) == Some(p)
    ensures ParseFrom(kinds, buf, n, i, done) == ParseFrom(kinds, buf, n, i + 1 + l, done + [p])
  {
    hide ParsePart, Somes, Nones;
    assert i + (buf[i] + 1) % 256 == i + 1 + l;
  }

  lemma OkAt(vs: seq<Part>, k: nat)
    requires AllOk(vs) && k < |vs|
    ensures PartOk(vs[k])
  {
    hide PartOk;
  }

  /** The part at the front of the unread bytes is read back if its length fits. */
  lemma OnePart(kinds: seq<Kind>, vs: seq<Part>, buf: seq<int>, n: nat, i: nat, k: nat)
    requires AllOk(vs) && k < |vs| && k < |kinds| && kinds[k] == KindOf(vs[k]) && B.Bytes(buf) && i <= n <= |buf|
    requires buf[i..n] == IdBytes(vs[k..]) && |PartBytes(vs[k])| <= 254
    ensures var l := |PartBytes(vs[k])|;
            && i + 1 + l <= n && buf[i + 1 + l..n] == IdBytes(vs[k + 1..])
            && ParseFrom(kinds, buf, n, i, vs[..k]) == ParseFrom(kinds, buf, n, i + 1 + l, vs[..k + 1])
  {
    hide *;
    OkAt(vs, k);
    var p := PartBytes(vs[k]);
    IdBytesSplit(vs, k);
    PartRoundTrip(vs[k]);
    Slices(buf, i, n, |p| % 256, p, IdBytes(vs[k + 1..]));
    assert |vs[..k]| == k;
    ParseStep(kinds, buf, n, i, vs[..k], |p|, vs[k]);
    assert vs[..k] + [vs[k]] == vs[..k + 1];
  }

  /** No part from the k-th on takes more than 254 bytes. */
  ghost predicate ShortFrom(vs: seq<Part>, k: nat) {
    forall j :: k <= j < |vs| ==> |PartBytes(vs[j])| <= 254
  }

  ghost predicate Short(vs: seq<Part>) {
    ShortFrom(vs, 0)
  }

  lemma ShortStep(vs: seq<Part>, k: nat)
    requires k < |vs|
    ensures ShortFrom(vs, k) <==> |PartBytes(vs[k])| <= 254 && ShortFrom(vs, k + 1)
    ensures ShortFrom(vs, |vs|)
  {
    hide PartBytes;
  }

  lemma NothingLeft(kinds: seq<Kind>, vs: seq<Part>, buf: seq<int>, n: nat, i: nat)
    requires |vs| <= |kinds| && B.Bytes(buf) && i <= n <= |buf| && buf[i..n] == IdBytes([])
    ensures ParseFrom(kinds, buf, n, i, vs) == Parsed(Somes(vs) + Nones(|kinds| - |vs|))
  {
    assert |buf[i..n]| == 0;
  }

  lemma TooMuch(kinds: seq<Kind>, vs: seq<Part>, buf: seq<int>, n: nat, i: nat)
    requires |kinds| < |vs| && B.Bytes(buf) && i <= n <= |buf| && buf[i..n] == IdBytes(vs[|kinds|..])
    ensures ParseFrom(kinds, buf, n, i, vs[..|kinds|]) == Panicked
  {
    IdBytesSplit(vs, |kinds|);
    assert |buf[i..n]| > 0;
  }

  /** The fields are those of the values as far as there are both. */
  ghost predicate Agreeing(kinds: seq<Kind>, vs: seq<Part>) {
    forall j :: 0 <= j < |vs| && j < |kinds| ==> kinds[j] == KindOf(vs[j])
  }

  lemma AgreeingAt(kinds: seq<Kind>, vs: seq<Part>, k: nat)
    requires Agreeing(kinds, vs) && k < |vs| && k < |kinds|
    ensures kinds[k] == KindOf(vs[k])
  {
    hide KindOf;
  }

  lemma {:induction false} ShortParses(kinds: seq<Kind>, vs: seq<Part>, buf: seq<int>, n: nat, i: nat, k: nat)
    requires AllOk(vs) && ShortFrom(vs, k) && k <= |vs| && k <= |kinds| && Agreeing(kinds, vs)
    requires B.Bytes(buf) && i <= n <= |buf| && buf[i..n] == IdBytes(vs[k..])
    ensures ParseFrom(kinds, buf, n, i, vs[..k]) ==
            if |vs| <= |kinds| then Parsed(Somes(vs) + Nones(|kinds| - |vs|)) else Panicked
    decreases |vs| - k
  {
    hide *;
    if k == |vs| {
      assert vs[..k] == vs && vs[k..] == [];
      NothingLeft(kinds, vs, buf, n, i);
    } else if k == |kinds| {
      TooMuch(kinds, vs, buf, n, i);
    } else {
      ShortStep(vs, k);
      AgreeingAt(kinds, vs, k);
      OnePart(kinds, vs, buf, n, i, k);
      ShortParses(kinds, vs, buf, n, i + 1 + |PartBytes(vs[k])|, k + 1);
    }
  }

  /** A length byte of 255 is never left: the step wraps around to zero. */
  lemma {:induction false} StuckAt255(kinds: seq<Kind>, buf: seq<int>, n: nat, i: nat, done: seq<Part>)
    requires n <= |buf| && B.Bytes(buf) && i < n && buf[i] == 255
    ensures !ParseFrom(kinds, buf, n, i, done).Parsed?
    decreases |kinds| - |done|
  {
    hide ParsePart, Somes, Nones;
    if |done| < |kinds| && i + 1 + buf[i] <= |buf| {
      match ParsePart(kinds[|done|], buf[i + 1..i + 1 + buf[i]])
      case None =>
      case Some(p) =>
        assert i + (buf[i] + 1) % 256 == i;
        StuckAt255(kinds, buf, n, i, done + [p]);
    }
  }

  lemma {:induction false} ParsedKeeps(kinds: seq<Kind>, buf: seq<int>, n: nat, i: nat, done: seq<Part>)
    requires n <= |buf| && B.Bytes(buf) && ParseFrom(kinds, buf, n, i, done).Parsed?
    ensures var r := ParseFrom(kinds, buf, n, i, done).values;
            |r| >= |done| && forall k :: 0 <= k < |done| ==> r[k] == Some(done[k])
    decreases |kinds| - |done|
  {
    hide ParsePart;
    if i < n {
      var p := ParsePart(kinds[|done|], buf[i + 1..i + 1 + buf[i]]).value;
      ParsedKeeps(kinds, buf, n, i + (buf[i] + 1) % 256, done + [p]);
      assert forall k :: 0 <= k < |done| ==> (done + [p])[k] == done[k];
    }
  }

  lemma CutPart(kinds: seq<Kind>, vs: seq<Part>, buf: seq<int>, n: nat, i: nat, k: nat)
    requires AllOk(vs) && k < |vs| && kinds == Kinds(vs) && B.Bytes(buf) && i < n <= |buf|
    requires !vs[k].IntPart? && !vs[k].UintPart?
    requires var l := |PartBytes(vs[k])|; l > 255 && l % 256 != 255 && buf[i] == l % 256 && i + 1 + l <= n
    ensures ParseFrom(kinds, buf, n, i, vs[..k]) != Parsed(Somes(vs))
  {
    var p := ParsePart(kinds[k], buf[i + 1..i + 1 + buf[i]]).value;
    assert p != vs[k];
    var done := vs[..k] + [p];
    hide ParsePart, PartBytes;
    assert done[k] == p && Somes(vs)[k] == Some(vs[k]);
    if ParseFrom(kinds, buf, n, i + (buf[i] + 1) % 256, done).Parsed? {
      ParsedKeeps(kinds, buf, n, i + (buf[i] + 1) % 256, done);
    }
  }

  lemma LongPart(kinds: seq<Kind>, vs: seq<Part>, buf: seq<int>, n: nat, i: nat, k: nat)
    requires AllOk(vs) && k < |vs| && |PartBytes(vs[k])| > 254 && kinds == Kinds(vs) && B.Bytes(buf) && i <= n <= |buf|
    requires buf[i..n] == IdBytes(vs[k..])
    ensures ParseFrom(kinds, buf, n, i, vs[..k]) != Parsed(Somes(vs))
  {
    var l := |PartBytes(vs[k])|;
    PartRoundTrip(vs[k]);
    IdBytesSplit(vs, k);
    var p := PartBytes(vs[k]);
    hide *;
    Slices(buf, i, n, l % 256, p, IdBytes(vs[k + 1..]));
    if l % 256 == 255 {
      StuckAt255(kinds, buf, n, i, vs[..k]);
    } else {
      CutPart(kinds, vs, buf, n, i, k);
    }
  }

  /** The first part whose length does not fit spoils the result. */
  lemma {:induction false} LongSpoils(kinds: seq<Kind>, vs: seq<Part>, buf: seq<int>, n: nat, i: nat, k: nat)
    requires AllOk(vs) && k < |vs| && !ShortFrom(vs, k) && kinds == Kinds(vs) && B.Bytes(buf) && i <= n <= |buf|
    requires buf[i..n] == IdBytes(vs[k..])
    ensures ParseFrom(kinds, buf, n, i, vs[..k]) != Parsed(Somes(vs))
    decreases |vs| - k
  {
    hide *;
    ShortStep(vs, k);
    if |PartBytes(vs[k])| <= 254 {
      OnePart(kinds, vs, buf, n, i, k);
      LongSpoils(kinds, vs, buf, n, i + 1 + |PartBytes(vs[k])|, k + 1);
    } else {
      LongPart(kinds, vs, buf, n, i, k);
    }
  }

  /** The byte form of two or more fields parses back, whatever capacity is left behind it, exactly when no
      part takes more than 254 bytes. */
  lemma BytesRoundTripExactly(vs: seq<Part>, spare: seq<int>)
    requires |vs| >= 2 && AllOk(vs) && B.Bytes(spare)
    ensures B.Bytes(IdBytes(vs) + spare)
    ensures ParseId(Kinds(vs), IdBytes(vs) + spare, |IdBytes(vs)|) == Parsed(Somes(vs)) <==> Short(vs)
  {
    var b := IdBytes(vs);
    IdBytesAreBytes(vs);
    var buf := b + spare;
    assert B.Bytes(buf);
    hide IdBytes, AllOk, ParseFrom, Short, Somes, Kinds;
    assert buf[0..|b|] == b && vs[0..] == vs && vs[..0] == [];
    if Short(vs) {
      OwnKinds(vs);
      ShortParses(Kinds(vs), vs, buf, |b|, 0, 0);
    } else {
      LongSpoils(Kinds(vs), vs, buf, |b|, 0, 0);
    }
  }

  lemma OwnKinds(vs: seq<Part>)
    ensures Agreeing(Kinds(vs), vs) && |Kinds(vs)| == |vs| && Somes(vs) + Nones(0) == Somes(vs)
  {
    hide KindOf;
  }

  /** Bytes of fewer values than fields are taken without a word, and the rest of the fields has no value;
      bytes of more values end in an index out of range. */
  lemma OtherCount(kinds: seq<Kind>, vs: seq<Part>)
    requires |kinds| >= 2 && AllOk(vs) && Short(vs) && Agreeing(kinds, vs) && vs != []
    ensures B.Bytes(IdBytes(vs))
    ensures var r := ParseId(kinds, IdBytes(vs), |IdBytes(vs)|);
            if |vs| <= |kinds|
            then r.Parsed? && |r.values| == |kinds| &&
                 forall k :: 0 <= k < |kinds| ==> r.values[k] == if k < |vs| then Some(vs[k]) else None
            else r.Panicked?
  {
    IdBytesAreBytes(vs);
    var b := IdBytes(vs);
    assert b[0..|b|] == b && vs[0..] == vs && vs[..0] == [];
    hide IdBytes, AllOk, Kinds, ParseFrom;
    ShortParses(kinds, vs, b, |b|, 0, 0);
  }

  /** So IDs of the same fields with short parts have different byte forms. */
  lemma BytesInjective(vs: seq<Part>, ws: seq<Part>)
    requires |vs| >= 2 && AllOk(vs) && AllOk(ws) && Short(vs) && Short(ws) && Kinds(vs) == Kinds(ws)
    requires IdBytes(vs) == IdBytes(ws)
    ensures vs == ws
  {
    BytesRoundTripExactly(vs, []);
    BytesRoundTripExactly(ws, []);
    assert |vs| == |Kinds(vs)| == |ws|;
    forall k | 0 <= k < |vs| ensures vs[k] == ws[k] {
      assert Somes(vs)[k] == Somes(ws)[k];
    }
  }

  /** The byte form of a single field has a length byte that parsing does not expect: only the integer zero
      comes back. */
  lemma SingleFieldBytes(v: Part)
    requires PartOk(v)
    ensures B.Bytes(IdBytes([v]))
    ensures ParseId([KindOf(v)], IdBytes([v]), |IdBytes([v])|) == Parsed([Some(v)]) <==> v == IntPart(0)
  {
    assert [v][1..] == [] && IdBytes([v]) == [|PartBytes(v)| % 256] + PartBytes(v) + [];
    PartRoundTrip(v);
    var b := IdBytes([v]);
    assert b[..|b|] == b && |b| == 1 + |PartBytes(v)|;
  }

  // ---------------------------------------------------------------- the text form

  function Decimal(n: nat): seq<int> {
    if n < 10 then [48 + n] else Decimal(n / 10) + [48 + n % 10]
  }

  function Digits(s: seq<int>): Option<int> {
    if s == [] then Some(0)
    else if !(48 <= s[|s| - 1] < 58) then None
    else match Digits(s[..|s| - 1]) case None => None case Some(n) => Some(n * 10 + s[|s| - 1] - 48)
  }

  lemma {:induction false} DecimalReads(n: nat)
    ensures Decimal(n) != [] && Decimal(n)[0] != 45 && Decimal(n)[0] != 43 && Digits(Decimal(n)) == Some(n)
    decreases n
  {
    var s := Decimal(n);
    if n < 10 {
      assert s[..|s| - 1] == [];
    } else {
      DecimalReads(n / 10);
      assert s[..|s| - 1] == Decimal(n / 10);
    }
  }

  /** `ParseInt(s, 10, 64)` and `ParseUint(s, 10, 64)`. */
  function ParseInt(s: seq<int>): Option<int> {
    var sign := s != [] && (s[0] == 45 || s[0] == 43);
    var digits := if sign then s[1..] else s;
    if digits == [] || Digits(digits).None? then None else
    var v := if sign && s[0] == 45 then -Digits(digits).value else Digits(digits).value;
    if -TWO63 <= v < TWO63 then Some(v) else None
  }

  function ParseUint(s: seq<int>): Option<int> {
    if s == [] || Digits(s).None? || Digits(s).value >= TWO64 then None else Some(Digits(s).value)
  }

  lemma {:induction false} DigitsExactly(s: seq<int>)
    ensures Digits(s).Some? <==> forall c <- s :: 48 <= c <= 57
    ensures Digits(s).Some? ==> Digits(s).value >= 0
    decreases |s|
  {
    if s != [] {
      var front, last := s[..|s| - 1], s[|s| - 1];
      assert s == front + [last] && last in s && forall c <- front :: c in s;
      DigitsExactly(front);
    }
  }

  /** Numbers are read from decimal digits only, with a sign in front for integers, and only in range. */
  lemma ReadsDigits(s: seq<int>)
    ensures (Digits(s).Some? <==> forall c <- s :: 48 <= c <= 57)
    ensures ParseUint(s).Some? <==>
            s != [] && Digits(s).Some? && Digits(s).value < 0x1_0000_0000_0000_0000
    ensures var t := if s != [] && s[0] in {43, 45} then s[1..] else s;
            ParseInt(s).Some? <==>
            t != [] && Digits(t).Some? &&
            Digits(t).value <= if s[0] == 45 then 0x8000_0000_0000_0000 else 0x7fff_ffff_ffff_ffff
  {
    DigitsExactly(s);
    if s != [] { DigitsExactly(s[1..]); }
  }

  function PartString(p: Part): seq<int>
    requires PartOk(p)
  {
    match p
    case IntPart(v) => if v < 0 then [45] + Decimal(-v) else Decimal(v)
    case UintPart(u) => Decimal(u)
    case BytesPart(b) => B.Encode(b, true)
    case StrPart(s) => s
  }

  /** A number is written in decimal, the last digit behind the others, with a minus in front if negative. */
  lemma NumberText(n: int)
    requires 0 <= n < TWO64
    ensures var s := PartString(UintPart(n));
            if n < 10 then s == [48 + n] else s == PartString(UintPart(n / 10)) + [48 + n % 10]
    ensures n < TWO63 ==> PartString(IntPart(n)) == PartString(UintPart(n))
    ensures 0 < n <= TWO63 ==> PartString(IntPart(-n)) == [45] + PartString(UintPart(n))
  {
  }

  /** What parsing a text ends with. `Garbled` is bytes from text that is no base64url: the error is dropped
      and the bytes decoded so far are returned, which are not part of this model. */
  datatype TextOutcome = Read(outcome: Outcome) | Garbled

  function ParsePartString(k: Kind, s: seq<int>): TextOutcome {
    match k
    case IntKind => Read(if ParseInt(s).Some? then Parsed([Some(IntPart(ParseInt(s).value))]) else Refused)
    case UintKind => Read(if ParseUint(s).Some? then Parsed([Some(UintPart(ParseUint(s).value))]) else Refused)
    case BytesKind => (
      match B.Decode(s, true) case None => Garbled case Some(b) => Read(Parsed([Some(BytesPart(b))])))
    case StrKind => Read(Parsed([Some(StrPart(s))]))
  }

  predicate IsZero(vs: seq<Part>) {
    vs == [] || exists k :: 0 <= k < |vs| && Zero(vs[k])
  }

  /** `Id.String`. */
  function IdString(vs: seq<Part>): seq<int>
    requires AllOk(vs)
  {
    IdBytesAreBytes(vs);
    if IsZero(vs) then [] else if |vs| == 1 then PartString(vs[0]) else B.Encode(IdBytes(vs), true)
  }

  /** `ParseIDString`. */
  function ParseString(kinds: seq<Kind>, s: seq<int>): TextOutcome {
    if s == [] then Read(Refused)
    else if |kinds| == 1 then ParsePartString(kinds[0], s)
    else match B.Decode(s, true)
      case None => Read(Refused)
      case Some(b) => Read(if B.Bytes(b) then ParseId(kinds, b, |b|) else Refused)
  }

  lemma PartStringRoundTrip(p: Part)
    requires PartOk(p) && !Zero(p)
    ensures PartString(p) != [] && ParsePartString(KindOf(p), PartString(p)) == Read(Parsed([Some(p)]))
  {
    match p
    case IntPart(v) =>
      var n := if v < 0 then -v else v;
      DecimalReads(n);
      if v < 0 { assert ([45] + Decimal(n))[1..] == Decimal(n); }
    case UintPart(u) => DecimalReads(u);
    case BytesPart(b) =>
      B.DecodeEncode(b, true);
      B.SextetsBelow(b);
    case StrPart(s) =>
  }

  lemma TextNotEmpty(vs: seq<Part>)
    requires AllOk(vs) && !IsZero(vs)
    ensures IdString(vs) != []
  {
    if |vs| == 1 {
      hide PartString, ParsePartString;
      PartStringRoundTrip(vs[0]);
    } else {
      hide Zero, PartBytes, PartOk, Short;
      IdBytesAreBytes(vs);
      assert IdBytes(vs) != [];
      hide IdBytes;
      B.SextetsBelow(IdBytes(vs));
      assert B.Encode(IdBytes(vs), true) != [] by { B.WriteTake(B.Sextets(IdBytes(vs)), 0, true); }
    }
  }

  /** The text form is empty exactly if there is no field or one of them is zero or empty. */
  lemma EmptyTextExactly(vs: seq<Part>)
    requires AllOk(vs)
    ensures IdString(vs) == [] <==>
            vs == [] || exists k :: 0 <= k < |vs| && vs[k] in {IntPart(0), UintPart(0), BytesPart([]), StrPart([])}
  {
    if !IsZero(vs) { TextNotEmpty(vs); }
    hide IdString;
    assert forall k :: 0 <= k < |vs| ==> (Zero(vs[k]) <==> vs[k] in {IntPart(0), UintPart(0), BytesPart([]), StrPart([])});
    if IsZero(vs) { EmptyWhenZero(vs); }
  }

  lemma EmptyWhenZero(vs: seq<Part>)
    requires AllOk(vs) && IsZero(vs)
    ensures IdString(vs) == []
  {
  }

  /** The text form parses back: always for one field, and for more exactly when every part is short. A zero
      ID has no text form at all. */
  lemma StringRoundTripExactly(vs: seq<Part>)
    requires AllOk(vs) && vs != []
    ensures ParseString(Kinds(vs), IdString(vs)) == Read(Parsed(Somes(vs))) <==> !IsZero(vs) && (|vs| == 1 || Short(vs))
  {
    if !IsZero(vs) {
      if |vs| == 1 {
        hide PartString, ParsePartString;
        PartStringRoundTrip(vs[0]);
        assert Somes(vs) == [Some(vs[0])];
      } else {
        hide Zero, PartBytes, PartOk, ParseId, IdBytes, Short;
        IdBytesAreBytes(vs);
        var b := IdBytes(vs);
        B.DecodeEncode(b, true);
        B.SextetsBelow(b);
        BytesRoundTripExactly(vs, []);
        assert b + [] == b;
        assert B.Encode(b, true) != [] by { B.WriteTake(B.Sextets(b), 0, true); }
      }
    }
  }
}
