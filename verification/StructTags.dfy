/** Looking up a key in a struct tag, byte by byte. */
module StructTags {
  import opened Lists

  const COLON := 58
  const QUOTE := 34
  const BACKSLASH := 92
  const BACKTICK := 96
  const RETURN := 13

  predicate Space(c: int) {
    c == 32 || c == 10 || c == 9 || c == RETURN
  }

  predicate NameByte(c: int) {
    c > 32 && c != COLON && c != QUOTE && c != 0x7f
  }

  // ---------------------------------------------------------------- the scans

  function SkipSpaces(t: seq<int>): (r: seq<int>)
    ensures |r| <= |t|
  {
    if t != [] && Space(t[0]) then SkipSpaces(t[1..]) else t
  }

  function NameLength(t: seq<int>): (n: nat)
    ensures n <= |t|
  {
    if t != [] && NameByte(t[0]) then 1 + NameLength(t[1..]) else 0
  }

  /** The length of the quoted text that starts at the front of `t`; a backslash takes the next byte with
      it, which may be one too many. */
  function QuotedLength(t: seq<int>): (n: nat)
    ensures n <= |t| + 1
  {
    if t == [] || t[0] == QUOTE then 0
    else if t[0] == BACKSLASH then (if |t| == 1 then 2 else 2 + QuotedLength(t[2..]))
    else 1 + QuotedLength(t[1..])
  }

  function StripReturns(v: seq<int>): seq<int> {
    if v == [] then [] else (if v[0] == RETURN then [] else [v[0]]) + StripReturns(v[1..])
  }

  /** `Unquote` of the text between backticks. */
  function Unquote(v: seq<int>): Option<seq<int>> {
    if BACKTICK in v then None else Some(StripReturns(v))
  }

  /** What looking up a key finds: the value of its first pair in the part of the tag that is well formed. */
  function Found(tag: seq<int>, key: seq<int>): Option<seq<int>>
    decreases |tag|
  {
    var t := SkipSpaces(tag);
    var n := NameLength(t);
    if t == [] || n == 0 || n + 1 >= |t| || t[n] != COLON || t[n + 1] != QUOTE then None else
    var q := t[n + 2..];
    var e := QuotedLength(q);
    if e >= |q| then None
    else if t[..n] == key then Unquote(q[..e])
    else Found(q[e + 1..], key)
  }

  method SkipLeadingSpace(tag: seq<int>) returns (i: nat)
    ensures i <= |tag| && tag[i..] == SkipSpaces(tag)
  {
    i := 0;
    while i < |tag| && Space(tag[i])
      invariant i <= |tag| && SkipSpaces(tag[i..]) == SkipSpaces(tag)
    {
      assert tag[i..][1..] == tag[i + 1..];
      i := i + 1;
    }
  }

  method ScanName(tag: seq<int>) returns (i: nat)
    ensures i == NameLength(tag)
  {
    i := 0;
    while i < |tag| && NameByte(tag[i])
      invariant i <= |tag| && NameLength(tag) == i + NameLength(tag[i..])
    {
      assert tag[i..][1..] == tag[i + 1..];
      i := i + 1;
    }
  }

  /** Scans from the byte behind the opening quote; `i` ends on the closing one, or at or one past the end. */
  method ScanQuoted(tag: seq<int>) returns (i: nat)
    requires tag != []
    ensures 1 <= i && i - 1 == QuotedLength(tag[1..])
  {
    ghost var q := tag[1..];
    i := 1;
    while i < |tag| && tag[i] != QUOTE
      invariant 1 <= i <= |tag| + 1
      invariant QuotedLength(q) == if i <= |tag| then i - 1 + QuotedLength(tag[i..]) else i - 1
    {
      assert tag[i..][1..] == tag[i + 1..];
      assert i + 2 <= |tag| ==> tag[i..][2..] == tag[i + 2..];
      if tag[i] == BACKSLASH {
        i := i + 1;
      }
      i := i + 1;
    }
  }

  /** `StructTag.Lookup`: it ends, and reads no byte outside the tag. */
  method Lookup(tag0: seq<int>, key: seq<int>) returns (value: seq<int>, ok: bool)
    ensures ok <==> Found(tag0, key).Some?
    ensures value == if ok then Found(tag0, key).value else []
  {
    assert SkipSpaces([]) == [];
    hide Unquote, NameLength, QuotedLength, SkipSpaces;
    var tag := tag0;
    while tag != []
      invariant Found(tag0, key) == Found(tag, key)
      decreases |tag|
    {
      var i := SkipLeadingSpace(tag);
      tag := tag[i..];
      if tag == [] { break; }
      i := ScanName(tag);
      if i == 0 || i + 1 >= |tag| || tag[i] != COLON || tag[i + 1] != QUOTE { break; }
      var name := tag[..i];
      ghost var q := tag[i + 2..];
      tag := tag[i + 1..];
      assert tag[1..] == q;
      i := ScanQuoted(tag);
      if i >= |tag| { break; }
      if key == name {
        var qvalue := tag[1..i];
        assert qvalue == q[..i - 1];
        match Unquote(qvalue) {
          case None => break;
          case Some(v) => return v, true;
        }
      }
      assert tag[i + 1..] == q[i..];
      tag := tag[i + 1..];
    }
    assert tag == [] ==> Found(tag, key).None?;
    return [], false;
  }

  // ---------------------------------------------------------------- tags that were written properly

  /** A pair as it is written: white space before it, the name, and the value between quotes. */
  datatype Pair = Pair(space: seq<int>, name: seq<int>, value: seq<int>)

  /** No quote without a backslash, no backslash at the end. */
  predicate Escaped(v: seq<int>) {
    v == [] || (v[0] != QUOTE && (if v[0] == BACKSLASH then |v| >= 2 && Escaped(v[2..]) else Escaped(v[1..])))
  }

  /** Blank, tab and line ends. */
  ghost predicate White(s: seq<int>) {
    forall c <- s :: c in {32, 9, 10, 13}
  }

  /** A name has no byte up to the blank, no colon, no quote and no 0x7f. */
  ghost predicate PairOk(p: Pair) {
    && White(p.space) && Escaped(p.value)
    && p.name != [] && forall c <- p.name :: c > 32 && c !in {58, 34, 127}
  }

  function Written(ps: seq<Pair>, end: seq<int>): seq<int> {
    if ps == [] then end
    else ps[0].space + (ps[0].name + ([COLON, QUOTE] + (ps[0].value + ([QUOTE] + Written(ps[1..], end)))))
  }

  /** The value of the first pair with the key, as it was written. */
  function First(ps: seq<Pair>, key: seq<int>): Option<seq<int>> {
    if ps == [] then None else if ps[0].name == key then Some(ps[0].value) else First(ps[1..], key)
  }

  lemma {:induction false} SkipAll(s: seq<int>, rest: seq<int>)
    requires (forall k :: 0 <= k < |s| ==> Space(s[k])) && (rest == [] || !Space(rest[0]))
    ensures SkipSpaces(s + rest) == rest
    decreases |s|
  {
    if s == [] {
      assert s + rest == rest;
    } else {
      assert (s + rest)[1..] == s[1..] + rest;
      SkipAll(s[1..], rest);
    }
  }

  lemma {:induction false} NameAll(s: seq<int>, rest: seq<int>)
    requires (forall k :: 0 <= k < |s| ==> NameByte(s[k])) && rest != [] && !NameByte(rest[0])
    ensures NameLength(s + rest) == |s|
    decreases |s|
  {
    if s == [] {
      assert s + rest == rest;
    } else {
      assert (s + rest)[1..] == s[1..] + rest;
      NameAll(s[1..], rest);
    }
  }

  lemma {:induction false} QuotedAll(v: seq<int>, rest: seq<int>)
    requires Escaped(v) && rest != [] && rest[0] == QUOTE
    ensures QuotedLength(v + rest) == |v|
    decreases |v|
  {
    if v == [] {
      assert v + rest == rest;
    } else if v[0] == BACKSLASH {
      assert (v + rest)[2..] == v[2..] + rest;
      QuotedAll(v[2..], rest);
    } else {
      assert (v + rest)[1..] == v[1..] + rest;
      QuotedAll(v[1..], rest);
    }
  }

  lemma FoundStep(tag: seq<int>, key: seq<int>)
    requires var t := SkipSpaces(tag);
             var n := NameLength(t);
             0 < n && n + 1 < |t| && t[n] == COLON && t[n + 1] == QUOTE && QuotedLength(t[n + 2..]) < |t[n + 2..]|
    ensures var t := SkipSpaces(tag);
            var n := NameLength(t);
            var q := t[n + 2..];
            var e := QuotedLength(q);
            Found(tag, key) == if t[..n] == key then Unquote(q[..e]) else Found(q[e + 1..], key)
  {
    hide Unquote, SkipSpaces, NameLength, QuotedLength;
  }

  lemma PairBytes(p: Pair)
    requires PairOk(p)
    ensures forall i :: 0 <= i < |p.space| ==> Space(p.space[i])
    ensures p.name != [] && !Space(p.name[0]) && forall i :: 0 <= i < |p.name| ==> NameByte(p.name[i])
  {
    forall i | 0 <= i < |p.space| ensures Space(p.space[i]) { assert p.space[i] in p.space; }
    forall i | 0 <= i < |p.name| ensures NameByte(p.name[i]) { assert p.name[i] in p.name; }
  }

  lemma Layout(name: seq<int>, value: seq<int>, rest: seq<int>)
    ensures var d := [QUOTE] + rest;
            var q := value + d;
            var b := [COLON, QUOTE] + q;
            var t, n, e := name + b, |name|, |value|;
            && n + 1 < |t| && t[..n] == name && t[n] == COLON && t[n + 1] == QUOTE && t[n + 2..] == q
            && e < |q| && q[..e] == value && q[e + 1..] == rest && (name != [] ==> t[0] == name[0])
  {
  }

  /** One written pair is read as it was written. */
  lemma PairRead(p: Pair, rest: seq<int>, key: seq<int>)
    requires PairOk(p)
    ensures Found(p.space + (p.name + ([COLON, QUOTE] + (p.value + ([QUOTE] + rest)))), key) ==
            if p.name == key then Unquote(p.value) else Found(rest, key)
  {
    PairBytes(p);
    Layout(p.name, p.value, rest);
    assert Escaped(p.value) && !NameByte(COLON);
    hide Unquote, Found, SkipSpaces, NameLength, QuotedLength, PairOk, Escaped, Space, NameByte;
    var d := [QUOTE] + rest;
    var q := p.value + d;
    var b := [COLON, QUOTE] + q;
    SkipAll(p.space, p.name + b);
    NameAll(p.name, b);
    QuotedAll(p.value, d);
    FoundStep(p.space + (p.name + b), key);
  }

  /** Unquoting drops the carriage returns and refuses a backtick. */
  lemma {:induction false} Stripped(v: seq<int>)
    ensures Leaves(StripReturns(v), v, c => c == 13)
    decreases |v|
  {
    hide Leaves;
    if v == [] {
      NothingLeft();
    } else {
      Stripped(v[1..]);
      LeavesNext(StripReturns(v[1..]), v[1..], c => c == 13, v[0]);
      assert v == [v[0]] + v[1..];
    }
  }

  lemma NothingLeft()
    ensures Leaves<int>([], [], c => c == 13)
  {
  }

  /** What a value that was written reads as: not at all with a backtick in it, otherwise without its carriage
      returns. */
  ghost predicate ReadsAs(v: seq<int>, r: Option<seq<int>>) {
    if 96 in v then r == None else r.Some? && Leaves(r.value, v, c => c == 13)
  }

  /** On every tag made of legal keys and well-escaped values, with any white space between them, looking up
      a key gives the first value written for it; where there is none, nothing. */
  lemma {:induction false} WrittenTagsRead(ps: seq<Pair>, end: seq<int>, key: seq<int>)
    requires (forall k :: 0 <= k < |ps| ==> PairOk(ps[k])) && White(end)
    ensures First(ps, key).None? ==> Found(Written(ps, end), key).None?
    ensures First(ps, key).Some? ==>
      Found(Written(ps, end), key) == Unquote(First(ps, key).value) && ReadsAs(First(ps, key).value, Found(Written(ps, end), key))
    decreases |ps|
  {
    if ps == [] {
      forall i | 0 <= i < |end| ensures Space(end[i]) { assert end[i] in end; }
      SkipAll(end, []);
      assert end + [] == end;
    } else {
      hide Found, Leaves;
      PairRead(ps[0], Written(ps[1..], end), key);
      Stripped(ps[0].value);
      WrittenTagsRead(ps[1..], end, key);
    }
  }

  /** A tag that begins with a byte that is neither white space nor part of a name holds nothing. */
  lemma BadStart(tag: seq<int>, key: seq<int>)
    requires tag != [] && tag[0] !in {32, 9, 10, 13} && (tag[0] <= 32 || tag[0] in {58, 34, 127})
    ensures Found(tag, key).None?
  {
  }

  lemma {:induction false} NothingToStrip(v: seq<int>)
    ensures StripReturns(v) == v <==> RETURN !in v
    ensures |StripReturns(v)| <= |v|
    decreases |v|
  {
    if v != [] {
      NothingToStrip(v[1..]);
      assert v == [v[0]] + v[1..];
      if v[0] != RETURN {
        assert StripReturns(v)[1..] == StripReturns(v[1..]);
      }
    }
  }

  /** A value comes back verbatim exactly when it has neither backtick nor carriage return. */
  lemma VerbatimExactly(ps: seq<Pair>, end: seq<int>, key: seq<int>)
    requires (forall k :: 0 <= k < |ps| ==> PairOk(ps[k])) && White(end)
    ensures First(ps, key).None? ==> Found(Written(ps, end), key).None?
    ensures First(ps, key).Some? ==>
      var v := First(ps, key).value;
      (Found(Written(ps, end), key) == Some(v) <==> 96 !in v && 13 !in v)
  {
    WrittenTagsRead(ps, end, key);
    if First(ps, key).Some? { NothingToStrip(First(ps, key).value); }
  }
}
