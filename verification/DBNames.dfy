/** Column names from field names (ASCII codes), and the cache in front of the conversion. */
module DBNames {
  import opened Lists

  const UNDERSCORE := 95

  predicate Capital(c: int) { 65 <= c <= 90 }
  predicate DigitChar(c: int) { 48 <= c <= 57 }

  function LowerChar(c: int): int {
    if Capital(c) then c + 32 else c
  }

  function Lower(s: seq<int>): (r: seq<int>)
    ensures |r| == |s| && forall k :: 0 <= k < |s| ==> r[k] == LowerChar(s[k])
  {
    if s == [] then [] else [LowerChar(s[0])] + Lower(s[1..])
  }

  function Ascii(s: string): (r: seq<int>)
    ensures |r| == |s| && forall k :: 0 <= k < |s| ==> r[k] == s[k] as int
  {
    seq(|s|, k requires 0 <= k < |s| => s[k] as int)
  }

  // ---------------------------------------------------------------- initialisms

  function Initialisms(): seq<string> {
    ["API", "ASCII", "CPU", "CSS", "DNS", "EOF", "GUID", "HTML", "HTTP", "HTTPS", "ID", "IP", "JSON", "LHS", "QPS", "RAM",
     "RHS", "RPC", "SLA", "SMTP", "SSH", "TLS", "TTL", "UID", "UI", "UUID", "URI", "URL", "UTF8", "VM", "XML", "XSRF", "XSS"]
  }

  /** The first initialism, in the order of the list, that `s` begins with. */
  function FirstOf(ps: seq<string>, s: seq<int>): Option<seq<int>> {
    if ps == [] then None
    else if ps[0] != "" && Ascii(ps[0]) <= s then Some(Ascii(ps[0]))
    else FirstOf(ps[1..], s)
  }

  lemma {:induction false} FirstOfPrefix(ps: seq<string>, s: seq<int>)
    ensures FirstOf(ps, s).Some? ==>
      FirstOf(ps, s).value <= s && exists k :: 0 <= k < |ps| && ps[k] != "" && FirstOf(ps, s).value == Ascii(ps[k])
    decreases |ps|
  {
    if ps != [] && !(ps[0] != "" && Ascii(ps[0]) <= s) {
      FirstOfPrefix(ps[1..], s);
      if FirstOf(ps, s).Some? {
        var k :| 0 <= k < |ps[1..]| && ps[1..][k] != "" && FirstOf(ps[1..], s).value == Ascii(ps[1..][k]);
        assert ps[k + 1] == ps[1..][k];
      }
    }
  }

  /** All but the first letter of an initialism in lower case. */
  function Title(p: seq<int>): seq<int>
    requires p != []
  {
    [p[0]] + Lower(p[1..])
  }

  /** The replacer: initialisms become ordinary words, from left to right. */
  function Replace(s: seq<int>): seq<int>
    decreases |s|
  {
    if s == [] then [] else
    FirstOfPrefix(Initialisms(), s);
    match FirstOf(Initialisms(), s)
    case None => [s[0]] + Replace(s[1..])
    case Some(p) => Title(p) + Replace(s[|p|..])
  }

  // ---------------------------------------------------------------- the conversion

  /** What the loop writes at position `i`, `last` and `curr` being the cases it carries. */
  function Piece(v: seq<int>, i: nat, last: bool, curr: bool): seq<int>
    requires i + 1 < |v|
  {
    var next, number := Capital(v[i + 1]), DigitChar(v[i + 1]);
    if i == 0 then [v[i]]
    else if curr then
      (if last && (next || number) then [v[i]]
       else if v[i - 1] != UNDERSCORE && v[i + 1] != UNDERSCORE then [UNDERSCORE, v[i]] else [v[i]])
    else if i + 2 == |v| && next && !number then [v[i], UNDERSCORE] else [v[i]]
  }

  /** What it writes from position `i` on. */
  function Emit(v: seq<int>, i: nat, last: bool, curr: bool): seq<int>
    requires i < |v|
    decreases |v| - i
  {
    if i + 1 == |v| then [v[i]]
    else Piece(v, i, last, curr) + Emit(v, i + 1, i == 0 || curr, Capital(v[i + 1]))
  }

  function DBName(name: seq<int>): seq<int> {
    if name == [] then [] else
    ReplaceLength(name);
    Lower(Emit(Replace(name), 0, false, false))
  }

  lemma LowerConcat(a: seq<int>, b: seq<int>)
    ensures Lower(a + b) == Lower(a) + Lower(b)
  {
  }

  lemma LowerTitle(p: seq<int>)
    requires p != []
    ensures Lower(Title(p)) == Lower(p) && |Title(p)| == |p|
  {
    forall k | 0 <= k < |p| ensures LowerChar(Title(p)[k]) == LowerChar(p[k]) {
      if k > 0 { assert Title(p)[k] == Lower(p[1..])[k - 1] == LowerChar(p[k]); }
    }
  }

  lemma ReplaceStep(s: seq<int>)
    requires s != []
    ensures var f := FirstOf(Initialisms(), s);
            if f.Some? then f.value != [] && f.value <= s && Replace(s) == Title(f.value) + Replace(s[|f.value|..])
            else Replace(s) == [s[0]] + Replace(s[1..])
  {
    hide Initialisms, FirstOf, Lower, Title, Ascii;
    FirstOfPrefix(Initialisms(), s);
  }

  lemma {:induction false} ReplaceLength(s: seq<int>)
    ensures |Replace(s)| == |s| && Lower(Replace(s)) == Lower(s)
    decreases |s|
  {
    assert Replace([]) == [];
    hide *;
    if s != [] {
      ReplaceStep(s);
      match FirstOf(Initialisms(), s) {
        case None =>
          var t := s[1..];
          ReplaceLength(t);
          LowerConcat([s[0]], Replace(t));
          LowerConcat([s[0]], t);
          assert s == [s[0]] + t;
        case Some(p) =>
          var t := s[|p|..];
          ReplaceLength(t);
          LowerTitle(p);
          LowerConcat(Title(p), Replace(t));
          LowerConcat(p, t);
          assert s == p + t;
      }
    }
  }

  // ---------------------------------------------------------------- only case and underscores change

  function Erase(s: seq<int>): seq<int> {
    if s == [] then [] else (if s[0] == UNDERSCORE then [] else [s[0]]) + Erase(s[1..])
  }

  lemma {:induction false} EraseConcat(a: seq<int>, b: seq<int>)
    ensures Erase(a + b) == Erase(a) + Erase(b)
    decreases |a|
  {
    if a == [] {
      assert a + b == b;
    } else {
      assert (a + b)[1..] == a[1..] + b;
      EraseConcat(a[1..], b);
    }
  }

  lemma EraseAround(c: int)
    ensures Erase([c]) == Erase([UNDERSCORE, c]) == Erase([c, UNDERSCORE])
  {
    assert [c][1..] == [] && [UNDERSCORE, c][1..] == [c] && [c, UNDERSCORE][1..] == [UNDERSCORE] && [UNDERSCORE][1..] == [];
  }

  lemma {:induction false} EmitErases(v: seq<int>, i: nat, last: bool, curr: bool)
    requires i < |v|
    ensures Erase(Emit(v, i, last, curr)) == Erase(v[i..])
    decreases |v| - i
  {
    if i + 1 == |v| {
      assert v[i..] == [v[i]];
    } else {
      var next := Capital(v[i + 1]);
      var l, c := if i == 0 then true else curr, next;
      EmitErases(v, i + 1, l, c);
      var rest := Emit(v, i + 1, l, c);
      assert v[i..] == [v[i]] + v[i + 1..];
      hide Erase;
      EraseAround(v[i]);
      EraseConcat([v[i]], v[i + 1..]);
      EraseConcat([v[i]], rest);
      EraseConcat([UNDERSCORE, v[i]], rest);
      EraseConcat([v[i], UNDERSCORE], rest);
    }
  }

  lemma {:induction false} EraseLower(s: seq<int>)
    ensures Erase(Lower(s)) == Lower(Erase(s))
    decreases |s|
  {
    if s != [] {
      EraseLower(s[1..]);
      assert Lower(s) == [LowerChar(s[0])] + Lower(s[1..]);
      assert Lower(s)[1..] == Lower(s[1..]);
    }
  }

  lemma {:induction false} ErasesExactly(s: seq<int>)
    ensures Leaves(Erase(s), s, c => c == 95)
    decreases |s|
  {
    hide Leaves;
    if s == [] {
      NothingErased();
    } else {
      ErasesExactly(s[1..]);
      LeavesNext(Erase(s[1..]), s[1..], c => c == 95, s[0]);
      assert s == [s[0]] + s[1..];
    }
  }

  lemma NothingErased()
    ensures Leaves<int>([], [], c => c == 95)
  {
  }

  /** The conversion only lowers letters and puts in underscores: without underscores, the column name and the
      lowered name are the same. */
  lemma OnlyCaseAndUnderscores(name: seq<int>)
    ensures Erase(DBName(name)) == Erase(Lower(name))
    ensures Leaves(Erase(DBName(name)), DBName(name), c => c == 95) && Leaves(Erase(Lower(name)), Lower(name), c => c == 95)
    ensures forall k :: 0 <= k < |name| ==> Lower(name)[k] == if 65 <= name[k] <= 90 then name[k] + 32 else name[k]
    ensures name != [] ==> DBName(name) != []
    ensures forall k :: 0 <= k < |DBName(name)| ==> !Capital(DBName(name)[k])
  {
    ErasesExactly(DBName(name));
    ErasesExactly(Lower(name));
    hide Replace, Erase, Leaves;
    if name != [] {
      var v := Replace(name);
      ReplaceLength(name);
      EmitErases(v, 0, false, false);
      assert v[0..] == v;
      EraseLower(Emit(v, 0, false, false));
      EraseLower(v);
    } else {
      assert Lower(name) == [];
    }
  }

  // ---------------------------------------------------------------- names without capitals

  ghost predicate NoCapitals(s: seq<int>) {
    forall k :: 0 <= k < |s| ==> !Capital(s[k])
  }

  lemma InitialismsBeginCapital(k: nat)
    requires k < |Initialisms()|
    ensures Initialisms()[k] != "" && Capital(Initialisms()[k][0] as int)
  {
  }

  lemma FirstBeginsCapital(s: seq<int>)
    requires FirstOf(Initialisms(), s).Some?
    ensures s != [] && Capital(s[0])
  {
    FirstOfPrefix(Initialisms(), s);
    hide Initialisms, FirstOf;
    var p := FirstOf(Initialisms(), s).value;
    var k :| 0 <= k < |Initialisms()| && Initialisms()[k] != "" && p == Ascii(Initialisms()[k]);
    InitialismsBeginCapital(k);
    assert p[0] == s[0];
  }

  lemma {:induction false} ReplaceNothing(s: seq<int>)
    requires NoCapitals(s)
    ensures Replace(s) == s
    decreases |s|
  {
    hide Initialisms, FirstOf;
    if s != [] {
      if FirstOf(Initialisms(), s).Some? { FirstBeginsCapital(s); }
      ReplaceNothing(s[1..]);
    }
  }

  lemma {:induction false} EmitNothing(v: seq<int>, i: nat, last: bool, curr: bool)
    requires i < |v| && NoCapitals(v) && (i > 0 ==> !curr)
    ensures Emit(v, i, last, curr) == v[i..]
    decreases |v| - i
  {
    if i + 1 < |v| {
      EmitNothing(v, i + 1, if i == 0 then true else curr, Capital(v[i + 1]));
      assert v[i..] == [v[i]] + v[i + 1..];
      assert [v[i]] + [] + v[i + 1..] == v[i..];
    }
  }

  /** A name without capitals is its own column name. */
  lemma IdentityWithoutCapitals(name: seq<int>)
    requires NoCapitals(name)
    ensures DBName(name) == name
  {
    hide Replace;
    if name != [] {
      ReplaceLength(name);
      ReplaceNothing(name);
      EmitNothing(name, 0, false, false);
      assert name[0..] == name;
      assert Lower(name) == name;
    }
  }

  /** Hence converting twice is converting once. */
  lemma Idempotent(name: seq<int>)
    ensures DBName(DBName(name)) == DBName(name)
  {
    OnlyCaseAndUnderscores(name);
    IdentityWithoutCapitals(DBName(name));
  }

  // ---------------------------------------------------------------- where the underscores stand

  /** Before a capital behind the first position: at the end, if the character before it is no capital and not
      the first; otherwise if neither neighbour is an underscore, unless the character before it is a capital
      or the first and the one behind it is a capital or a digit. */
  predicate Breaks(v: seq<int>, i: nat) {
    && 0 < i < |v| && 65 <= v[i] <= 90
    && if i + 1 == |v| then i >= 2 && !(65 <= v[i - 1] <= 90)
       else && v[i - 1] != 95 && v[i + 1] != 95
            && !((i == 1 || 65 <= v[i - 1] <= 90) && (65 <= v[i + 1] <= 90 || 48 <= v[i + 1] <= 57))
  }

  /** The characters from `i` on in lower case, with an underscore before every break. */
  function Broken(v: seq<int>, i: nat): seq<int>
    requires i <= |v|
    decreases |v| - i
  {
    if i == |v| then [] else (if Breaks(v, i) then [UNDERSCORE] else []) + [if 65 <= v[i] <= 90 then v[i] + 32 else v[i]] + Broken(v, i + 1)
  }

  lemma LowerFew(c: int, d: int)
    ensures Lower([c]) == [LowerChar(c)] && Lower([c, d]) == [LowerChar(c), LowerChar(d)]
  {
    assert [c][1..] == [] && [c, d][1..] == [d];
  }

  /** What the loop writes at a position, and before the last one. */
  lemma PieceBreaks(v: seq<int>, i: nat, last: bool, curr: bool)
    requires i + 1 < |v|
    requires if i == 0 then !last && !curr else curr == Capital(v[i]) && last == (i == 1 || Capital(v[i - 1]))
    ensures Lower(Piece(v, i, last, curr)) ==
            (if Breaks(v, i) then [UNDERSCORE] else []) + [LowerChar(v[i])] +
            (if i + 2 == |v| && Breaks(v, i + 1) then [UNDERSCORE] else [])
  {
    LowerFew(v[i], UNDERSCORE);
    LowerFew(UNDERSCORE, v[i]);
    hide Lower;
  }

  lemma {:induction false} EmitBreaks(v: seq<int>, i: nat, last: bool, curr: bool)
    requires i + 1 < |v|
    requires if i == 0 then !last && !curr else curr == Capital(v[i]) && last == (i == 1 || Capital(v[i - 1]))
    ensures Lower(Emit(v, i, last, curr)) == Broken(v, i)
    decreases |v| - i
  {
    hide *;
    PieceBreaks(v, i, last, curr);
    EmitStep(v, i, last, curr);
    BrokenIs(v, i);
    var front, c := if Breaks(v, i) then [UNDERSCORE] else [], LowerChar(v[i]);
    if i + 2 < |v| {
      EmitBreaks(v, i + 1, i == 0 || curr, Capital(v[i + 1]));
      assert front + [c] + [] + Broken(v, i + 1) == front + [c] + Broken(v, i + 1);
    } else {
      BrokenIs(v, i + 1);
      BrokenEnd(v);
      var back, d := if Breaks(v, i + 1) then [UNDERSCORE] else [], LowerChar(v[i + 1]);
      assert front + [c] + back + [d] == front + [c] + (back + [d] + []);
    }
  }

  lemma EmitStep(v: seq<int>, i: nat, last: bool, curr: bool)
    requires i + 1 < |v|
    ensures var rest := Emit(v, i + 1, i == 0 || curr, Capital(v[i + 1]));
            && Lower(Emit(v, i, last, curr)) == Lower(Piece(v, i, last, curr)) + Lower(rest)
            && (i + 2 == |v| ==> Lower(rest) == [LowerChar(v[i + 1])])
  {
    LowerConcat(Piece(v, i, last, curr), Emit(v, i + 1, i == 0 || curr, Capital(v[i + 1])));
    LowerFew(v[i + 1], UNDERSCORE);
    hide Piece, Lower;
  }

  lemma BrokenEnd(v: seq<int>)
    ensures Broken(v, |v|) == []
  {
  }

  lemma BrokenIs(v: seq<int>, i: nat)
    requires i < |v|
    ensures Broken(v, i) == (if Breaks(v, i) then [UNDERSCORE] else []) + [LowerChar(v[i])] + Broken(v, i + 1)
  {
  }

  /** The column name is the name with its initialisms made words, in lower case, with an underscore at every
      break and nowhere else. */
  lemma UnderscoresExactly(name: seq<int>)
    ensures DBName(name) == Broken(Replace(name), 0)
  {
    hide Replace, Emit;
    ReplaceLength(name);
    var v := Replace(name);
    if |v| == 1 {
      OneEmitted(v);
      LowerFew(v[0], v[0]);
      assert Broken(v, 1) == [];
    } else if v != [] {
      EmitBreaks(v, 0, false, false);
    }
  }

  lemma OneEmitted(v: seq<int>)
    requires |v| == 1
    ensures Emit(v, 0, false, false) == v
  {
  }

  // ---------------------------------------------------------------- names made of words

  /** A capital and at least one more character, none of them a capital or an underscore. */
  predicate Ordinary(w: seq<int>) {
    |w| >= 2 && 65 <= w[0] <= 90 && forall k :: 1 <= k < |w| ==> !(65 <= w[k] <= 90) && w[k] != 95
  }

  function Flat(words: seq<seq<int>>): seq<int> {
    if words == [] then [] else words[0] + Flat(words[1..])
  }

  /** The words in lower case, joined by underscores. */
  function Snake(words: seq<seq<int>>): seq<int> {
    if words == [] then []
    else if |words| == 1 then Lower(words[0])
    else Lower(words[0]) + [UNDERSCORE] + Snake(words[1..])
  }

  /** Each word is ordinary, or an initialism no earlier one of the list takes the place of. */
  predicate Wordy(words: seq<seq<int>>) {
    words == [] ||
    ((Ordinary(words[0]) || FirstOf(Initialisms(), Flat(words)) == Some(words[0])) && Wordy(words[1..]))
  }

  /** The replacer takes the first entry of the list that fits, not the longest. */
  lemma {:induction false} FirstOfExactly(ps: seq<string>, s: seq<int>, p: seq<int>)
    ensures FirstOf(ps, s) == Some(p) <==>
            exists k :: 0 <= k < |ps| && ps[k] != "" && p == Ascii(ps[k]) && p <= s &&
                        forall j :: 0 <= j < k ==> ps[j] == "" || !(Ascii(ps[j]) <= s)
    decreases |ps|
  {
    if ps != [] {
      var rest := ps[1..];
      FirstOfExactly(rest, s, p);
      assert forall k :: 0 <= k < |rest| ==> rest[k] == ps[k + 1];
      assert forall k :: 0 < k < |ps| ==> ps[k] == rest[k - 1];
    }
  }

  lemma InitialismShape(k: nat)
    requires k < |Initialisms()|
    ensures var p := Initialisms()[k];
            && |p| >= 2 && 'A' <= p[0] <= 'Z' && 'A' <= p[1] <= 'Z'
            && forall i :: 0 <= i < |p| ==> p[i] != '_'
  {
  }

  lemma TitleIsOrdinary(s: seq<int>, p: seq<int>)
    requires FirstOf(Initialisms(), s) == Some(p)
    ensures p != [] && Ordinary(Title(p)) && p <= s && |p| >= 2 && Capital(s[1])
  {
    hide Initialisms, FirstOf;
    FirstOfExactly(Initialisms(), s, p);
    var k :| 0 <= k < |Initialisms()| && p == Ascii(Initialisms()[k]);
    InitialismShape(k);
    forall i | 1 <= i < |p| ensures !Capital(Title(p)[i]) && Title(p)[i] != UNDERSCORE {
      assert Title(p)[i] == Lower(p[1..])[i - 1] == LowerChar(p[i]);
      assert p[i] == Initialisms()[k][i] as int;
    }
  }

  /** Ordinary characters are not replaced. */
  lemma {:induction false} ReplaceTail(w: seq<int>, rest: seq<int>)
    requires forall k :: 0 <= k < |w| ==> !Capital(w[k])
    ensures Replace(w + rest) == w + Replace(rest)
    decreases |w|
  {
    hide Replace;
    var s := w + rest;
    if w == [] {
      assert s == rest;
    } else {
      ReplaceStep(s);
      if FirstOf(Initialisms(), s).Some? { FirstBeginsCapital(s); }
      assert s[1..] == w[1..] + rest;
      ReplaceTail(w[1..], rest);
    }
  }

  function Titled(words: seq<seq<int>>): seq<seq<int>> {
    if words == [] then [] else [TitledOne(words[0])] + Titled(words[1..])
  }

  function TitledOne(w: seq<int>): seq<int> {
    if Ordinary(w) || w == [] then w else Title(w)
  }

  lemma OrdinaryStays(w: seq<int>, rest: seq<int>)
    requires Ordinary(w)
    ensures FirstOf(Initialisms(), w + rest).None?
  {
    hide FirstOf, Initialisms;
    var s := w + rest;
    assert s[1] == w[1];
    if FirstOf(Initialisms(), s).Some? { TitleIsOrdinary(s, FirstOf(Initialisms(), s).value); }
  }

  /** One word in front of the rest of the name. */
  lemma ReplaceWord(w: seq<int>, rest: seq<int>)
    requires Ordinary(w) || FirstOf(Initialisms(), w + rest) == Some(w)
    ensures Replace(w + rest) == TitledOne(w) + Replace(rest)
    ensures Ordinary(TitledOne(w)) && Lower(TitledOne(w)) == Lower(w)
  {
    hide Replace, FirstOf, Initialisms, Lower, Title;
    var s := w + rest;
    if !Ordinary(w) { TitleIsOrdinary(s, w); }
    assert s != [];
    ReplaceStep(s);
    if Ordinary(w) {
      OrdinaryStays(w, rest);
      assert s[1..] == w[1..] + rest;
      ReplaceTail(w[1..], rest);
      assert [w[0]] + (w[1..] + Replace(rest)) == w + Replace(rest);
    } else {
      LowerTitle(w);
      assert s[|w|..] == rest;
    }
  }

  lemma {:induction false} ReplaceWords(words: seq<seq<int>>)
    requires Wordy(words)
    ensures Replace(Flat(words)) == Flat(Titled(words)) && Snake(Titled(words)) == Snake(words)
    ensures |Titled(words)| == |words| && forall w :: w in Titled(words) ==> Ordinary(w)
    decreases |words|
  {
    assert Replace([]) == [];
    hide Replace, FirstOf, Initialisms, Lower, TitledOne, Ordinary;
    if words != [] {
      var w, rest := words[0], words[1..];
      ReplaceWord(w, Flat(rest));
      ReplaceWords(rest);
      assert Titled(words)[1..] == Titled(rest) && Titled(words)[0] == TitledOne(w);
      assert Flat(Titled(words)) == TitledOne(w) + Flat(Titled(rest));
    }
  }

  lemma BrokenStep(v: seq<int>, i: nat)
    requires i < |v|
    ensures Broken(v, i) == (if Breaks(v, i) then [UNDERSCORE] else []) + Lower([v[i]]) + Broken(v, i + 1)
    ensures !Capital(v[i]) ==> Broken(v, i) == Lower([v[i]]) + Broken(v, i + 1)
  {
    hide Broken;
    LowerFew(v[i], v[i]);
    assert Broken(v, i) == (if Breaks(v, i) then [UNDERSCORE] else []) + [LowerChar(v[i])] + Broken(v, i + 1) by { BrokenIs(v, i); }
  }

  /** Where there is no capital nothing is broken. */
  lemma {:induction false} BrokenRun(v: seq<int>, i: nat, j: nat)
    requires i <= j <= |v| && forall k :: i <= k < j ==> !Capital(v[k])
    ensures Broken(v, i) == Lower(v[i..j]) + Broken(v, j)
    decreases j - i
  {
    hide Broken, Lower, Capital;
    if i == j {
      assert v[i..j] == [] && Lower([]) == [];
    } else {
      BrokenRun(v, i + 1, j);
      BrokenStep(v, i);
      LowerConcat([v[i]], v[i + 1..j]);
      assert v[i..j] == [v[i]] + v[i + 1..j];
      Associate(Lower([v[i]]), Lower(v[i + 1..j]), Broken(v, j));
    }
  }

  /** What stands between `pre` and the next word. */
  function Between(pre: seq<int>): seq<int> {
    if pre == [] then [] else [UNDERSCORE]
  }

  /** Behind `pre` the first character of an ordinary word is a break, and no other of its characters. */
  lemma WordBreaks(pre: seq<int>, w: seq<int>, rest: seq<int>)
    requires Ordinary(w)
    requires pre == [] || (|pre| >= 2 && !Capital(pre[|pre| - 1]) && pre[|pre| - 1] != UNDERSCORE)
    ensures var v, i, j := pre + w + rest, |pre|, |pre| + |w|;
            && (if Breaks(v, i) then [UNDERSCORE] else []) == Between(pre)
            && v[i] == w[0] && v[i + 1..j] == w[1..] && forall k :: i + 1 <= k < j ==> !Capital(v[k])
  {
    var v, i, j := pre + w + rest, |pre|, |pre| + |w|;
    forall k | i + 1 <= k < j ensures !Capital(v[k]) { assert v[k] == w[k - i]; }
    assert v[i] == w[0] && v[i + 1] == w[1] && (pre != [] ==> v[i - 1] == pre[i - 1]);
  }

  lemma LowerHead(w: seq<int>)
    requires w != []
    ensures Lower(w) == Lower([w[0]]) + Lower(w[1..])
  {
    assert w == [w[0]] + w[1..];
    LowerConcat([w[0]], w[1..]);
  }

  lemma BrokenAt(v: seq<int>, i: nat, w: seq<int>, p: seq<int>)
    requires w != [] && i + |w| <= |v| && v[i] == w[0] && v[i + 1..i + |w|] == w[1..]
    requires forall k :: i + 1 <= k < i + |w| ==> !Capital(v[k])
    requires (if Breaks(v, i) then [UNDERSCORE] else []) == p
    ensures Broken(v, i) == p + (Lower(w) + Broken(v, i + |w|))
  {
    hide *;
    BrokenStep(v, i);
    BrokenRun(v, i + 1, i + |w|);
    LowerHead(w);
    Regroup(p, Lower([w[0]]), Lower(w[1..]), Broken(v, i + |w|));
  }

  /** One ordinary word behind `pre`. */
  lemma BrokenWord(pre: seq<int>, w: seq<int>, rest: seq<int>)
    requires Ordinary(w)
    requires pre == [] || (|pre| >= 2 && !Capital(pre[|pre| - 1]) && pre[|pre| - 1] != UNDERSCORE)
    ensures var v := pre + w + rest;
            Broken(v, |pre|) == Between(pre) + (Lower(w) + Broken(v, |pre| + |w|))
  {
    hide Breaks, Broken, Lower, Between, Capital;
    var v := pre + w + rest;
    WordBreaks(pre, w, rest);
    BrokenAt(v, |pre|, w, Between(pre));
  }

  lemma Regroup(a: seq<int>, b: seq<int>, c: seq<int>, d: seq<int>)
    ensures a + b + (c + d) == a + ((b + c) + d)
  {
    Associate(a, b, c + d);
    Associate(b, c, d);
  }

  lemma {:induction false} BrokenWords(pre: seq<int>, words: seq<seq<int>>)
    requires words != [] && forall w :: w in words ==> Ordinary(w)
    requires pre == [] || (|pre| >= 2 && !Capital(pre[|pre| - 1]) && pre[|pre| - 1] != UNDERSCORE)
    ensures Broken(pre + Flat(words), |pre|) == Between(pre) + Snake(words)
    decreases |words|
  {
    var w, rest := words[0], words[1..];
    var next, tail := pre + w, Flat(rest);
    WordsHead(words);
    OrdinaryEnd(pre, w);
    hide *;
    if rest == [] {
      BrokenEnd(next + tail);
      assert |next + tail| == |next|;
      BrokenNext(pre, w, tail, []);
    } else {
      BrokenWords(next, rest);
      BetweenWords(next);
      BrokenNext(pre, w, tail, [UNDERSCORE] + Snake(rest));
    }
  }

  lemma BrokenNext(pre: seq<int>, w: seq<int>, tail: seq<int>, s: seq<int>)
    requires Ordinary(w) && Broken(pre + w + tail, |pre + w|) == s
    requires pre == [] || (|pre| >= 2 && !Capital(pre[|pre| - 1]) && pre[|pre| - 1] != UNDERSCORE)
    ensures Broken(pre + (w + tail), |pre|) == Between(pre) + (Lower(w) + s)
  {
    BrokenWord(pre, w, tail);
    hide *;
    Associate(pre, w, tail);
  }

  lemma BetweenWords(pre: seq<int>)
    requires |pre| >= 2
    ensures Between(pre) == [UNDERSCORE]
  {
  }

  lemma WordsHead(words: seq<seq<int>>)
    requires words != [] && forall w :: w in words ==> Ordinary(w)
    ensures var w, rest := words[0], words[1..];
            && Ordinary(w) && (forall x :: x in rest ==> Ordinary(x))
            && Flat(words) == w + Flat(rest) && (rest == [] ==> Flat(rest) == [])
            && Snake(words) == Lower(w) + if rest == [] then [] else [UNDERSCORE] + Snake(rest)
  {
    hide Ordinary, Lower;
    if |words| > 1 { Associate(Lower(words[0]), [UNDERSCORE], Snake(words[1..])); }
  }

  lemma OrdinaryEnd(pre: seq<int>, w: seq<int>)
    requires Ordinary(w)
    ensures var next := pre + w; |next| >= 2 && !Capital(next[|next| - 1]) && next[|next| - 1] != UNDERSCORE
  {
    assert (pre + w)[|pre + w| - 1] == w[|w| - 1];
  }

  /** A name made of words, initialisms among them, becomes the words in lower case with underscores between. */
  lemma WordsJoined(words: seq<seq<int>>)
    requires Wordy(words)
    ensures DBName(Flat(words)) == Snake(words)
  {
    hide Replace, Wordy, DBName;
    UnderscoresExactly(Flat(words));
    ReplaceWords(words);
    if words != [] {
      BrokenWords([], Titled(words));
      assert Between([]) + Snake(words) == Snake(words);
      assert [] + Flat(Titled(words)) == Flat(Titled(words));
    }
  }

  /** "HTTPS" never takes effect: "HTTP" comes before it in the list and fits wherever it does. */
  lemma HttpsNeverFound(s: seq<int>)
    ensures FirstOf(Initialisms(), s) != Some(Ascii("HTTPS"))
  {
    BeforeHttps();
    hide Initialisms, FirstOf;
    var p, q := Ascii("HTTP"), Ascii("HTTPS");
    assert p == q[..4];
    FirstOfExactly(Initialisms(), s, q);
    forall k | 0 <= k < |Initialisms()| && q == Ascii(Initialisms()[k]) && q <= s ensures k > 8 && p <= s {
      assert q[0] == Initialisms()[k][0] as int;
    }
  }

  lemma BeforeHttps()
    ensures |Initialisms()| > 8 && Initialisms()[8] == "HTTP"
    ensures forall k :: 0 <= k <= 8 ==> |Initialisms()[k]| != 5 || Initialisms()[k][0] == 'A'
  {
  }

  // ---------------------------------------------------------------- the loop and its cache

  /** One turn of the loop: what it adds to the buffer, and the cases it carries on. */
  method Turn(value: seq<int>, i: nat, lastCase: bool, currCase: bool, buf: seq<int>)
    returns (out: seq<int>, nextLast: bool, nextCase: bool)
    requires i + 1 < |value|
    ensures out == buf + Piece(value, i, lastCase, currCase)
    ensures nextLast == (i == 0 || currCase) && nextCase == Capital(value[i + 1])
  {
    out, nextLast, nextCase := buf, currCase, Capital(value[i + 1]);
    var nextNumber := DigitChar(value[i + 1]);
    if i > 0 {
      if currCase {
        if lastCase && (nextCase || nextNumber) {
          out := out + [value[i]];
        } else {
          if value[i - 1] != UNDERSCORE && value[i + 1] != UNDERSCORE {
            out := out + [UNDERSCORE];
          }
          out := out + [value[i]];
        }
      } else {
        out := out + [value[i]];
        if i == |value| - 2 && nextCase && !nextNumber {
          out := out + [UNDERSCORE];
        }
      }
    } else {
      nextLast := true;
      out := out + [value[i]];
    }
  }

  /** The loop over all but the last character. */
  method Convert(name: seq<int>) returns (s: seq<int>)
    requires name != []
    ensures s == DBName(name)
  {
    hide Replace, Piece;
    ReplaceLength(name);
    var value := Replace(name);
    var buf: seq<int> := [];
    var lastCase, currCase := false, false;
    for i := 0 to |value| - 1
      invariant Emit(value, 0, false, false) == buf + Emit(value, i, lastCase, currCase)
    {
      ghost var piece := Piece(value, i, lastCase, currCase);
      ghost var rest := Emit(value, i + 1, i == 0 || currCase, Capital(value[i + 1]));
      assert buf + (piece + rest) == buf + piece + rest;
      buf, lastCase, currCase := Turn(value, i, lastCase, currCase, buf);
    }
    buf := buf + [value[|value| - 1]];
    s := Lower(buf);
  }

  class NameCache {
    var m: map<seq<int>, seq<int>>

    /** What the cache says of a name is its column name. */
    ghost predicate Valid()
      reads this
    {
      forall name :: name in m && m[name] != [] ==> m[name] == DBName(name)
    }

    constructor ()
      ensures Valid()
    {
      m := map[];
    }

    /** `ToDBName`; `SafeNameBuilder.Build` without a format does the same, asking for the empty name first. */
    method ToDBName(name: seq<int>) returns (s: seq<int>)
      requires Valid()
      modifies this
      ensures Valid() && s == DBName(name)
      ensures forall n :: n in old(m) ==> n in m && (n != name ==> m[n] == old(m)[n])
    {
      assert DBName([]) == [];
      hide DBName;
      var v := if name in m then m[name] else [];
      if v != [] { return v; }
      if name == [] { return []; }
      s := Convert(name);
      m := m[name := s];
    }

    method Build(name: seq<int>) returns (s: seq<int>)
      requires Valid()
      modifies this
      ensures Valid() && s == DBName(name)
    {
      assert DBName([]) == [];
      hide DBName;
      if name == [] { return []; }
      var v := if name in m then m[name] else [];
      if v != [] { return v; }
      s := Convert(name);
      m := m[name := s];
    }
  }
}
