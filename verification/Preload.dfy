/** Preloading by a hash join: results are hashed by the text of their key and handed out to the records. */
module Preload {
  import opened Lists

  /** A key as the texts of its components, in ASCII codes. */
  type Component = seq<int>
  type Key = seq<Component>

  const SEPARATOR := 95

  // ---------------------------------------------------------------- keys as text

  /** `toString` of a list of values. */
  function ToString(k: Key): seq<int> {
    if k == [] then [] else if |k| == 1 then k[0] else k[0] + [SEPARATOR] + ToString(k[1..])
  }

  /** `toStringFields` passes over empty components. */
  function ToStringFields(k: Key): seq<int> {
    ToString(NonEmpty(k))
  }

  function NonEmpty(k: Key): Key {
    if k == [] then [] else (if k[0] == [] then [] else [k[0]]) + NonEmpty(k[1..])
  }

  /** The loop over the fields, with its buffer. */
  method BuildFields(k: Key) returns (w: seq<int>)
    ensures w == ToStringFields(k)
  {
    w := [];
    for i := 0 to |k|
      invariant w == ToString(NonEmpty(k[..i]))
      invariant w == [] <==> NonEmpty(k[..i]) == []
      invariant forall j :: 0 <= j < |NonEmpty(k[..i])| ==> NonEmpty(k[..i])[j] != []
    {
      assert k[..i + 1] == k[..i] + [k[i]];
      NonEmptySnoc(k[..i], k[i]);
      if k[i] != [] {
        ToStringSnoc(NonEmpty(k[..i]), k[i]);
        if |w| == 0 {
          w := w + k[i];
        } else {
          w := w + ([SEPARATOR] + k[i]);
        }
      } else {
        assert NonEmpty(k[..i]) + [] == NonEmpty(k[..i]);
      }
    }
    assert k[..|k|] == k;
  }

  lemma {:induction false} NonEmptySnoc(k: Key, c: Component)
    ensures NonEmpty(k + [c]) == NonEmpty(k) + (if c == [] then [] else [c])
    decreases |k|
  {
    if k == [] {
      assert [c][1..] == [];
    } else {
      assert (k + [c])[1..] == k[1..] + [c] && (k + [c])[0] == k[0];
      NonEmptySnoc(k[1..], c);
      Associate(if k[0] == [] then [] else [k[0]], NonEmpty(k[1..]), if c == [] then [] else [c]);
    }
  }

  lemma {:induction false} ToStringSnoc(k: Key, c: Component)
    ensures ToString(k + [c]) == if k == [] then c else ToString(k) + ([SEPARATOR] + c)
    decreases |k|
  {
    if k == [] {
      assert k + [c] == [c];
    } else {
      assert (k + [c])[1..] == k[1..] + [c];
      ToStringSnoc(k[1..], c);
      if |k| > 1 {
        assert k[0] + [SEPARATOR] + (ToString(k[1..]) + ([SEPARATOR] + c)) == k[0] + [SEPARATOR] + ToString(k[1..]) + ([SEPARATOR] + c);
      } else {
        assert k[0] + [SEPARATOR] + c == k[0] + ([SEPARATOR] + c);
      }
    }
  }

  ghost predicate NoSeparator(k: Key) {
    forall i :: 0 <= i < |k| ==> SEPARATOR !in k[i]
  }

  function Separators(s: seq<int>): nat {
    if s == [] then 0 else (if s[0] == SEPARATOR then 1 else 0) + Separators(s[1..])
  }

  function SeparatorsIn(k: Key): nat {
    if k == [] then 0 else Separators(k[0]) + SeparatorsIn(k[1..])
  }

  lemma {:induction false} SeparatorsConcat(s: seq<int>, t: seq<int>)
    ensures Separators(s + t) == Separators(s) + Separators(t)
    decreases |s|
  {
    if s == [] {
      assert s + t == t;
    } else {
      assert (s + t)[1..] == s[1..] + t;
      SeparatorsConcat(s[1..], t);
    }
  }

  lemma {:induction false} NoSeparators(s: seq<int>)
    ensures Separators(s) == 0 <==> SEPARATOR !in s
    decreases |s|
  {
    if s != [] {
      NoSeparators(s[1..]);
      assert s == [s[0]] + s[1..];
    }
  }

  lemma {:induction false} NoSeparatorsIn(k: Key)
    ensures SeparatorsIn(k) == 0 <==> NoSeparator(k)
    decreases |k|
  {
    if k != [] {
      NoSeparators(k[0]);
      NoSeparatorsIn(k[1..]);
      assert forall i :: 0 <= i < |k[1..]| ==> k[1..][i] == k[i + 1];
      assert NoSeparator(k) ==> SEPARATOR !in k[0];
      forall i | 0 <= i < |k| && SEPARATOR !in k[0] && NoSeparator(k[1..]) ensures SEPARATOR !in k[i] {
        if i > 0 { assert k[i] == k[1..][i - 1]; }
      }
    }
  }

  /** The text has one separator between any two components besides those of the components. */
  lemma {:induction false} TextSeparators(k: Key)
    ensures Separators(ToString(k)) == SeparatorsIn(k) + (if k == [] then 0 else |k| - 1)
    decreases |k|
  {
    if |k| == 1 {
      assert SeparatorsIn(k[1..]) == 0;
    } else if |k| > 1 {
      TextSeparators(k[1..]);
      SeparatorsConcat(k[0] + [SEPARATOR], ToString(k[1..]));
      SeparatorsConcat(k[0], [SEPARATOR]);
      assert [SEPARATOR][1..] == [] && Separators([SEPARATOR]) == 1;
    }
  }

  /** The length of a text up to its first separator. */
  function FirstLength(s: seq<int>): nat {
    if s == [] || s[0] == SEPARATOR then 0 else 1 + FirstLength(s[1..])
  }

  lemma {:induction false} FirstOf(c: Component, rest: seq<int>)
    requires SEPARATOR !in c
    ensures FirstLength(c + [SEPARATOR] + rest) == |c|
    decreases |c|
  {
    var s := c + [SEPARATOR] + rest;
    if c != [] {
      assert s[1..] == c[1..] + [SEPARATOR] + rest;
      FirstOf(c[1..], rest);
    }
  }

  lemma {:induction false} PlainKeysDiffer(a: Key, b: Key)
    requires |a| == |b| && NoSeparator(a) && NoSeparator(b) && ToString(a) == ToString(b)
    ensures a == b
    decreases |a|
  {
    if |a| == 1 {
      assert a == [a[0]] && b == [b[0]];
    } else if |a| > 1 {
      var s, x, y := ToString(a), ToString(a[1..]), ToString(b[1..]);
      assert SEPARATOR !in a[0] && SEPARATOR !in b[0];
      FirstOf(a[0], x);
      FirstOf(b[0], y);
      assert a[0] == s[..|a[0]|] == b[0];
      assert x == s[|a[0]| + 1..] == y;
      PlainKeysDiffer(a[1..], b[1..]);
      assert a == [a[0]] + a[1..] && b == [b[0]] + b[1..];
    }
  }

  /** Where one of two keys has no separator in a component, their texts are equal exactly when they are. */
  lemma SameTextSameKey(a: Key, b: Key)
    requires |a| == |b| && (|a| <= 1 || NoSeparator(a) || NoSeparator(b))
    ensures ToString(a) == ToString(b) <==> a == b
  {
    if |a| <= 1 {
      assert |a| == 1 ==> a == [a[0]] && b == [b[0]];
    } else if ToString(a) == ToString(b) {
      TextSeparators(a);
      TextSeparators(b);
      NoSeparatorsIn(a);
      NoSeparatorsIn(b);
      PlainKeysDiffer(a, b);
    }
  }

  lemma {:induction false} ToStringConcat(a: Key, b: Key)
    requires a != [] && b != []
    ensures ToString(a + b) == ToString(a) + [SEPARATOR] + ToString(b)
    decreases |a|
  {
    assert (a + b)[0] == a[0] && (a + b)[1..] == a[1..] + b;
    if |a| > 1 {
      ToStringConcat(a[1..], b);
      assert a[0] + [SEPARATOR] + (ToString(a[1..]) + [SEPARATOR] + ToString(b)) ==
        a[0] + [SEPARATOR] + ToString(a[1..]) + [SEPARATOR] + ToString(b);
    } else {
      assert (a + b)[1..] == b;
    }
  }

  /** Two neighbouring components with the same text in the middle of a key. */
  lemma Regrouped(pre: Key, x: Component, y: Component, u: Component, v: Component, post: Key)
    requires x + [SEPARATOR] + y == u + [SEPARATOR] + v
    ensures ToString(pre + [x, y] + post) == ToString(pre + [u, v] + post)
  {
    assert ToString([x, y]) == x + [SEPARATOR] + y by { assert [x, y][1..] == [y]; }
    assert ToString([u, v]) == u + [SEPARATOR] + v by { assert [u, v][1..] == [v]; }
    if post != [] {
      ToStringConcat([x, y], post);
      ToStringConcat([u, v], post);
    } else {
      assert [x, y] + post == [x, y] && [u, v] + post == [u, v];
    }
    assert pre + [x, y] + post == pre + ([x, y] + post) && pre + [u, v] + post == pre + ([u, v] + post);
    if pre != [] {
      ToStringConcat(pre, [x, y] + post);
      ToStringConcat(pre, [u, v] + post);
    } else {
      assert pre + ([x, y] + post) == [x, y] + post && pre + ([u, v] + post) == [u, v] + post;
    }
  }

  /** The key that takes the text apart at a separator inside component `i`. */
  lemma Collision(a: Key, i: nat) returns (b: Key)
    requires |a| >= 2 && i < |a| && SEPARATOR in a[i]
    ensures |b| == |a| && b != a && ToString(b) == ToString(a)
  {
    var j :| 0 <= j < |a[i]| && a[i][j] == SEPARATOR;
    var u, v := a[i][..j], a[i][j + 1..];
    assert a[i] == u + [SEPARATOR] + v;
    if i + 1 < |a| {
      var pre, y, post := a[..i], a[i + 1], a[i + 2..];
      var w := v + [SEPARATOR] + y;
      b := pre + [u, w] + post;
      assert a == pre + [a[i], y] + post;
      assert a[i] + [SEPARATOR] + y == u + [SEPARATOR] + w;
      Regrouped(pre, a[i], y, u, w, post);
      assert b[i] == u && |u| < |a[i]|;
    } else {
      var pre, x := a[..i - 1], a[i - 1];
      var w := x + [SEPARATOR] + u;
      b := pre + [w, v] + [];
      assert a == pre + [x, a[i]] + [];
      assert x + [SEPARATOR] + a[i] == w + [SEPARATOR] + v;
      Regrouped(pre, x, a[i], w, v, []);
      assert b[i] == v && |v| < |a[i]|;
    }
  }

  ghost predicate OwnText(a: Key) {
    forall b: Key :: |b| == |a| && ToString(b) == ToString(a) ==> b == a
  }

  /** A key has a text of its own among the keys of its length exactly when it is not composite or no
      component contains the separator. */
  lemma OwnTextExactly(a: Key)
    ensures OwnText(a) <==> |a| <= 1 || NoSeparator(a)
  {
    if |a| <= 1 || NoSeparator(a) {
      forall b: Key | |b| == |a| && ToString(b) == ToString(a) ensures b == a { SameTextSameKey(a, b); }
    } else {
      var i :| 0 <= i < |a| && SEPARATOR in a[i];
      var b := Collision(a, i);
      assert !OwnText(a);
    }
  }

  /** The smallest such pair. */
  lemma TextsCollide()
    ensures ToString([[97, SEPARATOR, 98], [99]]) == ToString([[97], [98, SEPARATOR, 99]])
  {
    var a: Key, b: Key := [[97, SEPARATOR, 98], [99]], [[97], [98, SEPARATOR, 99]];
    assert a[1..] == [[99]] && b[1..] == [[98, SEPARATOR, 99]];
    assert ToString(a) == [97, SEPARATOR, 98, SEPARATOR, 99];
  }

  // ---------------------------------------------------------------- the two text forms

  function Length(k: Key): nat {
    if k == [] then 0 else |k[0]| + Length(k[1..])
  }

  lemma {:induction false} TextLength(k: Key)
    ensures |ToString(k)| == if k == [] then 0 else Length(k) + |k| - 1
    decreases |k|
  {
    if k != [] { TextLength(k[1..]); }
  }

  lemma {:induction false} NonEmptyLength(k: Key)
    ensures Length(NonEmpty(k)) == Length(k) && |NonEmpty(k)| <= |k|
    ensures NonEmpty(k) == k <==> |NonEmpty(k)| == |k|
    ensures NonEmpty(k) == k <==> [] !in k
    decreases |k|
  {
    if k != [] {
      NonEmptyLength(k[1..]);
      assert k == [k[0]] + k[1..];
      if k[0] != [] {
        assert NonEmpty(k)[1..] == NonEmpty(k[1..]);
        if NonEmpty(k) == k { assert NonEmpty(k[1..]) == k[1..]; }
      } else {
        assert NonEmpty(k) == NonEmpty(k[1..]);
      }
    }
  }

  /** They agree exactly when the key has at most one component or no component is empty. */
  lemma FieldsTextExactly(k: Key)
    ensures ToStringFields(k) == ToString(k) <==> |k| <= 1 || [] !in k
  {
    NonEmptyLength(k);
    TextLength(k);
    TextLength(NonEmpty(k));
    if |k| == 1 && k[0] == [] {
      assert NonEmpty(k) == [] + NonEmpty(k[1..]);
    }
    if |k| <= 1 && [] !in k { assert NonEmpty(k) == k; }
  }

  // ---------------------------------------------------------------- records and results

  /** A found record with the key it was found by. */
  datatype Result = Result(key: Key, id: int)

  class Record {
    const key: Key
    var field: seq<int>

    constructor (key: Key, field: seq<int>)
      ensures this.key == key && this.field == field
    {
      this.key, this.field := key, field;
    }
  }

  /** The results filed under a text, in the order found. */
  function Filed(rs: seq<Result>, text: seq<int>): seq<int> {
    if rs == [] then [] else (if ToString(rs[0].key) == text then [rs[0].id] else []) + Filed(rs[1..], text)
  }

  /** Reference: the nested loop, which compares keys. */
  function Matching(rs: seq<Result>, key: Key): seq<int> {
    if rs == [] then [] else (if rs[0].key == key then [rs[0].id] else []) + Matching(rs[1..], key)
  }

  /** Keys of as many components as `key`. */
  ghost predicate SameWidth(rs: seq<Result>, key: Key) {
    forall i :: 0 <= i < |rs| ==> |rs[i].key| == |key|
  }

  /** Whatever was found, the results filed under the key's text are those with the key. */
  ghost predicate FiledAlone(key: Key) {
    forall rs: seq<Result> :: SameWidth(rs, key) ==> Filed(rs, ToString(key)) == Matching(rs, key)
  }

  lemma {:induction false} FiledIsMatching(rs: seq<Result>, key: Key)
    requires SameWidth(rs, key) && (|key| <= 1 || NoSeparator(key))
    ensures Filed(rs, ToString(key)) == Matching(rs, key)
    decreases |rs|
  {
    hide ToString, NoSeparator;
    if rs != [] {
      SameTextSameKey(rs[0].key, key);
      FiledIsMatching(rs[1..], key);
    }
  }

  /** The hash join is the nested loop for a key exactly when the key has a text of its own. */
  lemma HashJoinExactly(key: Key)
    ensures FiledAlone(key) <==> |key| <= 1 || NoSeparator(key)
  {
    hide ToString, NoSeparator;
    OwnTextExactly(key);
    if |key| <= 1 || NoSeparator(key) {
      forall rs: seq<Result> | SameWidth(rs, key) ensures Filed(rs, ToString(key)) == Matching(rs, key) {
        FiledIsMatching(rs, key);
      }
    } else {
      var b: Key :| |b| == |key| && ToString(b) == ToString(key) && b != key;
      var rs := [Result(b, 0)];
      assert rs[1..] == [] && Filed(rs, ToString(key)) == [0] + [] && Matching(rs, key) == [] + [];
      assert SameWidth(rs, key);
    }
  }

  lemma {:induction false} FiledSnoc(rs: seq<Result>, r: Result, text: seq<int>)
    ensures Filed(rs + [r], text) == Filed(rs, text) + (if ToString(r.key) == text then [r.id] else [])
    decreases |rs|
  {
    hide ToString;
    if rs == [] {
      assert [r][1..] == [];
    } else {
      assert (rs + [r])[1..] == rs[1..] + [r] && (rs + [r])[0] == rs[0];
      FiledSnoc(rs[1..], r, text);
      Associate(if ToString(rs[0].key) == text then [rs[0].id] else [], Filed(rs[1..], text),
                if ToString(r.key) == text then [r.id] else []);
    }
  }

  /** The nested loop adds one result at a time. */
  lemma {:induction false} MatchingSnoc(rs: seq<Result>, r: Result, key: Key)
    ensures Matching([], key) == []
    ensures Matching(rs + [r], key) == Matching(rs, key) + (if r.key == key then [r.id] else [])
    decreases |rs|
  {
    if rs == [] {
      assert [r][1..] == [];
    } else {
      assert (rs + [r])[1..] == rs[1..] + [r] && (rs + [r])[0] == rs[0];
      MatchingSnoc(rs[1..], r, key);
      Associate(if rs[0].key == key then [rs[0].id] else [], Matching(rs[1..], key), if r.key == key then [r.id] else []);
    }
  }

  /** The map from texts to results holds what is filed, and nothing for other texts. */
  ghost predicate HashOf(m: map<seq<int>, seq<int>>, rs: seq<Result>) {
    forall text :: (text in m <==> Filed(rs, text) != []) && (text in m ==> m[text] == Filed(rs, text))
  }

  method Hash(rs: seq<Result>) returns (m: map<seq<int>, seq<int>>)
    ensures HashOf(m, rs)
  {
    hide ToString;
    m := map[];
    for i := 0 to |rs|
      invariant HashOf(m, rs[..i])
    {
      var text := ToString(rs[i].key);
      ghost var before := m;
      m := m[text := (if text in m then m[text] else []) + [rs[i].id]];
      assert rs[..i + 1] == rs[..i] + [rs[i]];
      forall t ensures (t in m <==> Filed(rs[..i + 1], t) != []) && (t in m ==> m[t] == Filed(rs[..i + 1], t)) {
        FiledSnoc(rs[..i], rs[i], t);
        assert t in before <==> Filed(rs[..i], t) != [];
      }
    }
    assert rs[..|rs|] == rs;
  }

  // ---------------------------------------------------------------- has many

  function Times(xs: seq<int>, n: nat): seq<int> {
    if n == 0 then [] else Times(xs, n - 1) + xs
  }

  /** How often `p` is among the first `n` records. */
  function Visits(ps: seq<Record>, n: nat, p: Record): nat
    requires n <= |ps|
  {
    if n == 0 then 0 else Visits(ps, n - 1, p) + if ps[n - 1] == p then 1 else 0
  }

  /** A record's field after `n` visits: the results are appended, or the field is emptied. */
  function Loaded(field: seq<int>, found: seq<int>, n: nat): seq<int> {
    if n == 0 then field else if found == [] then [] else field + Times(found, n)
  }

  lemma LoadedStep(field: seq<int>, found: seq<int>, n: nat)
    ensures Loaded(field, found, 0) == field
    ensures Loaded(field, found, n + 1) == if found == [] then [] else Loaded(field, found, n) + found
  {
    if n == 0 {
      assert Times(found, 1) == [] + found == found;
    } else {
      assert field + (Times(found, n) + found) == field + Times(found, n) + found;
    }
  }

  /** The loop of `handleHasManyPreload`. A record listed twice is visited twice. */
  method AssignHasMany(records: seq<Record>, results: seq<Result>)
    modifies records
    ensures forall p :: p in records ==>
      p.field == Loaded(old(p.field), Filed(results, ToString(p.key)), Visits(records, |records|, p))
  {
    hide Filed, ToString, Loaded, HashOf;
    var preloadMap := Hash(results);
    forall p | p in records ensures Loaded(p.field, Filed(results, ToString(p.key)), 0) == p.field {
      LoadedStep(p.field, Filed(results, ToString(p.key)), 0);
    }
    for j := 0 to |records|
      invariant forall p :: p in records ==>
        p.field == Loaded(old(p.field), Filed(results, ToString(p.key)), Visits(records, j, p))
    {
      var r := records[j];
      LoadedStep(old(r.field), Filed(results, ToString(r.key)), Visits(records, j, r));
      Give(r, preloadMap, results);
    }
  }

  /** One visit. */
  method Give(r: Record, preloadMap: map<seq<int>, seq<int>>, results: seq<Result>)
    requires HashOf(preloadMap, results)
    modifies r
    ensures var found := Filed(results, ToString(r.key)); r.field == if found == [] then [] else old(r.field) + found
  {
    hide Filed, ToString;
    var text := ToString(r.key);
    assert text in preloadMap <==> Filed(results, text) != [];
    if text in preloadMap {
      r.field := r.field + preloadMap[text];
    } else {
      r.field := [];
    }
  }

  lemma {:induction false} VisitedOnce(ps: seq<Record>, n: nat, k: nat)
    requires k < |ps| && n <= |ps| && forall i, j :: 0 <= i < j < |ps| ==> ps[i] != ps[j]
    ensures Visits(ps, n, ps[k]) == if k < n then 1 else 0
    decreases n
  {
    if n > 0 { VisitedOnce(ps, n - 1, k); }
  }

  /** Each of different records with an empty field receives exactly the results with its key, in order. */
  method PreloadHasMany(records: seq<Record>, results: seq<Result>)
    requires forall i, j :: 0 <= i < j < |records| ==> records[i] != records[j]
    requires forall p :: p in records ==> p.field == []
    modifies records
    ensures forall p :: p in records ==> p.field == Filed(results, ToString(p.key))
    ensures forall p :: p in records && SameWidth(results, p.key) && (|p.key| <= 1 || NoSeparator(p.key)) ==>
      p.field == Matching(results, p.key)
  {
    AssignHasMany(records, results);
    forall p | p in records ensures p.field == Filed(results, ToString(p.key)) {
      var k :| 0 <= k < |records| && records[k] == p;
      VisitedOnce(records, |records|, k);
      assert Times(Filed(results, ToString(p.key)), 0) == [];
    }
    forall p | p in records && SameWidth(results, p.key) && (|p.key| <= 1 || NoSeparator(p.key))
      ensures p.field == Matching(results, p.key)
    {
      FiledIsMatching(results, p.key);
    }
  }

  // ---------------------------------------------------------------- many to many

  /** Every record is filed under its text, and only there. */
  ghost predicate Grouped(m: map<seq<int>, seq<Record>>, records: seq<Record>) {
    && (forall p :: p in records ==> ToStringFields(p.key) in m && p in m[ToStringFields(p.key)])
    && (forall text, p :: text in m && p in m[text] ==> p in records && ToStringFields(p.key) == text)
  }

  method GroupRecords(records: seq<Record>) returns (m: map<seq<int>, seq<Record>>)
    ensures Grouped(m, records)
  {
    hide ToStringFields;
    m := map[];
    for j := 0 to |records|
      invariant Grouped(m, records[..j])
    {
      var text := BuildFields(records[j].key);
      assert records[..j + 1] == records[..j] + [records[j]];
      m := m[text := (if text in m then m[text] else []) + [records[j]]];
    }
    assert records[..|records|] == records;
  }

  /** One group: a field that is filled is left alone, which also keeps a record listed twice from being
      filled twice. */
  method AssignGroup(group: seq<Record>, found: seq<int>)
    modifies group
    ensures forall p :: p in group ==> p.field == if old(p.field) != [] then old(p.field) else found
  {
    for i := 0 to |group|
      invariant forall p :: p in group[..i] ==> p.field == if old(p.field) != [] then old(p.field) else found
      invariant forall p :: p in group && p !in group[..i] ==> p.field == old(p.field)
    {
      var f := group[i];
      assert group[..i + 1] == group[..i] + [f];
      if |f.field| == 0 {
        var v: seq<int> := [];
        if |found| > 0 {
          v := f.field + found;
        }
        f.field := v;
      }
    }
    assert group[..|group|] == group;
  }

  /** The groups in the order in which the map yields them. */
  method AssignManyToMany(records: seq<Record>, links: seq<Result>)
    modifies records
    ensures forall p :: p in records ==> p.field == if old(p.field) != [] then old(p.field) else Filed(links, ToStringFields(p.key))
  {
    hide ToString, ToStringFields, Filed;
    var linkHash := Hash(links);
    var sources := GroupRecords(records);
    var left := sources.Keys;
    while left != {}
      invariant left <= sources.Keys
      invariant forall p :: p in records && ToStringFields(p.key) in left ==> p.field == old(p.field)
      invariant forall p :: p in records && ToStringFields(p.key) !in left ==>
        p.field == if old(p.field) != [] then old(p.field) else Filed(links, ToStringFields(p.key))
      decreases |left|
    {
      var text :| text in left;
      var found := if text in linkHash then linkHash[text] else [];
      assert found == Filed(links, text) by {
        assert text in linkHash <==> Filed(links, text) != [];
      }
      var group := sources[text];
      forall i | 0 <= i < |group| ensures group[i] in records && ToStringFields(group[i].key) == text {
        assert group[i] in sources[text];
      }
      AssignGroup(group, found);
      left := left - {text};
    }
  }

  lemma {:induction false} NonEmptyPlain(k: Key)
    ensures NoSeparator(k) ==> NoSeparator(NonEmpty(k))
    decreases |k|
  {
    if k != [] {
      NonEmptyPlain(k[1..]);
      assert NoSeparator(k) ==> NoSeparator(k[1..]);
    }
  }

  lemma {:induction false} FiledNothing(rs: seq<Result>, key: Key, text: seq<int>)
    requires SameWidth(rs, key) && key != [] && Separators(text) < |key| - 1
    ensures Filed(rs, text) == []
    decreases |rs|
  {
    hide ToString, Separators;
    if rs != [] {
      TextSeparators(rs[0].key);
      FiledNothing(rs[1..], key, text);
    }
  }

  /** A record with an empty field receives the links of the nested loop exactly when its key is not
      composite, has no empty component, or has no links. */
  lemma LinkedExactly(links: seq<Result>, key: Key)
    requires SameWidth(links, key) && (|key| <= 1 || NoSeparator(key))
    ensures Filed(links, ToStringFields(key)) == Matching(links, key) <==>
            |key| <= 1 || [] !in key || Matching(links, key) == []
  {
    FieldsTextExactly(key);
    if |key| <= 1 || [] !in key {
      FiledIsMatching(links, key);
    } else {
      var fields := NonEmpty(key);
      NonEmptyLength(key);
      NonEmptyPlain(key);
      NoSeparatorsIn(fields);
      TextSeparators(fields);
      FiledNothing(links, key, ToStringFields(key));
    }
  }

  /** The smallest record that loses its links. */
  lemma EmptyComponentLosesLinks(id: int)
    ensures var k: Key := [[], [49]];
            Matching([Result(k, id)], k) == [id] && Filed([Result(k, id)], ToStringFields(k)) == []
  {
    var k: Key := [[], [49]];
    var rs := [Result(k, id)];
    FieldsTextExactly(k);
    assert k[0] == [] && [] in k;
    assert rs[1..] == [];
  }
}
