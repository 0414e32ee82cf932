/** Which argument each marker of a WHERE condition names: numbered markers always their own, positional
    ones exactly when the values of the Or and the Not list can change places. */
module SqlWhereBinding {
  import opened SqlText
  import opened SqlBuild
  import opened SqlParse
  import opened SqlBinding
  import opened SqlClause
  import opened SqlWhere

  // ---------------------------------------------------------------- one list in every mode

  lemma {:induction false} RelabelLength(t: Text, n: nat, mode: Mode)
    ensures |Relabel(t, n, mode)| == |t|
    decreases |t|
  {
    if t != [] { RelabelLength(t[1..], if t[0] == Hole then n + 1 else n, mode); }
  }

  ghost predicate AllSound(cs: seq<Clause>, positive: bool, pk: int) {
    forall k :: 0 <= k < |cs| ==> Sound(BuildCondition(cs[k], positive, pk))
  }

  /** In every mode the list prints the same conditions with the markers renamed; its texts hold no other
      marker, and with the values written out it is the reference list. */
  ghost predicate ListBuilt(r: Reps, d: Reps, ref: seq<Text>, n: nat, mode: Mode) {
    && Renamed(r, d, n, mode)
    && Left(d, 0)
    && (mode.Literal? && At(mode.vals, n, d.vals) ==> r.texts == ref)
  }

  lemma BuiltVals(r: Reps, d: Reps, ref: seq<Text>, n: nat, mode: Mode)
    requires ListBuilt(r, d, ref, n, mode)
    ensures r.vals == d.vals
  {
  }

  lemma OneBuilt(c: Clause, positive: bool, pk: int, n: nat, m: nat, mode: Mode)
    requires Sound(BuildCondition(c, positive, pk))
    ensures ListBuilt(BuildOne(c, positive, pk, n, mode), BuildOne(c, positive, pk, m, Dollar), PrintedOne(c, positive, pk), n, mode)
  {
    hide Renamed, Left, Fits, Empties, Build, Inline, Relabel, Count, At, BuildCondition, Unmarked;
    var q := BuildCondition(c, positive, pk);
    var b, d := Build(q, n, mode), Build(q, m, Dollar);
    BuildInEveryMode(q, n, m, mode);
    RelabelLength(d.text, n, mode);
    QueryLeaves(q, m);
    if mode.Literal? && At(mode.vals, n, d.vals) { QuerySays(q, n, mode.vals); }
    if d.text == [] {
      CountNone([], Hole);
      RenamedNone(n, mode);
      LeftNothing();
    } else {
      RenamedOne(b.text, b.vals, d.text, n, mode);
      LeftOne(d.text, d.vals);
    }
  }

  lemma BuiltConcat(r: Reps, s: Reps, d: Reps, e: Reps, rr: seq<Text>, rs: seq<Text>, n: nat, mode: Mode)
    requires ListBuilt(r, d, rr, n, mode) && ListBuilt(s, e, rs, n + |d.vals|, mode)
    ensures ListBuilt(Append(r, s), Append(d, e), rr + rs, n, mode)
  {
    hide Renamed, Left, At;
    RenamedConcat(r, s, d, e, n, mode);
    LeftAppend(d, e, 0, 0);
    if mode.Literal? && At(mode.vals, n, d.vals + e.vals) { AtSplit(mode.vals, n, d.vals, e.vals); }
  }

  lemma ListStep(cs: seq<Clause>, positive: bool, pk: int, n: nat, m: nat, mode: Mode)
    requires cs != [] && Sound(BuildCondition(cs[0], positive, pk))
    requires var d := BuildOne(cs[0], positive, pk, m, Dollar);
             ListBuilt(BuildAll(cs[1..], positive, pk, n + |d.vals|, mode), BuildAll(cs[1..], positive, pk, m + |d.vals|, Dollar),
                       Printed(cs[1..], positive, pk), n + |d.vals|, mode)
    ensures ListBuilt(BuildAll(cs, positive, pk, n, mode), BuildAll(cs, positive, pk, m, Dollar), Printed(cs, positive, pk), n, mode)
  {
    hide *;
    var b, d := BuildOne(cs[0], positive, pk, n, mode), BuildOne(cs[0], positive, pk, m, Dollar);
    OneBuilt(cs[0], positive, pk, n, m, mode);
    BuiltVals(b, d, PrintedOne(cs[0], positive, pk), n, mode);
    var r := BuildAll(cs[1..], positive, pk, n + |d.vals|, mode);
    var e := BuildAll(cs[1..], positive, pk, m + |d.vals|, Dollar);
    BuildAllStep(cs, positive, pk, n, mode);
    BuildAllStep(cs, positive, pk, m, Dollar);
    PrintedStep(cs, positive, pk);
    BuiltConcat(b, r, d, e, PrintedOne(cs[0], positive, pk), Printed(cs[1..], positive, pk), n, mode);
  }

  lemma {:induction false} ListInEveryMode(cs: seq<Clause>, positive: bool, pk: int, n: nat, m: nat, mode: Mode)
    requires AllSound(cs, positive, pk)
    ensures ListBuilt(BuildAll(cs, positive, pk, n, mode), BuildAll(cs, positive, pk, m, Dollar), Printed(cs, positive, pk), n, mode)
    decreases |cs|
  {
    if cs == [] {
      hide Renamed, BuildOne, PrintedOne, Sound, BuildCondition;
      RenamedNone(n, mode);
      LeftNothing();
    } else {
      hide Sound, BuildCondition, BuildAll, Printed, ListBuilt;
      assert Sound(BuildCondition(cs[0], positive, pk)) && AllSound(cs[1..], positive, pk);
      hide *;
      var k := |BuildOne(cs[0], positive, pk, m, Dollar).vals|;
      ListInEveryMode(cs[1..], positive, pk, n + k, m + k, mode);
      ListStep(cs, positive, pk, n, m, mode);
    }
  }

  lemma {:induction false} PrimaryInEveryMode(ks: seq<Key>, n: nat, m: nat, mode: Mode)
    ensures ListBuilt(PrimaryAll(ks, n, mode), PrimaryAll(ks, m, Dollar), PrintedKeys(ks), n, mode)
    decreases |ks|
  {
    if ks == [] {
      RenamedNone(n, mode);
    } else {
      hide *;
      PrimaryStep(ks, n, mode);
      PrimaryStep(ks, m, Dollar);
      DollarHole(m + 1);
      KeyBuilt(ks[0], n, mode);
      PrimaryInEveryMode(ks[1..], n + 1, m + 1, mode);
      BuiltConcat(KeyReps(ks[0], Marker(mode, n + 1)), PrimaryAll(ks[1..], n + 1, mode), KeyReps(ks[0], Hole),
                  PrimaryAll(ks[1..], m + 1, Dollar), KeyText(ks[0]), PrintedKeys(ks[1..]), n, mode) by { OneKeyVal(ks[0]); }
    }
  }

  function KeyReps(k: Key, marker: Tok): Reps { Reps([[Word(k.col), EQ, marker]], [k.v]) }
  function KeyText(k: Key): seq<Text> { [[Word(k.col), EQ, Val(k.v)]] }

  lemma DollarHole(n: nat)
    ensures Marker(Dollar, n) == Hole
  {
  }

  lemma OneKeyVal(k: Key)
    ensures |KeyReps(k, Hole).vals| == 1
  {
  }

  lemma PrimaryStep(ks: seq<Key>, n: nat, mode: Mode)
    requires ks != []
    ensures PrimaryAll(ks, n, mode) == Append(KeyReps(ks[0], Marker(mode, n + 1)), PrimaryAll(ks[1..], n + 1, mode))
    ensures PrintedKeys(ks) == KeyText(ks[0]) + PrintedKeys(ks[1..])
  {
    hide Marker, Append;
    var k := ks[0];
    assert [Word(k.col), EQ] + [Marker(mode, n + 1)] == [Word(k.col), EQ, Marker(mode, n + 1)];
  }

  lemma KeyBuilt(k: Key, n: nat, mode: Mode)
    ensures ListBuilt(KeyReps(k, Marker(mode, n + 1)), KeyReps(k, Hole), KeyText(k), n, mode)
  {
    hide Renamed, Left, Relabel, Count;
    var t: Text := [Word(k.col), EQ, Hole];
    KeyRelabelled(k.col, n, mode);
    CountNone(t, Quest);
    LeftOne(t, [k.v]);
    RenamedOne([Word(k.col), EQ, Marker(mode, n + 1)], [k.v], t, n, mode);
    if mode.Literal? && At(mode.vals, n, [k.v]) { assert mode.vals[n + 0] == [k.v][0]; }
  }

  lemma KeyRelabelled(w: int, n: nat, mode: Mode)
    ensures Relabel([Word(w), EQ, Hole], n, mode) == [Word(w), EQ, Marker(mode, n + 1)] && Count([Word(w), EQ, Hole], Hole) == 1
  {
    var pre, h: Text := [Word(w), EQ], [Hole];
    assert pre + h == [Word(w), EQ, Hole] && h[1..] == [];
    assert Relabel(h[1..], n + 1, mode) == [] && Count(h[1..], Hole) == 0;
    assert Relabel(h, n, mode) == [Marker(mode, n + 1)] && Count(h, Hole) == 1;
    CountNone(pre, Hole);
    hide Relabel, Count;
    RelabelNone(pre, n, mode);
    RelabelConcat(pre, h, n, mode);
    CountConcat(pre, h, Hole);
    assert pre + [Marker(mode, n + 1)] == [Word(w), EQ, Marker(mode, n + 1)];
  }

  // ---------------------------------------------------------------- relabelling an assembled condition

  lemma RelabelCombine(ands: seq<Text>, ors: seq<Text>, n: nat, mode: Mode)
    ensures Count(Combine(ands, ors), Hole) == CountAll(ands, Hole) + CountAll(ors, Hole)
    ensures Relabel(Combine(ands, ors), n, mode) == Combine(RelabelAll(ands, n, mode), RelabelAll(ors, n + CountAll(ands, Hole), mode))
  {
    hide Relabel, Count, RelabelAll, CountAll, Join;
    var a, o := Join(ands, AND), Join(ors, OR);
    CountJoin(ands, AND, Hole);
    CountJoin(ors, OR, Hole);
    RelabelJoin(ands, AND, n, mode);
    RelabelJoin(ors, OR, n + CountAll(ands, Hole), mode);
    RelabelLength(a, n, mode);
    RelabelLength(o, n + CountAll(ands, Hole), mode);
    CountNone([], Hole);
    CountNone([OR], Hole);
    RelabelNone([OR], n + Count(a, Hole), mode);
    CountConcat(a + [OR], o, Hole);
    CountConcat(a, [OR], Hole);
    RelabelConcat(a + [OR], o, n, mode);
    RelabelConcat(a, [OR], n, mode);
  }

  lemma NothingCounted()
    ensures CountAll([], Hole) == 0
  {
  }

  lemma RelabelAssemble(p: seq<Text>, ands: seq<Text>, ors: seq<Text>, n: nat, mode: Mode)
    ensures Count(Assemble(p, ands, ors), Hole) == CountAll(p, Hole) + CountAll(ands, Hole) + CountAll(ors, Hole)
    ensures Relabel(Assemble(p, ands, ors), n, mode) ==
            Assemble(RelabelAll(p, n, mode), RelabelAll(ands, n + CountAll(p, Hole), mode),
                     RelabelAll(ors, n + CountAll(p, Hole) + CountAll(ands, Hole), mode))
  {
    hide Relabel, Count, RelabelAll, CountAll, Join, Combine;
    var c, j, k := Combine(ands, ors), Join(p, AND), n + CountAll(p, Hole);
    NothingCounted();
    RelabelCombine(ands, ors, k, mode);
    RelabelLength(c, k, mode);
    CountJoin(p, AND, Hole);
    RelabelJoin(p, AND, n, mode);
    Parens(c, k, mode);
    CountNone([], Hole);
    CountNone([AND], Hole);
    RelabelNone([AND], k, mode);
    var g := [LP] + c + [RP];
    CountConcat(j + [AND], g, Hole);
    CountConcat(j, [AND], Hole);
    RelabelConcat(j + [AND], g, n, mode);
    RelabelConcat(j, [AND], n, mode);
  }

  // ---------------------------------------------------------------- positional markers

  ghost predicate Renderable(s: Search, pk: int) {
    AllSound(s.wheres, true, pk) && AllSound(s.ors, true, pk) && AllSound(s.nots, false, pk)
  }

  /** The four pieces of the argument vector, in the order of the arguments. */
  function PrimaryVals(s: Search): seq<int> { PrimaryAll(s.primary, 0, Dollar).vals }
  function WhereVals(s: Search, pk: int): seq<int> { BuildAll(s.wheres, true, pk, 0, Dollar).vals }
  function OrVals(s: Search, pk: int): seq<int> { BuildAll(s.ors, true, pk, 0, Dollar).vals }
  function NotVals(s: Search, pk: int): seq<int> { BuildAll(s.nots, false, pk, 0, Dollar).vals }

  /** A list's texts with the values written out, from any position of a vector that holds them there. */
  lemma ListSays(cs: seq<Clause>, positive: bool, pk: int, n: nat, m: nat, all: seq<int>)
    requires AllSound(cs, positive, pk) && At(all, n, BuildAll(cs, positive, pk, 0, Dollar).vals)
    ensures var d := BuildAll(cs, positive, pk, m, Dollar);
            && RelabelAll(d.texts, n, Literal(all)) == Printed(cs, positive, pk)
            && CountAll(d.texts, Hole) == |d.vals| && d.vals == BuildAll(cs, positive, pk, 0, Dollar).vals
  {
    hide AllSound, BuildAll, Printed, At, CountAll, RelabelAll, Unmarked;
    ListInEveryMode(cs, positive, pk, n, m, Literal(all));
    ListInEveryMode(cs, positive, pk, n, 0, Literal(all));
  }

  lemma DeletedAtLabels(s: Search, n: nat, mode: Mode)
    ensures CountAll(DeletedAt(s), Hole) == 0 && RelabelAll(DeletedAt(s), n, mode) == DeletedAt(s)
  {
    if s.deletedAt.Some? {
      var t := DeletedAt(s)[0];
      CountNone(t, Hole);
      RelabelNone(t, n, mode);
      assert DeletedAt(s)[1..] == [];
    }
  }

  lemma PrimarySays(s: Search, n: nat, m: nat, all: seq<int>)
    requires At(all, n, PrimaryVals(s))
    ensures var d := PrimaryAll(s.primary, m, Dollar);
            && RelabelAll(DeletedAt(s) + d.texts, n, Literal(all)) == DeletedAt(s) + PrintedKeys(s.primary)
            && CountAll(DeletedAt(s) + d.texts, Hole) == |d.vals| && d.vals == PrimaryVals(s)
  {
    hide PrimaryAll, PrintedKeys, At, CountAll, RelabelAll, Left;
    PrimaryInEveryMode(s.primary, n, m, Literal(all));
    PrimaryInEveryMode(s.primary, n, 0, Literal(all));
    DeletedAtLabels(s, n, Literal(all));
    AllConcat(DeletedAt(s), PrimaryAll(s.primary, m, Dollar).texts, n, Literal(all), Hole);
  }

  /** The values of a search in the order of its text. */
  function TextVals(s: Search, pk: int): seq<int> {
    PrimaryVals(s) + WhereVals(s, pk) + NotVals(s, pk) + OrVals(s, pk)
  }

  lemma TextValsAre(s: Search, pk: int)
    ensures TextVals(s, pk) == PrimaryVals(s) + WhereVals(s, pk) + NotVals(s, pk) + OrVals(s, pk)
  {
    hide PrimaryVals, WhereVals, NotVals, OrVals;
  }

  lemma AtFour(all: seq<int>, n: nat, p: seq<int>, w: seq<int>, x: seq<int>, o: seq<int>)
    requires At(all, n, p + w + x + o)
    ensures At(all, n, p) && At(all, n + |p|, w) && At(all, n + |p| + |w|, x) && At(all, n + |p| + |w| + |x|, o)
  {
    hide At;
    AtSplit(all, n, p + w + x, o);
    AtSplit(all, n, p + w, x);
    AtSplit(all, n, p, w);
  }

  /** With the values taken from a vector that holds them in the order of the text, the condition is the
      reference; its own vector holds them in the order Where, Or, Not. */
  lemma LiteralInTextOrder(s: Search, pk: int, n: nat, all: seq<int>)
    requires Renderable(s, pk) && At(all, n, TextVals(s, pk))
    ensures var b := WhereSql(s, pk, n, Dollar);
            && Relabel(b.text, n, Literal(all)) == Reference(s, pk) && Count(b.text, Hole) == |b.vals|
            && b.vals == PrimaryVals(s) + WhereVals(s, pk) + OrVals(s, pk) + NotVals(s, pk)
  {
    hide PrimaryAll, BuildAll, PrintedKeys, Printed, At, CountAll, RelabelAll, Relabel, Count, Assemble, AllSound, DeletedAt;
    var p, w, x, o := PrimaryVals(s), WhereVals(s, pk), NotVals(s, pk), OrVals(s, pk);
    var i := n + |p| + |w|;
    AtFour(all, n, p, w, x, o);
    PrimarySays(s, n, n, all);
    ListSays(s.wheres, true, pk, n + |p|, n + |p|, all);
    ListSays(s.ors, true, pk, i + |x|, i, all);
    ListSays(s.nots, false, pk, i, i + |o|, all);
    var dp := DeletedAt(s) + PrimaryAll(s.primary, n, Dollar).texts;
    var dw := BuildAll(s.wheres, true, pk, n + |p|, Dollar).texts;
    var do := BuildAll(s.ors, true, pk, i, Dollar).texts;
    var dx := BuildAll(s.nots, false, pk, i + |o|, Dollar).texts;
    AllConcat(dw, dx, n + |p|, Literal(all), Hole);
    RelabelAssemble(dp, dw + dx, do, n, Literal(all));
  }

  /** Filled in the order of the text, the positional condition is the reference. */
  lemma FilledInTextOrder(s: Search, pk: int)
    requires Renderable(s, pk)
    ensures var t, all := WhereSql(s, pk, 0, Dollar).text, TextVals(s, pk);
            Count(t, Hole) == |all| && Fill(t, all) == Reference(s, pk)
    ensures WhereSql(s, pk, 0, Dollar).vals == PrimaryVals(s) + WhereVals(s, pk) + OrVals(s, pk) + NotVals(s, pk)
  {
    hide WhereSql, Relabel, Count, Fill, Reference, Renderable, PrimaryVals, WhereVals, OrVals, NotVals;
    var all := TextVals(s, pk);
    AtAll(all);
    LiteralInTextOrder(s, pk, 0, all);
    FillRelabelled(WhereSql(s, pk, 0, Dollar).text, 0, all, all);
  }

  lemma Cancel(a: seq<int>, x: seq<int>, o: seq<int>)
    ensures a + o + x == a + x + o <==> o + x == x + o
  {
    assert a + o + x == a + (o + x) && a + x + o == a + (x + o);
    assert o + x == (a + (o + x))[|a|..] && x + o == (a + (x + o))[|a|..];
  }

  /** Positional markers meet their own values exactly when the Or and the Not values commute, in
      particular when one of the two lists carries none. */
  lemma PositionalExactly(s: Search, pk: int)
    requires Renderable(s, pk)
    ensures var b := WhereSql(s, pk, 0, Dollar);
            && Count(b.text, Hole) == |b.vals|
            && (Fill(b.text, b.vals) == Reference(s, pk) <==>
                OrVals(s, pk) + NotVals(s, pk) == NotVals(s, pk) + OrVals(s, pk))
  {
    hide *;
    var p, w, x, o := PrimaryVals(s), WhereVals(s, pk), NotVals(s, pk), OrVals(s, pk);
    var b := WhereSql(s, pk, 0, Dollar);
    FilledInTextOrder(s, pk);
    assert TextVals(s, pk) == p + w + x + o by { TextValsAre(s, pk); }
    Cancel(p + w, x, o);
    if Fill(b.text, b.vals) == Reference(s, pk) { FillInjective(b.text, b.vals, p + w + x + o); }
  }

  // ---------------------------------------------------------------- numbered markers

  function ResolveAll(texts: seq<Text>, all: seq<int>): (r: seq<Text>)
    ensures |r| == |texts|
  {
    if texts == [] then [] else [Resolve(texts[0], all)] + ResolveAll(texts[1..], all)
  }

  function MarksAll(texts: seq<Text>): seq<int> {
    if texts == [] then [] else Marks(texts[0]) + MarksAll(texts[1..])
  }

  lemma {:induction false} ResolveLength(t: Text, all: seq<int>)
    ensures |Resolve(t, all)| == |t|
    decreases |t|
  {
    if t != [] { ResolveLength(t[1..], all); }
  }

  lemma {:induction false} MarksConcat(a: Text, b: Text)
    ensures Marks(a + b) == Marks(a) + Marks(b)
    decreases |a|
  {
    if a == [] {
      assert a + b == b;
    } else {
      assert (a + b)[1..] == a[1..] + b;
      MarksConcat(a[1..], b);
    }
  }

  lemma Single(t: Tok, all: seq<int>)
    requires !t.Mark?
    ensures Resolve([t], all) == [t] && Marks([t]) == []
  {
    assert [t][1..] == [];
  }

  /** Around a token that is no marker. */
  lemma ResolveAround(a: Text, x: Tok, b: Text, all: seq<int>)
    requires !x.Mark?
    ensures Resolve(a + [x] + b, all) == Resolve(a, all) + [x] + Resolve(b, all)
    ensures Marks(a + [x] + b) == Marks(a) + Marks(b)
  {
    hide Resolve, Marks;
    Single(x, all);
    ResolveConcat(a + [x], b, all);
    ResolveConcat(a, [x], all);
    MarksConcat(a + [x], b);
    MarksConcat(a, [x]);
    assert Marks(a) + [] == Marks(a);
  }

  lemma ResolveWithin(c: Text, all: seq<int>)
    ensures Resolve([LP] + c + [RP], all) == [LP] + Resolve(c, all) + [RP]
    ensures Marks([LP] + c + [RP]) == Marks(c)
  {
    ResolveAround([], LP, c, all);
    ResolveAround([LP] + c, RP, [], all);
    assert [] + [LP] + c == [LP] + c && [LP] + c + [RP] + [] == [LP] + c + [RP];
  }

  lemma NothingResolved(all: seq<int>)
    ensures Resolve([], all) == [] && Marks([]) == [] && ResolveAll([], all) == [] && MarksAll([]) == []
  {
  }

  lemma {:induction false} ResolveAllConcat(a: seq<Text>, b: seq<Text>, all: seq<int>)
    ensures ResolveAll(a + b, all) == ResolveAll(a, all) + ResolveAll(b, all) && MarksAll(a + b) == MarksAll(a) + MarksAll(b)
    decreases |a|
  {
    hide Resolve, Marks;
    if a == [] {
      assert a + b == b;
    } else {
      assert (a + b)[1..] == a[1..] + b;
      ResolveAllConcat(a[1..], b, all);
    }
  }

  lemma {:induction false} ResolveJoin(texts: seq<Text>, sep: Tok, all: seq<int>)
    requires !sep.Mark?
    ensures Resolve(Join(texts, sep), all) == Join(ResolveAll(texts, all), sep)
    ensures Marks(Join(texts, sep)) == MarksAll(texts)
    decreases |texts|
  {
    hide Resolve, Marks;
    if texts == [] {
      NothingResolved(all);
    } else if |texts| > 1 {
      ResolveAround(texts[0], sep, Join(texts[1..], sep), all);
      ResolveJoin(texts[1..], sep, all);
      assert ResolveAll(texts, all)[1..] == ResolveAll(texts[1..], all);
    } else {
      assert MarksAll(texts[1..]) == [];
    }
  }

  lemma ResolveCombine(ands: seq<Text>, ors: seq<Text>, all: seq<int>)
    ensures Resolve(Combine(ands, ors), all) == Combine(ResolveAll(ands, all), ResolveAll(ors, all))
    ensures Marks(Combine(ands, ors)) == MarksAll(ands) + MarksAll(ors)
  {
    hide Resolve, Marks, Join, ResolveAll, MarksAll;
    var a, o := Join(ands, AND), Join(ors, OR);
    ResolveJoin(ands, AND, all);
    ResolveJoin(ors, OR, all);
    ResolveLength(a, all);
    ResolveLength(o, all);
    NothingResolved(all);
    ResolveAround(a, OR, o, all);
  }

  lemma ResolveAssemble(p: seq<Text>, ands: seq<Text>, ors: seq<Text>, all: seq<int>)
    ensures Resolve(Assemble(p, ands, ors), all) == Assemble(ResolveAll(p, all), ResolveAll(ands, all), ResolveAll(ors, all))
    ensures Marks(Assemble(p, ands, ors)) == MarksAll(p) + (MarksAll(ands) + MarksAll(ors))
  {
    hide Resolve, Marks, Join, ResolveAll, MarksAll, Combine;
    var c, j := Combine(ands, ors), Join(p, AND);
    ResolveCombine(ands, ors, all);
    ResolveLength(c, all);
    ResolveJoin(p, AND, all);
    NothingResolved(all);
    ResolveWithin(c, all);
    ResolveAround(j, AND, [LP] + c + [RP], all);
  }

  lemma {:induction false} RangeConcat(n: nat, j: nat, k: nat)
    ensures Range(n, j) + Range(n + j, k) == Range(n, j + k)
  {
  }

  lemma {:induction false} NumberedTexts(texts: seq<Text>, n: nat, all: seq<int>)
    requires (forall k :: 0 <= k < |texts| ==> Unmarked(texts[k])) && n + CountAll(texts, Hole) <= |all|
    ensures ResolveAll(RelabelAll(texts, n, Numbered), all) == RelabelAll(texts, n, Literal(all))
    ensures MarksAll(RelabelAll(texts, n, Numbered)) == Range(n, CountAll(texts, Hole))
    decreases |texts|
  {
    hide Resolve, Marks, Relabel, Unmarked, Count;
    if texts != [] {
      var k := Count(texts[0], Hole);
      ResolveRelabelled(texts[0], n, all);
      MarksRelabelled(texts[0], n);
      NumberedTexts(texts[1..], n + k, all);
      assert RelabelAll(texts, n, Numbered)[1..] == RelabelAll(texts[1..], n + k, Numbered);
      RangeConcat(n, k, CountAll(texts[1..], Hole));
    }
  }

  lemma NumberedList(cs: seq<Clause>, positive: bool, pk: int, n: nat, all: seq<int>)
    requires AllSound(cs, positive, pk) && At(all, n, BuildAll(cs, positive, pk, 0, Dollar).vals)
    ensures var r, d := BuildAll(cs, positive, pk, n, Numbered), BuildAll(cs, positive, pk, 0, Dollar);
            && r.vals == d.vals && ResolveAll(r.texts, all) == Printed(cs, positive, pk) && MarksAll(r.texts) == Range(n, |d.vals|)
  {
    hide AllSound, BuildAll, Printed, CountAll, RelabelAll, Unmarked, ResolveAll, MarksAll;
    ListInEveryMode(cs, positive, pk, n, 0, Numbered);
    ListInEveryMode(cs, positive, pk, n, 0, Literal(all));
    NumberedTexts(BuildAll(cs, positive, pk, 0, Dollar).texts, n, all);
  }

  lemma NumberedPrimary(s: Search, n: nat, all: seq<int>)
    requires At(all, n, PrimaryVals(s))
    ensures var r := PrimaryAll(s.primary, n, Numbered);
            var p := DeletedAt(s) + r.texts;
            && r.vals == PrimaryVals(s) && ResolveAll(p, all) == DeletedAt(s) + PrintedKeys(s.primary)
            && MarksAll(p) == Range(n, |r.vals|)
  {
    hide PrimaryAll, PrintedKeys, CountAll, RelabelAll, Unmarked, ResolveAll, MarksAll;
    PrimaryInEveryMode(s.primary, n, 0, Numbered);
    PrimaryInEveryMode(s.primary, n, 0, Literal(all));
    NumberedTexts(PrimaryAll(s.primary, 0, Dollar).texts, n, all);
    ResolveAllConcat(DeletedAt(s), PrimaryAll(s.primary, n, Numbered).texts, all);
    DeletedAtResolves(s, all);
  }

  lemma DeletedAtResolves(s: Search, all: seq<int>)
    ensures ResolveAll(DeletedAt(s), all) == DeletedAt(s) && MarksAll(DeletedAt(s)) == []
  {
    if s.deletedAt.Some? {
      var t: Text := [Word(s.deletedAt.value), IS_NULL];
      assert DeletedAt(s) == [t] && [t][1..] == [] && t[1..] == [IS_NULL];
      Single(IS_NULL, all);
      assert Resolve(t, all) == t && Marks(t) == [];
    }
  }

  /** Numbered markers: whatever stands in the vector before and after, the condition says what the lists
      say, and each of its values has exactly one marker. The numbers of Or come before those of Not
      although its text stands behind. */
  lemma NumberedWhereBinds(s: Search, pk: int, n: nat, all: seq<int>)
    requires Renderable(s, pk) && At(all, n, WhereSql(s, pk, n, Numbered).vals)
    ensures var b := WhereSql(s, pk, n, Numbered);
            var p, w, o, x := |PrimaryVals(s)|, |WhereVals(s, pk)|, |OrVals(s, pk)|, |NotVals(s, pk)|;
            && |b.vals| == p + w + o + x
            && Resolve(b.text, all) == Reference(s, pk)
            && Marks(b.text) == Range(n, p) + (Range(n + p, w) + Range(n + p + w + o, x) + Range(n + p + w, o))
  {
    hide PrimaryAll, BuildAll, PrintedKeys, Printed, At, Resolve, Marks, ResolveAll, MarksAll, Assemble, AllSound, DeletedAt, Range;
    var p, w, x, o := PrimaryVals(s), WhereVals(s, pk), NotVals(s, pk), OrVals(s, pk);
    var tp := PrimaryAll(s.primary, n, Numbered);
    PrimaryInEveryMode(s.primary, n, 0, Numbered);
    var tw := BuildAll(s.wheres, true, pk, n + |p|, Numbered);
    ListInEveryMode(s.wheres, true, pk, n + |p|, 0, Numbered);
    var to := BuildAll(s.ors, true, pk, n + |p| + |w|, Numbered);
    ListInEveryMode(s.ors, true, pk, n + |p| + |w|, 0, Numbered);
    var tx := BuildAll(s.nots, false, pk, n + |p| + |w| + |o|, Numbered);
    ListInEveryMode(s.nots, false, pk, n + |p| + |w| + |o|, 0, Numbered);
    BuiltVals(tp, PrimaryAll(s.primary, 0, Dollar), PrintedKeys(s.primary), n, Numbered);
    BuiltVals(tw, BuildAll(s.wheres, true, pk, 0, Dollar), Printed(s.wheres, true, pk), n + |p|, Numbered);
    BuiltVals(to, BuildAll(s.ors, true, pk, 0, Dollar), Printed(s.ors, true, pk), n + |p| + |w|, Numbered);
    BuiltVals(tx, BuildAll(s.nots, false, pk, 0, Dollar), Printed(s.nots, false, pk), n + |p| + |w| + |o|, Numbered);
    AtSplit(all, n, p + w + o, x);
    AtSplit(all, n, p + w, o);
    AtSplit(all, n, p, w);
    NumberedPrimary(s, n, all);
    NumberedList(s.wheres, true, pk, n + |p|, all);
    NumberedList(s.ors, true, pk, n + |p| + |w|, all);
    NumberedList(s.nots, false, pk, n + |p| + |w| + |o|, all);
    ResolveAllConcat(tw.texts, tx.texts, all);
    ResolveAssemble(DeletedAt(s) + tp.texts, tw.texts + tx.texts, to.texts, all);
  }

  // ---------------------------------------------------------------- from the lists to the rows

  lemma OkRenders(s: Search, pk: int)
    requires SearchBalanced(s)
    ensures Renderable(s, pk)
  {
    hide Sound, Inline, Eval, Means, BuildCondition;
    forall k | 0 <= k < |s.wheres| ensures Sound(BuildCondition(s.wheres[k], true, pk)) {
      ClauseSays(s.wheres[k], true, pk, t => Unknown);
    }
    forall k | 0 <= k < |s.ors| ensures Sound(BuildCondition(s.ors[k], true, pk)) {
      ClauseSays(s.ors[k], true, pk, t => Unknown);
    }
    forall k | 0 <= k < |s.nots| ensures Sound(BuildCondition(s.nots[k], false, pk)) {
      ClauseSays(s.nots[k], false, pk, t => Unknown);
    }
  }

  /** The condition as it is sent, numbered, with the vector as it is sent: the rows it selects are the rows
      the lists ask for. */
  lemma NumberedSelects(s: Search, pk: int, n: nat, all: seq<int>, row: Record)
    requires SearchOk(s) && At(all, n, WhereSql(s, pk, n, Numbered).vals)
    ensures Passes(Resolve(WhereSql(s, pk, n, Numbered).text, all), row) <==> Expected(s, pk, row).True?
  {
    hide Renderable, WhereSql, Reference, Resolve, Passes, Expected, At, ListBuilt, ClauseOk, Lacks, Inline;
    OkRenders(s, pk);
    NumberedWhereBinds(s, pk, n, all);
    ReferenceSays(s, pk, row);
  }

  /** The same for positional markers when the Or and the Not values commute. */
  lemma PositionalSelects(s: Search, pk: int, row: Record)
    requires SearchOk(s) && OrVals(s, pk) + NotVals(s, pk) == NotVals(s, pk) + OrVals(s, pk)
    ensures var b := WhereSql(s, pk, 0, Dollar);
            Count(b.text, Hole) == |b.vals| && (Passes(Fill(b.text, b.vals), row) <==> Expected(s, pk, row).True?)
  {
    hide Renderable, WhereSql, Reference, Fill, Passes, Expected, ListBuilt, ClauseOk, Lacks, Inline, OrVals, NotVals;
    OkRenders(s, pk);
    PositionalExactly(s, pk);
    ReferenceSays(s, pk, row);
  }
}
