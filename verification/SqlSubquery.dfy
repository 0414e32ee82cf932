/** Rendering in two stages: `QueryExpr` and `SubQuery` render without bind variables, and the result, text
    and vector, is built again as an argument or a condition of another query. */
module SqlSubquery {
  import opened Lists
  import opened SqlText
  import opened SqlBuild
  import opened SqlBinding
  import opened SqlClause
  import opened SqlWhere
  import opened SqlWhereBinding

  function Ones(vals: seq<int>): seq<Arg> {
    if vals == [] then [] else [One(Value(vals[0]))] + Ones(vals[1..])
  }

  /** What was rendered, as a query. */
  function Again(b: Built): Query {
    Query(b.text, Ones(b.vals))
  }

  function Markers(n: nat, k: nat, mode: Mode): seq<Text>
    decreases k
  {
    if k == 0 then [] else [[Marker(mode, n + 1)]] + Markers(n + 1, k - 1, mode)
  }

  lemma {:induction false} OnesBuild(vals: seq<int>, n: nat, mode: Mode)
    ensures AddArgs(Ones(vals), n, mode) == Reps(Markers(n, |vals|, mode), vals)
    decreases |vals|
  {
    if vals != [] {
      var ones, a := Ones(vals), Reps([[Marker(mode, n + 1)]], [vals[0]]);
      assert ones[0] == One(Value(vals[0])) && ones[1..] == Ones(vals[1..]);
      assert AddArg(ones[0], n, mode) == a;
      hide AddArg, Marker;
      OnesBuild(vals[1..], n + 1, mode);
      assert AddArgs(ones, n, mode) == Append(a, AddArgs(ones[1..], n + 1, mode));
      assert [vals[0]] + vals[1..] == vals;
    }
  }

  lemma {:induction false} SubstituteMarkers(t: Text, k: nat, n: nat, mode: Mode)
    requires Count(t, Quest) == 0
    ensures Substitute(Relabel(t, k, Skip), Markers(n, Count(t, Hole), mode)) == Relabel(t, n, mode)
    ensures Count(Relabel(t, k, Skip), Quest) == Count(t, Hole)
    ensures |Markers(n, Count(t, Hole), mode)| == Count(t, Hole)
    decreases |t|
  {
    if t != [] {
      var h := t[0] == Hole;
      SubstituteMarkers(t[1..], if h then k + 1 else k, if h then n + 1 else n, mode);
      assert Relabel(t, k, Skip)[1..] == Relabel(t[1..], if h then k + 1 else k, Skip);
      if h {
        assert Markers(n, Count(t, Hole), mode)[1..] == Markers(n + 1, Count(t[1..], Hole), mode);
      }
    }
  }

  /** `b` is the positional rendering `d` with `?` for markers, and `d` leaves no other `?`. */
  ghost predicate Skipped(b: Built, d: Built) {
    && b == Built(Relabel(d.text, 0, Skip), d.vals)
    && Count(d.text, Hole) == |d.vals| && Count(d.text, Quest) == 0 && Unmarked(d.text)
  }

  /** The second stage gives the k-th marker of the text the k-th value of the vector, in parentheses
      (`SubQuery`) as well. */
  lemma SecondStage(b: Built, d: Built, n: nat, mode: Mode)
    requires Skipped(b, d)
    ensures Build(Again(b), n, mode) == Built(Relabel(d.text, n, mode), d.vals)
    ensures Build(Query([LP] + b.text + [RP], Again(b).args), n, mode) ==
            Built([LP] + Relabel(d.text, n, mode) + [RP], d.vals)
  {
    hide Relabel, Substitute, AddArgs, Count, Markers, Ones, Unmarked;
    OnesBuild(d.vals, n, mode);
    SubstituteMarkers(d.text, 0, n, mode);
    SubstituteWithin(b.text, Markers(n, |d.vals|, mode));
  }

  // ---------------------------------------------------------------- a query

  function Rendered(q: Query): Query {
    Again(Build(q, 0, Skip))
  }

  /** The arguments of a query stand in the order of its text, so rendering it in two stages is rendering it
      once, at every position and in every mode. */
  lemma TwoStages(q: Query, n: nat, mode: Mode)
    requires Sound(q)
    ensures Build(Rendered(q), n, mode) == Build(q, n, mode)
    ensures var r, b := Rendered(q), Build(q, n, mode);
            Build(Query([LP] + r.text + [RP], r.args), n, mode) == Built([LP] + b.text + [RP], b.vals)
  {
    hide Fits, Empties, Relabel, Count, Build, Unmarked, Ones;
    BuildInEveryMode(q, 0, 0, Skip);
    BuildInEveryMode(q, n, 0, mode);
    QueryLeaves(q, 0);
    SecondStage(Build(q, 0, Skip), Build(q, 0, Dollar), n, mode);
  }

  /** Some nested queries rendered beforehand, wherever they stand: alone, in a slice or in a row. */
  ghost predicate ItemStaged(i: Item, j: Item) {
    j == i || (i.Expr? && Sound(i.q) && j == Expr(Rendered(i.q)))
  }

  ghost predicate ItemsStaged(s: seq<Item>, t: seq<Item>) {
    |s| == |t| && forall k :: 0 <= k < |s| ==> ItemStaged(s[k], t[k])
  }

  ghost predicate RowsStaged(s: seq<Row>, t: seq<Row>) {
    |s| == |t| && forall k :: 0 <= k < |s| ==> ItemsStaged(s[k].cells, t[k].cells)
  }

  ghost predicate ArgStaged(a: Arg, b: Arg) {
    match a
    case One(i) => b.One? && ItemStaged(i, b.item)
    case Many(items) => b.Many? && ItemsStaged(items, b.items)
    case Rows(rows) => b.Rows? && RowsStaged(rows, b.rows)
  }

  ghost predicate ArgsStaged(a: seq<Arg>, b: seq<Arg>) {
    |a| == |b| && forall k :: 0 <= k < |a| ==> ArgStaged(a[k], b[k])
  }

  lemma StagedItem(i: Item, j: Item, n: nat, mode: Mode)
    requires ItemStaged(i, j)
    ensures AddToVars(j, n, mode) == AddToVars(i, n, mode)
  {
    hide Sound, Build, Rendered;
    if j != i { TwoStages(i.q, n, mode); }
  }

  lemma {:induction false} StagedItems(s: seq<Item>, t: seq<Item>, n: nat, mode: Mode)
    requires ItemsStaged(s, t)
    ensures AddAll(t, n, mode) == AddAll(s, n, mode)
    decreases |s|
  {
    hide ItemStaged, AddToVars;
    if s != [] {
      StagedItem(s[0], t[0], n, mode);
      assert ItemsStaged(s[1..], t[1..]);
      StagedItems(s[1..], t[1..], n + |AddToVars(s[0], n, mode).vals|, mode);
    }
  }

  lemma {:induction false} StagedRows(s: seq<Row>, t: seq<Row>, n: nat, mode: Mode)
    requires RowsStaged(s, t)
    ensures AddRows(t, n, mode) == AddRows(s, n, mode)
    decreases |s|
  {
    hide ItemsStaged, AddAll, OneRow;
    if s != [] {
      StagedItems(s[0].cells, t[0].cells, n, mode);
      assert RowsStaged(s[1..], t[1..]);
      StagedRows(s[1..], t[1..], n + |AddAll(s[0].cells, n, mode).vals|, mode);
    }
  }

  lemma StagedArg(a: Arg, b: Arg, n: nat, mode: Mode)
    requires ArgStaged(a, b)
    ensures AddArg(b, n, mode) == AddArg(a, n, mode)
  {
    hide ItemStaged, AddToVars, AddAll, AddRows, Join;
    match a
    case One(i) => StagedItem(i, b.item, n, mode);
    case Many(items) => StagedItems(items, b.items, n, mode);
    case Rows(rows) => StagedRows(rows, b.rows, n, mode);
  }

  lemma {:induction false} StagedArgs(a: seq<Arg>, b: seq<Arg>, n: nat, mode: Mode)
    requires ArgsStaged(a, b)
    ensures AddArgs(b, n, mode) == AddArgs(a, n, mode)
    decreases |a|
  {
    hide ArgStaged, AddArg;
    if a != [] {
      StagedArg(a[0], b[0], n, mode);
      assert ArgsStaged(a[1..], b[1..]);
      StagedArgs(a[1..], b[1..], n + |AddArg(a[0], n, mode).vals|, mode);
    }
  }

  /** So any of the queries nested in another may be rendered beforehand. */
  lemma StagedArguments(t: Text, a: seq<Arg>, b: seq<Arg>, n: nat, mode: Mode)
    requires ArgsStaged(a, b)
    ensures Build(Query(t, b), n, mode) == Build(Query(t, a), n, mode)
  {
    hide ArgsStaged, AddArgs, Substitute;
    StagedArgs(a, b, n, mode);
  }

  // ---------------------------------------------------------------- a scope

  /** A SELECT: what is rendered before its WHERE (columns, FROM and joins), the search, and what is rendered
      behind it (HAVING and the order). */
  datatype Select = Select(front: Query, search: Search, back: Query)

  function WherePart(t: Text): Text {
    if t == [] then [] else [WHERE] + t
  }

  function SelectSql(c: Select, pk: int, n: nat, mode: Mode): Built {
    var f := Build(c.front, n, mode);
    var w := WhereSql(c.search, pk, n + |f.vals|, mode);
    var b := Build(c.back, n + |f.vals| + |w.vals|, mode);
    Built(f.text + WherePart(w.text) + b.text, f.vals + w.vals + b.vals)
  }

  /** `QueryExpr`: the scope rendered with `skip_bindvar`, and its vector. */
  function QueryExpr(c: Select, pk: int): Query {
    Again(SelectSql(c, pk, 0, Skip))
  }

  function SubQuery(c: Select, pk: int): Query {
    var q := QueryExpr(c, pk);
    Query([LP] + q.text + [RP], q.args)
  }

  /** Reference: every part with its own values in place. */
  function SelectReference(c: Select, pk: int): Text {
    Inline(c.front) + WherePart(Reference(c.search, pk)) + Inline(c.back)
  }

  /** The word WHERE stands in the statement exactly if there is a condition behind it. */
  lemma SelectReads(c: Select, pk: int)
    ensures var w := Reference(c.search, pk);
            SelectReference(c, pk) == if w == [] then Inline(c.front) + Inline(c.back)
                                      else Inline(c.front) + [WHERE] + w + Inline(c.back)
  {
    hide Inline, Reference;
    var f, w := Inline(c.front), Reference(c.search, pk);
    assert f + [] == f && f + ([WHERE] + w) == f + [WHERE] + w;
  }

  ghost predicate SelectOk(c: Select, pk: int) {
    Sound(c.front) && Renderable(c.search, pk) && Sound(c.back)
  }

  lemma {:induction false} SkipAnywhere(t: Text, n: nat, m: nat)
    ensures Relabel(t, n, Skip) == Relabel(t, m, Skip)
    decreases |t|
  {
    if t != [] {
      var h := t[0] == Hole;
      SkipAnywhere(t[1..], if h then n + 1 else n, if h then m + 1 else m);
    }
  }

  /** Text of conditions without a marker of its own. */
  lemma CountAssemble(p: seq<Text>, ands: seq<Text>, ors: seq<Text>)
    ensures Count(Assemble(p, ands, ors), Quest) == CountAll(p, Quest) + CountAll(ands, Quest) + CountAll(ors, Quest)
  {
    hide Count, CountAll, Join;
    var a, o, j, c := Join(ands, AND), Join(ors, OR), Join(p, AND), Combine(ands, ors);
    CountJoin(ands, AND, Quest);
    CountJoin(ors, OR, Quest);
    CountJoin(p, AND, Quest);
    CountNone([], Quest);
    CountNone([OR], Quest);
    CountNone([AND], Quest);
    CountConcat(a + [OR], o, Quest);
    CountConcat(a, [OR], Quest);
    CountConcat(j + [AND], [LP] + c + [RP], Quest);
    CountConcat(j, [AND], Quest);
    Parens(c, 0, Dollar);
    assert p == [] ==> j == [] by { JoinOfNone(AND); }
  }

  lemma JoinOfNone(sep: Tok)
    ensures Join([], sep) == []
  {
  }

  lemma UnmarkedConcat(a: Text, b: Text)
    requires Unmarked(a) && Unmarked(b)
    ensures Unmarked(a + b)
  {
  }

  lemma {:induction false} UnmarkedList(texts: seq<Text>, sep: Tok)
    requires (forall k :: 0 <= k < |texts| ==> Unmarked(texts[k])) && !sep.Mark?
    ensures Unmarked(Join(texts, sep))
    decreases |texts|
  {
    hide Unmarked;
    if texts == [] {
      SingleUnmarked(sep);
    } else if |texts| > 1 {
      UnmarkedList(texts[1..], sep);
      SingleUnmarked(sep);
      UnmarkedConcat(texts[0], [sep]);
      UnmarkedConcat(texts[0] + [sep], Join(texts[1..], sep));
    }
  }

  lemma SingleUnmarked(x: Tok)
    requires !x.Mark?
    ensures Unmarked([x]) && Unmarked([])
  {
  }

  lemma UnmarkedAssemble(p: seq<Text>, ands: seq<Text>, ors: seq<Text>)
    requires forall k :: 0 <= k < |p| ==> Unmarked(p[k])
    requires forall k :: 0 <= k < |ands| ==> Unmarked(ands[k])
    requires forall k :: 0 <= k < |ors| ==> Unmarked(ors[k])
    ensures Unmarked(Assemble(p, ands, ors))
  {
    hide Join;
    UnmarkedList(p, AND);
    UnmarkedList(ands, AND);
    UnmarkedList(ors, OR);
    var c := Combine(ands, ors);
    assert Unmarked(c) && Unmarked([LP] + c + [RP]) && Unmarked([AND]);
  }

  /** The marks of the database are the only marks of a condition. */
  lemma WhereLeaves(s: Search, pk: int, n: nat)
    requires Renderable(s, pk)
    ensures var d := WhereSql(s, pk, n, Dollar); Unmarked(d.text) && Count(d.text, Quest) == 0
  {
    hide PrimaryAll, BuildAll, PrintedKeys, Printed, Renamed, AllSound, Assemble, Unmarked, Count, CountAll;
    var p := PrimaryAll(s.primary, n, Dollar);
    PrimaryInEveryMode(s.primary, n, n, Dollar);
    var w := BuildAll(s.wheres, true, pk, n + |p.vals|, Dollar);
    ListInEveryMode(s.wheres, true, pk, n + |p.vals|, n + |p.vals|, Dollar);
    var m := n + |p.vals| + |w.vals|;
    var o := BuildAll(s.ors, true, pk, m, Dollar);
    ListInEveryMode(s.ors, true, pk, m, m, Dollar);
    var x := BuildAll(s.nots, false, pk, m + |o.vals|, Dollar);
    ListInEveryMode(s.nots, false, pk, m + |o.vals|, m + |o.vals|, Dollar);
    DeletedAtLeaves(s);
    AllConcat(DeletedAt(s), p.texts, 0, Dollar, Quest);
    AllConcat(w.texts, x.texts, 0, Dollar, Quest);
    CountAssemble(DeletedAt(s) + p.texts, w.texts + x.texts, o.texts);
    UnmarkedAssemble(DeletedAt(s) + p.texts, w.texts + x.texts, o.texts);
  }

  lemma DeletedAtLeaves(s: Search)
    ensures CountAll(DeletedAt(s), Quest) == 0
    ensures forall k :: 0 <= k < |DeletedAt(s)| ==> Unmarked(DeletedAt(s)[k])
  {
    if s.deletedAt.Some? {
      CountNone(DeletedAt(s)[0], Quest);
      assert DeletedAt(s)[1..] == [];
    }
  }

  lemma {:induction false} SkipAll(ts: seq<Text>, n: nat, m: nat)
    ensures RelabelAll(ts, n, Skip) == RelabelAll(ts, m, Skip)
    decreases |ts|
  {
    hide Relabel, Count;
    if ts != [] {
      SkipAnywhere(ts[0], n, m);
      SkipAll(ts[1..], n + Count(ts[0], Hole), m + Count(ts[0], Hole));
    }
  }

  /** Without bind variables a list prints the same texts from every position. */
  lemma ListSkips(r: Reps, d: Reps, ref: seq<Text>, n: nat, m: nat)
    requires ListBuilt(r, d, ref, n, Skip)
    ensures r.texts == RelabelAll(d.texts, m, Skip) && r.vals == d.vals && CountAll(d.texts, Hole) == |d.vals|
  {
    hide RelabelAll, CountAll, Left;
    SkipAll(d.texts, n, m);
  }

  lemma WhereSkips(s: Search, pk: int, n: nat)
    requires Renderable(s, pk)
    ensures var b, d := WhereSql(s, pk, n, Skip), WhereSql(s, pk, n, Dollar);
            b.text == Relabel(d.text, 0, Skip) && b.vals == d.vals && Count(d.text, Hole) == |d.vals|
  {
    hide PrimaryAll, BuildAll, PrintedKeys, Printed, ListBuilt, AllSound, Assemble, Relabel, RelabelAll, Count, CountAll, DeletedAt;
    var p := PrimaryAll(s.primary, n, Dollar);
    PrimaryInEveryMode(s.primary, n, n, Skip);
    ListSkips(PrimaryAll(s.primary, n, Skip), p, PrintedKeys(s.primary), n, 0);
    var i := n + |p.vals|;
    var w := BuildAll(s.wheres, true, pk, i, Dollar);
    ListInEveryMode(s.wheres, true, pk, i, i, Skip);
    ListSkips(BuildAll(s.wheres, true, pk, i, Skip), w, Printed(s.wheres, true, pk), i, CountAll(p.texts, Hole));
    var j := i + |w.vals|;
    var o := BuildAll(s.ors, true, pk, j, Dollar);
    ListInEveryMode(s.ors, true, pk, j, j, Skip);
    var k := j + |o.vals|;
    var x := BuildAll(s.nots, false, pk, k, Dollar);
    ListInEveryMode(s.nots, false, pk, k, k, Skip);
    var a := CountAll(p.texts, Hole) + CountAll(w.texts, Hole);
    ListSkips(BuildAll(s.nots, false, pk, k, Skip), x, Printed(s.nots, false, pk), k, a);
    ListSkips(BuildAll(s.ors, true, pk, j, Skip), o, Printed(s.ors, true, pk), j, a + CountAll(x.texts, Hole));
    DeletedAtLabels(s, 0, Skip);
    AllConcat(DeletedAt(s), p.texts, 0, Skip, Hole);
    AllConcat(w.texts, x.texts, CountAll(p.texts, Hole), Skip, Hole);
    RelabelAssemble(DeletedAt(s) + p.texts, w.texts + x.texts, o.texts, 0, Skip);
  }

  lemma RelabelWhere(t: Text, n: nat, mode: Mode)
    ensures Relabel(WherePart(t), n, mode) == WherePart(Relabel(t, n, mode))
    ensures Count(WherePart(t), Hole) == Count(t, Hole) && Count(WherePart(t), Quest) == Count(t, Quest)
    ensures Unmarked(t) ==> Unmarked(WherePart(t))
  {
    RelabelLength(t, n, mode);
    if t != [] { assert WherePart(t)[1..] == t; }
  }

  lemma {:induction false} RelabelThree(a: Text, b: Text, c: Text, n: nat, mode: Mode)
    ensures Relabel(a + b + c, n, mode) == Relabel(a, n, mode) + Relabel(b, n + Count(a, Hole), mode) +
                                           Relabel(c, n + Count(a, Hole) + Count(b, Hole), mode)
    ensures Count(a + b + c, Hole) == Count(a, Hole) + Count(b, Hole) + Count(c, Hole)
    ensures Count(a + b + c, Quest) == Count(a, Quest) + Count(b, Quest) + Count(c, Quest)
  {
    hide Relabel, Count;
    RelabelConcat(a + b, c, n, mode);
    RelabelConcat(a, b, n, mode);
    CountConcat(a + b, c, Hole);
    CountConcat(a, b, Hole);
    CountConcat(a + b, c, Quest);
    CountConcat(a, b, Quest);
  }

  lemma SelectSkips(c: Select, pk: int)
    requires SelectOk(c, pk)
    ensures Skipped(SelectSql(c, pk, 0, Skip), SelectSql(c, pk, 0, Dollar))
  {
    hide Fits, Empties, Renderable, Build, WhereSql, WherePart, Relabel, Count, Unmarked;
    var f := Build(c.front, 0, Dollar);
    BuildInEveryMode(c.front, 0, 0, Skip);
    QueryLeaves(c.front, 0);
    var w := WhereSql(c.search, pk, |f.vals|, Dollar);
    WhereSkips(c.search, pk, |f.vals|);
    WhereLeaves(c.search, pk, |f.vals|);
    var i := |f.vals| + |w.vals|;
    var b := Build(c.back, i, Dollar);
    BuildInEveryMode(c.back, i, i, Skip);
    QueryLeaves(c.back, i);
    RelabelWhere(w.text, 0, Skip);
    RelabelThree(f.text, WherePart(w.text), b.text, 0, Skip);
    SkipAnywhere(WherePart(w.text), 0, |f.vals|);
    SkipAnywhere(b.text, i, |f.vals| + Count(w.text, Hole));
    UnmarkedConcat(f.text, WherePart(w.text));
    UnmarkedConcat(f.text + WherePart(w.text), b.text);
  }

  /** The second stage writes the values of a scope in the order of its vector: Where, Or, Not. */
  lemma StagedSelect(c: Select, pk: int, n: nat, mode: Mode)
    requires SelectOk(c, pk)
    ensures var d := SelectSql(c, pk, 0, Dollar);
            && Count(d.text, Hole) == |d.vals|
            && Build(QueryExpr(c, pk), n, mode) == Built(Relabel(d.text, n, mode), d.vals)
            && Build(SubQuery(c, pk), n, mode) == Built([LP] + Relabel(d.text, n, mode) + [RP], d.vals)
  {
    hide SelectOk, SelectSql, Build, Relabel, Count, Ones;
    SelectSkips(c, pk);
    SecondStage(SelectSql(c, pk, 0, Skip), SelectSql(c, pk, 0, Dollar), n, mode);
  }

  /** The values of a SELECT in the order of its text. */
  function SelectTextVals(c: Select, pk: int): seq<int> {
    Build(c.front, 0, Dollar).vals + TextVals(c.search, pk) + Build(c.back, 0, Dollar).vals
  }

  function SelectVals(c: Select, pk: int): seq<int> {
    Build(c.front, 0, Dollar).vals + PrimaryVals(c.search) + WhereVals(c.search, pk) + OrVals(c.search, pk) +
    NotVals(c.search, pk) + Build(c.back, 0, Dollar).vals
  }

  lemma PartSays(q: Query, n: nat, m: nat, all: seq<int>)
    requires Sound(q) && At(all, n, Build(q, 0, Dollar).vals)
    ensures var d := Build(q, m, Dollar);
            && d.vals == Build(q, 0, Dollar).vals && Count(d.text, Hole) == |d.vals|
            && Relabel(d.text, n, Literal(all)) == Inline(q)
  {
    hide Fits, Empties, Build, Inline, Relabel, Count, At;
    BuildInEveryMode(q, n, m, Literal(all));
    BuildInEveryMode(q, m, 0, Dollar);
    QuerySays(q, n, all);
  }

  lemma SelectLiteral(c: Select, pk: int, all: seq<int>)
    requires SelectOk(c, pk) && At(all, 0, SelectTextVals(c, pk))
    ensures var d := SelectSql(c, pk, 0, Dollar);
            && Relabel(d.text, 0, Literal(all)) == SelectReference(c, pk)
            && d.vals == SelectVals(c, pk) && Count(d.text, Hole) == |d.vals|
  {
    hide Sound, Renderable, Build, Inline, WhereSql, Reference, Relabel, Count, At, WherePart;
    hide PrimaryVals, WhereVals, OrVals, NotVals, TextVals;
    var s := c.search;
    TextValsAre(s, pk);
    var f, t := Build(c.front, 0, Dollar), TextVals(s, pk);
    var w := WhereSql(s, pk, |f.vals|, Dollar);
    AtSplit(all, 0, f.vals + t, Build(c.back, 0, Dollar).vals);
    AtSplit(all, 0, f.vals, t);
    PartSays(c.front, 0, 0, all);
    LiteralInTextOrder(s, pk, |f.vals|, all);
    PartSays(c.back, |f.vals| + |t|, |f.vals| + |w.vals|, all);
    var b := Build(c.back, |f.vals| + |w.vals|, Dollar);
    RelabelWhere(w.text, |f.vals|, Literal(all));
    RelabelThree(f.text, WherePart(w.text), b.text, 0, Literal(all));
  }

  lemma SelectFilled(c: Select, pk: int)
    requires SelectOk(c, pk)
    ensures var d, t := SelectSql(c, pk, 0, Dollar), SelectTextVals(c, pk);
            Count(d.text, Hole) == |d.vals| == |t| && Fill(d.text, t) == SelectReference(c, pk) && d.vals == SelectVals(c, pk)
  {
    hide *;
    var t := SelectTextVals(c, pk);
    AtAll(t);
    SelectLiteral(c, pk, t);
    SameLength(c, pk);
    FillRelabelled(SelectSql(c, pk, 0, Dollar).text, 0, t, t);
  }

  lemma SameLength(c: Select, pk: int)
    ensures |SelectVals(c, pk)| == |SelectTextVals(c, pk)|
    ensures SelectVals(c, pk) == SelectTextVals(c, pk) <==>
            OrVals(c.search, pk) + NotVals(c.search, pk) == NotVals(c.search, pk) + OrVals(c.search, pk)
  {
    hide PrimaryVals, WhereVals, OrVals, NotVals, Build;
    var f, p, w := Build(c.front, 0, Dollar).vals, PrimaryVals(c.search), WhereVals(c.search, pk);
    var o, x, b := OrVals(c.search, pk), NotVals(c.search, pk), Build(c.back, 0, Dollar).vals;
    var a := f + p + w;
    assert SelectTextVals(c, pk) == a + x + o + b;
    Cancel(a, x, o);
    assert a + x + o == (a + x + o + b)[..|a + x + o|] && a + o + x == (a + o + x + b)[..|a + x + o|];
  }

  lemma {:induction false} ResolveThree(a: Text, b: Text, c: Text, all: seq<int>)
    ensures Resolve(a + b + c, all) == Resolve(a, all) + Resolve(b, all) + Resolve(c, all)
  {
    ResolveConcat(a + b, c, all);
    ResolveConcat(a, b, all);
  }

  lemma ResolveWhere(t: Text, all: seq<int>)
    ensures Resolve(WherePart(t), all) == WherePart(Resolve(t, all))
  {
    ResolveLength(t, all);
    if t != [] { assert WherePart(t)[1..] == t; }
  }

  /** Sent directly with numbered markers, a SELECT always says what its parts say. */
  lemma SelectBinds(c: Select, pk: int, n: nat, all: seq<int>)
    requires SelectOk(c, pk) && At(all, n, SelectSql(c, pk, n, Numbered).vals)
    ensures Resolve(SelectSql(c, pk, n, Numbered).text, all) == SelectReference(c, pk)
  {
    hide Sound, Renderable, Build, Inline, WhereSql, Reference, Resolve, At, WherePart, Marks, Range;
    var f := Build(c.front, n, Numbered);
    var w := WhereSql(c.search, pk, n + |f.vals|, Numbered);
    var b := Build(c.back, n + |f.vals| + |w.vals|, Numbered);
    AtSplit(all, n, f.vals + w.vals, b.vals);
    AtSplit(all, n, f.vals, w.vals);
    QueryBinds(c.front, n, all);
    NumberedWhereBinds(c.search, pk, n + |f.vals|, all);
    QueryBinds(c.back, n + |f.vals| + |w.vals|, all);
    ResolveThree(f.text, WherePart(w.text), b.text, all);
    ResolveWhere(w.text, all);
  }

  lemma QueryBinds(q: Query, n: nat, all: seq<int>)
    requires Sound(q) && At(all, n, Build(q, n, Numbered).vals)
    ensures Resolve(Build(q, n, Numbered).text, all) == Inline(q)
  {
    hide Fits, Empties, Build, Inline, Resolve, Marks, Range;
    NumberedMarkersBind(q, n, all);
  }

  /** A query that was rendered beforehand, built into another one: its markers name their own values exactly
      when the Or and the Not values of the scope commute, with numbered markers as with positional ones,
      although a scope sent directly is always right with numbered markers. */
  lemma StagedExactly(c: Select, pk: int, n: nat, all: seq<int>)
    requires SelectOk(c, pk) && At(all, n, SelectVals(c, pk))
    ensures var commute := OrVals(c.search, pk) + NotVals(c.search, pk) == NotVals(c.search, pk) + OrVals(c.search, pk);
            var b, d := Build(QueryExpr(c, pk), n, Numbered), Build(QueryExpr(c, pk), n, Dollar);
            && b.vals == d.vals == SelectVals(c, pk) && Count(d.text, Hole) == |d.vals|
            && (Resolve(b.text, all) == SelectReference(c, pk) <==> commute)
            && (Fill(d.text, d.vals) == SelectReference(c, pk) <==> commute)
  {
    hide *;
    var d := SelectSql(c, pk, 0, Dollar);
    AtFits(all, n, SelectVals(c, pk));
    SelectFilled(c, pk);
    SelectUnmarked(c, pk);
    StagedSelect(c, pk, n, Numbered);
    StagedSelect(c, pk, n, Dollar);
    RelabelDollar(d.text, n);
    ResolveRelabelled(d.text, n, all);
    FillRelabelled(d.text, n, d.vals, all);
    SameLength(c, pk);
    if Fill(d.text, d.vals) == SelectReference(c, pk) { FillInjective(d.text, d.vals, SelectTextVals(c, pk)); }
  }

  lemma SelectUnmarked(c: Select, pk: int)
    requires SelectOk(c, pk)
    ensures Unmarked(SelectSql(c, pk, 0, Dollar).text)
  {
    hide SelectOk, SelectSql, Unmarked, Relabel, Count;
    SelectSkips(c, pk);
  }

  /** In the parentheses of `SubQuery` the text is the same. */
  lemma SubQueryWithin(c: Select, pk: int, n: nat, all: seq<int>)
    requires SelectOk(c, pk)
    ensures var b, q := Build(QueryExpr(c, pk), n, Numbered), Build(SubQuery(c, pk), n, Numbered);
            q.vals == b.vals && Resolve(q.text, all) == [LP] + Resolve(b.text, all) + [RP]
  {
    hide *;
    StagedSelect(c, pk, n, Numbered);
    ResolveWithin(Build(QueryExpr(c, pk), n, Numbered).text, all);
  }

  // ---------------------------------------------------------------- the smallest case that goes wrong

  /** Or "w1 = a", Not "w2 = b". */
  function OrNot(a: int, b: int): Select {
    var or, not := Phrase([Word(1), EQ, Quest], true, 0, [One(Value(a))]), Phrase([Word(2), EQ, Quest], true, 0, [One(Value(b))]);
    Select(Query([], []), Search(None, [], [], [or], [not]), Query([], []))
  }

  lemma {:induction false} OneMarker(pre: Text, v: int, n: nat, mode: Mode)
    requires Count(pre, Quest) == 0
    ensures Build(Query(pre + [Quest, RP], [One(Value(v))]), n, mode) == Built(pre + [Marker(mode, n + 1), RP], [v])
  {
    var a, r := One(Value(v)), [[Marker(mode, n + 1)]];
    assert [a][1..] == [];
    assert AddArgs([a][1..], n + 1, mode) == Reps([], []) && AddArg(a, n, mode) == Reps(r, [v]);
    assert AddArgs([a], n, mode) == Append(Reps(r, [v]), Reps([], [])) == Reps(r, [v]);
    assert [Quest, RP][1..] == [RP] && [RP][1..] == [] && r[1..] == [];
    assert Substitute([RP], []) == [RP];
    assert Substitute([Quest, RP], r) == r[0] + [RP];
    SubstituteConcat(pre, [Quest, RP], [], r);
    SubstituteNone(pre);
    assert [] + r == r;
    assert pre + (r[0] + [RP]) == pre + [Marker(mode, n + 1), RP];
  }

  lemma OrNotConditions(a: int, b: int, pk: int, n: nat)
    ensures var s := OrNot(a, b).search;
            && BuildAll(s.ors, true, pk, n, Dollar) == Reps([[LP, Word(1), EQ, Hole, RP]], [a])
            && BuildAll(s.nots, false, pk, n, Dollar) == Reps([[NOT, LP, Word(2), EQ, Hole, RP]], [b])
  {
    hide Build, Count;
    var s := OrNot(a, b).search;
    CountNone([LP, Word(1), EQ], Quest);
    CountNone([NOT, LP, Word(2), EQ], Quest);
    OneMarker([LP, Word(1), EQ], a, n, Dollar);
    OneMarker([NOT, LP, Word(2), EQ], b, n, Dollar);
    assert [LP] + [Word(1), EQ, Quest] + [RP] == [LP, Word(1), EQ] + [Quest, RP];
    assert [NOT, LP] + [Word(2), EQ, Quest] + [RP] == [NOT, LP, Word(2), EQ] + [Quest, RP];
    assert [LP, Word(1), EQ] + [Hole, RP] == [LP, Word(1), EQ, Hole, RP];
    assert [NOT, LP, Word(2), EQ] + [Hole, RP] == [NOT, LP, Word(2), EQ, Hole, RP];
    assert s.ors[1..] == [] && s.nots[1..] == [];
  }

  lemma OneSound(t: Text, v: int)
    requires Plain(t) && Count(t, Quest) == 1
    ensures Sound(Query(t, [One(Value(v))]))
  {
    var args: seq<Arg> := [One(Value(v))];
    assert args[1..] == [] && ArgFits(args[0]) && ArgEmpties(args[0]) == 0;
    hide ArgFits, ArgEmpties;
    assert ArgsFit(args[1..]) && ArgsEmpties(args[1..]) == 0;
    assert ArgsFit(args) && ArgsEmpties(args) == 0;
  }

  lemma OrNotFits(a: int, b: int, pk: int)
    ensures SelectOk(OrNot(a, b), pk)
  {
    hide Count;
    var q, r := Query([LP, Word(1), EQ, Quest, RP], [One(Value(a))]), Query([NOT, LP, Word(2), EQ, Quest, RP], [One(Value(b))]);
    assert [LP] + [Word(1), EQ, Quest] + [RP] == q.text && [NOT, LP] + [Word(2), EQ, Quest] + [RP] == r.text;
    assert Count(q.text, Quest) == 1 by {
      CountNone([LP, Word(1), EQ], Quest);
      CountBefore([LP, Word(1), EQ]);
      assert [LP, Word(1), EQ] + [Quest, RP] == q.text;
    }
    assert Count(r.text, Quest) == 1 by {
      CountNone([NOT, LP, Word(2), EQ], Quest);
      CountBefore([NOT, LP, Word(2), EQ]);
      assert [NOT, LP, Word(2), EQ] + [Quest, RP] == r.text;
    }
    CountNone([], Quest);
    OneSound(q.text, a);
    OneSound(r.text, b);
    InlineText([]);
    var s := OrNot(a, b).search;
    assert BuildCondition(s.ors[0], true, pk) == q && BuildCondition(s.nots[0], false, pk) == r;
  }

  lemma CountBefore(pre: Text)
    ensures Count(pre + [Quest, RP], Quest) == Count(pre, Quest) + 1
  {
    CountConcat(pre, [Quest, RP], Quest);
    assert [Quest, RP][1..] == [RP] && [RP][1..] == [];
  }

  lemma OrNotWhere(a: int, b: int, pk: int)
    ensures WhereSql(OrNot(a, b).search, pk, 0, Dollar) ==
            Built([NOT, LP, Word(2), EQ, Hole, RP, OR, LP, Word(1), EQ, Hole, RP], [a, b])
  {
    var s := OrNot(a, b).search;
    var x, o: Text := [NOT, LP, Word(2), EQ, Hole, RP], [LP, Word(1), EQ, Hole, RP];
    hide BuildAll, Assemble;
    OrNotConditions(a, b, pk, 0);
    OrNotConditions(a, b, pk, 1);
    NothingPrinted(true, pk, 0, Dollar);
    OrNotAssembled(x, o);
    assert PrimaryAll([], 0, Dollar) == Reps([], []) && DeletedAt(s) == [];
    assert BuildAll(s.ors, true, pk, 0, Dollar) == Reps([o], [a]) && BuildAll(s.nots, false, pk, 1, Dollar) == Reps([x], [b]);
    assert [] + [x] == [x] && [a] + [b] == [a, b];
    var t := WhereSql(s, pk, 0, Dollar);
    assert t.vals == [a] + [b] && t.text == Assemble([], [x], [o]) == x + [OR] + o;
    assert t == Built(t.text, t.vals);
    assert x + [OR] + o == [NOT, LP, Word(2), EQ, Hole, RP, OR, LP, Word(1), EQ, Hole, RP];
  }

  lemma OrNotSql(a: int, b: int, pk: int)
    ensures SelectSql(OrNot(a, b), pk, 0, Dollar) ==
            Built([WHERE, NOT, LP, Word(2), EQ, Hole, RP, OR, LP, Word(1), EQ, Hole, RP], [a, b])
  {
    hide WhereSql;
    OrNotWhere(a, b, pk);
    assert Build(Query([], []), 0, Dollar) == Build(Query([], []), 2, Dollar) == Built([], []);
  }

  lemma OrNotVals(a: int, b: int, pk: int)
    ensures SelectVals(OrNot(a, b), pk) == [a, b] && SelectTextVals(OrNot(a, b), pk) == [b, a]
  {
    var s := OrNot(a, b).search;
    hide BuildAll;
    OrNotConditions(a, b, pk, 0);
    NothingPrinted(true, pk, 0, Dollar);
    TextValsAre(s, pk);
    assert PrimaryVals(s) == [] && WhereVals(s, pk) == [] && OrVals(s, pk) == [a] && NotVals(s, pk) == [b];
    assert Build(Query([], []), 0, Dollar) == Built([], []);
  }

  lemma OrNotAssembled(x: Text, o: Text)
    requires x != [] && o != []
    ensures Assemble([], [x], [o]) == x + [OR] + o
  {
  }

  /** The values change places: the text is that of the scope with the values exchanged. */
  lemma StagedExchanges(a: int, b: int, pk: int, n: nat, all: seq<int>)
    requires At(all, n, [a, b])
    ensures Resolve(Build(QueryExpr(OrNot(a, b), pk), n, Numbered).text, all) == SelectReference(OrNot(b, a), pk)
    ensures SelectReference(OrNot(b, a), pk) == SelectReference(OrNot(a, b), pk) <==> a == b
  {
    hide *;
    var d := SelectSql(OrNot(a, b), pk, 0, Dollar);
    OrNotFits(a, b, pk);
    OrNotFits(b, a, pk);
    OrNotSql(a, b, pk);
    OrNotSql(b, a, pk);
    OrNotVals(a, b, pk);
    OrNotVals(b, a, pk);
    SelectFilled(OrNot(a, b), pk);
    SelectFilled(OrNot(b, a), pk);
    StagedSelect(OrNot(a, b), pk, n, Numbered);
    SelectUnmarked(OrNot(a, b), pk);
    AtFits(all, n, [a, b]);
    ResolveRelabelled(d.text, n, all);
    FillRelabelled(d.text, n, [a, b], all);
    assert SelectTextVals(OrNot(b, a), pk) == [a, b] && SelectTextVals(OrNot(a, b), pk) == [b, a];
    if Fill(d.text, [a, b]) == Fill(d.text, [b, a]) {
      FillInjective(d.text, [a, b], [b, a]);
      assert [a, b][0] == [b, a][0];
    }
  }
}
