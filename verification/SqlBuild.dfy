/** Queries with nested arguments, and their rendering into text and an argument vector. */
module SqlBuild {
  import opened Lists
  import opened SqlText

  /** What `AddToVars` takes: a value to bind, text to copy (`RawSqlArg`), or a nested query. */
  datatype Item = Value(v: int) | Raw(text: Text) | Expr(q: Query)

  datatype Row = Row(cells: seq<Item>)

  /** One argument of a query: a single item, a slice, or a slice of slices. */
  datatype Arg = One(item: Item) | Many(items: seq<Item>) | Rows(rows: seq<Row>)

  datatype Query = Query(text: Text, args: seq<Arg>)

  /** Rendered text and the values it appended to the argument vector. */
  datatype Built = Built(text: Text, vals: seq<int>)
  datatype Reps = Reps(texts: seq<Text>, vals: seq<int>)

  function Join(texts: seq<Text>, sep: Tok): Text {
    if texts == [] then []
    else if |texts| == 1 then texts[0]
    else texts[0] + [sep] + Join(texts[1..], sep)
  }

  /** `n` is the length of the argument vector at the call. */
  function AddToVars(i: Item, n: nat, mode: Mode): Built
    decreases i
  {
    match i
    case Value(v) => Built([Marker(mode, n + 1)], [v])
    case Raw(t) => Built(t, [])
    case Expr(q) => Build(q, n, mode)
  }

  function AddAll(items: seq<Item>, n: nat, mode: Mode): Reps
    decreases items
  {
    if items == [] then Reps([], []) else
    var b := AddToVars(items[0], n, mode);
    var r := AddAll(items[1..], n + |b.vals|, mode);
    Append(Reps([b.text], b.vals), r)
  }

  function Append(r: Reps, s: Reps): Reps {
    Reps(r.texts + s.texts, r.vals + s.vals)
  }

  /** The "(…)" of one row, nothing if it has no cells. */
  function OneRow(c: Reps): Reps {
    Reps(if c.texts == [] then [] else [[LP] + Join(c.texts, COMMA) + [RP]], c.vals)
  }

  function AddRows(rows: seq<Row>, n: nat, mode: Mode): Reps
    decreases rows
  {
    if rows == [] then Reps([], []) else
    var c := AddAll(rows[0].cells, n, mode);
    var r := AddRows(rows[1..], n + |c.vals|, mode);
    Append(OneRow(c), r)
  }

  /** The replacement of one argument: none at all for a slice of slices without cells. */
  function AddArg(a: Arg, n: nat, mode: Mode): Reps
    decreases a
  {
    match a
    case One(i) => (var b := AddToVars(i, n, mode); Reps([b.text], b.vals))
    case Many(items) => (
      if items == [] then Reps([[NULL]], []) else
      var r := AddAll(items, n, mode);
      Reps([Join(r.texts, COMMA)], r.vals))
    case Rows(rows) => (
      var r := AddRows(rows, n, mode);
      Reps(if r.texts == [] then [] else [Join(r.texts, COMMA)], r.vals))
  }

  function AddArgs(args: seq<Arg>, n: nat, mode: Mode): Reps
    decreases args
  {
    if args == [] then Reps([], []) else
    var a := AddArg(args[0], n, mode);
    var r := AddArgs(args[1..], n + |a.vals|, mode);
    Append(a, r)
  }

  function Build(q: Query, n: nat, mode: Mode): Built
    decreases q
  {
    var r := AddArgs(q.args, n, mode);
    Built(Substitute(q.text, r.texts), r.vals)
  }

  // ---------------------------------------------------------------- well-formed queries

  /** As many `?` as arguments at every level; text copied as it is holds no `?`. */
  ghost predicate ItemFits(i: Item)
    decreases i
  {
    match i
    case Value(_) => true
    case Raw(t) => Plain(t) && Count(t, Quest) == 0
    case Expr(q) => Fits(q)
  }

  ghost predicate ItemsFit(items: seq<Item>)
    decreases items
  {
    items == [] || (ItemFits(items[0]) && ItemsFit(items[1..]))
  }

  ghost predicate RowsFit(rows: seq<Row>)
    decreases rows
  {
    rows == [] || (ItemsFit(rows[0].cells) && RowsFit(rows[1..]))
  }

  ghost predicate ArgFits(a: Arg)
    decreases a
  {
    match a
    case One(i) => ItemFits(i)
    case Many(items) => ItemsFit(items)
    case Rows(rows) => RowsFit(rows)
  }

  ghost predicate ArgsFit(args: seq<Arg>)
    decreases args
  {
    args == [] || (ArgFits(args[0]) && ArgsFit(args[1..]))
  }

  ghost predicate Fits(q: Query)
    decreases q
  {
    Plain(q.text) && Count(q.text, Quest) == |q.args| && ArgsFit(q.args)
  }

  // ---------------------------------------------------------------- the meaning of a query

  /** Reference: the text in which the k-th `?` is replaced by the k-th argument, values written out. */
  function InlineItem(i: Item): Text
    decreases i
  {
    match i case Value(v) => [Val(v)] case Raw(t) => t case Expr(q) => Inline(q)
  }

  function InlineItems(items: seq<Item>): seq<Text>
    decreases items
  {
    if items == [] then [] else [InlineItem(items[0])] + InlineItems(items[1..])
  }

  function InlineRows(rows: seq<Row>): seq<Text>
    decreases rows
  {
    if rows == [] then []
    else if rows[0].cells == [] then InlineRows(rows[1..])
    else [[LP] + Join(InlineItems(rows[0].cells), COMMA) + [RP]] + InlineRows(rows[1..])
  }

  function InlineArg(a: Arg): Text
    decreases a
  {
    match a
    case One(i) => InlineItem(i)
    case Many(items) => if items == [] then [NULL] else Join(InlineItems(items), COMMA)
    case Rows(rows) => Join(InlineRows(rows), COMMA)
  }

  function InlineArgs(args: seq<Arg>): (r: seq<Text>)
    ensures |r| == |args|
    decreases args
  {
    if args == [] then [] else [InlineArg(args[0])] + InlineArgs(args[1..])
  }

  function Inline(q: Query): Text
    decreases q
  {
    Substitute(q.text, InlineArgs(q.args))
  }

  // ---------------------------------------------------------------- empty slices of slices

  /** How many arguments, at any depth, are slices of slices without a single cell. */
  function ItemEmpties(i: Item): nat
    decreases i
  {
    if i.Expr? then Empties(i.q) else 0
  }

  function ItemsEmpties(items: seq<Item>): nat
    decreases items
  {
    if items == [] then 0 else ItemEmpties(items[0]) + ItemsEmpties(items[1..])
  }

  function RowsEmpties(rows: seq<Row>): nat
    decreases rows
  {
    if rows == [] then 0 else ItemsEmpties(rows[0].cells) + RowsEmpties(rows[1..])
  }

  predicate NoCells(rows: seq<Row>) {
    rows == [] || (rows[0].cells == [] && NoCells(rows[1..]))
  }

  function ArgEmpties(a: Arg): nat
    decreases a
  {
    match a
    case One(i) => ItemEmpties(i)
    case Many(items) => ItemsEmpties(items)
    case Rows(rows) => (if NoCells(rows) then 1 else 0) + RowsEmpties(rows)
  }

  function ArgsEmpties(args: seq<Arg>): nat
    decreases args
  {
    if args == [] then 0 else ArgEmpties(args[0]) + ArgsEmpties(args[1..])
  }

  function Empties(q: Query): nat
    decreases q
  {
    ArgsEmpties(q.args)
  }

  // ---------------------------------------------------------------- lists of texts

  function CountAll(texts: seq<Text>, x: Tok): nat {
    if texts == [] then 0 else Count(texts[0], x) + CountAll(texts[1..], x)
  }

  function RelabelAll(texts: seq<Text>, n: nat, mode: Mode): (r: seq<Text>)
    ensures |r| == |texts|
  {
    if texts == [] then []
    else [Relabel(texts[0], n, mode)] + RelabelAll(texts[1..], n + Count(texts[0], Hole), mode)
  }

  lemma {:induction false} AllConcat(a: seq<Text>, b: seq<Text>, n: nat, mode: Mode, x: Tok)
    ensures CountAll(a + b, x) == CountAll(a, x) + CountAll(b, x)
    ensures RelabelAll(a + b, n, mode) == RelabelAll(a, n, mode) + RelabelAll(b, n + CountAll(a, Hole), mode)
    decreases |a|
  {
    hide Count, Relabel;
    if a == [] {
      assert a + b == b;
    } else {
      assert (a + b)[1..] == a[1..] + b && (a + b)[0] == a[0];
      var m := n + Count(a[0], Hole);
      AllConcat(a[1..], b, m, mode, x);
      Associate([Relabel(a[0], n, mode)], RelabelAll(a[1..], m, mode), RelabelAll(b, m + CountAll(a[1..], Hole), mode));
    }
  }

  lemma {:induction false} CountJoin(texts: seq<Text>, sep: Tok, x: Tok)
    requires x != sep
    ensures Count(Join(texts, sep), x) == CountAll(texts, x)
    decreases |texts|
  {
    if |texts| == 1 {
      assert CountAll(texts[1..], x) == 0;
    } else if |texts| > 1 {
      CountConcat(texts[0] + [sep], Join(texts[1..], sep), x);
      CountConcat(texts[0], [sep], x);
      CountNone([sep], x);
      CountJoin(texts[1..], sep, x);
    }
  }

  lemma {:induction false} RelabelJoin(texts: seq<Text>, sep: Tok, n: nat, mode: Mode)
    requires sep != Hole
    ensures Relabel(Join(texts, sep), n, mode) == Join(RelabelAll(texts, n, mode), sep)
    decreases |texts|
  {
    hide Relabel, Count;
    if |texts| > 1 {
      var rest := Join(texts[1..], sep);
      RelabelConcat(texts[0] + [sep], rest, n, mode);
      RelabelConcat(texts[0], [sep], n, mode);
      CountConcat(texts[0], [sep], Hole);
      CountNone([sep], Hole);
      RelabelNone([sep], n + Count(texts[0], Hole), mode);
      RelabelJoin(texts[1..], sep, n + Count(texts[0], Hole), mode);
      assert RelabelAll(texts, n, mode)[1..] == RelabelAll(texts[1..], n + Count(texts[0], Hole), mode);
    } else if texts == [] {
      CountNone([], Hole);
      RelabelNone([], n, mode);
    }
  }

  /** Parentheses around a text without disturbing its holes. */
  lemma Parens(t: Text, n: nat, mode: Mode)
    ensures Relabel([LP] + t + [RP], n, mode) == [LP] + Relabel(t, n, mode) + [RP]
    ensures Count([LP] + t + [RP], Hole) == Count(t, Hole) && Count([LP] + t + [RP], Quest) == Count(t, Quest)
  {
    RelabelConcat([LP] + t, [RP], n, mode);
    RelabelConcat([LP], t, n, mode);
    RelabelNone([LP], n, mode);
    RelabelNone([RP], n + Count([LP] + t, Hole), mode);
    CountConcat([LP] + t, [RP], Hole);
    CountConcat([LP], t, Hole);
    CountConcat([LP] + t, [RP], Quest);
    CountConcat([LP], t, Quest);
  }

  /** Substituting renumbered replacements is renumbering the substituted text. */
  lemma {:induction false} RelabelSubstitute(t: Text, reps: seq<Text>, n: nat, mode: Mode)
    requires Plain(t) && |reps| <= Count(t, Quest)
    ensures Relabel(Substitute(t, reps), n, mode) == Substitute(t, RelabelAll(reps, n, mode))
    ensures Count(Substitute(t, reps), Hole) == CountAll(reps, Hole)
    ensures Count(Substitute(t, reps), Quest) == Count(t, Quest) - |reps| + CountAll(reps, Quest)
    decreases |t|
  {
    if t != [] {
      if t[0] == Quest && reps != [] {
        var rest := Substitute(t[1..], reps[1..]);
        RelabelConcat(reps[0], rest, n, mode);
        CountConcat(reps[0], rest, Hole);
        CountConcat(reps[0], rest, Quest);
        RelabelSubstitute(t[1..], reps[1..], n + Count(reps[0], Hole), mode);
        assert RelabelAll(reps, n, mode)[1..] == RelabelAll(reps[1..], n + Count(reps[0], Hole), mode);
      } else {
        RelabelSubstitute(t[1..], reps, n, mode);
      }
    }
  }

  // ---------------------------------------------------------------- one rendering in every mode

  /** `r`, rendered from position `n` in `mode`, is the positional rendering `d` with the markers renamed. */
  ghost predicate Renamed(r: Reps, d: Reps, n: nat, mode: Mode) {
    r.texts == RelabelAll(d.texts, n, mode) && r.vals == d.vals && CountAll(d.texts, Hole) == |d.vals|
  }

  lemma {:induction false} ItemInEveryMode(i: Item, n: nat, m: nat, mode: Mode)
    requires ItemFits(i)
    ensures var b, d := AddToVars(i, n, mode), AddToVars(i, m, Dollar);
            b.text == Relabel(d.text, n, mode) && b.vals == d.vals && Count(d.text, Hole) == |d.vals|
    decreases i
  {
    match i
    case Value(v) =>
      assert Relabel([Hole], n, mode) == [Marker(mode, n + 1)];
    case Raw(t) =>
      CountNone(t, Hole);
      RelabelNone(t, n, mode);
    case Expr(q) =>
      BuildInEveryMode(q, n, m, mode);
  }

  lemma RenamedNone(n: nat, mode: Mode)
    ensures Renamed(Reps([], []), Reps([], []), n, mode)
  {
  }

  lemma RenamedVals(r: Reps, d: Reps, n: nat, mode: Mode)
    requires Renamed(r, d, n, mode)
    ensures r.vals == d.vals && |r.texts| == |d.texts|
  {
  }

  lemma OneRowShape(c: Reps)
    ensures OneRow(c).vals == c.vals && (OneRow(c).texts == [] <==> c.texts == [])
  {
  }

  lemma RenamedConcat(r: Reps, s: Reps, d: Reps, e: Reps, n: nat, mode: Mode)
    requires Renamed(r, d, n, mode) && Renamed(s, e, n + |d.vals|, mode)
    ensures Renamed(Append(r, s), Append(d, e), n, mode)
  {
    hide CountAll, RelabelAll;
    AllConcat(d.texts, e.texts, n, mode, Hole);
  }

  lemma RenamedOne(t: Text, v: seq<int>, d: Text, n: nat, mode: Mode)
    requires t == Relabel(d, n, mode) && Count(d, Hole) == |v|
    ensures Renamed(Reps([t], v), Reps([d], v), n, mode)
  {
    hide Count, Relabel;
    assert [d][1..] == [];
    assert CountAll([d], Hole) == Count(d, Hole);
    assert RelabelAll([d], n, mode) == [Relabel(d, n, mode)];
  }

  lemma {:induction false} ItemsInEveryMode(items: seq<Item>, n: nat, m: nat, mode: Mode)
    requires ItemsFit(items)
    ensures Renamed(AddAll(items, n, mode), AddAll(items, m, Dollar), n, mode)
    ensures |AddAll(items, n, mode).texts| == |items|
    decreases items
  {
    hide Renamed, ItemFits, AddToVars, Count, Relabel, CountAll, RelabelAll;
    if items == [] {
      RenamedNone(n, mode);
    } else {
      var b, d := AddToVars(items[0], n, mode), AddToVars(items[0], m, Dollar);
      ItemInEveryMode(items[0], n, m, mode);
      ItemsInEveryMode(items[1..], n + |d.vals|, m + |d.vals|, mode);
      RenamedOne(b.text, b.vals, d.text, n, mode);
      RenamedConcat(Reps([b.text], b.vals), AddAll(items[1..], n + |d.vals|, mode),
                    Reps([d.text], d.vals), AddAll(items[1..], m + |d.vals|, Dollar), n, mode);
    }
  }

  /** The joined replacement of a slice, or a row in its parentheses. */
  lemma RenamedJoin(r: Reps, d: Reps, n: nat, mode: Mode)
    requires Renamed(r, d, n, mode)
    ensures Renamed(Reps([Join(r.texts, COMMA)], r.vals), Reps([Join(d.texts, COMMA)], d.vals), n, mode)
    ensures Renamed(OneRow(r), OneRow(d), n, mode)
  {
    hide CountAll, RelabelAll, Count, Relabel, Join;
    RelabelJoin(d.texts, COMMA, n, mode);
    CountJoin(d.texts, COMMA, Hole);
    Parens(Join(d.texts, COMMA), n, mode);
    RenamedOne(Join(r.texts, COMMA), d.vals, Join(d.texts, COMMA), n, mode);
    RenamedOne([LP] + Join(r.texts, COMMA) + [RP], d.vals, [LP] + Join(d.texts, COMMA) + [RP], n, mode);
  }

  lemma {:induction false} RowsInEveryMode(rows: seq<Row>, n: nat, m: nat, mode: Mode)
    requires RowsFit(rows)
    ensures Renamed(AddRows(rows, n, mode), AddRows(rows, m, Dollar), n, mode)
    ensures AddRows(rows, n, mode).texts == [] <==> NoCells(rows)
    decreases rows
  {
    hide Renamed, ItemsFit, AddAll, Count, Relabel, CountAll, RelabelAll, Join, OneRow;
    if rows == [] {
      RenamedNone(n, mode);
    } else {
      var c, d := AddAll(rows[0].cells, n, mode), AddAll(rows[0].cells, m, Dollar);
      ItemsInEveryMode(rows[0].cells, n, m, mode);
      RenamedVals(c, d, n, mode);
      var rs, ds := AddRows(rows[1..], n + |d.vals|, mode), AddRows(rows[1..], m + |d.vals|, Dollar);
      RowsInEveryMode(rows[1..], n + |d.vals|, m + |d.vals|, mode);
      RenamedJoin(c, d, n, mode);
      OneRowShape(c);
      OneRowShape(d);
      RenamedConcat(OneRow(c), rs, OneRow(d), ds, n, mode);
    }
  }

  lemma {:induction false} ArgInEveryMode(a: Arg, n: nat, m: nat, mode: Mode)
    requires ArgFits(a)
    ensures Renamed(AddArg(a, n, mode), AddArg(a, m, Dollar), n, mode)
    ensures |AddArg(a, n, mode).texts| == if a.Rows? && NoCells(a.rows) then 0 else 1
    decreases a
  {
    hide Renamed, ItemFits, ItemsFit, RowsFit, NoCells, AddToVars, AddAll, AddRows, Count, Relabel, CountAll, RelabelAll, Join;
    match a
    case One(i) =>
      var d := AddToVars(i, m, Dollar);
      ItemInEveryMode(i, n, m, mode);
      RenamedOne(AddToVars(i, n, mode).text, d.vals, d.text, n, mode);
    case Many(items) =>
      if items == [] {
        CountNone([NULL], Hole);
        RelabelNone([NULL], n, mode);
        RenamedOne([NULL], [], [NULL], n, mode);
      } else {
        ItemsInEveryMode(items, n, m, mode);
        RenamedJoin(AddAll(items, n, mode), AddAll(items, m, Dollar), n, mode);
      }
    case Rows(rows) =>
      RowsInEveryMode(rows, n, m, mode);
      RowsInEveryMode(rows, m, m, Dollar);
      if !NoCells(rows) {
        RenamedJoin(AddRows(rows, n, mode), AddRows(rows, m, Dollar), n, mode);
      }
  }

  lemma {:induction false} ArgsInEveryMode(args: seq<Arg>, n: nat, m: nat, mode: Mode)
    requires ArgsFit(args)
    ensures Renamed(AddArgs(args, n, mode), AddArgs(args, m, Dollar), n, mode)
    ensures |AddArgs(args, n, mode).texts| <= |args|
    decreases args
  {
    hide Renamed, ArgFits, AddArg, NoCells, CountAll, RelabelAll;
    if args == [] {
      RenamedNone(n, mode);
    } else {
      var a, d := AddArg(args[0], n, mode), AddArg(args[0], m, Dollar);
      ArgInEveryMode(args[0], n, m, mode);
      RenamedVals(a, d, n, mode);
      ArgsInEveryMode(args[1..], n + |d.vals|, m + |d.vals|, mode);
      RenamedConcat(a, AddArgs(args[1..], n + |d.vals|, mode), d, AddArgs(args[1..], m + |d.vals|, Dollar), n, mode);
    }
  }

  /** The three renderings of a query differ in the names of the markers and nothing else; the vector grows
      by as many values as markers are written. */
  lemma {:induction false} BuildInEveryMode(q: Query, n: nat, m: nat, mode: Mode)
    requires Fits(q)
    ensures var b, d := Build(q, n, mode), Build(q, m, Dollar);
            b.text == Relabel(d.text, n, mode) && b.vals == d.vals && Count(d.text, Hole) == |d.vals|
    decreases q
  {
    ArgsInEveryMode(q.args, n, m, mode);
    RelabelSubstitute(q.text, AddArgs(q.args, m, Dollar).texts, n, mode);
  }
}
