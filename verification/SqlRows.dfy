/** Which rows a statement selects, in terms of the values of their columns. */
module SqlRows {
  import opened Lists
  import opened SqlText
  import opened SqlBuild
  import opened SqlParse
  import opened SqlClause
  import opened SqlWhere
  import opened SqlWhereBinding
  import N = SqlNegation

  /** The columns of a row; None is NULL. */
  type Cells = int -> Option<int>

  /** The text of a list of values: the values with commas between them. */
  ghost predicate Listed(t: Text, vs: seq<int>) {
    && vs != [] && |t| == 2 * |vs| - 1
    && (forall i :: 0 <= i < |vs| ==> t[2 * i] == Val(vs[i]))
    && (forall i :: 0 <= i < |vs| - 1 ==> t[2 * i + 1] == COMMA)
  }

  /** The column equals one of the values, in three-valued logic. */
  function AnyOf(row: Record, w: int, vs: seq<int>): Truth {
    if vs == [] then False else Or(row([Word(w), EQ, Val(vs[0])]), AnyOf(row, w, vs[1..]))
  }

  ghost predicate InIsAny(row: Record, w: int, t: Text, vs: seq<int>) {
    Listed(t, vs) ==> row([Word(w), IN, LP] + t + [RP]) == AnyOf(row, w, vs)
  }

  /** "column IN (v1, …, vn)" is "column = v1 OR … OR column = vn". */
  ghost predicate ReadsIn(row: Record) {
    forall w, t, vs :: InIsAny(row, w, t, vs)
  }

  ghost predicate Holds(row: Record, cells: Cells, w: int) {
    && (forall v {:trigger Val(v)} :: row([Word(w), EQ, Val(v)]) ==
          if cells(w).None? then Unknown else if cells(w).value == v then True else False)
    && row([Word(w), IS_NULL]) == (if cells(w).None? then True else False)
    && row([Word(w), IN, LP, NULL, RP]) == Unknown
  }

  /** How a database reads the predicates over a row with these columns; any other text is its own affair. */
  ghost predicate Stores(row: Record, cells: Cells) {
    ReadsIn(row) && N.Complements(row) && forall w :: Holds(row, cells, w)
  }

  // ---------------------------------------------------------------- lists of keys

  lemma OneValueText(v: int)
    ensures InlineArg(Many(Values([v]))) == [Val(v)]
  {
    assert [v][1..] == [] && Values([v]) == [Value(v)] && [Value(v)][1..] == [];
    assert InlineItems([Value(v)]) == [[Val(v)]];
  }

  lemma ManyText(items: seq<Item>)
    requires items != []
    ensures InlineArg(Many(items)) == Join(InlineItems(items), COMMA)
    ensures InlineItems(items) == [InlineItem(items[0])] + InlineItems(items[1..])
  {
  }

  lemma NextValueText(vs: seq<int>)
    requires |vs| > 1
    ensures InlineArg(Many(Values(vs))) == [Val(vs[0])] + [COMMA] + InlineArg(Many(Values(vs[1..])))
  {
    var items, rest := Values(vs), Values(vs[1..]);
    assert items[0] == Value(vs[0]) && items[1..] == rest && rest != [];
    assert InlineItem(Value(vs[0])) == [Val(vs[0])];
    hide *;
    ManyText(items);
    ManyText(rest);
    JoinNext([Val(vs[0])], InlineItems(rest));
  }

  lemma JoinNext(t: Text, rest: seq<Text>)
    requires rest != []
    ensures Join([t] + rest, COMMA) == t + [COMMA] + Join(rest, COMMA)
  {
    assert ([t] + rest)[1..] == rest;
  }

  lemma ListedNext(vs: seq<int>, t: Text)
    requires |vs| > 1 && Listed(t, vs[1..])
    ensures Listed([Val(vs[0])] + [COMMA] + t, vs)
  {
    var u := [Val(vs[0])] + [COMMA] + t;
    forall i | 0 <= i < |vs| ensures u[2 * i] == Val(vs[i]) { if i > 0 { assert u[2 * i] == t[2 * (i - 1)]; } }
    forall i | 0 <= i < |vs| - 1 ensures u[2 * i + 1] == COMMA { if i > 0 { assert u[2 * i + 1] == t[2 * (i - 1) + 1]; } }
  }

  lemma {:induction false} ValuesListed(vs: seq<int>)
    requires vs != []
    ensures Listed(InlineArg(Many(Values(vs))), vs)
    decreases |vs|
  {
    hide InlineArg;
    if |vs| == 1 {
      assert vs == [vs[0]];
      OneValueText(vs[0]);
    } else {
      hide Listed;
      NextValueText(vs);
      ValuesListed(vs[1..]);
      ListedNext(vs, InlineArg(Many(Values(vs[1..]))));
    }
  }

  lemma {:induction false} AnyOfExactly(row: Record, w: int, vs: seq<int>)
    ensures AnyOf(row, w, vs).True? <==> exists i :: 0 <= i < |vs| && row([Word(w), EQ, Val(vs[i])]).True?
    ensures AnyOf(row, w, vs).False? <==> forall i :: 0 <= i < |vs| ==> row([Word(w), EQ, Val(vs[i])]).False?
    decreases |vs|
  {
    if vs != [] {
      var rest := vs[1..];
      AnyOfExactly(row, w, rest);
      assert forall i :: 0 <= i < |rest| ==> rest[i] == vs[i + 1];
      assert forall i :: 0 < i < |vs| ==> vs[i] == rest[i - 1];
    }
  }

  /** A Where on keys lets a row through exactly if its key is one of them, a Not exactly if it is known to be
      none of them. */
  lemma KeysPass(vs: seq<int>, pk: int, row: Record)
    requires vs != [] && ReadsIn(row)
    ensures Passes(Reference(N.OnlyWhere(Keys(vs)), pk), row) <==>
            exists i :: 0 <= i < |vs| && row([Word(pk), EQ, Val(vs[i])]).True?
    ensures N.Complements(row) ==>
            (Passes(Reference(N.OnlyNot(Keys(vs)), pk), row) <==>
             forall i :: 0 <= i < |vs| ==> row([Word(pk), EQ, Val(vs[i])]).False?)
  {
    hide Passes, Reference, N.OnlyWhere, N.OnlyNot, AnyOf, ReadsIn, InlineArg;
    N.AlonePasses(Keys(vs), pk, row);
    AnyOfExactly(row, pk, vs);
    KeysAsk(vs, pk, row);
  }

  lemma KeysAsk(vs: seq<int>, pk: int, row: Record)
    requires vs != [] && ReadsIn(row)
    ensures N.Asks(Keys(vs), true, pk, row) == AnyOf(row, pk, vs)
    ensures N.Complements(row) ==> N.Asks(Keys(vs), false, pk, row) == Not(AnyOf(row, pk, vs))
  {
    hide InlineArg, AnyOf, Listed, N.Complements;
    ValuesListed(vs);
    var t := InlineArg(Many(Values(vs)));
    assert InIsAny(row, pk, t, vs);
    if N.Complements(row) { N.ListNegated(pk, t, row); }
  }

  // ---------------------------------------------------------------- what each form asks of the columns

  function ItemsOf(a: Arg): seq<Item> {
    match a case One(i) => [i] case Many(items) => items case Rows(_) => []
  }

  /** A value or a slice of values. */
  ghost predicate OfValues(a: Arg) {
    (exists v :: a == One(Value(v))) || (exists vs :: a == Many(Values(vs)))
  }

  /** Maps and structs of values and nil; a column name in the Not list with values. */
  ghost predicate Scalar(c: Clause, positive: bool) {
    match c
    case Pairs(ps) => forall k :: 0 <= k < |ps| && ps[k].value.Some? ==> exists v :: ps[k].value.value == One(Value(v))
    case Phrase(_, comparison, _, args) => (
      positive || comparison || (|args| == 1 && OfValues(args[0])))
    case _ => true
  }

  ghost predicate PairPicks(p: Pair, positive: bool, cells: Cells) {
    match p.value
    case None => positive <==> cells(p.col).None?
    case Some(a) => cells(p.col).Some? && (positive <==> a == One(Value(cells(p.col).value)))
  }

  /** The rows a condition asks for. Text of the caller's own is read as it stands. */
  ghost predicate Picks(c: Clause, positive: bool, pk: int, row: Record, cells: Cells) {
    match c
    case Blank => true
    case NumberText(v) => cells(pk).Some? && (positive <==> cells(pk).value == v)
    case Number(v) => cells(pk).Some? && (positive <==> cells(pk).value == v)
    case Keys(keys) => (!positive && keys == []) || (cells(pk).Some? && (positive <==> cells(pk).value in keys))
    case Phrase(t, comparison, column, args) => (
      if positive then Eval(Inline(Query(t, args)), row).True?
      else if comparison then Eval(Inline(Query(t, args)), row).False?
      else args != [] && ItemsOf(args[0]) != [] && cells(column).Some? && Value(cells(column).value) !in ItemsOf(args[0]))
    case Pairs(ps) => forall k :: 0 <= k < |ps| ==> PairPicks(ps[k], positive, cells)
    case Ident(ks) => forall k :: 0 <= k < |ks| ==> cells(ks[k].col) == Some(ks[k].v)
    case Given(q) => Inline(q) == [] || Eval(Inline(q), row).True?
  }

  lemma AnyOfCells(row: Record, cells: Cells, w: int, vs: seq<int>)
    requires Holds(row, cells, w) && vs != []
    ensures AnyOf(row, w, vs) ==
            if cells(w).None? then Unknown else if cells(w).value in vs then True else False
  {
    AnyOfExactly(row, w, vs);
    assert cells(w).None? ==> row([Word(w), EQ, Val(vs[0])]) == Unknown;
    assert cells(w).Some? ==> forall i :: 0 <= i < |vs| ==>
      (row([Word(w), EQ, Val(vs[i])]) == if cells(w).value == vs[i] then True else False);
    assert cells(w).None? ==> forall i :: 0 <= i < |vs| ==> row([Word(w), EQ, Val(vs[i])]) == Unknown;
    assert !AnyOf(row, w, vs).True? && !AnyOf(row, w, vs).False? ==> AnyOf(row, w, vs) == Unknown;
  }

  lemma EmptyList(row: Record, cells: Cells, w: int)
    requires Stores(row, cells)
    ensures row([Word(w), IN, LP] + InlineArg(Many(Values([]))) + [RP]) == Unknown
    ensures row([Word(w), NOT_IN, LP] + InlineArg(Many(Values([]))) + [RP]) == Unknown
  {
    var t := InlineArg(Many(Values([])));
    assert Holds(row, cells, w);
    assert [Word(w), IN, LP] + t + [RP] == [Word(w), IN, LP, NULL, RP];
    N.ListNegated(w, t, row);
  }

  lemma {:induction false} ValuesIn(vs: seq<int>, v: int)
    ensures Value(v) in Values(vs) <==> v in vs
    decreases |vs|
  {
    if vs != [] {
      ValuesIn(vs[1..], v);
      assert Values(vs)[1..] == Values(vs[1..]) && Values(vs)[0] == Value(vs[0]);
      assert vs == [vs[0]] + vs[1..] && Values(vs) == [Value(vs[0])] + Values(vs[1..]);
    }
  }

  lemma InPicks(row: Record, cells: Cells, w: int, vs: seq<int>)
    requires Stores(row, cells)
    ensures var t := [Word(w), IN, LP] + InlineArg(Many(Values(vs))) + [RP];
            row(t).True? <==> cells(w).Some? && cells(w).value in vs
    ensures var t := [Word(w), NOT_IN, LP] + InlineArg(Many(Values(vs))) + [RP];
            row(t).True? <==> vs != [] && cells(w).Some? && cells(w).value !in vs
  {
    if vs == [] {
      EmptyList(row, cells, w);
    } else {
      hide InlineArg, AnyOf, Listed, N.Complements;
      ValuesListed(vs);
      assert InIsAny(row, w, InlineArg(Many(Values(vs))), vs);
      N.ListNegated(w, InlineArg(Many(Values(vs))), row);
      assert Holds(row, cells, w);
      AnyOfCells(row, cells, w, vs);
    }
  }

  lemma EqualPicks(row: Record, cells: Cells, w: int, v: int)
    requires Stores(row, cells)
    ensures row([Word(w), EQ, Val(v)]).True? <==> cells(w) == Some(v)
    ensures row([Word(w), NE, Val(v)]).True? <==> cells(w).Some? && cells(w).value != v
    ensures row([Word(w), IS_NULL]).True? <==> cells(w).None?
    ensures row([Word(w), IS_NOT_NULL]).True? <==> cells(w).Some?
  {
    assert Holds(row, cells, w);
    N.NumberNegated(v, w, row);
    N.PairNegated(Pair(w, None), row);
  }

  lemma PairPicked(p: Pair, positive: bool, row: Record, cells: Cells)
    requires Stores(row, cells) && (p.value.Some? ==> exists v :: p.value.value == One(Value(v)))
    ensures PairMeans(p, positive, row).True? <==> PairPicks(p, positive, cells)
  {
    hide Stores;
    match p.value
    case None => EqualPicks(row, cells, p.col, 0);
    case Some(a) =>
      var v :| a == One(Value(v));
      EqualPicks(row, cells, p.col, v);
      assert [Word(p.col), Equal(positive)] + InlineArg(a) == [Word(p.col), Equal(positive), Val(v)];
  }

  lemma {:induction false} PairsPicked(ps: seq<Pair>, positive: bool, row: Record, cells: Cells)
    requires Stores(row, cells) && Scalar(Pairs(ps), positive)
    ensures AndAll(PairsMean(ps, positive, row)).True? <==> forall k :: 0 <= k < |ps| ==> PairPicks(ps[k], positive, cells)
    decreases |ps|
  {
    hide Stores, PairMeans, PairPicks;
    if ps != [] {
      PairPicked(ps[0], positive, row, cells);
      assert forall k :: 0 <= k < |ps[1..]| ==> ps[1..][k] == ps[k + 1];
      PairsPicked(ps[1..], positive, row, cells);
      assert forall k :: 0 < k < |ps| ==> ps[k] == ps[1..][k - 1];
      assert PairsMean(ps, positive, row)[1..] == PairsMean(ps[1..], positive, row);
    }
  }

  lemma {:induction false} KeysPicked(ks: seq<Key>, row: Record, cells: Cells)
    requires Stores(row, cells)
    ensures AndAll(KeysMean(ks, row)).True? <==> forall k :: 0 <= k < |ks| ==> cells(ks[k].col) == Some(ks[k].v)
    decreases |ks|
  {
    hide Stores;
    if ks != [] {
      EqualPicks(row, cells, ks[0].col, ks[0].v);
      assert forall k :: 0 <= k < |ks[1..]| ==> ks[1..][k] == ks[k + 1];
      KeysPicked(ks[1..], row, cells);
      assert forall k :: 0 < k < |ks| ==> ks[k] == ks[1..][k - 1];
      assert KeysMean(ks, row)[1..] == KeysMean(ks[1..], row);
    }
  }

  lemma NamePicked(a: Arg, column: int, row: Record, cells: Cells)
    requires Stores(row, cells) && OfValues(a)
    ensures row([Word(column), NOT_IN, LP] + InlineArg(a) + [RP]).True? <==>
            ItemsOf(a) != [] && cells(column).Some? && Value(cells(column).value) !in ItemsOf(a)
  {
    hide Stores;
    var vs :| a == Many(Values(vs)) || (|vs| == 1 && a == One(Value(vs[0]))) by {
      if v :| a == One(Value(v)) { assert |[v]| == 1 && [v][0] == v; }
    }
    if a.One? {
      assert Values(vs) == [Value(vs[0])] by { assert vs[1..] == []; }
      assert InlineArg(Many(Values(vs))) == InlineArg(a) by { assert InlineItems([Value(vs[0])]) == [[Val(vs[0])]]; }
    }
    InPicks(row, cells, column, vs);
    if cells(column).Some? { ValuesIn(vs, cells(column).value); }
    hide InlineArg;
  }

  /** What a condition means, in terms of the columns. */
  lemma MeansPicks(c: Clause, positive: bool, pk: int, row: Record, cells: Cells)
    requires Stores(row, cells) && Scalar(c, positive) && ClauseOk(c, positive)
    ensures Vanishes(c, positive) ==> Picks(c, positive, pk, row, cells)
    ensures !Vanishes(c, positive) ==> (Means(c, positive, pk, row).True? <==> Picks(c, positive, pk, row, cells))
  {
    hide Stores, Inline, InlineArg, Eval, OfValues, PairsMean, KeysMean, AndAll, PairPicks, Balanced;
    match c
    case Blank =>
    case NumberText(v) => EqualPicks(row, cells, pk, v);
    case Number(v) => EqualPicks(row, cells, pk, v);
    case Keys(keys) => InPicks(row, cells, pk, keys);
    case Phrase(t, comparison, column, args) =>
      if !positive && !comparison { NamePicked(args[0], column, row, cells); }
    case Pairs(ps) => PairsPicked(ps, positive, row, cells);
    case Ident(ks) => KeysPicked(ks, row, cells);
    case Given(q) =>
  }

  // ---------------------------------------------------------------- the whole WHERE

  ghost predicate AllScalar(cs: seq<Clause>, positive: bool) {
    forall c <- cs :: Scalar(c, positive)
  }

  /** Every condition of the list asks for the row. */
  ghost predicate AllPick(cs: seq<Clause>, positive: bool, pk: int, row: Record, cells: Cells) {
    forall c <- cs :: Picks(c, positive, pk, row, cells)
  }

  /** Some condition of the list that says anything asks for the row. */
  ghost predicate SomePicks(cs: seq<Clause>, positive: bool, pk: int, row: Record, cells: Cells) {
    exists c <- cs :: !Vanishes(c, positive) && Picks(c, positive, pk, row, cells)
  }

  /** No condition of the list says anything. */
  predicate Silent(cs: seq<Clause>, positive: bool) {
    forall c <- cs :: Vanishes(c, positive)
  }

  lemma {:induction false} ListPicked(cs: seq<Clause>, positive: bool, pk: int, row: Record, cells: Cells)
    requires ListOk(cs, positive, false) && AllScalar(cs, positive) && Stores(row, cells)
    ensures var vs := MeansAll(cs, positive, pk, row);
            && (vs == [] <==> Silent(cs, positive))
            && (AllTrue(vs) <==> AllPick(cs, positive, pk, row, cells))
            && (SomeTrue(vs) <==> SomePicks(cs, positive, pk, row, cells))
    decreases |cs|
  {
    if cs != [] {
      var c, rest := cs[0], cs[1..];
      assert c in cs && cs == [c] + rest;
      assert ClauseOk(c, positive) && ListOk(rest, positive, false);
      var head, tail := MeansOne(c, positive, pk, row), MeansAll(rest, positive, pk, row);
      assert MeansAll(cs, positive, pk, row) == head + tail;
      assert head == if Vanishes(c, positive) then [] else [Means(c, positive, pk, row)];
      hide *;
      assert AllScalar(rest, positive) && Scalar(c, positive) by { ScalarParts(c, rest, positive); }
      MeansPicks(c, positive, pk, row, cells);
      ListPicked(rest, positive, pk, row, cells);
      TruthConcat(head, tail);
      HeadPicks(c, rest, positive, pk, row, cells);
      OneTruth(Means(c, positive, pk, row));
    } else {
      hide Stores, Picks, Vanishes, Scalar, ListOk;
    }
  }

  lemma OneTruth(v: Truth)
    ensures (AllTrue([v]) <==> v.True?) && (SomeTrue([v]) <==> v.True?) && AllTrue([]) && !SomeTrue([])
  {
    assert [v][0] == v;
  }

  lemma ScalarParts(c: Clause, rest: seq<Clause>, positive: bool)
    requires AllScalar([c] + rest, positive)
    ensures AllScalar(rest, positive) && Scalar(c, positive)
  {
    hide Scalar;
    assert c in [c] + rest;
  }

  lemma TruthConcat(a: seq<Truth>, b: seq<Truth>)
    ensures AllTrue(a + b) <==> AllTrue(a) && AllTrue(b)
    ensures SomeTrue(a + b) <==> SomeTrue(a) || SomeTrue(b)
  {
    assert forall k :: 0 <= k < |a| ==> (a + b)[k] == a[k];
    assert forall k :: 0 <= k < |b| ==> (a + b)[|a| + k] == b[k];
  }

  lemma HeadPicks(c: Clause, rest: seq<Clause>, positive: bool, pk: int, row: Record, cells: Cells)
    ensures var cs := [c] + rest;
            && (Silent(cs, positive) <==> Vanishes(c, positive) && Silent(rest, positive))
            && (AllPick(cs, positive, pk, row, cells) <==> Picks(c, positive, pk, row, cells) && AllPick(rest, positive, pk, row, cells))
            && (SomePicks(cs, positive, pk, row, cells) <==>
                (!Vanishes(c, positive) && Picks(c, positive, pk, row, cells)) || SomePicks(rest, positive, pk, row, cells))
  {
    hide Picks, Vanishes;
  }

  /** The row is not deleted (if the statement is scoped), has the primary key of the record if that is set,
      and either meets every Where and every Not or meets an Or; where neither Where nor Not says anything but
      Or does, it has to meet an Or. */
  ghost predicate Wanted(s: Search, pk: int, row: Record, cells: Cells) {
    && (s.deletedAt.Some? ==> cells(s.deletedAt.value).None?)
    && (forall k :: 0 <= k < |s.primary| ==> cells(s.primary[k].col) == Some(s.primary[k].v))
    && (|| SomePicks(s.ors, true, pk, row, cells)
        || (&& AllPick(s.wheres, true, pk, row, cells) && AllPick(s.nots, false, pk, row, cells)
            && !(Silent(s.wheres, true) && Silent(s.nots, false) && !Silent(s.ors, true))))
  }

  ghost predicate Tabular(s: Search) {
    SearchOk(s) && AllScalar(s.wheres, true) && AllScalar(s.nots, false) && AllScalar(s.ors, true)
  }

  /** The statement that is sent, text and vector, selects exactly the rows wanted. */
  lemma StatementSelects(s: Search, pk: int, n: nat, all: seq<int>, row: Record, cells: Cells)
    requires Tabular(s) && Stores(row, cells) && At(all, n, WhereSql(s, pk, n, Numbered).vals)
    ensures Passes(Resolve(WhereSql(s, pk, n, Numbered).text, all), row) <==> Wanted(s, pk, row, cells)
  {
    NumberedSelects(s, pk, n, all, row);
    ReferenceSays(s, pk, row);
    WhereMeans(s, pk, row);
    SearchLists(s);
    PrimaryPicked(s, row, cells);
    assert AllScalar(s.wheres, true) && AllScalar(s.nots, false) && AllScalar(s.ors, true);
    WantedIs(s, pk, row, cells);
    hide *;
    ListPicked(s.wheres, true, pk, row, cells);
    ListPicked(s.nots, false, pk, row, cells);
    ListPicked(s.ors, true, pk, row, cells);
    TruthConcat(MeansAll(s.wheres, true, pk, row), MeansAll(s.nots, false, pk, row));
  }

  lemma WantedIs(s: Search, pk: int, row: Record, cells: Cells)
    ensures Wanted(s, pk, row, cells) <==>
      && (s.deletedAt.Some? ==> cells(s.deletedAt.value).None?)
      && (forall k :: 0 <= k < |s.primary| ==> cells(s.primary[k].col) == Some(s.primary[k].v))
      && (|| SomePicks(s.ors, true, pk, row, cells)
          || (&& AllPick(s.wheres, true, pk, row, cells) && AllPick(s.nots, false, pk, row, cells)
              && !(Silent(s.wheres, true) && Silent(s.nots, false) && !Silent(s.ors, true))))
  {
    hide SomePicks, AllPick, Silent;
  }

  lemma SearchLists(s: Search)
    requires SearchOk(s)
    ensures ListOk(s.wheres, true, false) && ListOk(s.nots, false, false) && ListOk(s.ors, true, false)
  {
  }

  lemma PrimaryPicked(s: Search, row: Record, cells: Cells)
    requires Stores(row, cells)
    ensures AllTrue(Primary(s, row)) <==>
      && (s.deletedAt.Some? ==> cells(s.deletedAt.value).None?)
      && (forall k :: 0 <= k < |s.primary| ==> cells(s.primary[k].col) == Some(s.primary[k].v))
  {
    hide Stores, KeysMean;
    KeysPicked(s.primary, row, cells);
    TrueOfAll(KeysMean(s.primary, row));
    if s.deletedAt.Some? {
      EqualPicks(row, cells, s.deletedAt.value, 0);
      TruthConcat([row([Word(s.deletedAt.value), IS_NULL])], KeysMean(s.primary, row));
      OneTruth(row([Word(s.deletedAt.value), IS_NULL]));
      assert Primary(s, row) == [row([Word(s.deletedAt.value), IS_NULL])] + KeysMean(s.primary, row);
    } else {
      assert Primary(s, row) == KeysMean(s.primary, row);
    }
  }

  // ---------------------------------------------------------------- such rows exist

  function Equals(cell: Option<int>, v: int): Truth {
    if cell.None? then Unknown else if cell.value == v then True else False
  }

  function Among(cell: Option<int>, vs: seq<int>): Truth {
    if cell.None? || vs == [] then Unknown else if cell.value in vs then True else False
  }

  /** The values of a list's text. */
  function ValuesOf(t: Text): seq<int> {
    if t == [] || !t[0].Val? then [] else [t[0].v] + if |t| < 2 then [] else ValuesOf(t[2..])
  }

  /** What a database says of a predicate without a negation. */
  function Verdict(cells: Cells, t: Text): Truth {
    if |t| < 2 || !t[0].Word? then Unknown
    else if t[1] == IS_NULL && |t| == 2 then (if cells(t[0].w).None? then True else False)
    else if t[1] == EQ && |t| == 3 && t[2].Val? then Equals(cells(t[0].w), t[2].v)
    else if t[1] == IN && |t| >= 5 then Among(cells(t[0].w), ValuesOf(t[3..|t| - 1]))
    else Unknown
  }

  function Database(cells: Cells): Record {
    t => if N.Negative(t) then Not(Verdict(cells, N.Affirmed(t))) else Verdict(cells, t)
  }

  lemma {:induction false} ValuesOfListed(t: Text, vs: seq<int>)
    requires Listed(t, vs)
    ensures ValuesOf(t) == vs
    decreases |vs|
  {
    assert t[0] == t[2 * 0] == Val(vs[0]);
    if |vs| > 1 {
      var u, rest := t[2..], vs[1..];
      forall i | 0 <= i < |rest| ensures u[2 * i] == Val(rest[i]) { assert u[2 * i] == t[2 * (i + 1)]; }
      forall i | 0 <= i < |rest| - 1 ensures u[2 * i + 1] == COMMA { assert u[2 * i + 1] == t[2 * (i + 1) + 1]; }
      ValuesOfListed(u, rest);
    }
  }

  /** For all columns there is a database that reads the predicates over them so. */
  lemma DatabaseStores(cells: Cells)
    ensures Stores(Database(cells), cells)
  {
    var row := Database(cells);
    forall w ensures Holds(row, cells, w) {
      var t: Text := [Word(w), IN, LP, NULL, RP];
      assert t[3..|t| - 1] == [NULL];
    }
    forall w, t, vs ensures InIsAny(row, w, t, vs) {
      if Listed(t, vs) {
        var p := [Word(w), IN, LP] + t + [RP];
        assert p[3..|p| - 1] == t && !N.Negative(p);
        ValuesOfListed(t, vs);
        AnyOfCells(row, cells, w, vs);
      }
    }
    forall t | N.Negative(t) ensures row(t) == Not(row(N.Affirmed(t))) {
      assert !N.Negative(N.Affirmed(t));
    }
  }
}
