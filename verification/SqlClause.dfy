/** The forms of a condition and the text `Clause.BuildCondition` makes of them. */
module SqlClause {
  import opened Lists
  import opened SqlText
  import opened SqlBuild
  import opened SqlParse

  /** A column with a value, or with nil. A slice is written behind the operator without parentheses. */
  datatype Pair = Pair(col: int, value: Option<Arg>)

  datatype Key = Key(col: int, v: int)

  /** `Blank` is the empty string; `NumberText` a string of digits; `Phrase` any other string, with its
      arguments, whether it looks like a comparison, and the column it names when it does not; `Pairs` a map
      or a struct in the order in which its entries are visited; `Ident` an ID; `Given` a query. */
  datatype Clause =
    | Blank
    | NumberText(v: int)
    | Number(v: int)
    | Keys(keys: seq<int>)
    | Phrase(text: Text, comparison: bool, column: int, args: seq<Arg>)
    | Pairs(pairs: seq<Pair>)
    | Ident(parts: seq<Key>)
    | Given(q: Query)

  // ---------------------------------------------------------------- putting queries together

  function Concat(a: Query, b: Query): Query {
    Query(a.text + b.text, a.args + b.args)
  }

  function Plus(a: Query, sep: Tok, b: Query): Query {
    Concat(Concat(a, Query([sep], [])), b)
  }

  function JoinQueries(qs: seq<Query>, sep: Tok): Query {
    if qs == [] then Query([], [])
    else if |qs| == 1 then qs[0]
    else Plus(qs[0], sep, JoinQueries(qs[1..], sep))
  }

  function Within(q: Query): Query {
    Concat(Concat(Query([LP], []), q), Query([RP], []))
  }

  function InlineAll(qs: seq<Query>): (r: seq<Text>)
    ensures |r| == |qs|
  {
    if qs == [] then [] else [Inline(qs[0])] + InlineAll(qs[1..])
  }

  /** A query that says something: arguments for its `?`, no empty slice of slices. */
  ghost predicate Sound(q: Query) {
    Fits(q) && Empties(q) == 0
  }

  lemma {:induction false} ArgsConcat(a: seq<Arg>, b: seq<Arg>)
    ensures InlineArgs(a + b) == InlineArgs(a) + InlineArgs(b)
    ensures ArgsFit(a + b) <==> ArgsFit(a) && ArgsFit(b)
    ensures ArgsEmpties(a + b) == ArgsEmpties(a) + ArgsEmpties(b)
    decreases |a|
  {
    hide ArgFits, ArgEmpties, InlineArg;
    if a == [] {
      assert a + b == b;
    } else {
      assert (a + b)[1..] == a[1..] + b;
      ArgsConcat(a[1..], b);
    }
  }

  lemma InlineConcat(a: Query, b: Query)
    requires Sound(a) && Sound(b)
    ensures Sound(Concat(a, b)) && Inline(Concat(a, b)) == Inline(a) + Inline(b)
  {
    hide ArgsFit, ArgsEmpties, InlineArgs;
    ArgsConcat(a.args, b.args);
    CountConcat(a.text, b.text, Quest);
    SubstituteConcat(a.text, b.text, InlineArgs(a.args), InlineArgs(b.args));
  }

  /** Text without `?` and without arguments is printed as it is. */
  lemma {:induction false} InlineText(t: Text)
    requires Plain(t) && Count(t, Quest) == 0
    ensures Sound(Query(t, [])) && Inline(Query(t, [])) == t
    decreases |t|
  {
    SubstituteNone(t);
  }

  lemma {:induction false} SubstituteNone(t: Text)
    ensures Substitute(t, []) == t
    decreases |t|
  {
    if t != [] { SubstituteNone(t[1..]); }
  }

  lemma InlinePlus(a: Query, sep: Tok, b: Query)
    requires Sound(a) && Sound(b) && Plain([sep]) && sep != Quest
    ensures Sound(Plus(a, sep, b)) && Inline(Plus(a, sep, b)) == Inline(a) + [sep] + Inline(b)
  {
    hide Sound, Inline, Concat, Plain, Count;
    CountNone([sep], Quest);
    InlineText([sep]);
    InlineConcat(a, Query([sep], []));
    InlineConcat(Concat(a, Query([sep], [])), b);
  }

  lemma {:induction false} InlineJoin(qs: seq<Query>, sep: Tok)
    requires (forall k :: 0 <= k < |qs| ==> Sound(qs[k])) && Plain([sep]) && sep != Quest
    ensures Sound(JoinQueries(qs, sep)) && Inline(JoinQueries(qs, sep)) == Join(InlineAll(qs), sep)
    decreases |qs|
  {
    hide Sound, Inline, Plus;
    if qs == [] {
      InlineText([]);
    } else if |qs| > 1 {
      assert forall k :: 0 <= k < |qs[1..]| ==> qs[1..][k] == qs[k + 1];
      InlineJoin(qs[1..], sep);
      InlinePlus(qs[0], sep, JoinQueries(qs[1..], sep));
      assert InlineAll(qs)[1..] == InlineAll(qs[1..]);
    }
  }

  lemma InlineWithin(q: Query)
    requires Sound(q)
    ensures Sound(Within(q)) && Inline(Within(q)) == [LP] + Inline(q) + [RP]
  {
    hide Sound, Inline, Concat, Count;
    CountNone([LP], Quest);
    CountNone([RP], Quest);
    InlineText([LP]);
    InlineText([RP]);
    InlineConcat(Query([LP], []), q);
    InlineConcat(Concat(Query([LP], []), q), Query([RP], []));
  }

  /** A `?` by itself is its argument. */
  lemma InlineOne(a: Arg)
    requires ArgFits(a) && ArgEmpties(a) == 0
    ensures Sound(Query([Quest], [a])) && Inline(Query([Quest], [a])) == InlineArg(a)
  {
    hide ArgFits, ArgEmpties, InlineArg;
    assert [Quest][1..] == [] && [a][1..] == [] && [InlineArg(a)][1..] == [];
    assert Count([Quest], Quest) == 1 && InlineArgs([a]) == [InlineArg(a)] && ArgsFit([a]) && ArgsEmpties([a]) == 0;
    assert Substitute([Quest], [InlineArg(a)]) == InlineArg(a) + Substitute([Quest][1..], []);
  }

  // ---------------------------------------------------------------- BuildCondition

  function Equal(positive: bool): Tok {
    if positive then EQ else NE
  }

  function Member(positive: bool): Tok {
    if positive then IN else NOT_IN
  }

  function PairQuery(p: Pair, positive: bool): Query {
    match p.value
    case Some(a) => Query([LP, Word(p.col), Equal(positive), Quest, RP], [a])
    case None => Query([LP, Word(p.col), if positive then IS_NULL else IS_NOT_NULL, RP], [])
  }

  function PairQueries(ps: seq<Pair>, positive: bool): seq<Query> {
    if ps == [] then [] else [PairQuery(ps[0], positive)] + PairQueries(ps[1..], positive)
  }

  function KeyQuery(k: Key): Query {
    Query([Word(k.col), EQ, Quest], [One(Value(k.v))])
  }

  function KeyQueries(ks: seq<Key>): seq<Query> {
    if ks == [] then [] else [KeyQuery(ks[0])] + KeyQueries(ks[1..])
  }

  function Values(vs: seq<int>): (r: seq<Item>)
    ensures r == [] <==> vs == []
  {
    if vs == [] then [] else [Value(vs[0])] + Values(vs[1..])
  }

  /** The query of one condition; `pk` is the primary key column. An ID and a query ignore the sign. */
  function BuildCondition(c: Clause, positive: bool, pk: int): Query {
    match c
    case Blank => Query([], [])
    case NumberText(v) => Query([LP, Word(pk), Equal(positive), Quest, RP], [One(Value(v))])
    case Number(v) => Query([LP, Word(pk), Equal(positive), Val(v), RP], [])
    case Keys(keys) => (
      if !positive && keys == [] then Query([], [])
      else Query([LP, Word(pk), Member(positive), LP, Quest, RP, RP], [Many(Values(keys))]))
    case Phrase(t, comparison, column, args) => (
      if positive then Query([LP] + t + [RP], args)
      else if comparison then Query([NOT, LP] + t + [RP], args)
      else Query([LP, Word(column), NOT_IN, LP, Quest, RP, RP], args))
    case Pairs(ps) => JoinQueries(PairQueries(ps, positive), AND)
    case Ident(ks) => JoinQueries(KeyQueries(ks), AND)
    case Given(q) => q
  }

  // ---------------------------------------------------------------- what a condition means

  function PairMeans(p: Pair, positive: bool, row: Record): Truth {
    match p.value
    case Some(a) => row([Word(p.col), Equal(positive)] + InlineArg(a))
    case None => row([Word(p.col), if positive then IS_NULL else IS_NOT_NULL])
  }

  function PairsMean(ps: seq<Pair>, positive: bool, row: Record): seq<Truth> {
    if ps == [] then [] else [PairMeans(ps[0], positive, row)] + PairsMean(ps[1..], positive, row)
  }

  function KeysMean(ks: seq<Key>, row: Record): seq<Truth> {
    if ks == [] then [] else [row([Word(ks[0].col), EQ, Val(ks[0].v)])] + KeysMean(ks[1..], row)
  }

  /** Reference: the truth of a condition for a row. The negative form of a map or struct wants every
      column different, not some column. */
  function Means(c: Clause, positive: bool, pk: int, row: Record): Truth {
    match c
    case Blank => True
    case NumberText(v) => row([Word(pk), Equal(positive), Val(v)])
    case Number(v) => row([Word(pk), Equal(positive), Val(v)])
    case Keys(keys) => row([Word(pk), Member(positive), LP] + InlineArg(Many(Values(keys))) + [RP])
    case Phrase(t, comparison, column, args) => (
      if positive then Eval(Inline(Query(t, args)), row)
      else if comparison then Not(Eval(Inline(Query(t, args)), row))
      else if |args| == 1 then row([Word(column), NOT_IN, LP] + InlineArg(args[0]) + [RP]) else Unknown)
    case Pairs(ps) => AndAll(PairsMean(ps, positive, row))
    case Ident(ks) => AndAll(KeysMean(ks, row))
    case Given(q) => Eval(Inline(q), row)
  }

  /** The conditions that print nothing. */
  predicate Vanishes(c: Clause, positive: bool) {
    match c
    case Blank => true
    case Keys(keys) => !positive && keys == []
    case Pairs(ps) => ps == []
    case Ident(ks) => ks == []
    case Given(q) => Inline(q) == []
    case _ => false
  }

  /** Closed text without a connective outside its parentheses. */
  ghost predicate Closed(t: Text) {
    Balanced(t) && Lacks(t, OR) && Lacks(t, AND)
  }

  ghost predicate PairsOk(ps: seq<Pair>) {
    forall k :: 0 <= k < |ps| && ps[k].value.Some? ==>
      ArgFits(ps[k].value.value) && ArgEmpties(ps[k].value.value) == 0 && Closed(InlineArg(ps[k].value.value))
  }

  /** What the caller answers for: his text has balanced parentheses and as many `?` as arguments. */
  ghost predicate ClauseOk(c: Clause, positive: bool) {
    match c
    case Phrase(t, comparison, _, args) => (
      if positive || comparison then Sound(Query(t, args)) && Balanced(Inline(Query(t, args)))
      else |args| == 1 && ArgFits(args[0]) && ArgEmpties(args[0]) == 0 && Balanced(InlineArg(args[0])))
    case Pairs(ps) => PairsOk(ps)
    case Given(q) => Sound(q) && Balanced(Inline(q))
    case _ => true
  }

  // ---------------------------------------------------------------- predicates

  /** A closed text behind a column and an operator is one predicate. */
  lemma Predicate(w: int, op: Tok, x: Text, row: Record)
    requires op.Word? && Closed(x)
    ensures var t := [Word(w), op] + x; Closed(t) && Eval(t, row) == EvalAnd(t, row) == row(t)
  {
    var t := [Word(w), op] + x;
    assert t[1..] == [op] + x && t[1..][1..] == x;
    assert Depth(t, 0) == Depth(t[1..], 0) == Depth(x, 0);
    assert Find(t, 0, OR) == 1 + Find(t[1..], 0, OR) && Find(t, 0, AND) == 1 + Find(t[1..], 0, AND);
  }

  /** A list in parentheses is closed. */
  lemma ClosedList(x: Text)
    requires Balanced(x)
    ensures Closed([LP] + x + [RP])
  {
    Parenthesised(x, t => Unknown);
  }

  /** A single predicate or condition in parentheses reads as it stands. */
  lemma Bracketed(x: Text, row: Record)
    requires Balanced(x)
    ensures var g := [LP] + x + [RP]; Closed(g) && Eval(g, row) == Eval(x, row)
  {
    Parenthesised(x, row);
  }

  lemma Negated(x: Text, row: Record)
    requires Balanced(x)
    ensures var g := [NOT, LP] + x + [RP]; Closed(g) && Eval(g, row) == Not(Eval(x, row))
  {
    hide Eval;
    var p := [LP] + x + [RP];
    var g := [NOT, LP] + x + [RP];
    assert g[1..] == p && g[0] == NOT;
    Parenthesised(x, row);
    assert Depth(g, 0) == Depth(p, 0);
    assert Find(g, 0, OR) == 1 + Find(p, 0, OR) && Find(g, 0, AND) == 1 + Find(p, 0, AND);
    WithoutConnectives(g, row);
  }

  // ---------------------------------------------------------------- each form says what it means

  /** A condition printed as `t` reads as `v`. */
  ghost predicate Says(t: Text, v: Truth, row: Record) {
    t != [] && Closed(t) && Eval(t, row) == v
  }

  /** "(column op ?)" with its argument in place. */
  lemma InlineComparison(w: int, op: Tok, a: Arg)
    requires op.Word? && ArgFits(a) && ArgEmpties(a) == 0
    ensures var q := Query([Word(w), op, Quest], [a]);
            Sound(q) && Inline(q) == [Word(w), op] + InlineArg(a)
    ensures var q := Query([LP, Word(w), op, Quest, RP], [a]);
            Sound(q) && Inline(q) == [LP] + ([Word(w), op] + InlineArg(a)) + [RP]
    ensures var q := Query([LP, Word(w), op, LP, Quest, RP, RP], [a]);
            Sound(q) && Inline(q) == [LP] + ([Word(w), op] + ([LP] + InlineArg(a) + [RP])) + [RP]
  {
    hide Sound, Inline, InlineArg, ArgFits, ArgEmpties;
    var one, pre := Query([Quest], [a]), Query([Word(w), op], []);
    InlineOne(a);
    CountNone([Word(w), op], Quest);
    InlineText([Word(w), op]);
    InlineConcat(pre, one);
    assert Concat(pre, one) == Query([Word(w), op, Quest], [a]);
    InlineWithin(Concat(pre, one));
    assert Within(Concat(pre, one)) == Query([LP, Word(w), op, Quest, RP], [a]);
    InlineWithin(one);
    assert Within(one) == Query([LP, Quest, RP], [a]);
    InlineConcat(pre, Within(one));
    InlineWithin(Concat(pre, Within(one)));
    assert Within(Concat(pre, Within(one))) == Query([LP, Word(w), op, LP, Quest, RP, RP], [a]);
  }

  lemma NothingClosed()
    ensures Closed([]) && Balanced([]) && Lacks([], OR)
  {
  }

  lemma OneValue(v: int)
    ensures InlineArg(One(Value(v))) == [Val(v)]
  {
  }

  lemma ManyInline(items: seq<Item>)
    ensures InlineArg(Many(items)) == if items == [] then [NULL] else Join(InlineItems(items), COMMA)
  {
  }

  lemma SoundParts(q: Query)
    ensures Sound(q) <==> Fits(q) && Empties(q) == 0
    ensures q.text == [] ==> Inline(q) == []
  {
  }

  lemma ValueClosed(v: int)
    ensures Closed([Val(v)]) && InlineItem(Value(v)) == [Val(v)] && Balanced([])
  {
    SingleClosed(Val(v));
  }

  lemma SingleClosed(x: Tok)
    requires x != LP && x != RP && x != AND && x != OR
    ensures Closed([x])
  {
    var t, e: Text := [x], [];
    assert t[1..] == e;
    assert Depth(e, 0) == 0 && Find(e, 0, OR) == 0 && Find(e, 0, AND) == 0;
  }

  lemma {:induction false} ValuesFit(vs: seq<int>)
    ensures ItemsFit(Values(vs)) && ItemsEmpties(Values(vs)) == 0
    ensures Balanced(Join(InlineItems(Values(vs)), COMMA))
    decreases |vs|
  {
    if vs == [] {
    } else {
      ValuesFit(vs[1..]);
      var items := Values(vs);
      assert items[1..] == Values(vs[1..]) && InlineItem(items[0]) == [Val(vs[0])];
      assert InlineItems(items) == [InlineItem(items[0])] + InlineItems(items[1..]);
      var ts := InlineItems(Values(vs));
      assert ts[1..] == InlineItems(Values(vs[1..])) && ts[0] == [Val(vs[0])];
      ValueClosed(vs[0]);
      if |ts| > 1 {
        var t := Join(ts, COMMA);
        assert t == [Val(vs[0]), COMMA] + Join(ts[1..], COMMA);
        assert t[1..][1..] == Join(ts[1..], COMMA);
      }
    }
  }

  lemma PairSays(p: Pair, positive: bool, row: Record)
    requires PairsOk([p])
    ensures Sound(PairQuery(p, positive))
    ensures Says(Inline(PairQuery(p, positive)), PairMeans(p, positive, row), row)
  {
    hide Sound, Inline, Eval, Balanced, Lacks, ArgFits, ArgEmpties, InlineArg;
    assert p == [p][0];
    match p.value
    case Some(a) =>
      InlineComparison(p.col, Equal(positive), a);
      Predicate(p.col, Equal(positive), InlineArg(a), row);
      Bracketed([Word(p.col), Equal(positive)] + InlineArg(a), row);
    case None =>
      var op := if positive then IS_NULL else IS_NOT_NULL;
      NothingClosed();
      Predicate(p.col, op, [], row);
      assert [Word(p.col), op] + [] == [Word(p.col), op];
      CountNone([LP, Word(p.col), op, RP], Quest);
      InlineText([LP, Word(p.col), op, RP]);
      Bracketed([Word(p.col), op], row);
      assert [LP] + [Word(p.col), op] + [RP] == [LP, Word(p.col), op, RP];
  }

  lemma KeySays(k: Key, row: Record)
    ensures Sound(KeyQuery(k)) && Says(Inline(KeyQuery(k)), row([Word(k.col), EQ, Val(k.v)]), row)
  {
    hide Sound, Inline, Eval;
    InlineComparison(k.col, EQ, One(Value(k.v)));
    ValueClosed(k.v);
    Predicate(k.col, EQ, [Val(k.v)], row);
    assert InlineArg(One(Value(k.v))) == [Val(k.v)];
    assert [Word(k.col), EQ] + [Val(k.v)] == [Word(k.col), EQ, Val(k.v)];
  }

  /** Conditions that say `vs`, one by one. */
  ghost predicate AllSay(qs: seq<Query>, vs: seq<Truth>, row: Record) {
    && |qs| == |vs|
    && forall k :: 0 <= k < |qs| ==> Sound(qs[k]) && Says(Inline(qs[k]), vs[k], row)
  }

  lemma {:induction false} PairsSay(ps: seq<Pair>, positive: bool, row: Record)
    requires PairsOk(ps)
    ensures AllSay(PairQueries(ps, positive), PairsMean(ps, positive, row), row)
    decreases |ps|
  {
    if ps != [] {
      assert PairsOk([ps[0]]) by { assert [ps[0]][0] == ps[0]; }
      assert PairsOk(ps[1..]);
      hide PairsOk, PairMeans, Inline, PairQuery, Says, Sound;
      PairSays(ps[0], positive, row);
      PairsSay(ps[1..], positive, row);
    }
  }

  lemma {:induction false} KeysSay(ks: seq<Key>, row: Record)
    ensures AllSay(KeyQueries(ks), KeysMean(ks, row), row)
    decreases |ks|
  {
    hide Says, Inline, KeyQuery, Sound;
    if ks != [] {
      KeySays(ks[0], row);
      KeysSay(ks[1..], row);
    }
  }

  lemma {:induction false} EvalInlined(qs: seq<Query>, vs: seq<Truth>, row: Record)
    requires AllSay(qs, vs, row)
    ensures EvalAll(InlineAll(qs), row) == vs && Conjuncts(InlineAll(qs))
    ensures forall k :: 0 <= k < |qs| ==> Lacks(InlineAll(qs)[k], AND) && InlineAll(qs)[k] == Inline(qs[k])
    decreases |qs|
  {
    hide Inline, Eval, Sound, Balanced, Lacks;
    if qs != [] {
      assert AllSay(qs[1..], vs[1..], row);
      EvalInlined(qs[1..], vs[1..], row);
      assert Says(Inline(qs[0]), vs[0], row);
    }
  }

  lemma JoinSays(qs: seq<Query>, vs: seq<Truth>, row: Record)
    requires AllSay(qs, vs, row)
    ensures Sound(JoinQueries(qs, AND))
    ensures qs == [] ==> Inline(JoinQueries(qs, AND)) == []
    ensures qs != [] ==> var t := Inline(JoinQueries(qs, AND));
                         Balanced(t) && Lacks(t, OR) && t != [] && Eval(t, row) == AndAll(vs)
  {
    hide Inline, Eval, Sound, Balanced, Lacks, AndAll, EvalAll, JoinQueries;
    InlineJoin(qs, AND);
    EvalInlined(qs, vs, row);
    if qs != [] {
      assert Says(Inline(qs[0]), vs[0], row) && InlineAll(qs)[0] == Inline(qs[0]);
      EvalJoinAnd(InlineAll(qs), row);
    }
  }

  lemma NumberSays(v: int, positive: bool, pk: int, row: Record)
    ensures var q := BuildCondition(NumberText(v), positive, pk);
            && Sound(q) && Inline(q) != [] && Balanced(Inline(q)) && Lacks(Inline(q), OR)
            && Eval(Inline(q), row) == row([Word(pk), Equal(positive), Val(v)])
    ensures var q := BuildCondition(Number(v), positive, pk);
            && Sound(q) && Inline(q) != [] && Balanced(Inline(q)) && Lacks(Inline(q), OR)
            && Eval(Inline(q), row) == row([Word(pk), Equal(positive), Val(v)])
  {
    hide Inline, Eval, Sound, Balanced, Lacks, InlineArg, Count, JoinQueries;
    var x, t := [Word(pk), Equal(positive), Val(v)], [LP, Word(pk), Equal(positive), Val(v), RP];
    OneValue(v);
    InlineComparison(pk, Equal(positive), One(Value(v)));
    CountNone(t, Quest);
    InlineText(t);
    ValueClosed(v);
    assert [Word(pk), Equal(positive)] + [Val(v)] == x && [LP] + x + [RP] == t;
    Predicate(pk, Equal(positive), [Val(v)], row);
    Bracketed(x, row);
  }

  lemma KeysClauseSays(keys: seq<int>, positive: bool, pk: int, row: Record)
    ensures var c := Keys(keys);
            var q := BuildCondition(c, positive, pk);
            && Sound(q) && (Inline(q) == [] <==> Vanishes(c, positive))
            && Balanced(Inline(q)) && Lacks(Inline(q), OR)
            && (!Vanishes(c, positive) ==> Eval(Inline(q), row) == Means(c, positive, pk, row))
  {
    hide Inline, Eval, Sound, Balanced, Lacks, ItemsFit, InlineArg, Join, InlineItems, ItemsEmpties, JoinQueries;
    if !positive && keys == [] {
      InlineText([]);
      NothingClosed();
    } else {
      var a := Many(Values(keys));
      ValuesFit(keys);
      SingleClosed(NULL);
      ManyInline(Values(keys));
      InlineComparison(pk, Member(positive), a);
      ListPredicate(pk, Member(positive), InlineArg(a), row);
    }
  }

  lemma PhraseAsWritten(t: Text, args: seq<Arg>, row: Record)
    requires Sound(Query(t, args)) && Balanced(Inline(Query(t, args)))
    ensures var q := Query([LP] + t + [RP], args);
            && Sound(q) && Inline(q) != [] && Balanced(Inline(q)) && Lacks(Inline(q), OR)
            && Eval(Inline(q), row) == Eval(Inline(Query(t, args)), row)
  {
    hide Inline, Eval, Sound, Balanced, Lacks;
    var q := Query(t, args);
    InlineWithin(q);
    assert [] + args + [] == args && Within(q) == Query([LP] + t + [RP], args);
    Bracketed(Inline(q), row);
  }

  lemma PhraseNegated(t: Text, args: seq<Arg>, row: Record)
    requires Sound(Query(t, args)) && Balanced(Inline(Query(t, args)))
    ensures var q := Query([NOT, LP] + t + [RP], args);
            && Sound(q) && Inline(q) != [] && Balanced(Inline(q)) && Lacks(Inline(q), OR)
            && Eval(Inline(q), row) == Not(Eval(Inline(Query(t, args)), row))
  {
    hide Inline, Eval, Sound, Balanced, Lacks, Count;
    var q, w, n := Query(t, args), Query([LP] + t + [RP], args), Query([NOT], []);
    InlineWithin(q);
    assert [] + args + [] == args && Within(q) == w;
    CountNone([NOT], Quest);
    InlineText([NOT]);
    InlineConcat(n, w);
    assert [NOT] + ([LP] + t + [RP]) == [NOT, LP] + t + [RP] && [] + args == args;
    Negated(Inline(q), row);
    assert [NOT] + ([LP] + Inline(q) + [RP]) == [NOT, LP] + Inline(q) + [RP];
  }

  lemma PhraseExcluded(column: int, a: Arg, row: Record)
    requires ArgFits(a) && ArgEmpties(a) == 0 && Balanced(InlineArg(a))
    ensures var q := Query([LP, Word(column), NOT_IN, LP, Quest, RP, RP], [a]);
            && Sound(q) && Inline(q) != [] && Balanced(Inline(q)) && Lacks(Inline(q), OR)
            && Eval(Inline(q), row) == row([Word(column), NOT_IN, LP] + InlineArg(a) + [RP])
  {
    hide Inline, Eval, Sound, Balanced, Lacks, InlineArg, ArgFits, ArgEmpties;
    InlineComparison(column, NOT_IN, a);
    ListPredicate(column, NOT_IN, InlineArg(a), row);
  }

  /** "(column op (list))". */
  lemma ListPredicate(w: int, op: Tok, x: Text, row: Record)
    requires op.Word? && Balanced(x)
    ensures var g := [LP] + ([Word(w), op] + ([LP] + x + [RP])) + [RP];
            && Balanced(g) && Lacks(g, OR) && Eval(g, row) == row([Word(w), op, LP] + x + [RP])
  {
    hide Eval, Balanced, Lacks;
    var list := [LP] + x + [RP];
    ClosedList(x);
    Predicate(w, op, list, row);
    Bracketed([Word(w), op] + list, row);
    assert [Word(w), op] + list == [Word(w), op, LP] + x + [RP];
  }

  lemma PhraseSays(t: Text, comparison: bool, column: int, args: seq<Arg>, positive: bool, pk: int, row: Record)
    requires ClauseOk(Phrase(t, comparison, column, args), positive)
    ensures var c := Phrase(t, comparison, column, args);
            var q := BuildCondition(c, positive, pk);
            && Sound(q) && Inline(q) != [] && Balanced(Inline(q)) && Lacks(Inline(q), OR)
            && Eval(Inline(q), row) == Means(c, positive, pk, row)
  {
    hide Inline, Eval, Sound, Balanced, Lacks, InlineArg;
    if positive {
      PhraseAsWritten(t, args, row);
    } else if comparison {
      PhraseNegated(t, args, row);
    } else {
      assert args == [args[0]];
      PhraseExcluded(column, args[0], row);
    }
  }

  /** The whole of `BuildCondition`: a condition prints nothing exactly when it vanishes, and what it prints
      means what it should. Only a query can bring an OR of its own to the outside. */
  lemma ClauseSays(c: Clause, positive: bool, pk: int, row: Record)
    requires ClauseOk(c, positive)
    ensures var q := BuildCondition(c, positive, pk);
            && Sound(q) && (Inline(q) == [] <==> Vanishes(c, positive))
            && Balanced(Inline(q)) && (c.Given? || Lacks(Inline(q), OR))
            && (!Vanishes(c, positive) ==> Eval(Inline(q), row) == Means(c, positive, pk, row))
  {
    hide Inline, Eval, Sound, Balanced, Lacks, AndAll, JoinQueries, InlineArg;
    match c
    case Blank =>
      InlineText([]);
      NothingClosed();
    case NumberText(v) => NumberSays(v, positive, pk, row);
    case Number(v) => NumberSays(v, positive, pk, row);
    case Keys(keys) => KeysClauseSays(keys, positive, pk, row);
    case Phrase(t, comparison, column, args) => PhraseSays(t, comparison, column, args, positive, pk, row);
    case Pairs(ps) =>
      PairsSay(ps, positive, row);
      JoinSays(PairQueries(ps, positive), PairsMean(ps, positive, row), row);
      NothingClosed();
    case Ident(ks) =>
      KeysSay(ks, row);
      JoinSays(KeyQueries(ks), KeysMean(ks, row), row);
      NothingClosed();
    case Given(q) =>
  }

}
