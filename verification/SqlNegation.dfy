/** Which conditions the Not list negates. */
module SqlNegation {
  import opened Lists
  import opened SqlText
  import opened SqlBuild
  import opened SqlParse
  import opened SqlClause
  import opened SqlWhere

  /** A column, an operator of the Not list and what it compares with. */
  predicate Negative(t: Text) {
    |t| >= 2 && t[0].Word? && (t[1] == NE || t[1] == NOT_IN || t[1] == IS_NOT_NULL)
  }

  function Affirmed(t: Text): Text
    requires Negative(t)
  {
    t[1 := if t[1] == NE then EQ else if t[1] == NOT_IN then IN else IS_NULL]
  }

  /** The database takes `<>`, NOT IN and IS NOT NULL for the negations of `=`, IN and IS NULL. */
  ghost predicate Complements(row: Record) {
    forall t :: Negative(t) ==> row(t) == Not(row(Affirmed(t)))
  }

  /** What a condition asks of a row: nothing where it prints nothing. */
  function Asks(c: Clause, positive: bool, pk: int, row: Record): Truth {
    if Vanishes(c, positive) then True else Means(c, positive, pk, row)
  }

  /** Listed as a Not the condition asks for the opposite of what it asks for as a Where. */
  ghost predicate Negated(c: Clause, pk: int) {
    forall row: Record :: Complements(row) ==> Asks(c, false, pk, row) == Not(Asks(c, true, pk, row))
  }

  /** A caller can tell by the form of the condition. */
  predicate Negatable(c: Clause) {
    match c
    case NumberText(_) => true
    case Number(_) => true
    case Keys(keys) => keys != []
    case Phrase(_, comparison, _, _) => comparison
    case Pairs(ps) => |ps| == 1
    case _ => false
  }

  /** What the types of the source ensure: the columns of a map or struct are different, and text with an IN
      of its own is taken for a comparison. */
  ghost predicate Typed(c: Clause) {
    match c
    case Phrase(t, comparison, _, _) => comparison || (Count(t, IN) == 0 && Count(t, NOT_IN) == 0)
    case Pairs(ps) => forall i, j :: 0 <= i < j < |ps| ==> ps[i].col != ps[j].col
    case _ => true
  }

  // ---------------------------------------------------------------- the forms that are negated

  lemma AffirmedPredicate(w: int, positive: Tok, negative: Tok, x: Text, row: Record)
    requires Complements(row)
    requires (negative == NE && positive == EQ) || (negative == NOT_IN && positive == IN) ||
             (negative == IS_NOT_NULL && positive == IS_NULL)
    ensures row([Word(w), negative] + x) == Not(row([Word(w), positive] + x))
  {
    var t := [Word(w), negative] + x;
    assert Negative(t) && Affirmed(t) == [Word(w), positive] + x;
  }

  lemma NumberNegated(v: int, pk: int, row: Record)
    requires Complements(row)
    ensures row([Word(pk), NE, Val(v)]) == Not(row([Word(pk), EQ, Val(v)]))
  {
    AffirmedPredicate(pk, EQ, NE, [Val(v)], row);
    assert [Word(pk), NE] + [Val(v)] == [Word(pk), NE, Val(v)] && [Word(pk), EQ] + [Val(v)] == [Word(pk), EQ, Val(v)];
  }

  lemma ListNegated(w: int, x: Text, row: Record)
    requires Complements(row)
    ensures row([Word(w), NOT_IN, LP] + x + [RP]) == Not(row([Word(w), IN, LP] + x + [RP]))
  {
    var list := [LP] + x + [RP];
    AffirmedPredicate(w, IN, NOT_IN, list, row);
    assert [Word(w), NOT_IN] + list == [Word(w), NOT_IN, LP] + x + [RP] && [Word(w), IN] + list == [Word(w), IN, LP] + x + [RP];
  }

  lemma PairNegated(p: Pair, row: Record)
    requires Complements(row)
    ensures PairMeans(p, false, row) == Not(PairMeans(p, true, row))
  {
    match p.value
    case Some(a) => AffirmedPredicate(p.col, EQ, NE, InlineArg(a), row);
    case None =>
      AffirmedPredicate(p.col, IS_NULL, IS_NOT_NULL, [], row);
      assert [Word(p.col), IS_NULL] + [] == [Word(p.col), IS_NULL];
      assert [Word(p.col), IS_NOT_NULL] + [] == [Word(p.col), IS_NOT_NULL];
  }

  lemma AndOne(v: Truth)
    ensures AndAll([v]) == v
  {
    assert [v][1..] == [] && AndAll([v][1..]) == True;
    assert AndAll([v]) == And(v, True);
  }

  function NotAll(vs: seq<Truth>): seq<Truth> {
    if vs == [] then [] else [Not(vs[0])] + NotAll(vs[1..])
  }

  /** A map or struct in the Not list wants every entry to fail, where its negation wants some entry to. */
  lemma {:induction false} PairsExclude(ps: seq<Pair>, row: Record)
    requires Complements(row)
    ensures PairsMean(ps, false, row) == NotAll(PairsMean(ps, true, row))
    decreases |ps|
  {
    hide Complements, PairMeans;
    if ps != [] {
      PairNegated(ps[0], row);
      PairsExclude(ps[1..], row);
    }
  }

  lemma FormNegated(c: Clause, pk: int, row: Record)
    requires Negatable(c) && Complements(row)
    ensures Asks(c, false, pk, row) == Not(Asks(c, true, pk, row))
  {
    hide Complements, PairMeans, Inline, InlineArg, Eval;
    match c
    case NumberText(v) => NumberNegated(v, pk, row);
    case Number(v) => NumberNegated(v, pk, row);
    case Keys(keys) => ListNegated(pk, InlineArg(Many(Values(keys))), row);
    case Phrase(_, _, _, _) =>
    case Pairs(ps) =>
      assert ps == [ps[0]];
      PairNegated(ps[0], row);
      OnePair(ps[0], true, row);
      OnePair(ps[0], false, row);
  }

  lemma OnePair(p: Pair, positive: bool, row: Record)
    ensures AndAll(PairsMean([p], positive, row)) == PairMeans(p, positive, row)
  {
    hide PairMeans;
    var v := PairMeans(p, positive, row);
    assert [p][1..] == [] && PairsMean([p][1..], positive, row) == [];
    assert PairsMean([p], positive, row) == [v];
    AndOne(v);
  }

  // ---------------------------------------------------------------- the forms that are not

  ghost predicate Definite(row: Record) {
    forall t :: row(t) != Unknown
  }

  lemma {:induction false} EvalDefinite(t: Text, row: Record)
    requires Definite(row)
    ensures Eval(t, row) != Unknown
    decreases |t|, 2
  {
    var i := Find(t, 0, OR);
    if i < |t| {
      EvalAndDefinite(t[..i], row);
      EvalDefinite(t[i + 1..], row);
    } else {
      EvalAndDefinite(t, row);
    }
  }

  lemma {:induction false} EvalAndDefinite(t: Text, row: Record)
    requires Definite(row)
    ensures EvalAnd(t, row) != Unknown
    decreases |t|, 1
  {
    var i := Find(t, 0, AND);
    if i < |t| {
      EvalNotDefinite(t[..i], row);
      EvalAndDefinite(t[i + 1..], row);
    } else {
      EvalNotDefinite(t, row);
    }
  }

  lemma {:induction false} EvalNotDefinite(t: Text, row: Record)
    requires Definite(row)
    ensures EvalNot(t, row) != Unknown
    decreases |t|, 0
  {
    if t != [] && t[0] == NOT {
      EvalNotDefinite(t[1..], row);
    } else if Grouped(t) {
      EvalDefinite(t[1..|t| - 1], row);
    }
  }

  /** A row that decides every predicate, for `p` and its negation as told. */
  function Row(p: Text, v: bool): Record {
    t => if Negative(t) then (if Affirmed(t) == p && !v then True else False)
         else if t == p && !v then False else True
  }

  lemma RowDecides(p: Text, v: bool)
    requires !Negative(p)
    ensures Complements(Row(p, v)) && Definite(Row(p, v))
  {
    forall t | Negative(t) ensures !Negative(Affirmed(t)) {
    }
  }

  lemma {:induction false} KeysDefinite(ks: seq<Key>, row: Record)
    requires Definite(row)
    ensures AndAll(KeysMean(ks, row)) != Unknown
    decreases |ks|
  {
    if ks != [] {
      KeysDefinite(ks[1..], row);
      assert KeysMean(ks, row)[1..] == KeysMean(ks[1..], row);
    }
  }

  /** Blank conditions, IDs and queries ask for the same in both lists. */
  lemma SameInBothLists(c: Clause, pk: int)
    requires c.Blank? || c.Ident? || c.Given?
    ensures !Negated(c, pk)
  {
    hide KeysMean, AndAll, Eval, Inline;
    var row := Row([], true);
    RowDecides([], true);
    match c
    case Blank =>
    case Ident(ks) => KeysDefinite(ks, row);
    case Given(q) => EvalDefinite(Inline(q), row);
    assert Asks(c, true, pk, row) != Unknown && Asks(c, false, pk, row) == Asks(c, true, pk, row);
  }

  lemma NoKeys(pk: int)
    ensures !Negated(Keys([]), pk)
  {
    var p := [Word(pk), IN, LP] + InlineArg(Many(Values([]))) + [RP];
    assert !Negative(p);
    RowDecides(p, true);
    assert Row(p, true)(p) == True;
    assert Asks(Keys([]), true, pk, Row(p, true)) == True;
  }

  function PairText(p: Pair): Text {
    match p.value
    case Some(a) => [Word(p.col), EQ] + InlineArg(a)
    case None => [Word(p.col), IS_NULL]
  }

  /** A row in which one of two entries holds passes neither the map nor its Not. */
  lemma ManyPairs(ps: seq<Pair>, pk: int)
    requires |ps| >= 2 && Typed(Pairs(ps))
    ensures |ps| != 0 && !Negated(Pairs(ps), pk)
  {
    var p := PairText(ps[0]);
    assert !Negative(p);
    var row := Row(p, false);
    RowDecides(p, false);
    assert PairMeans(ps[0], true, row) == False;
    PairNegated(ps[1], row);
    assert PairText(ps[1])[0] == Word(ps[1].col) && p[0] == Word(ps[0].col);
    assert PairMeans(ps[1], true, row) == True by { assert !Negative(PairText(ps[1])); }
    hide PairMeans, Complements;
    AndFalse(PairsMean(ps, true, row), 0);
    assert PairsMean(ps[1..], false, row)[0] == PairMeans(ps[1], false, row);
    assert PairsMean(ps, false, row)[1] == PairsMean(ps[1..], false, row)[0];
    AndFalse(PairsMean(ps, false, row), 1);
  }

  lemma {:induction false} AndFalse(vs: seq<Truth>, k: nat)
    requires k < |vs| && vs[k] == False
    ensures AndAll(vs) == False
    decreases k
  {
    if k > 0 { AndFalse(vs[1..], k - 1); }
  }

  // ---------------------------------------------------------------- a column name in the Not list

  lemma {:induction false} CountSlice(t: Text, i: nat, j: nat, x: Tok)
    requires i <= j <= |t|
    ensures Count(t[i..j], x) <= Count(t, x)
  {
    assert t == t[..i] + t[i..j] + t[j..];
    CountConcat(t[..i] + t[i..j], t[j..], x);
    CountConcat(t[..i], t[i..j], x);
  }

  /** Two rows decide alike what has no more than `k` IN and `m` NOT IN. */
  ghost predicate Agree(r: Record, s: Record, k: nat, m: nat) {
    forall t :: Count(t, IN) <= k && Count(t, NOT_IN) <= m ==> r(t) == s(t)
  }

  predicate Few(t: Text, k: nat, m: nat) {
    Count(t, IN) <= k && Count(t, NOT_IN) <= m
  }

  lemma FewSlice(t: Text, i: nat, j: nat, k: nat, m: nat)
    requires i <= j <= |t| && Few(t, k, m)
    ensures Few(t[i..j], k, m)
  {
    CountSlice(t, i, j, IN);
    CountSlice(t, i, j, NOT_IN);
  }

  lemma {:induction false} EvalAgrees(t: Text, r: Record, s: Record, k: nat, m: nat)
    requires Agree(r, s, k, m) && Few(t, k, m)
    ensures Eval(t, r) == Eval(t, s)
    decreases |t|, 2
  {
    hide Few, Find, Agree;
    var i := Find(t, 0, OR);
    if i < |t| {
      FewSlice(t, 0, i, k, m);
      FewSlice(t, i + 1, |t|, k, m);
      assert t[i + 1..|t|] == t[i + 1..];
      EvalAndAgrees(t[..i], r, s, k, m);
      EvalAgrees(t[i + 1..], r, s, k, m);
    } else {
      EvalAndAgrees(t, r, s, k, m);
    }
  }

  lemma {:induction false} EvalAndAgrees(t: Text, r: Record, s: Record, k: nat, m: nat)
    requires Agree(r, s, k, m) && Few(t, k, m)
    ensures EvalAnd(t, r) == EvalAnd(t, s)
    decreases |t|, 1
  {
    hide Few, Find, Agree;
    var i := Find(t, 0, AND);
    if i < |t| {
      FewSlice(t, 0, i, k, m);
      FewSlice(t, i + 1, |t|, k, m);
      assert t[i + 1..|t|] == t[i + 1..];
      EvalNotAgrees(t[..i], r, s, k, m);
      EvalAndAgrees(t[i + 1..], r, s, k, m);
    } else {
      EvalNotAgrees(t, r, s, k, m);
    }
  }

  lemma {:induction false} EvalNotAgrees(t: Text, r: Record, s: Record, k: nat, m: nat)
    requires Agree(r, s, k, m) && Few(t, k, m)
    ensures EvalNot(t, r) == EvalNot(t, s)
    decreases |t|, 0
  {
    hide Find;
    if t != [] && t[0] == NOT {
      FewSlice(t, 1, |t|, k, m);
      assert t[1..|t|] == t[1..];
      EvalNotAgrees(t[1..], r, s, k, m);
    } else if Grouped(t) {
      FewSlice(t, 1, |t| - 1, k, m);
      EvalAgrees(t[1..|t| - 1], r, s, k, m);
    }
  }

  /** Replacements are used once each. */
  lemma {:induction false} CountSubstitute(t: Text, reps: seq<Text>, x: Tok)
    requires x != Quest
    ensures Count(Substitute(t, reps), x) <= Count(t, x) + CountAll(reps, x)
    decreases |t|
  {
    if t != [] {
      if t[0] == Quest && reps != [] {
        CountConcat(reps[0], Substitute(t[1..], reps[1..]), x);
        CountSubstitute(t[1..], reps[1..], x);
      } else {
        CountSubstitute(t[1..], reps, x);
      }
    }
  }

  /** The text of one argument in its place, or of none if there is no place for it. */
  lemma CountInline(t: Text, a: Arg, x: Tok)
    requires x != Quest
    ensures Count(Inline(Query(t, [a])), x) <= Count(t, x) + Count(InlineArg(a), x)
  {
    hide InlineArg, Count, Substitute;
    CountSubstitute(t, [InlineArg(a)], x);
    assert InlineArgs([a]) == [InlineArg(a)] by { assert [a][1..] == []; }
    assert CountAll([InlineArg(a)], x) == Count(InlineArg(a), x) by { assert [InlineArg(a)][1..] == []; }
  }

  lemma CountList(w: int, op: Tok, x: Text, y: Tok)
    requires op == IN || op == NOT_IN
    requires y == IN || y == NOT_IN
    ensures Count([Word(w), op, LP] + x + [RP], y) >= Count(x, y) + (if op == y then 1 else 0)
  {
    var pre: Text := [Word(w), op, LP];
    CountConcat(pre + x, [RP], y);
    CountConcat(pre, x, y);
    assert pre[1..] == [op, LP] && [op, LP][1..] == [LP];
  }

  /** The two rows that differ in "column IN (x)" alone decide a text alike that has no IN besides x. */
  lemma RowsAgree(w: int, x: Text)
    ensures var p := [Word(w), IN, LP] + x + [RP];
            !Negative(p) && Agree(Row(p, true), Row(p, false), Count(x, IN), Count(x, NOT_IN))
  {
    var p, q := [Word(w), IN, LP] + x + [RP], [Word(w), NOT_IN, LP] + x + [RP];
    CountList(w, IN, x, IN);
    CountList(w, NOT_IN, x, NOT_IN);
    assert !Negative(p);
    forall t | Count(t, IN) <= Count(x, IN) && Count(t, NOT_IN) <= Count(x, NOT_IN)
      ensures Row(p, true)(t) == Row(p, false)(t)
    {
      assert t != p && t != q;
      hide Count;
      if Negative(t) { OnlyNegation(w, x, t); }
    }
  }

  lemma OnlyNegation(w: int, x: Text, t: Text)
    requires Negative(t)
    ensures Affirmed(t) == [Word(w), IN, LP] + x + [RP] ==> t == [Word(w), NOT_IN, LP] + x + [RP]
  {
    if Affirmed(t) == [Word(w), IN, LP] + x + [RP] {
      assert Affirmed(t)[1] == IN;
      assert t[1] == NOT_IN && t == Affirmed(t)[1 := NOT_IN];
      assert [Word(w), NOT_IN, LP] + x + [RP] == ([Word(w), IN, LP] + x + [RP])[1 := NOT_IN];
    }
  }

  lemma NameAsks(t: Text, column: int, a: Arg, pk: int, row: Record)
    ensures var c := Phrase(t, false, column, [a]);
            && Asks(c, true, pk, row) == Eval(Inline(Query(t, [a])), row)
            && Asks(c, false, pk, row) == row([Word(column), NOT_IN, LP] + InlineArg(a) + [RP])
  {
    hide Inline, InlineArg, Eval;
  }

  lemma NameDecided(w: int, x: Text)
    ensures var p, q := [Word(w), IN, LP] + x + [RP], [Word(w), NOT_IN, LP] + x + [RP];
            Row(p, true)(q) == False && Row(p, false)(q) == True
  {
    var p, q := [Word(w), IN, LP] + x + [RP], [Word(w), NOT_IN, LP] + x + [RP];
    assert Negative(q) && Affirmed(q) == p;
  }

  lemma NotNegated(c: Clause, pk: int, r: Record, s: Record)
    requires Complements(r) && Complements(s)
    requires Asks(c, true, pk, r) == Asks(c, true, pk, s) && Asks(c, false, pk, r) != Asks(c, false, pk, s)
    ensures !Negated(c, pk)
  {
    hide Asks, Complements;
  }

  lemma NameNotNegated(t: Text, column: int, a: Arg, pk: int)
    requires Typed(Phrase(t, false, column, [a]))
    ensures !Negated(Phrase(t, false, column, [a]), pk)
  {
    var c, x, u := Phrase(t, false, column, [a]), InlineArg(a), Inline(Query(t, [a]));
    var p := [Word(column), IN, LP] + x + [RP];
    assert Count(t, IN) == 0 && Count(t, NOT_IN) == 0;
    hide *;
    CountInline(t, a, IN);
    CountInline(t, a, NOT_IN);
    RowsAgree(column, x);
    NameFew(u, Count(x, IN), Count(x, NOT_IN));
    var r, s := Row(p, true), Row(p, false);
    RowDecides(p, true);
    RowDecides(p, false);
    EvalAgrees(u, r, s, Count(x, IN), Count(x, NOT_IN));
    NameAsks(t, column, a, pk, r);
    NameAsks(t, column, a, pk, s);
    NameDecided(column, x);
    NotNegated(c, pk, r, s);
  }

  lemma NameFew(t: Text, k: nat, m: nat)
    requires Count(t, IN) <= k && Count(t, NOT_IN) <= m
    ensures Few(t, k, m)
  {
  }

  /** Exactly numbers, lists of keys, comparisons and maps or structs with one entry are negated by the Not
      list. Only the condition as a Not has to be well formed: a column name has no place for its argument as
      a Where. */
  lemma NegatedExactly(c: Clause, pk: int)
    requires ClauseOk(c, false) && Typed(c)
    ensures Negated(c, pk) <==> Negatable(c)
  {
    hide ClauseOk, Typed;
    if Negatable(c) {
      forall row: Record | Complements(row) ensures Asks(c, false, pk, row) == Not(Asks(c, true, pk, row)) {
        FormNegated(c, pk, row);
      }
    } else {
      match c
      case Blank => SameInBothLists(c, pk);
      case Ident(_) => SameInBothLists(c, pk);
      case Given(_) => SameInBothLists(c, pk);
      case Keys(_) => NoKeys(pk);
      case Phrase(t, _, column, args) =>
        OneArgument(c);
        assert Typed(Phrase(t, false, column, args)) by { NameTyped(c); }
        NameNotNegated(t, column, args[0], pk);
      case Pairs(ps) => if ps == [] { NoPairs(pk); } else { ManyPairs(ps, pk); }
    }
  }

  lemma NameTyped(c: Clause)
    requires Typed(c) && c.Phrase? && !c.comparison
    ensures Typed(Phrase(c.text, false, c.column, c.args))
  {
  }

  lemma OneArgument(c: Clause)
    requires ClauseOk(c, false) && c.Phrase? && !c.comparison
    ensures |c.args| == 1 && c.args == [c.args[0]]
  {
  }

  lemma NoPairs(pk: int)
    ensures !Negated(Pairs([]), pk)
  {
    RowDecides([], true);
    assert Asks(Pairs([]), true, pk, Row([], true)) == True;
  }

  // ---------------------------------------------------------------- what passes a single Not

  function OnlyWhere(c: Clause): Search { Search(None, [], [c], [], []) }
  function OnlyNot(c: Clause): Search { Search(None, [], [], [], [c]) }

  /** A single condition lets through what it asks for, a query with an OR of its own included. */
  lemma AlonePasses(c: Clause, pk: int, row: Record)
    ensures ClauseOk(c, true) ==> (Passes(Reference(OnlyWhere(c), pk), row) <==> Asks(c, true, pk, row).True?)
    ensures ClauseOk(c, false) ==> (Passes(Reference(OnlyNot(c), pk), row) <==> Asks(c, false, pk, row).True?)
  {
    hide Inline, Eval, Means, ClauseOk, Vanishes, Reference, SearchOk;
    assert [c][1..] == [];
    AloneOk(c);
    if ClauseOk(c, true) {
      ReferenceSays(OnlyWhere(c), pk, row);
      AloneExpected(MeansOne(c, true, pk, row), c, true, pk, row);
      assert MeansAll([c], true, pk, row) == MeansOne(c, true, pk, row);
    }
    if ClauseOk(c, false) {
      ReferenceSays(OnlyNot(c), pk, row);
      AloneExpected(MeansOne(c, false, pk, row), c, false, pk, row);
      assert MeansAll([c], false, pk, row) == MeansOne(c, false, pk, row);
    }
  }

  lemma AloneOk(c: Clause)
    ensures ClauseOk(c, true) ==> SearchOk(OnlyWhere(c))
    ensures ClauseOk(c, false) ==> SearchOk(OnlyNot(c))
  {
    hide ClauseOk, Vanishes, Inline, Lacks;
    assert [c][1..] == [];
    assert Speaking([], true) == 0 && Speaking([], false) == 0 && Speaking([c], true) <= 1 && Speaking([c], false) <= 1;
  }

  lemma AloneExpected(vs: seq<Truth>, c: Clause, positive: bool, pk: int, row: Record)
    requires vs == MeansOne(c, positive, pk, row)
    ensures And(AndAll([]), Either(vs, [])).True? <==> Asks(c, positive, pk, row).True?
    ensures And(AndAll([]), Either(vs + [], [])).True? <==> Asks(c, positive, pk, row).True?
    ensures And(AndAll([]), Either([] + vs, [])).True? <==> Asks(c, positive, pk, row).True?
  {
    hide Means, Vanishes;
    assert vs + [] == vs && [] + vs == vs;
    if vs != [] { assert vs[1..] == []; }
  }

  lemma AsksId(k: Key, pk: int, row: Record)
    ensures Asks(Ident([k]), false, pk, row) == row([Word(k.col), EQ, Val(k.v)])
  {
    var v := row([Word(k.col), EQ, Val(k.v)]);
    assert [k][1..] == [];
    AndOne(v);
    assert KeysMean([k], row) == [v];
  }

  /** `Not(id)` selects the record with that ID. */
  lemma NotSelectsId(k: Key, pk: int, row: Record)
    requires row([Word(k.col), EQ, Val(k.v)]) == True
    ensures Passes(Reference(OnlyNot(Ident([k])), pk), row)
  {
    hide Asks, Passes, Reference, OnlyNot, OnlyWhere;
    AlonePasses(Ident([k]), pk, row);
    AsksId(k, pk, row);
  }

  function Two(a: Key, b: Key): seq<Pair> {
    [Pair(a.col, Some(One(Value(a.v)))), Pair(b.col, Some(One(Value(b.v))))]
  }

  lemma TwoAsk(a: Key, b: Key, positive: bool, pk: int, row: Record)
    ensures var v, w := row([Word(a.col), Equal(positive), Val(a.v)]), row([Word(b.col), Equal(positive), Val(b.v)]);
            Asks(Pairs(Two(a, b)), positive, pk, row) == And(v, w)
  {
    var ps, op := Two(a, b), Equal(positive);
    OneValue(a.v);
    OneValue(b.v);
    var v, w := row([Word(a.col), op, Val(a.v)]), row([Word(b.col), op, Val(b.v)]);
    assert ps[1..] == [ps[1]] && ps[1..][1..] == [];
    assert [Word(a.col), op] + [Val(a.v)] == [Word(a.col), op, Val(a.v)];
    assert [Word(b.col), op] + [Val(b.v)] == [Word(b.col), op, Val(b.v)];
    assert PairMeans(ps[0], positive, row) == v && PairMeans(ps[1], positive, row) == w;
    hide PairMeans;
    assert PairsMean(ps[1..], positive, row) == [w];
    assert PairsMean(ps, positive, row) == [v, w];
    AndOne(w);
    assert [v, w][1..] == [w] && AndAll([v, w]) == And(v, w);
  }

  lemma TwoOk(a: Key, b: Key)
    ensures ClauseOk(Pairs(Two(a, b)), true) && ClauseOk(Pairs(Two(a, b)), false)
  {
    ValueClosed(a.v);
    ValueClosed(b.v);
    OneValue(a.v);
    OneValue(b.v);
    assert ArgFits(One(Value(a.v))) && ArgFits(One(Value(b.v)));
    assert ArgEmpties(One(Value(a.v))) == 0 && ArgEmpties(One(Value(b.v))) == 0;
  }

  /** A row that has one of two values passes neither the map nor its Not. */
  lemma NotMissesRow(a: Key, b: Key, pk: int, row: Record)
    requires Complements(row) && row([Word(a.col), EQ, Val(a.v)]) == True && row([Word(b.col), EQ, Val(b.v)]) == False
    ensures var c := Pairs(Two(a, b)); !Passes(Reference(OnlyWhere(c), pk), row) && !Passes(Reference(OnlyNot(c), pk), row)
  {
    var c := Pairs(Two(a, b));
    hide *;
    TwoOk(a, b);
    AlonePasses(c, pk, row);
    NumberNegated(a.v, a.col, row);
    NumberNegated(b.v, b.col, row);
    TwoAsk(a, b, true, pk, row);
    TwoAsk(a, b, false, pk, row);
    TwoOperators();
    AndOnce();
  }

  lemma TwoOperators()
    ensures Equal(true) == EQ && Equal(false) == NE
  {
  }

  lemma AndOnce()
    ensures And(True, False) == False && And(Not(True), Not(False)) == False
  {
  }
}
