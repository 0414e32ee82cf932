/** A query passed as a Where beside another condition: it is printed without parentheses. */
module SqlLoose {
  import opened Lists
  import opened SqlText
  import opened SqlBuild
  import opened SqlParse
  import opened SqlClause
  import opened SqlWhere

  function Both(c: Clause, d: Clause): Search {
    Search(None, [], [c, d], [], [])
  }

  /** Beside any other condition, in front of it or behind it, the query is a condition of its own. */
  ghost predicate Stands(q: Query, pk: int) {
    forall c: Clause, row: Record :: ClauseOk(c, true) && !Vanishes(c, true) && !c.Given? ==> StandsWith(q, c, pk, row)
  }

  ghost predicate StandsWith(q: Query, c: Clause, pk: int, row: Record) {
    var v := Eval(Inline(q), row).True? && Means(c, true, pk, row).True?;
    (Passes(Reference(Both(Given(q), c), pk), row) <==> v) && (Passes(Reference(Both(c, Given(q)), pk), row) <==> v)
  }

  // ---------------------------------------------------------------- without an OR of its own

  lemma BothExpected(c: Clause, d: Clause, pk: int, row: Record)
    requires !Vanishes(c, true) && !Vanishes(d, true)
    ensures Expected(Both(c, d), pk, row).True? <==> Means(c, true, pk, row).True? && Means(d, true, pk, row).True?
  {
    hide Means, Vanishes;
    var v, w := Means(c, true, pk, row), Means(d, true, pk, row);
    assert [c, d][1..] == [d] && [d][1..] == [];
    assert MeansAll([d], true, pk, row) == [w] && MeansAll([c, d], true, pk, row) == [v, w];
    assert [v, w] + [] == [v, w] && [v, w][1..] == [w] && [w][1..] == [];
    assert AndAll([w]) == And(w, True) && AndAll([v, w]) == And(v, AndAll([w]));
  }

  lemma TightOk(q: Query, c: Clause)
    requires Sound(q) && Balanced(Inline(q)) && Lacks(Inline(q), OR) && ClauseOk(c, true) && !c.Given?
    ensures SearchOk(Both(Given(q), c)) && SearchOk(Both(c, Given(q)))
  {
    hide Sound, Inline, Balanced, Lacks, Vanishes;
  }

  lemma TightStands(q: Query, c: Clause, pk: int, row: Record)
    requires Sound(q) && Balanced(Inline(q)) && Inline(q) != [] && Lacks(Inline(q), OR)
    requires ClauseOk(c, true) && !Vanishes(c, true) && !c.Given?
    ensures StandsWith(q, c, pk, row)
  {
    assert !Vanishes(Given(q), true) && Means(Given(q), true, pk, row) == Eval(Inline(q), row);
    hide Sound, Inline, Eval, Balanced, Lacks, ClauseOk, Means, Vanishes, Reference, SearchOk, Expected;
    TightOk(q, c);
    ReferenceSays(Both(Given(q), c), pk, row);
    ReferenceSays(Both(c, Given(q)), pk, row);
    BothExpected(Given(q), c, pk, row);
    BothExpected(c, Given(q), pk, row);
  }

  // ---------------------------------------------------------------- with an OR of its own

  lemma SingleWord(w: int, row: Record)
    ensures Closed([Word(w)]) && Eval([Word(w)], row) == row([Word(w)])
  {
    var t: Text := [Word(w)];
    SingleClosed(Word(w));
    assert Eval(t, row) == EvalAnd(t, row) == EvalNot(t, row) == row(t);
  }

  /** The rows agree on every text without the word. */
  ghost predicate AgreeWithout(r: Record, s: Record, w: int) {
    forall t :: Word(w) !in t ==> r(t) == s(t)
  }

  lemma {:induction false} EvalWithout(t: Text, r: Record, s: Record, w: int)
    requires AgreeWithout(r, s, w) && Word(w) !in t
    ensures Eval(t, r) == Eval(t, s)
    decreases |t|, 2
  {
    hide Find, AgreeWithout;
    var i := Find(t, 0, OR);
    if i < |t| {
      EvalAndWithout(t[..i], r, s, w);
      EvalWithout(t[i + 1..], r, s, w);
    } else {
      EvalAndWithout(t, r, s, w);
    }
  }

  lemma {:induction false} EvalAndWithout(t: Text, r: Record, s: Record, w: int)
    requires AgreeWithout(r, s, w) && Word(w) !in t
    ensures EvalAnd(t, r) == EvalAnd(t, s)
    decreases |t|, 1
  {
    hide Find, AgreeWithout;
    var i := Find(t, 0, AND);
    if i < |t| {
      EvalNotWithout(t[..i], r, s, w);
      EvalAndWithout(t[i + 1..], r, s, w);
    } else {
      EvalNotWithout(t, r, s, w);
    }
  }

  lemma {:induction false} EvalNotWithout(t: Text, r: Record, s: Record, w: int)
    requires AgreeWithout(r, s, w) && Word(w) !in t
    ensures EvalNot(t, r) == EvalNot(t, s)
    decreases |t|, 0
  {
    hide Find;
    if t != [] && t[0] == NOT {
      EvalNotWithout(t[1..], r, s, w);
    } else if Grouped(t) {
      EvalWithout(t[1..|t| - 1], r, s, w);
    }
  }

  /** A word that does not occur in the text. */
  function NewWord(t: Text): (w: int)
    ensures forall k :: 0 <= k < |t| && t[k].Word? ==> t[k].w < w
  {
    if t == [] then 0
    else
      var w := NewWord(t[1..]);
      assert forall k :: 1 <= k < |t| ==> t[k] == t[1..][k - 1];
      if t[0].Word? && t[0].w >= w then t[0].w + 1 else w
  }

  /** The row without the word. */
  function Denied(row: Record, w: int): Record {
    t => if t == [Word(w)] then False else row(t)
  }

  /** A condition of one word. */
  function OneWord(w: int): Clause {
    Phrase([Word(w)], true, 0, [])
  }

  lemma OneWordOk(w: int, pk: int, row: Record)
    ensures ClauseOk(OneWord(w), true) && !Vanishes(OneWord(w), true)
    ensures Means(OneWord(w), true, pk, row) == row([Word(w)])
    ensures PrintedOne(OneWord(w), true, pk) == [[LP] + [Word(w)] + [RP]]
  {
    hide Inline, Eval, Sound, Count;
    var t, g := [Word(w)], [LP, Word(w), RP];
    CountNone(t, Quest);
    CountNone(g, Quest);
    InlineText(t);
    InlineText(g);
    SingleWord(w, row);
    assert [LP] + [Word(w)] + [RP] == g;
  }

  lemma GivenPrints(q: Query, pk: int)
    requires Inline(q) != []
    ensures PrintedOne(Given(q), true, pk) == [Inline(q)]
  {
    hide Inline;
  }

  lemma BothPrinted(c: Clause, d: Clause, t: Text, u: Text, pk: int)
    requires PrintedOne(c, true, pk) == [t] && PrintedOne(d, true, pk) == [u] && t != []
    ensures Reference(Both(c, d), pk) == t + [AND] + u
  {
    hide Assemble, Printed, PrintedOne;
    var s := Both(c, d);
    PrintedStep(s.wheres, true, pk);
    assert s.wheres[1..] == [d] && [d][1..] == [];
    PrintedStep([d], true, pk);
    NothingPrinted(true, pk, 0, Dollar);
    NothingPrinted(false, pk, 0, Dollar);
    BothJoined(t, u);
    assert [t] + ([u] + []) + [] == [t, u] && DeletedAt(s) + PrintedKeys(s.primary) == [];
  }

  lemma BothJoined(a: Text, b: Text)
    requires a != []
    ensures Assemble([], [a, b], []) == a + [AND] + b
  {
    assert [a, b][1..] == [b];
    assert Join([a, b], AND) == a + [AND] + b && Join([], OR) == [];
  }

  /** The part in front of an OR lets a row through whatever is joined behind. */
  lemma FrontTakesIn(a: Text, b: Text, g: Text, row: Record)
    requires Balanced(a) && Balanced(b) && Balanced(g) && Eval(a, row).True?
    ensures Eval(a + [OR] + b + [AND] + g, row).True?
  {
    hide Eval, EvalAnd, Balanced, Lacks;
    EvalConjunction(b, g, row);
    EvalDisjunction(a, b + [AND] + g, row);
    assert a + [OR] + b + [AND] + g == a + [OR] + (b + [AND] + g);
  }

  /** The part behind it lets a row through whatever is joined in front. */
  lemma BackTakesIn(a: Text, b: Text, g: Text, row: Record)
    requires Balanced(a) && Balanced(b) && Balanced(g) && Eval(b, row).True?
    ensures Eval(g + [AND] + (a + [OR] + b), row).True?
  {
    hide Eval, EvalAnd, Balanced, Lacks;
    EvalConjunction(g, a, row);
    EvalDisjunction(g + [AND] + a, b, row);
    assert g + [AND] + (a + [OR] + b) == (g + [AND] + a) + [OR] + b;
  }

  /** So an OR of `t` takes in what is joined to it, on one side or the other. */
  lemma OrTakesIn(t: Text, g: Text, row: Record)
    requires Balanced(t) && Balanced(g) && !Lacks(t, OR) && Eval(t, row).True?
    ensures Eval(t + [AND] + g, row).True? || Eval(g + [AND] + t, row).True?
  {
    hide Eval, Balanced, Lacks;
    var i := OrAt(t);
    var a, b := t[..i], t[i + 1..];
    assert t == a + [OR] + b;
    EvalDisjunction(a, b, row);
    if Eval(a, row).True? { FrontTakesIn(a, b, g, row); } else { BackTakesIn(a, b, g, row); }
  }

  lemma OrAt(t: Text) returns (i: nat)
    requires Balanced(t) && !Lacks(t, OR)
    ensures i < |t| && t[i] == OR && Balanced(t[..i]) && Balanced(t[i + 1..])
  {
    i := Find(t, 0, OR);
    Split(t, i, OR);
  }

  /** Some row passes that fails the condition beside the query. */
  lemma LooseFails(q: Query, pk: int, row: Record)
    requires Sound(q) && Balanced(Inline(q)) && !Lacks(Inline(q), OR) && Eval(Inline(q), row).True?
    ensures Inline(q) != []
    ensures var w := NewWord(Inline(q)); !StandsWith(q, OneWord(w), pk, Denied(row, w))
  {
    var t := Inline(q);
    assert t != [] by { NothingClosed(); }
    hide Inline, Eval, Balanced, Lacks, Sound, Reference;
    var w, g := NewWord(t), [LP] + [Word(NewWord(t))] + [RP];
    var r := Denied(row, w);
    assert AgreeWithout(row, r, w);
    EvalWithout(t, row, r, w);
    OneWordOk(w, pk, r);
    GivenPrints(q, pk);
    BothPrinted(Given(q), OneWord(w), t, g, pk);
    BothPrinted(OneWord(w), Given(q), g, t, pk);
    SingleWord(w, r);
    ParenShape([Word(w)]);
    OrTakesIn(t, g, r);
  }

  /** Beside other conditions a query is read as a condition of its own exactly when it keeps its OR in
      parentheses, if it lets any row through at all. */
  lemma StandsExactly(q: Query, pk: int)
    requires Sound(q) && Balanced(Inline(q)) && exists row: Record :: Eval(Inline(q), row).True?
    requires Inline(q) != []
    ensures Stands(q, pk) <==> Lacks(Inline(q), OR)
  {
    hide Sound, Inline, Eval, Balanced, Lacks, ClauseOk, Vanishes, StandsWith;
    if Lacks(Inline(q), OR) {
      forall c: Clause, row: Record | ClauseOk(c, true) && !Vanishes(c, true) && !c.Given? ensures StandsWith(q, c, pk, row) {
        TightStands(q, c, pk, row);
      }
    } else {
      var row: Record :| Eval(Inline(q), row).True?;
      var w := NewWord(Inline(q));
      LooseFails(q, pk, row);
      OneWordOk(w, pk, row);
    }
  }

  /** The smallest such query. */
  lemma LooseQueryEscapes(a: int, b: int, c: int, pk: int, row: Record)
    requires row([Word(a)]) == True && row([Word(b)]) == False && row([Word(c)]) == False
    ensures var q := Query([Word(a), OR, Word(b)], []);
            Sound(q) && Balanced(Inline(q)) && Passes(Reference(Both(Given(q), OneWord(c)), pk), row)
  {
    var q, g := Query([Word(a), OR, Word(b)], []), [LP] + [Word(c)] + [RP];
    hide Eval, Balanced, Inline, Sound, Reference, Count;
    CountNone(q.text, Quest);
    InlineText(q.text);
    OneWordOk(c, pk, row);
    GivenPrints(q, pk);
    BothPrinted(Given(q), OneWord(c), q.text, g, pk);
    var rest := [Word(b)] + [AND] + g;
    SingleWord(a, row);
    SingleWord(b, row);
    SingleWord(c, row);
    Parenthesised([Word(c)], row);
    Around([Word(b)], AND, g, OR);
    EvalDisjunction([Word(a)], rest, row);
    EvalDisjunction([Word(a)], [Word(b)], row);
    assert [Word(a)] + [OR] + [Word(b)] == q.text;
    assert [Word(a)] + [OR] + rest == q.text + [AND] + g;
  }
}
