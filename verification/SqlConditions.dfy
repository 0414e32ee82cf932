/** `Conditions.WhereClause`: the three lists as one query, to be used as a condition itself. */
module SqlConditions {
  import opened SqlText
  import opened SqlBuild
  import opened SqlParse
  import opened SqlClause
  import opened SqlWhere

  function Queries(cs: seq<Clause>, positive: bool, pk: int): (r: seq<Query>)
    ensures |r| == |cs|
  {
    if cs == [] then [] else [BuildCondition(cs[0], positive, pk)] + Queries(cs[1..], positive, pk)
  }

  function Texts(qs: seq<Query>): seq<Text> {
    if qs == [] then [] else [qs[0].text] + Texts(qs[1..])
  }

  function Args(qs: seq<Query>): seq<Arg> {
    if qs == [] then [] else qs[0].args + Args(qs[1..])
  }

  /** The arguments go Where, Or, Not; the text goes Where, Not, Or. Nothing is dropped. */
  function WhereClause(wheres: seq<Clause>, ors: seq<Clause>, nots: seq<Clause>, pk: int): Query {
    var w, o, x := Queries(wheres, true, pk), Queries(ors, true, pk), Queries(nots, false, pk);
    Query(Combine(Texts(w) + Texts(x), Texts(o)), Args(w) + Args(o) + Args(x))
  }

  // ---------------------------------------------------------------- the query in the order of its text

  function CombineQueries(ands: seq<Query>, ors: seq<Query>): Query {
    var a, o := JoinQueries(ands, AND), JoinQueries(ors, OR);
    if a.text == [] then o else if o.text == [] then a else Plus(a, OR, o)
  }

  lemma {:induction false} JoinTexts(qs: seq<Query>, sep: Tok)
    ensures JoinQueries(qs, sep) == Query(Join(Texts(qs), sep), Args(qs))
    decreases |qs|
  {
    if |qs| == 1 {
      assert qs[1..] == [] && Texts(qs) == [qs[0].text] && Args(qs) == qs[0].args + [] == qs[0].args;
      assert qs[0] == Query(qs[0].text, qs[0].args);
    } else if |qs| > 1 {
      JoinTexts(qs[1..], sep);
      assert Texts(qs)[1..] == Texts(qs[1..]);
      var r := JoinQueries(qs[1..], sep);
      assert qs[0].args + [] + r.args == qs[0].args + r.args;
    }
  }

  lemma {:induction false} TextsConcat(a: seq<Query>, b: seq<Query>)
    ensures Texts(a + b) == Texts(a) + Texts(b) && Args(a + b) == Args(a) + Args(b)
    decreases |a|
  {
    if a == [] {
      assert a + b == b;
    } else {
      assert (a + b)[1..] == a[1..] + b;
      TextsConcat(a[1..], b);
      assert a[0].args + (Args(a[1..]) + Args(b)) == a[0].args + Args(a[1..]) + Args(b);
    }
  }

  ghost predicate Silent(c: Clause, positive: bool) {
    Vanishes(c, positive) && (c.Given? ==> c.q == Query([], []))
  }

  lemma SilentQuery(c: Clause, positive: bool, pk: int)
    requires Silent(c, positive)
    ensures BuildCondition(c, positive, pk) == Query([], [])
  {
  }

  lemma NoQueries(positive: bool, pk: int)
    ensures Queries([], positive, pk) == [] && Printed([], positive, pk) == []
  {
  }

  // ---------------------------------------------------------------- main results

  lemma CancelArgs(a: seq<Arg>, x: seq<Arg>, o: seq<Arg>)
    ensures a + o + x == a + x + o <==> o + x == x + o
  {
    assert a + o + x == a + (o + x) && a + x + o == a + (x + o);
    assert o + x == (a + (o + x))[|a|..] && x + o == (a + (x + o))[|a|..];
  }

  ghost predicate AllFit(qs: seq<Query>) {
    forall k :: 0 <= k < |qs| ==> Fits(qs[k])
  }

  lemma {:induction false} QueriesFit(cs: seq<Clause>, positive: bool, pk: int)
    requires ListOk(cs, positive, false)
    ensures AllFit(Queries(cs, positive, pk))
    decreases |cs|
  {
    if cs != [] {
      assert ClauseOk(cs[0], positive) && ListOk(cs[1..], positive, false);
      hide ListOk, ClauseOk, Fits, BuildCondition, Inline, Eval, Means, Balanced, Lacks;
      ClauseSays(cs[0], positive, pk, t => Unknown);
      QueriesFit(cs[1..], positive, pk);
    }
  }

  /** Where a list has no text it has no arguments. */
  lemma TextlessArgs(qs: seq<Query>, sep: Tok)
    requires AllFit(qs) && Join(Texts(qs), sep) == []
    ensures Args(qs) == []
  {
    hide ArgsFit;
    if |qs| == 1 {
      assert Fits(qs[0]) && qs[1..] == [] && Texts(qs) == [qs[0].text];
    }
  }

  lemma CombineTexts(ands: seq<Query>, ors: seq<Query>)
    requires AllFit(ands) && AllFit(ors)
    ensures CombineQueries(ands, ors) == Query(Combine(Texts(ands), Texts(ors)), Args(ands) + Args(ors))
  {
    hide Fits, JoinQueries, Join;
    JoinTexts(ands, AND);
    JoinTexts(ors, OR);
    if Join(Texts(ands), AND) == [] { TextlessArgs(ands, AND); }
    if Join(Texts(ors), OR) == [] { TextlessArgs(ors, OR); }
    assert Args(ands) + [] + Args(ors) == Args(ands) + Args(ors);
  }

  lemma FitConcat(a: seq<Query>, b: seq<Query>)
    requires AllFit(a) && AllFit(b)
    ensures AllFit(a + b)
  {
    hide Fits;
  }

  /** The arguments of the Or and the Not list can change places. */
  ghost predicate Commute(ors: seq<Clause>, nots: seq<Clause>, pk: int) {
    var o, x := Args(Queries(ors, true, pk)), Args(Queries(nots, false, pk));
    o + x == x + o
  }

  /** The arguments stand in the order of the text exactly when those of Or and Not commute. */
  lemma ConditionsExactly(wheres: seq<Clause>, ors: seq<Clause>, nots: seq<Clause>, pk: int)
    requires ListOk(wheres, true, false) && ListOk(ors, true, false) && ListOk(nots, false, false)
    ensures var w, o, x := Queries(wheres, true, pk), Queries(ors, true, pk), Queries(nots, false, pk);
            WhereClause(wheres, ors, nots, pk) == CombineQueries(w + x, o) <==> Commute(ors, nots, pk)
  {
    hide ListOk, AllFit, CombineQueries, Combine, Queries, Texts, Args;
    var w, o, x := Queries(wheres, true, pk), Queries(ors, true, pk), Queries(nots, false, pk);
    QueriesFit(wheres, true, pk);
    QueriesFit(ors, true, pk);
    QueriesFit(nots, false, pk);
    FitConcat(w, x);
    CombineTexts(w + x, o);
    TextsConcat(w, x);
    CancelArgs(Args(w), Args(x), Args(o));
  }

  lemma EvalAllLength(ts: seq<Text>, row: Record)
    ensures |EvalAll(ts, row)| == |ts|
  {
    hide Eval;
  }

  // ---------------------------------------------------------------- conditions without a text

  /** The texts that are not empty. */
  function Said(ts: seq<Text>): seq<Text> {
    if ts == [] then [] else (if ts[0] == [] then [] else [ts[0]]) + Said(ts[1..])
  }

  lemma {:induction false} SaidConcat(a: seq<Text>, b: seq<Text>)
    ensures Said(a + b) == Said(a) + Said(b) && |Said(a)| <= |a|
    decreases |a|
  {
    if a == [] {
      assert a + b == b;
    } else {
      assert (a + b)[1..] == a[1..] + b;
      SaidConcat(a[1..], b);
      assert (if a[0] == [] then [] else [a[0]]) + (Said(a[1..]) + Said(b)) == Said(a) + Said(b);
    }
  }

  function Total(ts: seq<Text>): nat {
    if ts == [] then 0 else |ts[0]| + Total(ts[1..])
  }

  lemma {:induction false} JoinLength(ts: seq<Text>, sep: Tok)
    ensures |Join(ts, sep)| == Total(ts) + (if ts == [] then 0 else |ts| - 1)
    decreases |ts|
  {
    if |ts| == 1 { assert Total(ts[1..]) == 0; } else if |ts| > 1 { JoinLength(ts[1..], sep); }
  }

  lemma {:induction false} SaidTotal(ts: seq<Text>)
    ensures Total(Said(ts)) == Total(ts) && |Said(ts)| <= |ts| && NoneEmpty(Said(ts))
    ensures |Said(ts)| == |ts| ==> Said(ts) == ts
    decreases |ts|
  {
    if ts != [] {
      SaidTotal(ts[1..]);
      assert ts == [ts[0]] + ts[1..];
      if ts[0] != [] {
        assert Said(ts)[1..] == Said(ts[1..]);
      } else {
        assert Said(ts) == Said(ts[1..]);
      }
    }
  }

  /** Every text is there, or the only one is missing. */
  predicate Whole(all: nat, said: nat) {
    said == all || all == 1
  }

  /** Leaving the empty texts out of a list changes what is joined unless the only text is empty. */
  lemma JoinSaid(ts: seq<Text>, sep: Tok)
    ensures |Join(Said(ts), sep)| <= |Join(ts, sep)| && (Join(ts, sep) == [] ==> Join(Said(ts), sep) == [])
    ensures |Join(Said(ts), sep)| == |Join(ts, sep)| <==> Whole(|ts|, |Said(ts)|)
    ensures Join(Said(ts), sep) == Join(ts, sep) <==> Whole(|ts|, |Said(ts)|)
  {
    JoinLength(ts, sep);
    JoinLength(Said(ts), sep);
    SaidTotal(ts);
    if |ts| == 1 && ts[0] == [] { assert Said(ts) == [] + Said(ts[1..]) == []; }
  }

  lemma CombineSaid(ands: seq<Text>, ors: seq<Text>)
    ensures Combine(Said(ands), Said(ors)) == Combine(ands, ors) <==>
            Whole(|ands|, |Said(ands)|) && Whole(|ors|, |Said(ors)|)
  {
    hide Join, Said;
    JoinSaid(ands, AND);
    JoinSaid(ors, OR);
  }

  /** What a list prints is what its queries say, without the empty ones. */
  lemma {:induction false} PrintedIsSaid(cs: seq<Clause>, positive: bool, pk: int)
    ensures Printed(cs, positive, pk) == Said(InlineAll(Queries(cs, positive, pk)))
    decreases |cs|
  {
    hide Inline, BuildCondition;
    if cs != [] {
      PrintedIsSaid(cs[1..], positive, pk);
      var qs := Queries(cs, positive, pk);
      assert qs[0] == BuildCondition(cs[0], positive, pk) && qs[1..] == Queries(cs[1..], positive, pk);
      assert InlineAll(qs)[1..] == InlineAll(qs[1..]);
    }
  }

  /** A query condition that reads as nothing has no text to begin with. */
  ghost predicate SilentOrSaid(cs: seq<Clause>, positive: bool) {
    forall k :: 0 <= k < |cs| ==> !Vanishes(cs[k], positive) || Silent(cs[k], positive)
  }

  /** Sound queries without a text exactly where they say nothing. */
  ghost predicate Voiced(qs: seq<Query>) {
    forall k :: 0 <= k < |qs| ==> Sound(qs[k]) && (qs[k].text == [] <==> Inline(qs[k]) == [])
  }

  lemma OneVoiced(c: Clause, positive: bool, pk: int)
    requires ClauseOk(c, positive) && (!Vanishes(c, positive) || Silent(c, positive))
    ensures var q := BuildCondition(c, positive, pk); Sound(q) && (q.text == [] <==> Inline(q) == [])
  {
    hide *;
    ClauseSays(c, positive, pk, t => Unknown);
    SoundParts(BuildCondition(c, positive, pk));
    if Silent(c, positive) { SilentQuery(c, positive, pk); }
  }

  lemma {:induction false} QueriesVoiced(cs: seq<Clause>, positive: bool, pk: int)
    requires ListOk(cs, positive, false) && SilentOrSaid(cs, positive)
    ensures Voiced(Queries(cs, positive, pk))
    decreases |cs|
  {
    if cs != [] {
      assert ClauseOk(cs[0], positive) && (!Vanishes(cs[0], positive) || Silent(cs[0], positive));
      assert ListOk(cs[1..], positive, false) && SilentOrSaid(cs[1..], positive);
      hide ListOk, ClauseOk, SilentOrSaid, Silent, Vanishes, Sound, Inline, BuildCondition;
      OneVoiced(cs[0], positive, pk);
      QueriesVoiced(cs[1..], positive, pk);
    }
  }

  lemma VoicedConcat(a: seq<Query>, b: seq<Query>)
    requires Voiced(a) && Voiced(b)
    ensures Voiced(a + b)
  {
    hide Sound, Inline;
  }

  lemma {:induction false} InlineAllConcat(a: seq<Query>, b: seq<Query>)
    ensures InlineAll(a + b) == InlineAll(a) + InlineAll(b)
    decreases |a|
  {
    hide Inline;
    if a == [] {
      assert a + b == b;
    } else {
      assert (a + b)[1..] == a[1..] + b;
      InlineAllConcat(a[1..], b);
    }
  }

  /** Queries that are joined have a text exactly when they say something. */
  lemma JoinVoiced(qs: seq<Query>, sep: Tok)
    requires Voiced(qs) && (sep == AND || sep == OR)
    ensures var j := JoinQueries(qs, sep);
            Sound(j) && Inline(j) == Join(InlineAll(qs), sep) && (j.text == [] <==> Inline(j) == [])
  {
    hide Sound, Inline, Join, JoinQueries;
    InlineJoin(qs, sep);
    SoundParts(JoinQueries(qs, sep));
    if |qs| <= 1 {
      JoinOne(qs, sep);
    } else {
      JoinTexts(qs, sep);
      JoinLength(Texts(qs), sep);
      JoinLength(InlineAll(qs), sep);
      assert |Texts(qs)| == |qs| by { TextsLength(qs); }
    }
  }

  lemma JoinOne(qs: seq<Query>, sep: Tok)
    requires Voiced(qs) && |qs| <= 1
    ensures JoinQueries(qs, sep).text == [] <==> Inline(JoinQueries(qs, sep)) == []
  {
    hide Sound;
  }

  lemma {:induction false} TextsLength(qs: seq<Query>)
    ensures |Texts(qs)| == |qs|
    decreases |qs|
  {
    if qs != [] { TextsLength(qs[1..]); }
  }

  lemma CombineVoiced(ands: seq<Query>, ors: seq<Query>)
    requires Voiced(ands) && Voiced(ors)
    ensures Sound(CombineQueries(ands, ors))
    ensures Inline(CombineQueries(ands, ors)) == Combine(InlineAll(ands), InlineAll(ors))
  {
    hide Sound, Inline, JoinQueries, Join, Plus;
    JoinVoiced(ands, AND);
    JoinVoiced(ors, OR);
    InlinePlus(JoinQueries(ands, AND), OR, JoinQueries(ors, OR));
  }

  lemma SpeakingIsSaid(wheres: seq<Clause>, nots: seq<Clause>, pk: int)
    requires ListOk(wheres, true, false) && ListOk(nots, false, false)
    ensures var ts := InlineAll(Queries(wheres, true, pk) + Queries(nots, false, pk));
            && Said(ts) == Printed(wheres, true, pk) + Printed(nots, false, pk)
            && |ts| == |wheres| + |nots| && |Said(ts)| == Speaking(wheres, true) + Speaking(nots, false)
  {
    hide ListOk, Said, Printed, Queries, Inline;
    var w, x := Queries(wheres, true, pk), Queries(nots, false, pk);
    InlineAllConcat(w, x);
    SaidConcat(InlineAll(w), InlineAll(x));
    PrintedIsSaid(wheres, true, pk);
    PrintedIsSaid(nots, false, pk);
    SpeakingPrints(wheres, true, pk);
    SpeakingPrints(nots, false, pk);
  }

  /** With its arguments in order, the query joins all its conditions, those without a text too. */
  lemma ConditionsInline(wheres: seq<Clause>, ors: seq<Clause>, nots: seq<Clause>, pk: int)
    requires ListOk(wheres, true, false) && ListOk(ors, true, false) && ListOk(nots, false, false)
    requires SilentOrSaid(wheres, true) && SilentOrSaid(ors, true) && SilentOrSaid(nots, false)
    requires Commute(ors, nots, pk)
    ensures var w, o, x := Queries(wheres, true, pk), Queries(ors, true, pk), Queries(nots, false, pk);
            var q := WhereClause(wheres, ors, nots, pk);
            Sound(q) && Inline(q) == Combine(InlineAll(w + x), InlineAll(o))
  {
    hide *;
    var w, o, x := Queries(wheres, true, pk), Queries(ors, true, pk), Queries(nots, false, pk);
    ConditionsExactly(wheres, ors, nots, pk);
    QueriesVoiced(wheres, true, pk);
    QueriesVoiced(nots, false, pk);
    QueriesVoiced(ors, true, pk);
    VoicedConcat(w, x);
    CombineVoiced(w + x, o);
  }

  /** The query prints what `whereSQL` prints of the same lists exactly when no connective is left without an
      operand: in each list every condition prints something, or the only one does not. */
  lemma PrintsExactly(wheres: seq<Clause>, ors: seq<Clause>, nots: seq<Clause>, pk: int)
    requires ListOk(wheres, true, false) && ListOk(ors, true, false) && ListOk(nots, false, false)
    requires SilentOrSaid(wheres, true) && SilentOrSaid(ors, true) && SilentOrSaid(nots, false)
    requires Commute(ors, nots, pk)
    ensures Sound(WhereClause(wheres, ors, nots, pk))
    ensures Inline(WhereClause(wheres, ors, nots, pk)) ==
            Combine(Printed(wheres, true, pk) + Printed(nots, false, pk), Printed(ors, true, pk)) <==>
            Whole(|wheres| + |nots|, Speaking(wheres, true) + Speaking(nots, false)) && Whole(|ors|, Speaking(ors, true))
  {
    hide *;
    var ands, os := InlineAll(Queries(wheres, true, pk) + Queries(nots, false, pk)), InlineAll(Queries(ors, true, pk));
    var said := Printed(wheres, true, pk) + Printed(nots, false, pk);
    ConditionsInline(wheres, ors, nots, pk);
    SpeakingIsSaid(wheres, nots, pk);
    OrsSaid(ors, pk);
    assert Said(ands) == said;
    CombineSaid(ands, os);
  }

  lemma OrsSaid(ors: seq<Clause>, pk: int)
    requires ListOk(ors, true, false)
    ensures var ts := InlineAll(Queries(ors, true, pk));
            Said(ts) == Printed(ors, true, pk) && |ts| == |ors| && |Said(ts)| == Speaking(ors, true)
  {
    hide *;
    PrintedIsSaid(ors, true, pk);
    SpeakingPrints(ors, true, pk);
  }

  /** Then the query, built wherever it is used, means all of Where and Not or any of Or. */
  lemma ConditionsMean(wheres: seq<Clause>, ors: seq<Clause>, nots: seq<Clause>, pk: int, row: Record)
    requires AndsOk(wheres, nots) && ListOk(ors, true, false)
    requires SilentOrSaid(wheres, true) && SilentOrSaid(ors, true) && SilentOrSaid(nots, false)
    requires Whole(|wheres| + |nots|, Speaking(wheres, true) + Speaking(nots, false)) && Whole(|ors|, Speaking(ors, true))
    requires Commute(ors, nots, pk)
    ensures var q := WhereClause(wheres, ors, nots, pk);
            var ands, any := MeansAll(wheres, true, pk, row) + MeansAll(nots, false, pk, row), MeansAll(ors, true, pk, row);
            && Sound(q) && Balanced(Inline(q)) && (Inline(q) == [] <==> ands == [] && any == [])
            && (Inline(q) != [] ==> Eval(Inline(q), row) == Either(ands, any))
  {
    hide ListOk, SilentOrSaid, Whole, Speaking, Combine, Commute, Queries, Args, WhereClause, Printed, MeansAll;
    hide EvalAll, Inline, Eval, Balanced, Lacks, Either, AllBalanced, Conjuncts, NoneEmpty, Sound, Joinable;
    var ands, po := Printed(wheres, true, pk) + Printed(nots, false, pk), Printed(ors, true, pk);
    PrintsExactly(wheres, ors, nots, pk);
    AndsRead(wheres, nots, pk, row);
    PrintedSays(ors, true, false, pk, row);
    CombineSays(ands, po, row);
    EvalAllLength(ands, row);
    EvalAllLength(po, row);
  }

  /** The smallest case with another condition beside it: an AND without a left operand. */
  lemma BlankDangles(t: Text, comparison: bool, column: int, args: seq<Arg>, pk: int)
    ensures WhereClause([Blank, Phrase(t, comparison, column, args)], [], [], pk) == Query([AND, LP] + t + [RP], args)
  {
    var cs := [Blank, Phrase(t, comparison, column, args)];
    var p := Query([LP] + t + [RP], args);
    assert cs[1..] == [cs[1]] && cs[1..][1..] == [];
    assert Queries(cs[1..], true, pk) == [p] && Queries(cs, true, pk) == [Query([], []), p];
    var qs := [Query([], []), p];
    hide Queries;
    NoQueries(true, pk);
    NoQueries(false, pk);
    assert qs[1..] == [p] && qs[1..][1..] == [];
    assert Texts(qs[1..]) == [p.text] && Args(qs[1..]) == args;
    assert Texts(qs) == [[], p.text] && Args(qs) == args;
    var ts: seq<Text> := [[], p.text];
    assert ts[1..] == [p.text];
    assert Join(ts, AND) == [] + [AND] + p.text == [AND, LP] + t + [RP];
    assert ts + [] == ts && Combine(ts, []) == Join(ts, AND) && args + [] + [] == args;
    assert Texts([]) == [] && Args([]) == [];
  }
}
