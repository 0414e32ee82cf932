/** The HAVING and the JOIN lists of a scope. */
module SqlJoins {
  import opened SqlText
  import opened SqlBuild
  import opened SqlParse
  import opened SqlBinding
  import opened SqlClause
  import opened SqlWhere
  import opened SqlWhereBinding
  import opened SqlConditions

  // ---------------------------------------------------------------- HAVING

  /** A clause without text is passed over before it is built, one that builds to nothing is not. */
  function HavingAll(cs: seq<Clause>, pk: int, n: nat, mode: Mode): Reps {
    if cs == [] then Reps([], []) else
    var q := BuildCondition(cs[0], true, pk);
    if q.text == [] then HavingAll(cs[1..], pk, n, mode) else
    var b := Build(q, n, mode);
    Append(Reps([b.text], b.vals), HavingAll(cs[1..], pk, n + |b.vals|, mode))
  }

  /** The clauses that have a text. */
  function HavingQueries(cs: seq<Clause>, pk: int): seq<Query> {
    if cs == [] then [] else
    var q := BuildCondition(cs[0], true, pk);
    (if q.text == [] then [] else [q]) + HavingQueries(cs[1..], pk)
  }

  function BuildQueries(qs: seq<Query>, n: nat, mode: Mode): Reps {
    if qs == [] then Reps([], []) else
    var b := Build(qs[0], n, mode);
    Append(Reps([b.text], b.vals), BuildQueries(qs[1..], n + |b.vals|, mode))
  }

  lemma {:induction false} HavingBuilds(cs: seq<Clause>, pk: int, n: nat, mode: Mode)
    ensures HavingAll(cs, pk, n, mode) == BuildQueries(HavingQueries(cs, pk), n, mode)
    decreases |cs|
  {
    hide Build, BuildCondition, Append;
    if cs != [] {
      var q := BuildCondition(cs[0], true, pk);
      HavingBuilds(cs[1..], pk, if q.text == [] then n else n + |Build(q, n, mode).vals|, mode);
      var qs := HavingQueries(cs, pk);
      if q.text != [] {
        assert qs[0] == q && qs[1..] == HavingQueries(cs[1..], pk);
      } else {
        assert qs == HavingQueries(cs[1..], pk);
      }
    }
  }

  ghost predicate AllSoundQueries(qs: seq<Query>) {
    forall k :: 0 <= k < |qs| ==> Sound(qs[k])
  }

  lemma {:induction false} HavingSound(cs: seq<Clause>, pk: int)
    requires ListOk(cs, true, false)
    ensures AllSoundQueries(HavingQueries(cs, pk)) && Said(InlineAll(HavingQueries(cs, pk))) == Printed(cs, true, pk)
    decreases |cs|
  {
    if cs != [] {
      assert ClauseOk(cs[0], true) && ListOk(cs[1..], true, false);
      hide ListOk, ClauseOk, Sound, Inline, Eval, Means, Vanishes, BuildCondition, Balanced, Lacks;
      var q := BuildCondition(cs[0], true, pk);
      ClauseSays(cs[0], true, pk, t => Unknown);
      SoundParts(q);
      HavingSound(cs[1..], pk);
      var qs := HavingQueries(cs, pk);
      if q.text != [] {
        assert qs[0] == q && qs[1..] == HavingQueries(cs[1..], pk);
        assert InlineAll(qs)[1..] == InlineAll(qs[1..]);
      } else {
        assert qs == HavingQueries(cs[1..], pk);
      }
    }
  }

  lemma QueryBuilt(q: Query, n: nat, m: nat, mode: Mode)
    requires Sound(q)
    ensures var b, d := Build(q, n, mode), Build(q, m, Dollar);
            ListBuilt(Reps([b.text], b.vals), Reps([d.text], d.vals), [Inline(q)], n, mode)
  {
    hide Renamed, Left, Fits, Empties, Build, Inline, Relabel, Count, At, Unmarked;
    var b, d := Build(q, n, mode), Build(q, m, Dollar);
    BuildInEveryMode(q, n, m, mode);
    QueryLeaves(q, m);
    if mode.Literal? && At(mode.vals, n, d.vals) { QuerySays(q, n, mode.vals); }
    RenamedOne(b.text, b.vals, d.text, n, mode);
    LeftOne(d.text, d.vals);
  }

  lemma {:induction false} QueriesBuilt(qs: seq<Query>, n: nat, m: nat, mode: Mode)
    requires AllSoundQueries(qs)
    ensures ListBuilt(BuildQueries(qs, n, mode), BuildQueries(qs, m, Dollar), InlineAll(qs), n, mode)
    decreases |qs|
  {
    if qs == [] {
      hide Renamed;
      RenamedNone(n, mode);
      LeftNothing();
    } else {
      assert Sound(qs[0]) && AllSoundQueries(qs[1..]);
      hide Sound, AllSoundQueries, ListBuilt, Build, Inline, Append;
      var b, d := Build(qs[0], n, mode), Build(qs[0], m, Dollar);
      QueryBuilt(qs[0], n, m, mode);
      BuiltVals(Reps([b.text], b.vals), Reps([d.text], d.vals), [Inline(qs[0])], n, mode);
      QueriesBuilt(qs[1..], n + |d.vals|, m + |d.vals|, mode);
      BuiltConcat(Reps([b.text], b.vals), BuildQueries(qs[1..], n + |d.vals|, mode), Reps([d.text], d.vals),
                  BuildQueries(qs[1..], m + |d.vals|, Dollar), [Inline(qs[0])], InlineAll(qs[1..]), n, mode);
    }
  }

  /** With each marker naming its own value, the HAVING list is what its clauses say. */
  lemma HavingBinds(qs: seq<Query>, n: nat, all: seq<int>)
    requires AllSoundQueries(qs) && At(all, n, BuildQueries(qs, n, Numbered).vals)
    ensures ResolveAll(BuildQueries(qs, n, Numbered).texts, all) == InlineAll(qs)
  {
    hide AllSoundQueries, BuildQueries, CountAll, RelabelAll, Unmarked, ResolveAll, MarksAll, InlineAll;
    QueriesBuilt(qs, n, 0, Numbered);
    QueriesBuilt(qs, n, 0, Literal(all));
    NumberedTexts(BuildQueries(qs, 0, Dollar).texts, n, all);
  }

  /** A clause without a text is passed over; the HAVING is what the clauses print exactly when none of the
      others builds to nothing, or the only one does. */
  lemma HavingExactly(cs: seq<Clause>, pk: int, n: nat, all: seq<int>)
    requires ListOk(cs, true, false) && At(all, n, HavingAll(cs, pk, n, Numbered).vals)
    ensures Resolve(Join(HavingAll(cs, pk, n, Numbered).texts, AND), all) == Join(Printed(cs, true, pk), AND) <==>
            Whole(|HavingQueries(cs, pk)|, Speaking(cs, true))
  {
    hide *;
    var qs := HavingQueries(cs, pk);
    HavingBuilds(cs, pk, n, Numbered);
    HavingSound(cs, pk);
    HavingBinds(qs, n, all);
    ResolveJoin(BuildQueries(qs, n, Numbered).texts, AND, all);
    JoinSaid(InlineAll(qs), AND);
    SpeakingPrints(cs, true, pk);
  }

  /** Then the HAVING list is the conjunction of its clauses; without a clause that prints there is none. */
  lemma HavingMeans(cs: seq<Clause>, pk: int, n: nat, all: seq<int>, row: Record)
    requires AndsOk(cs, []) && Whole(|HavingQueries(cs, pk)|, Speaking(cs, true))
    requires At(all, n, HavingAll(cs, pk, n, Numbered).vals)
    ensures var t, vs := Resolve(Join(HavingAll(cs, pk, n, Numbered).texts, AND), all), MeansAll(cs, true, pk, row);
            (t == [] <==> vs == []) && (t != [] ==> Eval(t, row) == AndAll(vs))
  {
    hide *;
    var ts := Printed(cs, true, pk);
    HavingOk(cs);
    HavingExactly(cs, pk, n, all);
    HavingReads(cs, pk, row);
    JoinEmpty(ts, AND);
    EvalAllLength(ts, row);
    if ts != [] { JoinableReads(ts, row); }
  }

  lemma HavingOk(cs: seq<Clause>)
    requires AndsOk(cs, [])
    ensures ListOk(cs, true, false)
  {
    hide ListOk;
  }

  lemma HavingReads(cs: seq<Clause>, pk: int, row: Record)
    requires AndsOk(cs, [])
    ensures var ts := Printed(cs, true, pk);
            Joinable(ts) && NoneEmpty(ts) && EvalAll(ts, row) == MeansAll(cs, true, pk, row)
  {
    hide AndsOk, EvalAll, MeansAll, Printed, Joinable, NoneEmpty, AllBalanced;
    AndsRead(cs, [], pk, row);
    NothingPrinted(false, pk, 0, Dollar);
    assert MeansAll([], false, pk, row) == [] by { NothingMeant(pk, row); }
    assert Printed(cs, true, pk) + [] == Printed(cs, true, pk);
  }

  lemma NothingMeant(pk: int, row: Record)
    ensures MeansAll([], false, pk, row) == []
  {
  }

  // ---------------------------------------------------------------- JOIN

  /** `joinsSQL` takes one parenthesis off each end. */
  function Trim(t: Text): Text {
    var u := if t != [] && t[0] == LP then t[1..] else t;
    if u != [] && u[|u| - 1] == RP then u[..|u| - 1] else u
  }

  /** A join written as text is printed as it was written: the parentheses taken off are the two that
      `BuildCondition` put around it. */
  lemma JoinPrintsPhrase(t: Text, args: seq<Arg>, column: int, comparison: bool, pk: int, n: nat, mode: Mode)
    requires Fits(Query(t, args)) && Empties(Query(t, args)) == 0
    ensures Trim(Build(BuildCondition(Phrase(t, comparison, column, args), true, pk), n, mode).text) == Build(Query(t, args), n, mode).text
  {
    AllReplaced(args, n, mode);
    hide ArgsFit, ArgsEmpties, AddArgs, Substitute, Count;
    SubstituteWithin(t, AddArgs(args, n, mode).texts);
    TrimWithin(Substitute(t, AddArgs(args, n, mode).texts));
  }

  lemma TrimWithin(x: Text)
    ensures Trim([LP] + x + [RP]) == x
  {
    var w := [LP] + x + [RP];
    assert w[1..] == x + [RP] && (x + [RP])[..|x|] == x;
  }

  /** Without empty slices of slices every argument has its replacement. */
  lemma {:induction false} AllReplaced(args: seq<Arg>, n: nat, mode: Mode)
    requires ArgsFit(args) && ArgsEmpties(args) == 0
    ensures |AddArgs(args, n, mode).texts| == |args|
    decreases |args|
  {
    if args != [] {
      ArgInEveryMode(args[0], n, n, mode);
      AllReplaced(args[1..], n + |AddArg(args[0], n, mode).vals|, mode);
    }
  }
}
