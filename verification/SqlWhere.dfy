/** The WHERE condition of a scope: what it means, and which argument each marker names. */
module SqlWhere {
  import opened Lists
  import opened SqlText
  import opened SqlBuild
  import opened SqlParse
  import opened SqlClause

  /** What `whereSQL` reads: the deleted-at column (of a scoped statement on a model that has one), the
      primary key of the record if it has been set, and the three condition lists. */
  datatype Search = Search(deletedAt: Option<int>, primary: seq<Key>, wheres: seq<Clause>, ors: seq<Clause>, nots: seq<Clause>)

  // ---------------------------------------------------------------- whereSQL

  /** The printed conditions of one list; a condition that prints nothing is dropped. */
  function BuildAll(cs: seq<Clause>, positive: bool, pk: int, n: nat, mode: Mode): Reps {
    if cs == [] then Reps([], []) else
    var b := BuildOne(cs[0], positive, pk, n, mode);
    Append(b, BuildAll(cs[1..], positive, pk, n + |b.vals|, mode))
  }

  function BuildOne(c: Clause, positive: bool, pk: int, n: nat, mode: Mode): Reps {
    var b := Build(BuildCondition(c, positive, pk), n, mode);
    Reps(if b.text == [] then [] else [b.text], b.vals)
  }

  function PrimaryAll(ks: seq<Key>, n: nat, mode: Mode): Reps {
    if ks == [] then Reps([], []) else
    var b := AddToVars(Value(ks[0].v), n, mode);
    Append(Reps([[Word(ks[0].col), EQ] + b.text], b.vals), PrimaryAll(ks[1..], n + |b.vals|, mode))
  }

  function DeletedAt(s: Search): seq<Text> {
    if s.deletedAt.Some? then [[Word(s.deletedAt.value), IS_NULL]] else []
  }

  /** The And list, then the Or list behind it. */
  function Combine(ands: seq<Text>, ors: seq<Text>): Text {
    var a, o := Join(ands, AND), Join(ors, OR);
    if a == [] then o else if o == [] then a else a + [OR] + o
  }

  function Assemble(primary: seq<Text>, ands: seq<Text>, ors: seq<Text>): Text {
    var c := Combine(ands, ors);
    if primary == [] then c
    else if c == [] then Join(primary, AND)
    else Join(primary, AND) + [AND] + ([LP] + c + [RP])
  }

  /** The arguments go primary key, Where, Or, Not; the text goes primary key, Where, Not, Or. An empty
      result is no WHERE at all. */
  function WhereSql(s: Search, pk: int, n: nat, mode: Mode): Built {
    var p := PrimaryAll(s.primary, n, mode);
    var w := BuildAll(s.wheres, true, pk, n + |p.vals|, mode);
    var o := BuildAll(s.ors, true, pk, n + |p.vals| + |w.vals|, mode);
    var x := BuildAll(s.nots, false, pk, n + |p.vals| + |w.vals| + |o.vals|, mode);
    Built(Assemble(DeletedAt(s) + p.texts, w.texts + x.texts, o.texts), p.vals + w.vals + o.vals + x.vals)
  }

  // ---------------------------------------------------------------- the meaning of a search

  /** The values of the conditions that print something. */
  function MeansAll(cs: seq<Clause>, positive: bool, pk: int, row: Record): seq<Truth> {
    if cs == [] then [] else MeansOne(cs[0], positive, pk, row) + MeansAll(cs[1..], positive, pk, row)
  }

  function MeansOne(c: Clause, positive: bool, pk: int, row: Record): seq<Truth> {
    if Vanishes(c, positive) then [] else [Means(c, positive, pk, row)]
  }

  function Primary(s: Search, row: Record): seq<Truth> {
    (if s.deletedAt.Some? then [row([Word(s.deletedAt.value), IS_NULL])] else []) + KeysMean(s.primary, row)
  }

  /** Reference: the deleted-at and primary key conditions, and either all of Where and Not or any of Or;
      without Where and Not the Or list stands alone. */
  function Expected(s: Search, pk: int, row: Record): Truth {
    var ands := MeansAll(s.wheres, true, pk, row) + MeansAll(s.nots, false, pk, row);
    var ors := MeansAll(s.ors, true, pk, row);
    And(AndAll(Primary(s, row)), Either(ands, ors))
  }

  function Either(ands: seq<Truth>, ors: seq<Truth>): Truth {
    if ands == [] && ors != [] then OrAll(ors) else Or(AndAll(ands), OrAll(ors))
  }

  /** The caller's text is well formed; in a `conjunction` a query keeps its OR in parentheses. */
  ghost predicate ListOk(cs: seq<Clause>, positive: bool, conjunction: bool) {
    forall k :: 0 <= k < |cs| ==>
      ClauseOk(cs[k], positive) && (conjunction && cs[k].Given? ==> Lacks(Inline(cs[k].q), OR))
  }

  /** How many conditions of a list print something. */
  function Speaking(cs: seq<Clause>, positive: bool): nat {
    if cs == [] then 0 else (if Vanishes(cs[0], positive) then 0 else 1) + Speaking(cs[1..], positive)
  }

  /** Well-formed Where and Not lists: queries keep their OR in parentheses, or a single condition prints. */
  ghost predicate AndsOk(wheres: seq<Clause>, nots: seq<Clause>) {
    && ListOk(wheres, true, false) && ListOk(nots, false, false)
    && (Speaking(wheres, true) + Speaking(nots, false) <= 1 || (ListOk(wheres, true, true) && ListOk(nots, false, true)))
  }

  ghost predicate SearchOk(s: Search) {
    AndsOk(s.wheres, s.nots) && ListOk(s.ors, true, false)
  }

  /** Reference text: every list with its values written out. */
  function Printed(cs: seq<Clause>, positive: bool, pk: int): seq<Text> {
    if cs == [] then [] else PrintedOne(cs[0], positive, pk) + Printed(cs[1..], positive, pk)
  }

  function PrintedOne(c: Clause, positive: bool, pk: int): seq<Text> {
    var t := Inline(BuildCondition(c, positive, pk));
    if t == [] then [] else [t]
  }

  function PrintedKeys(ks: seq<Key>): seq<Text> {
    if ks == [] then [] else [[Word(ks[0].col), EQ, Val(ks[0].v)]] + PrintedKeys(ks[1..])
  }

  function Reference(s: Search, pk: int): Text {
    Assemble(DeletedAt(s) + PrintedKeys(s.primary),
             Printed(s.wheres, true, pk) + Printed(s.nots, false, pk), Printed(s.ors, true, pk))
  }

  /** The rows a condition lets through; no WHERE lets every row through. */
  predicate Passes(t: Text, row: Record) {
    t == [] || Eval(t, row).True?
  }

  // ---------------------------------------------------------------- one step of each list

  lemma BuildAllStep(cs: seq<Clause>, positive: bool, pk: int, n: nat, mode: Mode)
    requires cs != []
    ensures var b := BuildOne(cs[0], positive, pk, n, mode);
            BuildAll(cs, positive, pk, n, mode) == Append(b, BuildAll(cs[1..], positive, pk, n + |b.vals|, mode))
  {
    hide BuildOne, Append;
  }

  lemma BuildOneIs(c: Clause, positive: bool, pk: int, n: nat, mode: Mode)
    ensures var b := Build(BuildCondition(c, positive, pk), n, mode);
            BuildOne(c, positive, pk, n, mode) == Reps(if b.text == [] then [] else [b.text], b.vals)
  {
    hide Build, BuildCondition;
  }

  lemma PrintedStep(cs: seq<Clause>, positive: bool, pk: int)
    requires cs != []
    ensures Printed(cs, positive, pk) == PrintedOne(cs[0], positive, pk) + Printed(cs[1..], positive, pk)
    ensures var t := Inline(BuildCondition(cs[0], positive, pk));
            PrintedOne(cs[0], positive, pk) == if t == [] then [] else [t]
  {
    hide Inline, BuildCondition;
  }

  lemma NothingPrinted(positive: bool, pk: int, n: nat, mode: Mode)
    ensures Printed([], positive, pk) == [] && BuildAll([], positive, pk, n, mode) == Reps([], [])
  {
  }

  // ---------------------------------------------------------------- the reference text means what it should

  lemma {:induction false} EvalAllConcat(a: seq<Text>, b: seq<Text>, row: Record)
    ensures EvalAll(a + b, row) == EvalAll(a, row) + EvalAll(b, row)
    decreases |a|
  {
    hide Eval;
    if a == [] {
      assert a + b == b;
    } else {
      assert (a + b)[1..] == a[1..] + b;
      EvalAllConcat(a[1..], b, row);
    }
  }

  ghost predicate NoneEmpty(ts: seq<Text>) {
    forall k :: 0 <= k < |ts| ==> ts[k] != []
  }

  /** Texts that read as `vs` and can stand in a list. */
  ghost predicate Reads(ts: seq<Text>, vs: seq<Truth>, conjunction: bool, row: Record) {
    EvalAll(ts, row) == vs && NoneEmpty(ts) && AllBalanced(ts) && (conjunction ==> Conjuncts(ts))
  }

  lemma ReadsConcat(a: seq<Text>, b: seq<Text>, va: seq<Truth>, vb: seq<Truth>, conjunction: bool, row: Record)
    requires Reads(a, va, conjunction, row) && Reads(b, vb, conjunction, row)
    ensures Reads(a + b, va + vb, conjunction, row)
  {
    hide EvalAll, Balanced, Lacks;
    EvalAllConcat(a, b, row);
  }

  lemma OneReads(c: Clause, positive: bool, conjunction: bool, pk: int, row: Record)
    requires ClauseOk(c, positive) && (conjunction && c.Given? ==> Lacks(Inline(c.q), OR))
    ensures Reads(PrintedOne(c, positive, pk), MeansOne(c, positive, pk, row), conjunction, row)
  {
    hide Inline, Eval, Balanced, Lacks, ClauseOk, Means, Vanishes, Sound;
    ClauseSays(c, positive, pk, row);
    var t := Inline(BuildCondition(c, positive, pk));
    assert EvalAll([t], row) == [Eval(t, row)] by { assert [t][1..] == []; }
  }

  lemma {:induction false} PrintedSays(cs: seq<Clause>, positive: bool, conjunction: bool, pk: int, row: Record)
    requires ListOk(cs, positive, conjunction)
    ensures Reads(Printed(cs, positive, pk), MeansAll(cs, positive, pk, row), conjunction, row)
    decreases |cs|
  {
    if cs != [] {
      assert ListOk(cs[1..], positive, conjunction);
      hide Inline, Eval, Balanced, Lacks, ClauseOk, PrintedOne, MeansOne, Reads;
      OneReads(cs[0], positive, conjunction, pk, row);
      PrintedSays(cs[1..], positive, conjunction, pk, row);
      ReadsConcat(PrintedOne(cs[0], positive, pk), Printed(cs[1..], positive, pk),
                  MeansOne(cs[0], positive, pk, row), MeansAll(cs[1..], positive, pk, row), conjunction, row);
    }
  }

  lemma OnePrinted(c: Clause, positive: bool, pk: int)
    requires ClauseOk(c, positive)
    ensures |PrintedOne(c, positive, pk)| == if Vanishes(c, positive) then 0 else 1
  {
    hide Inline, Eval, Balanced, Lacks, ClauseOk, Means, Vanishes, Sound;
    ClauseSays(c, positive, pk, t => Unknown);
  }

  lemma {:induction false} SpeakingPrints(cs: seq<Clause>, positive: bool, pk: int)
    requires ListOk(cs, positive, false)
    ensures |Printed(cs, positive, pk)| == Speaking(cs, positive)
    decreases |cs|
  {
    if cs != [] {
      assert ClauseOk(cs[0], positive) && ListOk(cs[1..], positive, false);
      hide ListOk, ClauseOk, PrintedOne, Vanishes;
      OnePrinted(cs[0], positive, pk);
      SpeakingPrints(cs[1..], positive, pk);
    }
  }

  /** Conditions that can be joined by AND. */
  ghost predicate Joinable(ts: seq<Text>) {
    AllBalanced(ts) && (|ts| <= 1 || Conjuncts(ts))
  }

  lemma AndsRead(wheres: seq<Clause>, nots: seq<Clause>, pk: int, row: Record)
    requires AndsOk(wheres, nots)
    ensures var ts := Printed(wheres, true, pk) + Printed(nots, false, pk);
            var vs := MeansAll(wheres, true, pk, row) + MeansAll(nots, false, pk, row);
            Reads(ts, vs, false, row) && Joinable(ts)
  {
    hide Printed, MeansAll, EvalAll, ListOk, Conjuncts, AllBalanced, NoneEmpty;
    var w, x := Printed(wheres, true, pk), Printed(nots, false, pk);
    var vw, vx := MeansAll(wheres, true, pk, row), MeansAll(nots, false, pk, row);
    PrintedSays(wheres, true, false, pk, row);
    PrintedSays(nots, false, false, pk, row);
    ReadsConcat(w, x, vw, vx, false, row);
    if Speaking(wheres, true) + Speaking(nots, false) <= 1 {
      SpeakingPrints(wheres, true, pk);
      SpeakingPrints(nots, false, pk);
    } else {
      PrintedSays(wheres, true, true, pk, row);
      PrintedSays(nots, false, true, pk, row);
      ReadsConcat(w, x, vw, vx, true, row);
    }
  }

  /** A single condition is a conjunction even with an OR of its own. */
  lemma JoinableReads(ts: seq<Text>, row: Record)
    requires ts != [] && Joinable(ts)
    ensures Balanced(Join(ts, AND)) && Eval(Join(ts, AND), row) == AndAll(EvalAll(ts, row))
  {
    hide Eval, Balanced, Lacks;
    if |ts| == 1 {
      assert Balanced(ts[0]) && EvalAll(ts[1..], row) == [];
      var v := Eval(ts[0], row);
      assert EvalAll(ts, row) == [v] && AndAll([v][1..]) == True;
    } else {
      EvalJoinAnd(ts, row);
    }
  }

  lemma {:induction false} KeysPrinted(ks: seq<Key>, row: Record)
    ensures EvalAll(PrintedKeys(ks), row) == KeysMean(ks, row)
    ensures NoneEmpty(PrintedKeys(ks)) && Conjuncts(PrintedKeys(ks))
    decreases |ks|
  {
    hide Eval, Balanced, Lacks;
    if ks != [] {
      KeysPrinted(ks[1..], row);
      ValueClosed(ks[0].v);
      Predicate(ks[0].col, EQ, [Val(ks[0].v)], row);
      assert [Word(ks[0].col), EQ] + [Val(ks[0].v)] == PrintedKeys(ks)[0];
      assert PrintedKeys(ks)[1..] == PrintedKeys(ks[1..]);
    }
  }

  lemma PrimaryPrinted(s: Search, row: Record)
    ensures var p := DeletedAt(s) + PrintedKeys(s.primary);
            EvalAll(p, row) == Primary(s, row) && NoneEmpty(p) && Conjuncts(p)
  {
    hide Eval, Balanced, Lacks, KeysMean, PrintedKeys;
    KeysPrinted(s.primary, row);
    EvalAllConcat(DeletedAt(s), PrintedKeys(s.primary), row);
    if s.deletedAt.Some? {
      var t := [Word(s.deletedAt.value), IS_NULL];
      NothingClosed();
      Predicate(s.deletedAt.value, IS_NULL, [], row);
      assert t + [] == t && DeletedAt(s) == [t];
      assert EvalAll([t], row) == [Eval(t, row)] by { assert [t][1..] == []; }
    }
  }

  lemma JoinEmpty(ts: seq<Text>, sep: Tok)
    requires NoneEmpty(ts)
    ensures Join(ts, sep) == [] <==> ts == []
  {
    if |ts| == 1 { assert ts[0] != []; }
  }

  /** The And list binds tighter than the Or list behind it. */
  lemma CombineSays(ands: seq<Text>, ors: seq<Text>, row: Record)
    requires NoneEmpty(ands) && NoneEmpty(ors) && Joinable(ands) && AllBalanced(ors)
    ensures var c := Combine(ands, ors);
            && (c == [] <==> ands == [] && ors == []) && Balanced(c)
            && (c != [] ==> Eval(c, row) == Either(EvalAll(ands, row), EvalAll(ors, row)))
  {
    hide Eval, Balanced, EvalAll, AndAll, OrAll, Join, Joinable, AllBalanced, NoneEmpty;
    JoinEmpty(ands, AND);
    JoinEmpty(ors, OR);
    if ands != [] { JoinableReads(ands, row); }
    if ors != [] { EvalJoinOr(ors, row); }
    NothingAll();
    if ands != [] && ors != [] { EvalDisjunction(Join(ands, AND), Join(ors, OR), row); }
    NothingClosed();
  }

  lemma AssembleSays(p: seq<Text>, ands: seq<Text>, ors: seq<Text>, row: Record)
    requires NoneEmpty(p) && Conjuncts(p)
    requires NoneEmpty(ands) && NoneEmpty(ors) && Joinable(ands) && AllBalanced(ors)
    ensures var t := Assemble(p, ands, ors);
            && (t == [] <==> p == [] && ands == [] && ors == [])
            && (t != [] ==> Eval(t, row) == And(AndAll(EvalAll(p, row)), Either(EvalAll(ands, row), EvalAll(ors, row))))
  {
    hide Eval, Balanced, Lacks, EvalAll, AndAll, OrAll, Join, Combine, Joinable, Conjuncts, AllBalanced, NoneEmpty;
    var c := Combine(ands, ors);
    CombineSays(ands, ors, row);
    JoinEmpty(p, AND);
    var a, o := EvalAll(ands, row), EvalAll(ors, row);
    NothingAll();
    assert (p == [] ==> EvalAll(p, row) == []) && (ands == [] ==> a == []);
    if p != [] {
      EvalJoinAnd(p, row);
      if c != [] {
        var g := [LP] + c + [RP];
        Parenthesised(c, row);
        EvalConjunction(Join(p, AND), g, row);
        WithoutConnectives(Join(p, AND) + [AND] + g, row);
      }
    }
  }

  /** The WHERE, read with SQL precedence, is what the three lists mean. */
  lemma ReferenceSays(s: Search, pk: int, row: Record)
    requires SearchOk(s)
    ensures var t := Reference(s, pk); t != [] ==> Eval(t, row) == Expected(s, pk, row)
    ensures Passes(Reference(s, pk), row) <==> Expected(s, pk, row).True?
  {
    hide Printed, PrintedKeys, MeansAll, EvalAll, Eval, Assemble, AndAll, OrAll, Either, KeysMean, ListOk, And;
    hide NoneEmpty, AllBalanced, Conjuncts, Joinable, AndsOk, DeletedAt, Primary;
    PrimaryPrinted(s, row);
    AndsRead(s.wheres, s.nots, pk, row);
    PrintedSays(s.ors, true, false, pk, row);
    var p := DeletedAt(s) + PrintedKeys(s.primary);
    var w, x := Printed(s.wheres, true, pk), Printed(s.nots, false, pk);
    AssembleSays(p, w + x, Printed(s.ors, true, pk), row);
    if Reference(s, pk) == [] {
      assert EvalAll(p, row) == [] && EvalAll(w + x, row) == [] && EvalAll(Printed(s.ors, true, pk), row) == [];
      NothingExpected();
    }
  }

  lemma NothingExpected()
    ensures And(AndAll([]), Either([], [])) == True
  {
  }

  lemma ExpectedTrue(s: Search, pk: int, row: Record)
    ensures var ands := MeansAll(s.wheres, true, pk, row) + MeansAll(s.nots, false, pk, row);
            var ors := MeansAll(s.ors, true, pk, row);
            Expected(s, pk, row).True? <==>
              AndAll(Primary(s, row)).True? &&
              (if ands == [] && ors != [] then OrAll(ors).True? else AndAll(ands).True? || OrAll(ors).True?)
  {
    hide MeansAll, Primary, AndAll, OrAll;
  }

  /** A row passes exactly when the deleted-at and primary key conditions hold and either every Where and
      every Not holds or some Or does. */
  lemma WhereMeans(s: Search, pk: int, row: Record)
    requires SearchOk(s)
    ensures var w, x, o := MeansAll(s.wheres, true, pk, row), MeansAll(s.nots, false, pk, row), MeansAll(s.ors, true, pk, row);
            var p := Primary(s, row);
            Passes(Reference(s, pk), row) <==>
              AllTrue(p) && (if w + x == [] && o != [] then SomeTrue(o) else AllTrue(w + x) || SomeTrue(o))
  {
    hide *;
    var w, x, o := MeansAll(s.wheres, true, pk, row), MeansAll(s.nots, false, pk, row), MeansAll(s.ors, true, pk, row);
    var p, ands := Primary(s, row), w + x;
    ReferenceSays(s, pk, row);
    TrueOfAll(p);
    TrueOfAll(ands);
    TrueOfAll(o);
    ExpectedTrue(s, pk, row);
  }

  /** The caller's text is well formed, whatever connectives his queries bring to the outside. */
  ghost predicate SearchBalanced(s: Search) {
    ListOk(s.wheres, true, false) && ListOk(s.ors, true, false) && ListOk(s.nots, false, false)
  }

  lemma {:induction false} BalancedJoin(ts: seq<Text>, sep: Tok)
    requires AllBalanced(ts) && (sep == AND || sep == OR)
    ensures Balanced(Join(ts, sep))
    decreases |ts|
  {
    if |ts| > 1 {
      BalancedJoin(ts[1..], sep);
      Around(ts[0], sep, Join(ts[1..], sep), AND);
    }
  }

  /** No chain of Or, and no OR inside a query that was passed as a condition, lets a soft-deleted row
      through a scoped statement. */
  lemma SoftDeletedNeverPasses(s: Search, pk: int, row: Record)
    requires SearchBalanced(s) && s.deletedAt.Some? && !row([Word(s.deletedAt.value), IS_NULL]).True?
    ensures !Passes(Reference(s, pk), row)
  {
    hide Eval, Balanced, Lacks, Inline, ListOk, Join, Printed, PrintedKeys, MeansAll, EvalAll, KeysMean, EvalAnd;
    var p := DeletedAt(s) + PrintedKeys(s.primary);
    PrimaryPrinted(s, row);
    PrintedSays(s.wheres, true, false, pk, row);
    PrintedSays(s.nots, false, false, pk, row);
    PrintedSays(s.ors, true, false, pk, row);
    var ands, ors := Printed(s.wheres, true, pk) + Printed(s.nots, false, pk), Printed(s.ors, true, pk);
    var c := Combine(ands, ors);
    BalancedJoin(ands, AND);
    BalancedJoin(ors, OR);
    if Join(ands, AND) != [] && Join(ors, OR) != [] { Around(Join(ands, AND), OR, Join(ors, OR), AND); }
    EvalJoinAnd(p, row);
    TrueOfAll(Primary(s, row));
    assert Primary(s, row)[0] == row([Word(s.deletedAt.value), IS_NULL]);
    JoinEmpty(p, AND);
    if c != [] {
      var g := [LP] + c + [RP];
      Parenthesised(c, row);
      EvalConjunction(Join(p, AND), g, row);
      WithoutConnectives(Join(p, AND) + [AND] + g, row);
    }
  }
}
