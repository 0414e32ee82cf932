/** The scope that renders: its argument vector grows while the text is put together. */
module SqlScope {
  import opened Lists
  import opened SqlText
  import opened SqlBuild
  import opened SqlClause
  import opened SqlWhere
  import C = SqlConditions

  lemma AppendStep(d: Reps, x: Reps, rest: Reps)
    ensures Append(d, Append(x, rest)) == Append(Append(d, x), rest)
  {
    assert d.texts + (x.texts + rest.texts) == d.texts + x.texts + rest.texts;
    assert d.vals + (x.vals + rest.vals) == d.vals + x.vals + rest.vals;
  }

  lemma AppendIs(d: Reps, x: Reps)
    ensures Append(d, x).vals == d.vals + x.vals && Append(d, x).texts == d.texts + x.texts
  {
  }

  lemma AppendNone(d: Reps)
    ensures Append(d, Reps([], [])) == d && Append(Reps([], []), d) == d
  {
  }

  class Scope {
    var args: seq<int>
    const mode: Mode
    const pk: int

    constructor (mode: Mode, pk: int)
      ensures args == [] && this.mode == mode && this.pk == pk
    {
      args, this.mode, this.pk := [], mode, pk;
    }

    /** The text of one value, which joins the vector; a query is built, raw text is copied. */
    method AddToVars(i: Item) returns (text: Text)
      modifies this
      ensures var b := SqlBuild.AddToVars(i, |old(args)|, mode); text == b.text && args == old(args) + b.vals
      decreases i
    {
      match i
      case Raw(t) => text := t;
      case Expr(q) => text := Build(q);
      case Value(v) =>
        text := [Marker(mode, |args| + 1)];
        args := args + [v];
    }

    method AddAll(items: seq<Item>) returns (marks: seq<Text>)
      modifies this
      ensures var r := SqlBuild.AddAll(items, |old(args)|, mode); marks == r.texts && args == old(args) + r.vals
      decreases items
    {
      marks := [];
      ghost var added: seq<int> := [];
      ghost var total := SqlBuild.AddAll(items, |args|, mode);
      AppendNone(total);
      for k := 0 to |items|
        invariant args == old(args) + added
        invariant total == Append(Reps(marks, added), SqlBuild.AddAll(items[k..], |args|, mode))
      {
        ghost var b := SqlBuild.AddToVars(items[k], |args|, mode);
        assert items[k..][1..] == items[k + 1..] && items[k..][0] == items[k];
        AppendStep(Reps(marks, added), Reps([b.text], b.vals), SqlBuild.AddAll(items[k + 1..], |args| + |b.vals|, mode));
        var mark := AddToVars(items[k]);
        marks, added := marks + [mark], added + b.vals;
      }
      AppendNone(Reps(marks, added));
    }

    static lemma RowsStep(done: Reps, rows: seq<Row>, k: nat, n: nat, mode: Mode)
      requires k < |rows|
      ensures var c := SqlBuild.AddAll(rows[k].cells, n, mode);
              Append(done, SqlBuild.AddRows(rows[k..], n, mode)) ==
              Append(Append(done, OneRow(c)), SqlBuild.AddRows(rows[k + 1..], n + |c.vals|, mode))
    {
      hide Append, OneRow;
      var c := SqlBuild.AddAll(rows[k].cells, n, mode);
      assert rows[k..][1..] == rows[k + 1..] && rows[k..][0] == rows[k];
      AppendStep(done, OneRow(c), SqlBuild.AddRows(rows[k + 1..], n + |c.vals|, mode));
    }

    static lemma NoRows(n: nat, mode: Mode)
      ensures SqlBuild.AddRows([], n, mode) == Reps([], [])
    {
    }

    static lemma RowAppended(marks: seq<Text>, c: Reps, done: Reps)
      requires marks == done.texts
      ensures var r := Append(done, OneRow(c));
              r.vals == done.vals + c.vals &&
              r.texts == if |c.texts| > 0 then marks + [[LP] + Join(c.texts, COMMA) + [RP]] else marks
    {
      hide Join;
      assert done.texts + [] == done.texts;
    }

    method AddRows(rows: seq<Row>) returns (marks: seq<Text>)
      modifies this
      ensures var r := SqlBuild.AddRows(rows, |old(args)|, mode); marks == r.texts && args == old(args) + r.vals
      decreases rows
    {
      hide *;
      marks := [];
      ghost var done := Reps([], []);
      ghost var total := SqlBuild.AddRows(rows, |args|, mode);
      AppendNone(total);
      for k := 0 to |rows|
        invariant marks == done.texts && args == old(args) + done.vals
        invariant total == Append(done, SqlBuild.AddRows(rows[k..], |args|, mode))
      {
        RowsStep(done, rows, k, |args|, mode);
        ghost var c := SqlBuild.AddAll(rows[k].cells, |args|, mode);
        var cells := AddAll(rows[k].cells);
        ghost var before := marks;
        if |cells| > 0 {
          marks := marks + [[LP] + Join(cells, COMMA) + [RP]];
        }
        RowAppended(before, c, done);
        Associate(old(args), done.vals, c.vals);
        done := Append(done, OneRow(c));
      }
      AppendNone(done);
      NoRows(|args|, mode);
      assert rows[|rows|..] == [];
    }

    /** The replacements one argument contributes: one, or none for a slice of slices without cells. */
    method AddArg(a: Arg) returns (reps: seq<Text>)
      modifies this
      ensures var r := SqlBuild.AddArg(a, |old(args)|, mode); reps == r.texts && args == old(args) + r.vals
      decreases a
    {
      match a
      case One(i) =>
        var text := AddToVars(i);
        reps := [text];
      case Many(items) =>
        if |items| > 0 {
          var marks := AddAll(items);
          reps := [Join(marks, COMMA)];
        } else {
          reps := [[NULL]];
        }
      case Rows(rows) =>
        var marks := AddRows(rows);
        reps := if |marks| > 0 then [Join(marks, COMMA)] else [];
    }

    /** `Query.Build`: collects the replacements, then walks the text once. */
    method Build(q: Query) returns (text: Text)
      modifies this
      ensures var b := SqlBuild.Build(q, |old(args)|, mode); text == b.text && args == old(args) + b.vals
      decreases q
    {
      var reps: seq<Text> := [];
      ghost var added: seq<int> := [];
      ghost var total := AddArgs(q.args, |args|, mode);
      AppendNone(total);
      for k := 0 to |q.args|
        invariant args == old(args) + added
        invariant total == Append(Reps(reps, added), AddArgs(q.args[k..], |args|, mode))
      {
        ghost var a := SqlBuild.AddArg(q.args[k], |args|, mode);
        assert q.args[k..][1..] == q.args[k + 1..] && q.args[k..][0] == q.args[k];
        AppendStep(Reps(reps, added), a, AddArgs(q.args[k + 1..], |args| + |a.vals|, mode));
        var more := AddArg(q.args[k]);
        reps, added := reps + more, added + a.vals;
      }
      AppendNone(Reps(reps, added));
      text := Replace(q.text, reps);
    }

    /** The loop over the characters of the query. */
    static method Replace(t: Text, reps: seq<Text>) returns (text: Text)
      ensures text == Substitute(t, reps)
    {
      text := [];
      var i := 0;
      for j := 0 to |t|
        invariant i <= |reps|
        invariant Substitute(t, reps) == text + Substitute(t[j..], reps[i..])
      {
        assert t[j..][1..] == t[j + 1..];
        if t[j] == Quest && i < |reps| {
          assert reps[i..][1..] == reps[i + 1..];
          text := text + reps[i];
          i := i + 1;
        } else {
          text := text + [t[j]];
        }
      }
    }

    static lemma PairsStep(ps: seq<Pair>, positive: bool, k: nat)
      requires k < |ps|
      ensures var q, qs := PairQuery(ps[k], positive), PairQueries(ps[k..], positive);
              && C.Texts(qs) == [q.text] + C.Texts(PairQueries(ps[k + 1..], positive))
              && C.Args(qs) == q.args + C.Args(PairQueries(ps[k + 1..], positive))
    {
      hide PairQuery;
      assert ps[k..][1..] == ps[k + 1..];
      var q, qs := PairQuery(ps[k], positive), PairQueries(ps[k..], positive);
      assert qs[0] == q && qs[1..] == PairQueries(ps[k + 1..], positive);
    }

    /** The loop over a map's entries or a struct's fields. */
    static method JoinPairs(ps: seq<Pair>, positive: bool) returns (q: Query)
      ensures q == JoinQueries(PairQueries(ps, positive), AND)
    {
      var texts: seq<Text> := [];
      q := Query([], []);
      ghost var qs := PairQueries(ps, positive);
      assert ps[0..] == ps && ps[|ps|..] == [];
      assert C.Texts([]) == [] && C.Args([]) == [] && PairQueries([], positive) == [];
      hide *;
      for k := 0 to |ps|
        invariant C.Texts(qs) == texts + C.Texts(PairQueries(ps[k..], positive))
        invariant C.Args(qs) == q.args + C.Args(PairQueries(ps[k..], positive))
      {
        PairsStep(ps, positive, k);
        var one := PairQuery(ps[k], positive);
        Associate(texts, [one.text], C.Texts(PairQueries(ps[k + 1..], positive)));
        Associate(q.args, one.args, C.Args(PairQueries(ps[k + 1..], positive)));
        texts := texts + [one.text];
        q := q.(args := q.args + one.args);
      }
      assert texts + [] == texts && q.args + [] == q.args;
      q := q.(text := Join(texts, AND));
      C.JoinTexts(qs, AND);
    }

    static lemma KeysStep(ks: seq<Key>, k: nat)
      requires k < |ks|
      ensures var q, qs := KeyQuery(ks[k]), KeyQueries(ks[k..]);
              && C.Texts(qs) == [q.text] + C.Texts(KeyQueries(ks[k + 1..]))
              && C.Args(qs) == q.args + C.Args(KeyQueries(ks[k + 1..]))
    {
      hide KeyQuery;
      assert ks[k..][1..] == ks[k + 1..];
      var q, qs := KeyQuery(ks[k]), KeyQueries(ks[k..]);
      assert qs[0] == q && qs[1..] == KeyQueries(ks[k + 1..]);
    }

    /** The loop over the fields of an ID. */
    static method JoinKeys(ks: seq<Key>) returns (q: Query)
      ensures q == JoinQueries(KeyQueries(ks), AND)
    {
      var texts: seq<Text> := [];
      q := Query([], []);
      ghost var qs := KeyQueries(ks);
      assert ks[0..] == ks && ks[|ks|..] == [];
      assert C.Texts([]) == [] && C.Args([]) == [] && KeyQueries([]) == [];
      hide *;
      for k := 0 to |ks|
        invariant C.Texts(qs) == texts + C.Texts(KeyQueries(ks[k..]))
        invariant C.Args(qs) == q.args + C.Args(KeyQueries(ks[k..]))
      {
        KeysStep(ks, k);
        var one := KeyQuery(ks[k]);
        Associate(texts, [one.text], C.Texts(KeyQueries(ks[k + 1..])));
        Associate(q.args, one.args, C.Args(KeyQueries(ks[k + 1..])));
        texts := texts + [one.text];
        q := q.(args := q.args + one.args);
      }
      assert texts + [] == texts && q.args + [] == q.args;
      q := q.(text := Join(texts, AND));
      C.JoinTexts(qs, AND);
    }

    method BuildCondition(c: Clause, positive: bool) returns (q: Query)
      ensures q == SqlClause.BuildCondition(c, positive, pk)
    {
      hide Join, JoinQueries, PairQueries, KeyQueries;
      match c
      case Pairs(ps) => q := JoinPairs(ps, positive);
      case Ident(ks) => q := JoinKeys(ks);
      case _ => q := SqlClause.BuildCondition(c, positive, pk);
    }

    static lemma ConditionsStep(done: Reps, cs: seq<Clause>, positive: bool, pk: int, k: nat, n: nat, mode: Mode)
      requires k < |cs|
      ensures var b := BuildOne(cs[k], positive, pk, n, mode);
              Append(done, BuildAll(cs[k..], positive, pk, n, mode)) ==
              Append(Append(done, b), BuildAll(cs[k + 1..], positive, pk, n + |b.vals|, mode))
    {
      hide Append, BuildOne;
      var b := BuildOne(cs[k], positive, pk, n, mode);
      assert cs[k..][1..] == cs[k + 1..] && cs[k..][0] == cs[k];
      AppendStep(done, b, BuildAll(cs[k + 1..], positive, pk, n + |b.vals|, mode));
    }

    /** One of the three loops of `whereSQL`: what prints nothing is not appended. */
    method BuildConditions(cs: seq<Clause>, positive: bool) returns (texts: seq<Text>)
      modifies this
      ensures var r := BuildAll(cs, positive, pk, |old(args)|, mode); texts == r.texts && args == old(args) + r.vals
    {
      hide *;
      texts := [];
      ghost var done := Reps([], []);
      ghost var total := BuildAll(cs, positive, pk, |args|, mode);
      AppendNone(total);
      for k := 0 to |cs|
        invariant texts == done.texts && args == old(args) + done.vals
        invariant total == Append(done, BuildAll(cs[k..], positive, pk, |args|, mode))
      {
        ConditionsStep(done, cs, positive, pk, k, |args|, mode);
        ghost var b := BuildOne(cs[k], positive, pk, |args|, mode);
        var q := BuildCondition(cs[k], positive);
        ghost var built := SqlBuild.Build(q, |args|, mode);
        BuildOneIs(cs[k], positive, pk, |args|, mode);
        var text := Build(q);
        ghost var before := texts;
        if |text| > 0 {
          texts := texts + [text];
        }
        AppendIs(done, b);
        assert before + [] == before;
        Associate(old(args), done.vals, b.vals);
        done := Append(done, b);
      }
      AppendNone(done);
      NothingPrinted(positive, pk, |args|, mode);
      assert cs[|cs|..] == [];
    }

    static lemma PrimaryStep(done: Reps, ks: seq<Key>, k: nat, n: nat, mode: Mode)
      requires k < |ks|
      ensures Append(done, PrimaryAll(ks[k..], n, mode)) ==
              Append(Append(done, Reps([[Word(ks[k].col), EQ] + [Marker(mode, n + 1)]], [ks[k].v])), PrimaryAll(ks[k + 1..], n + 1, mode))
      ensures PrimaryAll([], n, mode) == Reps([], [])
    {
      hide Append;
      assert ks[k..][1..] == ks[k + 1..] && ks[k..][0] == ks[k];
      AppendStep(done, Reps([[Word(ks[k].col), EQ] + [Marker(mode, n + 1)]], [ks[k].v]), PrimaryAll(ks[k + 1..], n + 1, mode));
    }

    method BuildPrimary(ks: seq<Key>) returns (texts: seq<Text>)
      modifies this
      ensures var r := PrimaryAll(ks, |old(args)|, mode); texts == r.texts && args == old(args) + r.vals
    {
      assert PrimaryAll([], |args| + |ks|, mode) == Reps([], []);
      hide PrimaryAll, Append, Marker;
      texts := [];
      ghost var done := Reps([], []);
      ghost var total := PrimaryAll(ks, |args|, mode);
      AppendNone(total);
      for k := 0 to |ks|
        invariant texts == done.texts && args == old(args) + done.vals && |args| == |old(args)| + k
        invariant total == Append(done, PrimaryAll(ks[k..], |args|, mode))
      {
        PrimaryStep(done, ks, k, |args|, mode);
        ghost var one := Reps([[Word(ks[k].col), EQ] + [Marker(mode, |args| + 1)]], [ks[k].v]);
        AppendIs(done, one);
        Associate(old(args), done.vals, one.vals);
        var text := AddToVars(Value(ks[k].v));
        texts := texts + [[Word(ks[k].col), EQ] + text];
        done := Append(done, one);
      }
      AppendNone(done);
      assert ks[|ks|..] == [];
    }

    /** The condition of the scope and the vector it leaves behind. */
    method WhereSQL(s: Search) returns (sql: Text)
      modifies this
      ensures var b := WhereSql(s, pk, |old(args)|, mode); sql == b.text && args == old(args) + b.vals
    {
      hide PrimaryAll, BuildAll, Join, DeletedAt;
      ghost var n := |args|;
      ghost var p := PrimaryAll(s.primary, n, mode);
      ghost var w := BuildAll(s.wheres, true, pk, n + |p.vals|, mode);
      ghost var o := BuildAll(s.ors, true, pk, n + |p.vals| + |w.vals|, mode);
      ghost var x := BuildAll(s.nots, false, pk, n + |p.vals| + |w.vals| + |o.vals|, mode);
      var primary := DeletedAt(s);
      var keys := BuildPrimary(s.primary);
      primary := primary + keys;
      var ands := BuildConditions(s.wheres, true);
      var ors := BuildConditions(s.ors, true);
      var nots := BuildConditions(s.nots, false);
      ands := ands + nots;
      assert args == old(args) + (p.vals + w.vals + o.vals + x.vals);
      var orSql := Join(ors, OR);
      var combined := Join(ands, AND);
      if |combined| > 0 {
        if |orSql| > 0 {
          combined := combined + [OR] + orSql;
        }
      } else {
        combined := orSql;
      }
      if |primary| > 0 {
        sql := Join(primary, AND);
        if |combined| > 0 {
          sql := sql + [AND] + ([LP] + combined + [RP]);
        }
      } else {
        sql := combined;
      }
    }
  }

  /** `Conditions`: the three lists the builder methods append to. */
  class Conditions {
    var wheres: seq<Clause>
    var ors: seq<Clause>
    var nots: seq<Clause>

    constructor ()
      ensures wheres == ors == nots == []
    {
      wheres, ors, nots := [], [], [];
    }

    method Where(c: Clause)
      modifies this
      ensures wheres == old(wheres) + [c] && ors == old(ors) && nots == old(nots)
    {
      wheres := wheres + [c];
    }

    method Not(c: Clause)
      modifies this
      ensures nots == old(nots) + [c] && wheres == old(wheres) && ors == old(ors)
    {
      nots := nots + [c];
    }

    method Or(c: Clause)
      modifies this
      ensures ors == old(ors) + [c] && wheres == old(wheres) && nots == old(nots)
    {
      ors := ors + [c];
    }

    static method Collect(scope: Scope, cs: seq<Clause>, positive: bool) returns (texts: seq<Text>, args: seq<Arg>)
      ensures var qs := C.Queries(cs, positive, scope.pk); texts == C.Texts(qs) && args == C.Args(qs)
    {
      hide *;
      texts, args := [], [];
      ghost var qs, pk := C.Queries(cs, positive, scope.pk), scope.pk;
      assert cs[0..] == cs;
      for k := 0 to |cs|
        invariant C.Texts(qs) == texts + C.Texts(C.Queries(cs[k..], positive, pk))
        invariant C.Args(qs) == args + C.Args(C.Queries(cs[k..], positive, pk))
      {
        CollectStep(cs, positive, pk, k);
        var q := scope.BuildCondition(cs[k], positive);
        Associate(texts, [q.text], C.Texts(C.Queries(cs[k + 1..], positive, pk)));
        Associate(args, q.args, C.Args(C.Queries(cs[k + 1..], positive, pk)));
        texts, args := texts + [q.text], args + q.args;
      }
      NothingCollected(cs, positive, pk);
      assert texts + [] == texts && args + [] == args;
    }

    static lemma CollectStep(cs: seq<Clause>, positive: bool, pk: int, k: nat)
      requires k < |cs|
      ensures var q, rest := SqlClause.BuildCondition(cs[k], positive, pk), C.Queries(cs[k + 1..], positive, pk);
              && C.Texts(C.Queries(cs[k..], positive, pk)) == [q.text] + C.Texts(rest)
              && C.Args(C.Queries(cs[k..], positive, pk)) == q.args + C.Args(rest)
    {
      hide SqlClause.BuildCondition;
      assert cs[k..][1..] == cs[k + 1..];
      var qs := C.Queries(cs[k..], positive, pk);
      assert qs[1..] == C.Queries(cs[k + 1..], positive, pk);
    }

    static lemma NothingCollected(cs: seq<Clause>, positive: bool, pk: int)
      ensures C.Texts(C.Queries(cs[|cs|..], positive, pk)) == [] && C.Args(C.Queries(cs[|cs|..], positive, pk)) == []
    {
    }

    method WhereClause(scope: Scope) returns (result: Query)
      ensures result == C.WhereClause(wheres, ors, nots, scope.pk)
    {
      var w, wa := Collect(scope, wheres, true);
      var o, oa := Collect(scope, ors, true);
      var x, xa := Collect(scope, nots, false);
      var orSql, combined := Join(o, OR), Join(w + x, AND);
      if |combined| > 0 {
        if |orSql| > 0 {
          combined := combined + [OR] + orSql;
        }
      } else {
        combined := orSql;
      }
      result := Query(combined, wa + oa + xa);
    }
  }
}
