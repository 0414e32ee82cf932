/** What a rendered query says: each marker names its own value, in every mode and at every nesting. */
module SqlBinding {
  import opened SqlText
  import opened SqlBuild

  // ---------------------------------------------------------------- values written out

  lemma {:induction false} ItemSays(i: Item, n: nat, all: seq<int>)
    requires ItemEmpties(i) == 0 && At(all, n, AddToVars(i, n, Literal(all)).vals)
    ensures AddToVars(i, n, Literal(all)).text == InlineItem(i)
    decreases i
  {
    match i
    case Value(v) => assert all[n + 0] == [v][0];
    case Raw(_) =>
    case Expr(q) => QuerySays(q, n, all);
  }

  lemma {:induction false} ItemsSay(items: seq<Item>, n: nat, all: seq<int>)
    requires ItemsEmpties(items) == 0 && At(all, n, AddAll(items, n, Literal(all)).vals)
    ensures AddAll(items, n, Literal(all)).texts == InlineItems(items)
    ensures |InlineItems(items)| == |items|
    decreases items
  {
    if items != [] {
      var b := AddToVars(items[0], n, Literal(all));
      AtSplit(all, n, b.vals, AddAll(items[1..], n + |b.vals|, Literal(all)).vals);
      ItemSays(items[0], n, all);
      ItemsSay(items[1..], n + |b.vals|, all);
    }
  }

  lemma {:induction false} RowsSay(rows: seq<Row>, n: nat, all: seq<int>)
    requires RowsEmpties(rows) == 0 && At(all, n, AddRows(rows, n, Literal(all)).vals)
    ensures AddRows(rows, n, Literal(all)).texts == InlineRows(rows)
    ensures InlineRows(rows) == [] <==> NoCells(rows)
    decreases rows
  {
    hide AddAll, ItemsEmpties, At, Join;
    if rows != [] {
      var c := AddAll(rows[0].cells, n, Literal(all));
      AtSplit(all, n, c.vals, AddRows(rows[1..], n + |c.vals|, Literal(all)).vals);
      ItemsSay(rows[0].cells, n, all);
      RowsSay(rows[1..], n + |c.vals|, all);
    }
  }

  lemma {:induction false} ArgSays(a: Arg, n: nat, all: seq<int>)
    requires ArgEmpties(a) == 0 && At(all, n, AddArg(a, n, Literal(all)).vals)
    ensures AddArg(a, n, Literal(all)).texts == [InlineArg(a)]
    decreases a
  {
    match a
    case One(i) => ItemSays(i, n, all);
    case Many(items) => if items != [] { ItemsSay(items, n, all); }
    case Rows(rows) => RowsSay(rows, n, all);
  }

  lemma {:induction false} ArgsSay(args: seq<Arg>, n: nat, all: seq<int>)
    requires ArgsEmpties(args) == 0 && At(all, n, AddArgs(args, n, Literal(all)).vals)
    ensures AddArgs(args, n, Literal(all)).texts == InlineArgs(args)
    decreases args
  {
    if args != [] {
      var a := AddArg(args[0], n, Literal(all));
      AtSplit(all, n, a.vals, AddArgs(args[1..], n + |a.vals|, Literal(all)).vals);
      ArgSays(args[0], n, all);
      ArgsSay(args[1..], n + |a.vals|, all);
    }
  }

  lemma {:induction false} QuerySays(q: Query, n: nat, all: seq<int>)
    requires Empties(q) == 0 && At(all, n, Build(q, n, Literal(all)).vals)
    ensures Build(q, n, Literal(all)).text == Inline(q)
    decreases q
  {
    ArgsSay(q.args, n, all);
  }

  // ---------------------------------------------------------------- what is left in the text

  /** `k` question marks are left in the replacements, and no numbered marker. */
  ghost predicate Left(r: Reps, k: nat) {
    CountAll(r.texts, Quest) == k && forall i :: 0 <= i < |r.texts| ==> Unmarked(r.texts[i])
  }

  lemma LeftNothing()
    ensures Left(Reps([], []), 0)
  {
  }

  lemma LeftSame(r: Reps, s: Reps, k: nat)
    requires Left(r, k) && r.texts == s.texts
    ensures Left(s, k)
  {
  }

  lemma LeftAppend(r: Reps, s: Reps, j: nat, k: nat)
    requires Left(r, j) && Left(s, k)
    ensures Left(Append(r, s), j + k)
  {
    hide CountAll, Unmarked;
    AllConcat(r.texts, s.texts, 0, Dollar, Quest);
  }

  lemma LeftOne(t: Text, v: seq<int>)
    requires Unmarked(t)
    ensures Left(Reps([t], v), Count(t, Quest))
  {
    hide Unmarked, Count;
    assert CountAll([t], Quest) == Count(t, Quest) + CountAll([t][1..], Quest);
  }

  lemma {:induction false} UnmarkedJoin(texts: seq<Text>)
    requires forall i :: 0 <= i < |texts| ==> Unmarked(texts[i])
    ensures Unmarked(Join(texts, COMMA))
    decreases |texts|
  {
    if |texts| > 1 {
      assert forall i :: 0 <= i < |texts[1..]| ==> texts[1..][i] == texts[i + 1];
      UnmarkedJoin(texts[1..]);
      var a, b := texts[0] + [COMMA], Join(texts[1..], COMMA);
      assert Unmarked(texts[0]) && Unmarked(b) && Unmarked(a);
    }
  }

  lemma LeftJoin(r: Reps, k: nat)
    requires Left(r, k)
    ensures Left(Reps([Join(r.texts, COMMA)], r.vals), k) && Left(OneRow(r), k)
  {
    hide Count, Join;
    var t := Join(r.texts, COMMA);
    CountJoin(r.texts, COMMA, Quest);
    UnmarkedJoin(r.texts);
    LeftOne(t, r.vals);
    Parens(t, 0, Dollar);
    assert Unmarked([LP] + t + [RP]);
    LeftOne([LP] + t + [RP], r.vals);
  }

  lemma {:induction false} UnmarkedSubstitute(t: Text, reps: seq<Text>)
    requires Plain(t) && forall i :: 0 <= i < |reps| ==> Unmarked(reps[i])
    ensures Unmarked(Substitute(t, reps))
    decreases |t|
  {
    if t != [] {
      if t[0] == Quest && reps != [] {
        assert Unmarked(reps[0]);
        UnmarkedSubstitute(t[1..], reps[1..]);
      } else {
        UnmarkedSubstitute(t[1..], reps);
      }
    }
  }

  lemma {:induction false} ItemLeaves(i: Item, n: nat)
    requires ItemFits(i)
    ensures var b := AddToVars(i, n, Dollar); Unmarked(b.text) && Count(b.text, Quest) == ItemEmpties(i)
    decreases i
  {
    match i
    case Value(_) => CountNone([Hole], Quest);
    case Raw(_) =>
    case Expr(q) => QueryLeaves(q, n);
  }

  lemma {:induction false} ItemsLeave(items: seq<Item>, n: nat)
    requires ItemsFit(items)
    ensures Left(AddAll(items, n, Dollar), ItemsEmpties(items))
    decreases items
  {
    hide ItemFits, AddToVars, Count, Unmarked, ItemEmpties;
    if items != [] {
      var b := AddToVars(items[0], n, Dollar);
      ItemLeaves(items[0], n);
      ItemsLeave(items[1..], n + |b.vals|);
      LeftOne(b.text, b.vals);
      LeftAppend(Reps([b.text], b.vals), AddAll(items[1..], n + |b.vals|, Dollar),
                 ItemEmpties(items[0]), ItemsEmpties(items[1..]));
    }
  }

  lemma {:induction false} RowsLeave(rows: seq<Row>, n: nat)
    requires RowsFit(rows)
    ensures Left(AddRows(rows, n, Dollar), RowsEmpties(rows))
    decreases rows
  {
    hide ItemsFit, AddAll, Count, Unmarked, ItemsEmpties, OneRow;
    if rows != [] {
      var c := AddAll(rows[0].cells, n, Dollar);
      ItemsLeave(rows[0].cells, n);
      RowsLeave(rows[1..], n + |c.vals|);
      LeftJoin(c, ItemsEmpties(rows[0].cells));
      LeftAppend(OneRow(c), AddRows(rows[1..], n + |c.vals|, Dollar),
                 ItemsEmpties(rows[0].cells), RowsEmpties(rows[1..]));
    }
  }

  /** Besides the `?` in its replacement, an argument without a replacement leaves its own. */
  lemma {:induction false} ArgLeaves(a: Arg, n: nat)
    requires ArgFits(a)
    ensures var r := AddArg(a, n, Dollar);
            |r.texts| <= 1 && ArgEmpties(a) + |r.texts| >= 1 && Left(r, ArgEmpties(a) + |r.texts| - 1)
    decreases a
  {
    hide Left, ItemFits, ItemsFit, RowsFit, NoCells, AddToVars, AddAll, AddRows, Count, Join, ItemEmpties, RowsEmpties;
    match a
    case One(i) =>
      ItemLeaves(i, n);
      LeftOne(AddToVars(i, n, Dollar).text, AddToVars(i, n, Dollar).vals);
    case Many(items) =>
      if items == [] {
        CountNone([NULL], Quest);
        LeftOne([NULL], []);
      } else {
        ItemsLeave(items, n);
        LeftJoin(AddAll(items, n, Dollar), ItemsEmpties(items));
      }
    case Rows(rows) =>
      RowsInEveryMode(rows, n, n, Dollar);
      RowsLeave(rows, n);
      if NoCells(rows) {
        LeftSame(AddRows(rows, n, Dollar), Reps([], AddRows(rows, n, Dollar).vals), RowsEmpties(rows));
      } else {
        LeftJoin(AddRows(rows, n, Dollar), RowsEmpties(rows));
      }
  }

  lemma {:induction false} ArgsLeave(args: seq<Arg>, n: nat)
    requires ArgsFit(args)
    ensures var r := AddArgs(args, n, Dollar);
            |r.texts| <= |args| && ArgsEmpties(args) + |r.texts| >= |args| &&
            Left(r, ArgsEmpties(args) + |r.texts| - |args|)
    decreases args
  {
    hide Left, ArgFits, AddArg, ArgEmpties;
    if args == [] {
      LeftNothing();
    } else {
      var a := AddArg(args[0], n, Dollar);
      ArgLeaves(args[0], n);
      ArgsLeave(args[1..], n + |a.vals|);
      var r := AddArgs(args[1..], n + |a.vals|, Dollar);
      LeftAppend(a, r, ArgEmpties(args[0]) + |a.texts| - 1, ArgsEmpties(args[1..]) + |r.texts| - |args[1..]|);
    }
  }

  /** The `?` left without a value are exactly the slices of slices without cells. */
  lemma {:induction false} QueryLeaves(q: Query, n: nat)
    requires Fits(q)
    ensures var b := Build(q, n, Dollar); Unmarked(b.text) && Count(b.text, Quest) == Empties(q)
    decreases q
  {
    ArgsLeave(q.args, n);
    var r := AddArgs(q.args, n, Dollar);
    RelabelSubstitute(q.text, r.texts, n, Dollar);
    UnmarkedSubstitute(q.text, r.texts);
  }

  // ---------------------------------------------------------------- what a query says holds no question mark

  lemma {:induction false} ItemAsksNothing(i: Item)
    requires ItemFits(i)
    ensures Count(InlineItem(i), Quest) == 0
    decreases i
  {
    match i
    case Value(v) => CountNone([Val(v)], Quest);
    case Raw(_) =>
    case Expr(q) => QueryAsksNothing(q);
  }

  lemma {:induction false} ItemsAskNothing(items: seq<Item>)
    requires ItemsFit(items)
    ensures CountAll(InlineItems(items), Quest) == 0
    decreases items
  {
    if items != [] {
      ItemAsksNothing(items[0]);
      ItemsAskNothing(items[1..]);
      assert InlineItems(items)[1..] == InlineItems(items[1..]);
    }
  }

  lemma {:induction false} RowsAskNothing(rows: seq<Row>)
    requires RowsFit(rows)
    ensures CountAll(InlineRows(rows), Quest) == 0
    decreases rows
  {
    hide Count, Join, ItemsFit, InlineItems;
    if rows != [] {
      ItemsAskNothing(rows[0].cells);
      RowsAskNothing(rows[1..]);
      var t := Join(InlineItems(rows[0].cells), COMMA);
      CountJoin(InlineItems(rows[0].cells), COMMA, Quest);
      Parens(t, 0, Dollar);
      if rows[0].cells != [] { assert InlineRows(rows)[1..] == InlineRows(rows[1..]); }
    }
  }

  lemma {:induction false} ArgAsksNothing(a: Arg)
    requires ArgFits(a)
    ensures Count(InlineArg(a), Quest) == 0
    decreases a
  {
    match a
    case One(i) => ItemAsksNothing(i);
    case Many(items) =>
      ItemsAskNothing(items);
      CountNone([NULL], Quest);
      CountJoin(InlineItems(items), COMMA, Quest);
    case Rows(rows) =>
      RowsAskNothing(rows);
      CountJoin(InlineRows(rows), COMMA, Quest);
  }

  lemma {:induction false} ArgsAskNothing(args: seq<Arg>)
    requires ArgsFit(args)
    ensures CountAll(InlineArgs(args), Quest) == 0
    decreases args
  {
    hide ArgFits, InlineArg, Count;
    if args != [] {
      ArgAsksNothing(args[0]);
      ArgsAskNothing(args[1..]);
      assert InlineArgs(args)[1..] == InlineArgs(args[1..]);
    }
  }

  lemma {:induction false} QueryAsksNothing(q: Query)
    requires Fits(q)
    ensures Count(Inline(q), Quest) == 0
    decreases q
  {
    ArgsAskNothing(q.args);
    RelabelSubstitute(q.text, InlineArgs(q.args), 0, Dollar);
  }

  lemma {:induction false} RelabelKeepsQuests(t: Text, n: nat, all: seq<int>)
    ensures Count(Relabel(t, n, Literal(all)), Quest) == Count(t, Quest)
    decreases |t|
  {
    if t != [] { RelabelKeepsQuests(t[1..], if t[0] == Hole then n + 1 else n, all); }
  }

  // ---------------------------------------------------------------- main results

  /** Numbered markers: the markers are the next numbers of the vector, in order and without gaps, and read
      through any later vector the text says what the query says exactly when no slice of slices is empty. */
  lemma NumberedMarkersBind(q: Query, n: nat, all: seq<int>)
    requires Fits(q) && At(all, n, Build(q, n, Numbered).vals)
    ensures var b := Build(q, n, Numbered);
            && Marks(b.text) == Range(n, |b.vals|)
            && Resolve(b.text, all) == Build(q, n, Literal(all)).text
            && (Resolve(b.text, all) == Inline(q) <==> Empties(q) == 0)
  {
    hide *;
    var d := Build(q, 0, Dollar);
    AtFits(all, n, Build(q, n, Numbered).vals);
    BuildInEveryMode(q, n, 0, Numbered);
    BuildInEveryMode(q, n, 0, Literal(all));
    QueryLeaves(q, 0);
    MarksRelabelled(d.text, n);
    ResolveRelabelled(d.text, n, all);
    RelabelKeepsQuests(d.text, n, all);
    QueryAsksNothing(q);
    if Empties(q) == 0 { QuerySays(q, n, all); }
  }

  /** Positional markers: filling them in order gives what the query says under the same condition. */
  lemma PositionalMarkersBind(q: Query, n: nat)
    requires Fits(q)
    ensures var b := Build(q, n, Dollar);
            Count(b.text, Hole) == |b.vals| && (Fill(b.text, b.vals) == Inline(q) <==> Empties(q) == 0)
  {
    hide *;
    var b := Build(q, n, Dollar);
    BuildInEveryMode(q, n, n, Dollar);
    BuildInEveryMode(q, 0, n, Literal(b.vals));
    AtAll(b.vals);
    FillRelabelled(b.text, 0, b.vals, b.vals);
    QueryLeaves(q, n);
    RelabelKeepsQuests(b.text, 0, b.vals);
    QueryAsksNothing(q);
    if Empties(q) == 0 { QuerySays(q, 0, b.vals); }
  }

  /** The smallest such query: an empty slice of slices has no replacement, so the value after it takes its
      place. */
  lemma EmptyRowsShift()
    ensures var q := Query([IN, Quest, EQ, Quest], [Rows([]), One(Value(7))]);
            Fits(q) && Build(q, 0, Numbered) == Built([IN, Mark(1), EQ, Quest], [7])
  {
    var t := [IN, Quest, EQ, Quest];
    var a: seq<Arg> := [Rows([]), One(Value(7))];
    var u: seq<Text> := [[Mark(1)]];
    assert a[1..] == [One(Value(7))] && a[1..][1..] == [];
    assert ArgsFit(a) && AddArgs(a[1..], 0, Numbered) == Reps(u, [7]) && AddArgs(a, 0, Numbered) == Reps(u, [7]);
    hide Substitute, Count, ArgsFit, AddArgs, Plain;
    ShiftedText(t, u);
  }

  lemma ShiftedText(t: Text, u: seq<Text>)
    requires t == [IN, Quest, EQ, Quest] && u == [[Mark(1)]]
    ensures Plain(t) && Count(t, Quest) == 2 && Substitute(t, u) == [IN, Mark(1), EQ, Quest]
  {
    assert t[1..] == [Quest, EQ, Quest] && t[2..] == [EQ, Quest] && t[3..] == [Quest] && u[1..] == [];
    assert t[1..][1..] == t[2..] && t[2..][1..] == t[3..] && t[3..][1..] == [];
    assert Count(t[3..], Quest) == 1 && Count(t[2..], Quest) == 1 && Count(t[1..], Quest) == 2;
    assert Substitute(t[3..][1..], []) == [] && Substitute(t[3..], []) == t[3..] && Substitute(t[2..], []) == t[2..];
    assert Substitute(t[1..], u) == [Mark(1)] + t[2..];
  }
}
