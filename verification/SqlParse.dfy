/** A search condition read with the precedence of section 8.12 of SQL-92 (OR, then AND, then NOT), in
    three-valued logic. */
module SqlParse {
  import opened SqlText
  import opened SqlBuild

  datatype Truth = True | False | Unknown

  function And(a: Truth, b: Truth): Truth {
    if a.False? || b.False? then False else if a.True? && b.True? then True else Unknown
  }

  function Or(a: Truth, b: Truth): Truth {
    if a.True? || b.True? then True else if a.False? && b.False? then False else Unknown
  }

  function Not(a: Truth): Truth {
    match a case True => False case False => True case Unknown => Unknown
  }

  /** A row decides the predicates: runs of text between the connectives. */
  type Record = Text -> Truth

  // ---------------------------------------------------------------- parentheses

  /** The nesting depth after `t`, read from depth `d`; -1 once a parenthesis closes too much. */
  function Depth(t: Text, d: nat): int {
    if t == [] then d
    else if t[0] == LP then Depth(t[1..], d + 1)
    else if t[0] == RP then (if d == 0 then -1 else Depth(t[1..], d - 1))
    else Depth(t[1..], d)
  }

  predicate Balanced(t: Text) {
    Depth(t, 0) == 0
  }

  /** The position of the first `x` outside all parentheses, `|t|` if there is none. */
  function Find(t: Text, d: nat, x: Tok): (i: nat)
    ensures i <= |t| && (i < |t| ==> t[i] == x)
  {
    if t == [] then 0
    else if t[0] == x && d == 0 then 0
    else 1 + Find(t[1..], if t[0] == LP then d + 1 else if t[0] == RP && d > 0 then d - 1 else d, x)
  }

  /** `t` is one parenthesis with its partner at the other end. */
  predicate Grouped(t: Text) {
    |t| >= 2 && t[0] == LP && Find(t[1..], 0, RP) == |t| - 2
  }

  // ---------------------------------------------------------------- the reader

  function Eval(t: Text, row: Record): Truth
    decreases |t|, 2
  {
    var i := Find(t, 0, OR);
    if i < |t| then Or(EvalAnd(t[..i], row), Eval(t[i + 1..], row)) else EvalAnd(t, row)
  }

  function EvalAnd(t: Text, row: Record): Truth
    decreases |t|, 1
  {
    var i := Find(t, 0, AND);
    if i < |t| then And(EvalNot(t[..i], row), EvalAnd(t[i + 1..], row)) else EvalNot(t, row)
  }

  function EvalNot(t: Text, row: Record): Truth
    decreases |t|, 0
  {
    if t != [] && t[0] == NOT then Not(EvalNot(t[1..], row))
    else if Grouped(t) then Eval(t[1..|t| - 1], row)
    else row(t)
  }

  // ---------------------------------------------------------------- reading what was put together

  lemma {:induction false} DepthConcat(a: Text, b: Text, d: nat)
    requires Depth(a, d) >= 0
    ensures Depth(a + b, d) == Depth(b, Depth(a, d))
    decreases |a|
  {
    if a == [] {
      assert a + b == b;
    } else {
      assert (a + b)[1..] == a[1..] + b;
      DepthConcat(a[1..], b, if a[0] == LP then d + 1 else if a[0] == RP then d - 1 else d);
    }
  }

  /** A closed text hides nothing from the search behind it, and a search that stops inside stops there. */
  lemma {:induction false} FindConcat(a: Text, b: Text, d: nat, x: Tok)
    requires Depth(a, d) >= 0
    ensures Find(a + b, d, x) == if Find(a, d, x) < |a| then Find(a, d, x) else |a| + Find(b, Depth(a, d), x)
    decreases |a|
  {
    if a == [] {
      assert a + b == b;
    } else {
      assert (a + b)[1..] == a[1..] + b && (a + b)[0] == a[0];
      if !(a[0] == x && d == 0) {
        var e := if a[0] == LP then d + 1 else if a[0] == RP then d - 1 else d;
        FindConcat(a[1..], b, e, x);
        assert Find(a + b, d, x) == 1 + Find(a[1..] + b, e, x);
      }
    }
  }

  /** No closing parenthesis of a balanced text is outside it, at any depth. */
  lemma {:induction false} NoClosing(a: Text, d: nat)
    requires Depth(a, d) >= 0
    ensures Find(a, d, RP) == |a|
    decreases |a|
  {
    if a != [] {
      NoClosing(a[1..], if a[0] == LP then d + 1 else if a[0] == RP then d - 1 else d);
    }
  }

  /** A connective inside parentheses is not seen. */
  lemma {:induction false} Inside(a: Text, d: nat, x: Tok)
    requires x != LP && x != RP && Depth(a, 0) >= 0
    ensures Find(a, d + 1, x) == |a|
    decreases |a|
  {
    InsideFrom(a, d + 1, 0, x);
  }

  lemma {:induction false} InsideFrom(a: Text, d: nat, e: nat, x: Tok)
    requires x != LP && x != RP && Depth(a, e) >= 0 && d > e
    ensures Find(a, d, x) == |a|
    decreases |a|
  {
    if a != [] {
      if a[0] == LP {
        InsideFrom(a[1..], d + 1, e + 1, x);
      } else if a[0] == RP {
        InsideFrom(a[1..], d - 1, e - 1, x);
      } else {
        InsideFrom(a[1..], d, e, x);
      }
    }
  }

  /** A text without `x` outside its parentheses. */
  predicate Lacks(t: Text, x: Tok) {
    Find(t, 0, x) == |t|
  }

  lemma LastParen(d: nat, x: Tok)
    requires d > 0 && x != RP
    ensures Depth([RP], d) == d - 1 && Find([RP], d, x) == 1 && Find([RP], 0, RP) == 0
  {
    assert [RP][1..] == [];
  }

  lemma FirstParen(t: Text, x: Tok)
    requires x != LP
    ensures Depth([LP] + t, 0) == Depth(t, 1) && Find([LP] + t, 0, x) == 1 + Find(t, 1, x)
  {
    assert ([LP] + t)[1..] == t;
  }

  /** No connective is outside the parentheses, and the first one has its partner at the end. */
  lemma ParenShape(a: Text)
    requires Balanced(a)
    ensures var g := [LP] + a + [RP]; Balanced(g) && Lacks(g, OR) && Lacks(g, AND) && Grouped(g)
  {
    hide Depth, Find;
    var g, t := [LP] + a + [RP], a + [RP];
    FirstParen(t, OR);
    FirstParen(t, AND);
    assert g == [LP] + t && g[1..] == t && |g| == |t| + 1;
    DepthShift(a, 0);
    DepthConcat(a, [RP], 1);
    LastParen(1, OR);
    LastParen(1, AND);
    InsideFrom(a, 1, 0, OR);
    InsideFrom(a, 1, 0, AND);
    FindConcat(a, [RP], 1, OR);
    FindConcat(a, [RP], 1, AND);
    NoClosing(a, 0);
    FindConcat(a, [RP], 0, RP);
  }

  lemma Parenthesised(a: Text, row: Record)
    requires Balanced(a)
    ensures var g := [LP] + a + [RP];
            && Balanced(g) && Lacks(g, OR) && Lacks(g, AND)
            && Eval(g, row) == EvalAnd(g, row) == EvalNot(g, row) == Eval(a, row)
  {
    var g := [LP] + a + [RP];
    ParenShape(a);
    hide Find, Depth;
    assert g[1..|g| - 1] == a && g[0] != NOT;
    assert EvalNot(g, row) == Eval(a, row);
  }

  lemma {:induction false} DepthShift(a: Text, d: nat)
    requires Depth(a, d) >= 0
    ensures Depth(a, d + 1) == Depth(a, d) + 1
    decreases |a|
  {
    if a != [] {
      DepthShift(a[1..], if a[0] == LP then d + 1 else if a[0] == RP then d - 1 else d);
    }
  }

  /** Two balanced texts around a connective: where a search for `y` stops in the whole. */
  lemma Around(a: Text, x: Tok, b: Text, y: Tok)
    requires Balanced(a) && Balanced(b) && x != LP && x != RP && y != LP && y != RP
    ensures var t := a + [x] + b;
            && Balanced(t) && (Find(a, 0, y) < |a| ==> Find(t, 0, y) == Find(a, 0, y))
            && (Lacks(a, y) && x == y ==> Find(t, 0, y) == |a|)
            && (Lacks(a, y) && Lacks(b, y) && x != y ==> Lacks(t, y))
  {
    var t := a + [x] + b;
    assert t == a + ([x] + b) && ([x] + b)[1..] == b;
    DepthConcat(a, [x] + b, 0);
    FindConcat(a, [x] + b, 0, y);
  }

  lemma WithoutConnectives(t: Text, row: Record)
    requires Lacks(t, OR)
    ensures Eval(t, row) == EvalAnd(t, row)
    ensures Lacks(t, AND) ==> EvalAnd(t, row) == EvalNot(t, row)
  {
  }

  /** AND between two balanced texts; an OR of the right one binds weaker, the left one must have none. */
  lemma {:induction false} EvalConjunction(a: Text, b: Text, row: Record)
    requires Balanced(a) && Balanced(b)
    ensures Balanced(a + [AND] + b)
    ensures EvalAnd(a + [AND] + b, row) == And(EvalAnd(a, row), EvalAnd(b, row))
    ensures Lacks(a, OR) && Lacks(b, OR) ==> Lacks(a + [AND] + b, OR)
    decreases |a|
  {
    hide Balanced, Find, EvalNot;
    var t := a + [AND] + b;
    Around(a, AND, b, AND);
    Around(a, AND, b, OR);
    var i := Find(a, 0, AND);
    if i < |a| {
      Split(a, i, AND);
      assert t[..i] == a[..i] && t[i + 1..] == a[i + 1..] + [AND] + b;
      EvalConjunction(a[i + 1..], b, row);
    } else {
      assert t[..|a|] == a && t[|a| + 1..] == b;
    }
  }

  /** The part behind a connective found outside all parentheses is balanced with the part before. */
  lemma Split(a: Text, i: nat, x: Tok)
    requires Balanced(a) && x != LP && x != RP && i == Find(a, 0, x) < |a|
    ensures Balanced(a[..i]) && Balanced(a[i + 1..])
  {
    SplitFrom(a, 0, i, x);
  }

  lemma {:induction false} SplitFrom(a: Text, d: nat, i: nat, x: Tok)
    requires Depth(a, d) >= 0 && x != LP && x != RP && i == Find(a, d, x) < |a|
    ensures Depth(a[..i], d) == 0 && Depth(a[i + 1..], 0) == Depth(a, d)
    decreases |a|
  {
    if a[0] == x && d == 0 {
    } else {
      SplitFrom(a[1..], if a[0] == LP then d + 1 else if a[0] == RP then d - 1 else d, i - 1, x);
      assert a[..i][1..] == a[1..][..i - 1] && a[i + 1..] == a[1..][i - 1 + 1..];
    }
  }

  /** OR between two balanced texts. */
  lemma {:induction false} EvalDisjunction(a: Text, b: Text, row: Record)
    requires Balanced(a) && Balanced(b)
    ensures Balanced(a + [OR] + b)
    ensures Eval(a + [OR] + b, row) == Or(Eval(a, row), Eval(b, row))
    decreases |a|
  {
    hide Balanced, Find, EvalAnd;
    var t := a + [OR] + b;
    Around(a, OR, b, OR);
    var i := Find(a, 0, OR);
    if i < |a| {
      Split(a, i, OR);
      assert t[..i] == a[..i] && t[i + 1..] == a[i + 1..] + [OR] + b;
      EvalDisjunction(a[i + 1..], b, row);
    } else {
      assert t[..|a|] == a && t[|a| + 1..] == b;
    }
  }

  // ---------------------------------------------------------------- lists of conditions

  function AndAll(vs: seq<Truth>): Truth {
    if vs == [] then True else And(vs[0], AndAll(vs[1..]))
  }

  function OrAll(vs: seq<Truth>): Truth {
    if vs == [] then False else Or(vs[0], OrAll(vs[1..]))
  }

  function EvalAll(ts: seq<Text>, row: Record): (r: seq<Truth>)
    ensures |r| == |ts|
  {
    if ts == [] then [] else [Eval(ts[0], row)] + EvalAll(ts[1..], row)
  }

  ghost predicate AllBalanced(ts: seq<Text>) {
    forall k :: 0 <= k < |ts| ==> Balanced(ts[k])
  }

  /** The conditions of a conjunction bring no OR of their own. */
  ghost predicate Conjuncts(ts: seq<Text>) {
    forall k :: 0 <= k < |ts| ==> Balanced(ts[k]) && Lacks(ts[k], OR)
  }

  lemma ConjunctsTail(ts: seq<Text>)
    requires Conjuncts(ts) && ts != []
    ensures Conjuncts(ts[1..])
  {
    hide Balanced, Lacks;
  }

  lemma {:induction false} EvalJoinAnd(ts: seq<Text>, row: Record)
    requires ts != [] && Conjuncts(ts)
    ensures var t := Join(ts, AND);
            Balanced(t) && Lacks(t, OR) && Eval(t, row) == EvalAnd(t, row) == AndAll(EvalAll(ts, row))
    decreases |ts|
  {
    assert Balanced(ts[0]) && Lacks(ts[0], OR);
    hide Conjuncts, Balanced;
    if |ts| > 1 {
      ConjunctsTail(ts);
      EvalJoinAnd(ts[1..], row);
      EvalConjunction(ts[0], Join(ts[1..], AND), row);
      assert Eval(ts[0], row) == EvalAnd(ts[0], row);
    } else {
      assert AndAll(EvalAll(ts, row)[1..]) == True;
    }
  }

  lemma {:induction false} EvalJoinOr(ts: seq<Text>, row: Record)
    requires ts != [] && AllBalanced(ts)
    ensures var t := Join(ts, OR); Balanced(t) && Eval(t, row) == OrAll(EvalAll(ts, row))
    decreases |ts|
  {
    if |ts| > 1 {
      EvalJoinOr(ts[1..], row);
      EvalDisjunction(ts[0], Join(ts[1..], OR), row);
    } else {
      assert OrAll(EvalAll(ts, row)[1..]) == False;
    }
  }

  lemma NothingAll()
    ensures AndAll([]) == True && OrAll([]) == False
  {
  }

  ghost predicate AllTrue(vs: seq<Truth>) {
    forall k :: 0 <= k < |vs| ==> vs[k].True?
  }

  ghost predicate SomeTrue(vs: seq<Truth>) {
    exists k :: 0 <= k < |vs| && vs[k].True?
  }

  /** True of a conjunction is true of every part, true of a disjunction is true of some part. */
  lemma {:induction false} TrueOfAll(vs: seq<Truth>)
    ensures AndAll(vs).True? <==> AllTrue(vs)
    ensures OrAll(vs).True? <==> SomeTrue(vs)
    decreases |vs|
  {
    if vs != [] {
      TrueOfAll(vs[1..]);
      assert forall k :: 0 <= k < |vs[1..]| ==> vs[1..][k] == vs[k + 1];
      if k :| 0 <= k < |vs| && vs[k].True? {
        if k > 0 { assert vs[1..][k - 1].True?; }
      }
    }
  }
}
