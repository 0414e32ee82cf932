/** SQL text as tokens, its bind markers, and the one-pass substitution of `?`. */
module SqlText {

  /** `Word` is any other piece of text (a column, an operator, a comma, a keyword), `Val` a value standing
      in the text, `Quest` the character `?`. The three bind markers are `Quest` (rendering without bind
      variables), `Hole` (the "$$$" that becomes `?` at the end) and `Mark(n)` (numbered). */
  datatype Tok = Word(w: int) | Val(v: int) | Quest | Hole | Mark(n: nat) | LP | RP | AND | OR | NOT

  type Text = seq<Tok>

  const COMMA := Word(-1)
  const NULL := Word(-2)
  const EQ := Word(-3)
  const NE := Word(-4)
  const IN := Word(-5)
  const NOT_IN := Word(-6)
  const IS_NULL := Word(-7)
  const IS_NOT_NULL := Word(-8)
  const WHERE := Word(-9)

  /** Text before anything was bound: no marker of a database in it. */
  ghost predicate Plain(t: Text) {
    forall k :: 0 <= k < |t| ==> !t[k].Hole? && !t[k].Mark?
  }

  function Count(t: Text, x: Tok): nat {
    if t == [] then 0 else (if t[0] == x then 1 else 0) + Count(t[1..], x)
  }

  lemma {:induction false} CountConcat(a: Text, b: Text, x: Tok)
    ensures Count(a + b, x) == Count(a, x) + Count(b, x)
    decreases |a|
  {
    if a == [] {
      assert a + b == b;
    } else {
      assert (a + b)[1..] == a[1..] + b;
      CountConcat(a[1..], b, x);
    }
  }

  lemma {:induction false} CountNone(t: Text, x: Tok)
    requires forall k :: 0 <= k < |t| ==> t[k] != x
    ensures Count(t, x) == 0
    decreases |t|
  {
    if t != [] { CountNone(t[1..], x); }
  }

  /** Every `Hole` replaced by the value it is bound to, in order. */
  function Fill(t: Text, vals: seq<int>): Text
    requires Count(t, Hole) == |vals|
    decreases |t|
  {
    if t == [] then []
    else if t[0] == Hole then [Val(vals[0])] + Fill(t[1..], vals[1..])
    else [t[0]] + Fill(t[1..], vals)
  }

  /** Different values never give the same filled text. */
  lemma {:induction false} FillInjective(t: Text, v: seq<int>, w: seq<int>)
    requires Count(t, Hole) == |v| == |w| && Fill(t, v) == Fill(t, w)
    ensures v == w
    decreases |t|
  {
    if t != [] {
      var f, g := Fill(t, v), Fill(t, w);
      if t[0] == Hole {
        assert f[0] == g[0] && f[1..] == Fill(t[1..], v[1..]) && g[1..] == Fill(t[1..], w[1..]);
        FillInjective(t[1..], v[1..], w[1..]);
        assert v == [v[0]] + v[1..] && w == [w[0]] + w[1..];
      } else {
        assert f[1..] == Fill(t[1..], v) && g[1..] == Fill(t[1..], w);
        FillInjective(t[1..], v, w);
      }
    }
  }

  /** How a bound value is written: without bind variables, positionally, numbered; and, as the reference
      for what a marker stands for, `Literal(vals)`, which writes the value itself. */
  datatype Mode = Skip | Dollar | Numbered | Literal(vals: seq<int>)

  /** The marker of the value that becomes number `n` of the argument vector. */
  function Marker(mode: Mode, n: nat): Tok {
    match mode
    case Skip => Quest
    case Dollar => Hole
    case Numbered => Mark(n)
    case Literal(vals) => if 1 <= n <= |vals| then Val(vals[n - 1]) else Hole
  }

  /** Every `Hole` replaced by the marker of `mode`, numbered after `n`. */
  function Relabel(t: Text, n: nat, mode: Mode): Text {
    if t == [] then []
    else if t[0] == Hole then [Marker(mode, n + 1)] + Relabel(t[1..], n + 1, mode)
    else [t[0]] + Relabel(t[1..], n, mode)
  }

  lemma {:induction false} RelabelConcat(a: Text, b: Text, n: nat, mode: Mode)
    ensures Relabel(a + b, n, mode) == Relabel(a, n, mode) + Relabel(b, n + Count(a, Hole), mode)
    decreases |a|
  {
    if a == [] {
      assert a + b == b;
    } else {
      assert (a + b)[1..] == a[1..] + b;
      RelabelConcat(a[1..], b, if a[0] == Hole then n + 1 else n, mode);
    }
  }

  lemma {:induction false} RelabelNone(t: Text, n: nat, mode: Mode)
    requires Count(t, Hole) == 0
    ensures Relabel(t, n, mode) == t
    decreases |t|
  {
    if t != [] { RelabelNone(t[1..], n, mode); }
  }

  lemma {:induction false} RelabelDollar(t: Text, n: nat)
    ensures Relabel(t, n, Dollar) == t
    decreases |t|
  {
    if t != [] { RelabelDollar(t[1..], if t[0] == Hole then n + 1 else n); }
  }

  /** Numbered markers replaced by the values they name. */
  function Resolve(t: Text, vals: seq<int>): Text {
    if t == [] then []
    else [if t[0].Mark? && 1 <= t[0].n <= |vals| then Val(vals[t[0].n - 1]) else t[0]] + Resolve(t[1..], vals)
  }

  lemma {:induction false} ResolveConcat(a: Text, b: Text, vals: seq<int>)
    ensures Resolve(a + b, vals) == Resolve(a, vals) + Resolve(b, vals)
    decreases |a|
  {
    if a == [] {
      assert a + b == b;
    } else {
      assert (a + b)[1..] == a[1..] + b;
      ResolveConcat(a[1..], b, vals);
    }
  }

  ghost predicate Unmarked(t: Text) {
    forall k :: 0 <= k < |t| ==> !t[k].Mark?
  }

  /** `vals` stands in the vector `all` from position `n` on. */
  ghost predicate At(all: seq<int>, n: nat, vals: seq<int>) {
    n + |vals| <= |all| && forall i :: 0 <= i < |vals| ==> all[n + i] == vals[i]
  }

  lemma AtFits(all: seq<int>, n: nat, vals: seq<int>)
    requires At(all, n, vals)
    ensures n + |vals| <= |all|
  {
  }

  lemma AtAll(vals: seq<int>)
    ensures At(vals, 0, vals)
  {
  }

  lemma AtSplit(all: seq<int>, n: nat, a: seq<int>, b: seq<int>)
    requires At(all, n, a + b)
    ensures At(all, n, a) && At(all, n + |a|, b)
  {
    forall i | 0 <= i < |a| ensures all[n + i] == a[i] { assert (a + b)[i] == a[i]; }
    forall i | 0 <= i < |b| ensures all[n + |a| + i] == b[i] { assert (a + b)[|a| + i] == b[i]; }
  }

  /** A numbered text names the values at its offset in the vector, whatever else the vector holds. */
  lemma {:induction false} ResolveRelabelled(t: Text, n: nat, all: seq<int>)
    requires Unmarked(t) && n + Count(t, Hole) <= |all|
    ensures Resolve(Relabel(t, n, Numbered), all) == Relabel(t, n, Literal(all))
    decreases |t|
  {
    if t != [] { ResolveRelabelled(t[1..], if t[0] == Hole then n + 1 else n, all); }
  }

  lemma {:induction false} FillRelabelled(t: Text, n: nat, v: seq<int>, all: seq<int>)
    requires Count(t, Hole) == |v| && At(all, n, v)
    ensures Fill(t, v) == Relabel(t, n, Literal(all))
    decreases |t|
  {
    if t != [] {
      if t[0] == Hole {
        assert v == [v[0]] + v[1..];
        AtSplit(all, n, [v[0]], v[1..]);
        FillRelabelled(t[1..], n + 1, v[1..], all);
      } else {
        FillRelabelled(t[1..], n, v, all);
      }
    }
  }

  /** The markers of a numbered text. */
  function Marks(t: Text): seq<int> {
    if t == [] then [] else if t[0].Mark? then [t[0].n] + Marks(t[1..]) else Marks(t[1..])
  }

  function Range(n: nat, k: nat): (r: seq<int>)
    ensures |r| == k && forall i :: 0 <= i < k ==> r[i] == n + 1 + i
    decreases k
  {
    if k == 0 then [] else [n + 1] + Range(n + 1, k - 1)
  }

  lemma {:induction false} MarksRelabelled(t: Text, n: nat)
    requires Unmarked(t)
    ensures Marks(Relabel(t, n, Numbered)) == Range(n, Count(t, Hole))
    decreases |t|
  {
    if t != [] { MarksRelabelled(t[1..], if t[0] == Hole then n + 1 else n); }
  }

  /** The loop of `Query.Build` over the characters: each `?` takes the next replacement while there is
      one. Substituted text is not looked at again. */
  function Substitute(t: Text, reps: seq<Text>): Text
    decreases |t|
  {
    if t == [] then []
    else if t[0] == Quest && reps != [] then reps[0] + Substitute(t[1..], reps[1..])
    else [t[0]] + Substitute(t[1..], reps)
  }

  lemma {:induction false} SubstituteConcat(a: Text, b: Text, ra: seq<Text>, rb: seq<Text>)
    requires Count(a, Quest) == |ra|
    ensures Substitute(a + b, ra + rb) == Substitute(a, ra) + Substitute(b, rb)
    decreases |a|
  {
    if a == [] {
      assert a + b == b && ra + rb == rb;
    } else {
      assert (a + b)[1..] == a[1..] + b;
      if a[0] == Quest {
        assert (ra + rb)[1..] == ra[1..] + rb;
        SubstituteConcat(a[1..], b, ra[1..], rb);
        assert ra[0] + (Substitute(a[1..], ra[1..]) + Substitute(b, rb)) ==
          ra[0] + Substitute(a[1..], ra[1..]) + Substitute(b, rb);
      } else {
        SubstituteConcat(a[1..], b, ra, rb);
        assert [a[0]] + (Substitute(a[1..], ra) + Substitute(b, rb)) ==
          [a[0]] + Substitute(a[1..], ra) + Substitute(b, rb);
      }
    }
  }

  lemma SubstituteParens()
    ensures Substitute([LP], []) == [LP] && Substitute([RP], []) == [RP]
  {
  }

  lemma SubstituteWithin(t: Text, reps: seq<Text>)
    requires Count(t, Quest) == |reps|
    ensures Substitute([LP] + t + [RP], reps) == [LP] + Substitute(t, reps) + [RP]
  {
    hide Substitute, Count;
    assert Count([LP], Quest) == 0 && Count([RP], Quest) == 0 by { CountNone([LP], Quest); CountNone([RP], Quest); }
    CountConcat([LP], t, Quest);
    SubstituteConcat([LP], t, [], reps);
    SubstituteConcat([LP] + t, [RP], reps, []);
    assert [] + reps == reps && reps + [] == reps;
    SubstituteParens();
  }
}
