/** Sequence notions shared by the other modules: last index of a value, order of values,
    subsequences and insertion. */
module Lists {

  datatype Option<+T> = None | Some(value: T)

  /** Index of the last occurrence of `x`, or -1. */
  ghost function RIndex<T>(s: seq<T>, x: T): (r: int)
    ensures -1 <= r < |s|
    ensures r == -1 <==> x !in s
    ensures r >= 0 ==> s[r] == x && forall k :: r < k < |s| ==> s[k] != x
  {
    if x !in s then -1
    else
      LastIn(s, |s|, x);
      var r :| 0 <= r < |s| && s[r] == x && forall k :: r < k < |s| ==> s[k] != x;
      r
  }

  lemma {:induction false} LastIn<T>(s: seq<T>, n: nat, x: T)
    requires n <= |s| && exists k :: 0 <= k < n && s[k] == x
    ensures exists r :: 0 <= r < n && s[r] == x && forall k :: r < k < n ==> s[k] != x
    decreases n
  {
    if s[n - 1] != x { LastIn(s, n - 1, x); }
  }

  function InsertAt<T>(s: seq<T>, k: nat, x: T): (r: seq<T>)
    requires k <= |s|
    ensures |r| == |s| + 1 && r[k] == x
    ensures forall i :: 0 <= i < k ==> r[i] == s[i]
    ensures forall i :: k < i < |r| ==> r[i] == s[i - 1]
  {
    s[..k] + [x] + s[k..]
  }

  lemma InsertElements<T>(s: seq<T>, k: nat, x: T)
    requires k <= |s|
    ensures forall y :: y in InsertAt(s, k, x) <==> y in s || y == x
    ensures NoDup(s) && x !in s ==> NoDup(InsertAt(s, k, x))
  {
    var r := InsertAt(s, k, x);
    forall y | y in s ensures y in r {
      var i :| 0 <= i < |s| && s[i] == y;
      assert r[if i < k then i else i + 1] == y;
    }
    assert r[k] == x;
  }

  ghost predicate NoDup<T>(s: seq<T>) {
    forall i, j :: 0 <= i < j < |s| ==> s[i] != s[j]
  }

  /** Some occurrence of `x` stands before some occurrence of `y`. */
  ghost predicate Precedes<T>(s: seq<T>, x: T, y: T) {
    exists i, j :: 0 <= i < j < |s| && s[i] == x && s[j] == y
  }

  /** `a` can be obtained from `b` by leaving out elements. */
  ghost predicate Subseq<T>(a: seq<T>, b: seq<T>)
    decreases |b|
  {
    a == [] ||
    (b != [] && ((a[0] == b[0] && Subseq(a[1..], b[1..])) || Subseq(a, b[1..])))
  }

  lemma {:induction false} SubseqRefl<T>(a: seq<T>)
    ensures Subseq(a, a)
    decreases |a|
  {
    if a != [] { SubseqRefl(a[1..]); }
  }

  lemma {:induction false} SubseqTrans<T>(a: seq<T>, b: seq<T>, c: seq<T>)
    requires Subseq(a, b) && Subseq(b, c)
    ensures Subseq(a, c)
    decreases |c|
  {
    if a == [] {
    } else if b[0] == c[0] && Subseq(b[1..], c[1..]) {
      if a[0] == b[0] && Subseq(a[1..], b[1..]) {
        SubseqTrans(a[1..], b[1..], c[1..]);
      } else {
        SubseqTrans(a, b[1..], c[1..]);
      }
    } else {
      SubseqTrans(a, b, c[1..]);
    }
  }

  lemma {:induction false} SubseqInsert<T>(s: seq<T>, k: nat, x: T)
    requires k <= |s|
    ensures Subseq(s, InsertAt(s, k, x))
    decreases |s|
  {
    var r := InsertAt(s, k, x);
    if k == 0 {
      assert r[1..] == s by { assert forall i :: 0 <= i < |s| ==> r[1..][i] == s[i]; }
      SubseqRefl(s);
    } else {
      assert r[1..] == InsertAt(s[1..], k - 1, x) by {
        assert forall i :: 0 <= i < |s| ==> r[1..][i] == InsertAt(s[1..], k - 1, x)[i];
      }
      hide InsertAt;
      SubseqInsert(s[1..], k - 1, x);
    }
  }

  lemma {:induction false} SubseqAppend<T>(s: seq<T>, x: T)
    ensures Subseq(s, s + [x])
  {
    SubseqInsert(s, |s|, x);
    assert InsertAt(s, |s|, x) == s + [x];
  }

  lemma {:induction false} SubseqIn<T>(a: seq<T>, b: seq<T>, x: T)
    requires Subseq(a, b) && x in a
    ensures x in b
    decreases |b|
  {
    if a[0] == b[0] && Subseq(a[1..], b[1..]) {
      if x != a[0] { SubseqIn(a[1..], b[1..], x); }
    } else {
      SubseqIn(a, b[1..], x);
    }
  }

  /** A longer list keeps the order of everything in the shorter one. */
  lemma {:induction false} SubseqPrecedes<T>(a: seq<T>, b: seq<T>, x: T, y: T)
    requires Subseq(a, b) && Precedes(a, x, y)
    ensures Precedes(b, x, y)
    decreases |b|
  {
    var i, j :| 0 <= i < j < |a| && a[i] == x && a[j] == y;
    if a[0] == b[0] && Subseq(a[1..], b[1..]) {
      if i == 0 {
        assert a[1..][j - 1] == y;
        SubseqIn(a[1..], b[1..], y);
        var q :| 0 <= q < |b[1..]| && b[1..][q] == y;
        assert b[0] == x && b[q + 1] == y;
      } else {
        assert a[1..][i - 1] == x && a[1..][j - 1] == y;
        SubseqPrecedes(a[1..], b[1..], x, y);
        PrecedesTail(b, x, y);
      }
    } else {
      SubseqPrecedes(a, b[1..], x, y);
      PrecedesTail(b, x, y);
    }
  }

  lemma PrecedesTail<T>(b: seq<T>, x: T, y: T)
    requires b != [] && Precedes(b[1..], x, y)
    ensures Precedes(b, x, y)
  {
    var p, q :| 0 <= p < q < |b[1..]| && b[1..][p] == x && b[1..][q] == y;
    assert b[p + 1] == x && b[q + 1] == y;
  }

  lemma Associate<T>(a: seq<T>, b: seq<T>, c: seq<T>)
    ensures a + (b + c) == a + b + c
  {
  }

  /** `a` is `b` without the elements of `gone`: the others are there as often as before and in order. */
  ghost predicate Leaves<T(!new)>(a: seq<T>, b: seq<T>, gone: T -> bool) {
    Subseq(a, b) && forall x :: multiset(a)[x] == if gone(x) then 0 else multiset(b)[x]
  }

  lemma LeavesNext<T(!new)>(a: seq<T>, b: seq<T>, gone: T -> bool, x: T)
    requires Leaves(a, b, gone)
    ensures Leaves((if gone(x) then [] else [x]) + a, [x] + b, gone)
  {
    var c, d := (if gone(x) then [] else [x]) + a, [x] + b;
    assert d[1..] == b;
    if gone(x) {
      assert c == a;
    } else {
      assert c[1..] == a;
    }
    assert multiset(d) == multiset{x} + multiset(b);
    assert multiset(c) == (if gone(x) then multiset{} else multiset{x}) + multiset(a);
  }

  lemma {:induction false} SubseqCounts<T>(a: seq<T>, b: seq<T>)
    requires Subseq(a, b)
    ensures multiset(a) <= multiset(b)
    decreases |b|
  {
    if a != [] {
      assert b == [b[0]] + b[1..];
      if a[0] == b[0] && Subseq(a[1..], b[1..]) {
        SubseqCounts(a[1..], b[1..]);
        assert a == [a[0]] + a[1..];
      } else {
        SubseqCounts(a, b[1..]);
      }
    }
  }

  /** The elements outside `gone`, in order. */
  ghost function Kept<T(!new)>(b: seq<T>, gone: T -> bool): seq<T> {
    if b == [] then [] else (if gone(b[0]) then [] else [b[0]]) + Kept(b[1..], gone)
  }

  /** There is exactly one such list. */
  lemma {:induction false} LeavesExactly<T(!new)>(a: seq<T>, b: seq<T>, gone: T -> bool)
    ensures Leaves(a, b, gone) <==> a == Kept(b, gone)
    decreases |b|, 1
  {
    if b == [] {
      assert a != [] && Leaves(a, b, gone) ==> multiset(a)[a[0]] == 0;
    } else {
      var x, rest := b[0], b[1..];
      assert b == [x] + rest;
      LeavesExactly(Kept(rest, gone), rest, gone);
      LeavesNext(Kept(rest, gone), rest, gone, x);
      if Leaves(a, b, gone) { LeavesRest(a, x, rest, gone); }
    }
  }

  lemma LeavesRest<T(!new)>(a: seq<T>, x: T, rest: seq<T>, gone: T -> bool)
    requires Leaves(a, [x] + rest, gone)
    ensures a == Kept([x] + rest, gone)
    decreases |rest| + 1, 0
  {
    assert ([x] + rest)[1..] == rest;
    if gone(x) {
      LeavesGone(a, x, rest, gone);
      LeavesExactly(a, rest, gone);
    } else {
      LeavesKept(a, x, rest, gone);
      LeavesExactly(a[1..], rest, gone);
    }
  }

  lemma LeavesGone<T(!new)>(a: seq<T>, x: T, rest: seq<T>, gone: T -> bool)
    requires Leaves(a, [x] + rest, gone) && gone(x)
    ensures Leaves(a, rest, gone)
  {
    var b := [x] + rest;
    assert b[1..] == rest && multiset(b) == multiset{x} + multiset(rest);
    assert multiset(a)[x] == 0;
    assert a == [] || a[0] != x;
  }

  lemma LeavesKept<T(!new)>(a: seq<T>, x: T, rest: seq<T>, gone: T -> bool)
    requires Leaves(a, [x] + rest, gone) && !gone(x)
    ensures a != [] && a[0] == x && Leaves(a[1..], rest, gone)
  {
    var b := [x] + rest;
    assert b[1..] == rest && multiset(b) == multiset{x} + multiset(rest);
    assert multiset(a)[x] == multiset(rest)[x] + 1;
    if Subseq(a, rest) { SubseqCounts(a, rest); }
    assert multiset(a) == multiset{a[0]} + multiset(a[1..]) by { assert a == [a[0]] + a[1..]; }
  }
}
