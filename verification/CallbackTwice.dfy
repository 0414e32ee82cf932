/** When a callback is scheduled twice: the lists on which every callback runs once, exactly. */
module CallbackTwice {
  import opened Lists
  import opened CallbackOrder
  import opened CallbackGuarantees

  ghost predicate Bound(ps: seq<Proc>, x: Name) {
    x != NO_NAME && Registered(ps, x)
  }

  /** Every registered target is registered earlier, or unconstrained. */
  ghost predicate InOrder(ps: seq<Proc>) {
    forall i: nat {:trigger InOrderAt(ps, i)} :: i < |ps| ==> InOrderAt(ps, i)
  }

  ghost predicate InOrderAt(ps: seq<Proc>, i: nat)
    requires i < |ps|
  {
    && (Bound(ps, ps[i].before) ==> NamedBefore(ps, i, ps[i].before) || Free(ps, ps[i].before))
    && (Bound(ps, ps[i].after) ==> NamedBefore(ps, i, ps[i].after) || Free(ps, ps[i].after))
  }

  ghost predicate Names(ps: seq<Proc>, j: nat, x: Name)
    requires j < |ps|
  {
    Bound(ps, x) && (ps[j].before == x || ps[j].after == x)
  }

  /** The name is registered before processor `i`, or a target of a processor before it. */
  ghost predicate PlacedBy(ps: seq<Proc>, i: nat, x: Name)
    requires i <= |ps|
  {
    NamedBefore(ps, i, x) || exists j: nat :: j < i && Names(ps, j, x)
  }

  /** Both targets are registered, and the `after` target is placed already, or is the other target. */
  ghost predicate Twice(ps: seq<Proc>, i: nat)
    requires i < |ps|
  {
    && Bound(ps, ps[i].before) && Bound(ps, ps[i].after)
    && (ps[i].after == ps[i].before || PlacedBy(ps, i, ps[i].after))
  }

  ghost predicate Listed(ps: seq<Proc>) {
    Named(ps) && DistinctNames(ps) && InOrder(ps)
  }

  // ----- the state before a turn -----

  /** A processor is as registered, or was unconstrained and told to come before another when it was placed. */
  ghost predicate Kept(p: Proc, q: Proc, s: seq<Name>) {
    q == p || (Unconstrained(p) && p.name in s && q == p.(before := q.before))
  }

  ghost predicate AtTurn(ps: seq<Proc>, i: nat, st: State)
    requires i <= |ps|
  {
    && |st.ps| == |ps|
    && (forall k :: 0 <= k < |ps| ==> Kept(ps[k], st.ps[k], st.sorted))
    && (forall x :: x in st.sorted <==> PlacedBy(ps, i, x))
  }

  lemma PlacedByStep(ps: seq<Proc>, i: nat)
    requires i < |ps|
    ensures forall x :: PlacedBy(ps, i + 1, x) <==> PlacedBy(ps, i, x) || x == ps[i].name || Names(ps, i, x)
  {
    forall x ensures PlacedBy(ps, i + 1, x) <==> PlacedBy(ps, i, x) || x == ps[i].name || Names(ps, i, x) {
      assert NamedBefore(ps, i + 1, x) <==> NamedBefore(ps, i, x) || x == ps[i].name;
    }
  }

  lemma PlacedAreRegistered(ps: seq<Proc>, i: nat)
    requires i <= |ps|
    ensures forall x :: PlacedBy(ps, i, x) ==> Registered(ps, x)
  {
  }

  /** Two processors of one name are one. */
  lemma SameName(ps: seq<Proc>, i: nat, x: Name)
    requires DistinctNames(ps) && i < |ps| && ps[i].name == x
    ensures !NamedBefore(ps, i, x) && Resolve(ps, x) == i && Registered(ps, x)
  {
    assert NamedBefore(ps, |ps|, x);
    DistinctNamesPair(ps, i, Resolve(ps, x));
  }

  /** A processor whose name is placed before its turn carries no constraint. */
  lemma PlacedIsFree(ps: seq<Proc>, i: nat)
    requires Listed(ps) && i < |ps| && PlacedBy(ps, i, ps[i].name)
    ensures Unconstrained(ps[i])
  {
    var x := ps[i].name;
    SameName(ps, i, x);
    var j: nat :| j < i && Names(ps, j, x);
    assert InOrderAt(ps, j);
    assert !NamedBefore(ps, j, x);
    assert Free(ps, x);
  }

  /** A registered target that is not placed yet is the last registration of its name, unconstrained, and
      was not written to. */
  lemma TargetUntouched(ps: seq<Proc>, st: State, i: nat, x: Name) returns (r: nat)
    requires Listed(ps) && i < |ps| && AtTurn(ps, i, st) && Names(ps, i, x) && x !in st.sorted
    ensures r < |ps| && r != i && Resolve(st.ps, x) == r && st.ps[r] == ps[r] && ps[r].name == x && Unconstrained(ps[r])
    ensures x != ps[i].name
  {
    assert InOrderAt(ps, i);
    assert Free(ps, x);
    forall k | 0 <= k < |ps| ensures st.ps[k].name == ps[k].name { assert Kept(ps[k], st.ps[k], st.sorted); }
    SameNames(ps, st.ps);
    r := Resolve(ps, x);
    if x == ps[i].name { SameName(ps, i, x); }
    assert Kept(ps[r], st.ps[r], st.sorted);
  }

  // ----- the first half -----

  lemma BeforeHalf(ps: seq<Proc>, st: State, i: nat, fuel: nat) returns (b: seq<Name>)
    requires Listed(ps) && i < |ps| && AtTurn(ps, i, st) && st.ps[i] == ps[i] && ps[i].name !in st.sorted && fuel >= 1
    ensures PlaceBefore(st, i, fuel) == Some(State(b, st.ps)) && Subseq(st.sorted, b)
    ensures var bound := Bound(ps, ps[i].before);
            && (forall x :: x in b <==> x in st.sorted || (bound && (x == ps[i].name || x == ps[i].before)))
            && (NoDup(st.sorted) ==> NoDup(b))
  {
    var p, s := ps[i], st.sorted;
    b := s;
    SubseqRefl(s);
    if p.before == NO_NAME {
    } else if p.before in s {
      PlacedAreRegistered(ps, i);
      InsertElements(s, RIndex(s, p.before), p.name);
      SubseqInsert(s, RIndex(s, p.before), p.name);
      b := InsertAt(s, RIndex(s, p.before), p.name);
    } else if Bound(ps, p.before) {
      var r := TargetUntouched(ps, st, i, p.before);
      b := s + [p.name, p.before];
      ForwardAppend(st, r, p, fuel);
      SubseqAppend(s, p.name);
      SubseqAppend(s + [p.name], p.before);
      assert s + [p.name] + [p.before] == b;
      SubseqTrans(s, s + [p.name], b);
      InsertElements(s, |s|, p.name);
      assert p.name != p.before;
    } else {
      NamesKept(ps, st);
    }
  }

  lemma NamesKept(ps: seq<Proc>, st: State)
    requires |st.ps| == |ps| && forall k :: 0 <= k < |ps| ==> Kept(ps[k], st.ps[k], st.sorted)
    ensures forall x :: Resolve(st.ps, x) == Resolve(ps, x)
  {
    forall k | 0 <= k < |ps| ensures st.ps[k].name == ps[k].name { assert Kept(ps[k], st.ps[k], st.sorted); }
    SameNames(ps, st.ps);
  }

  lemma ForwardAppend(st: State, r: nat, p: Proc, fuel: nat)
    requires r < |st.ps| && Unconstrained(st.ps[r]) && st.ps[r].name == p.before && fuel >= 1
    requires p.before !in st.sorted && p.before != p.name
    ensures Place(st.(sorted := st.sorted + [p.name]), r, fuel - 1) == Some(State(st.sorted + [p.name, p.before], st.ps))
  {
    var mid := st.(sorted := st.sorted + [p.name]);
    UnconstrainedPlace(mid, r, fuel - 1);
    assert mid.sorted + [p.before] == st.sorted + [p.name, p.before];
  }

  // ----- the second half -----

  /** The target is placed: the name goes behind it, a second time if it is there already. */
  lemma AfterPlaced(st: State, i: nat, fuel: nat) returns (a: seq<Name>)
    requires i < |st.ps| && st.ps[i].after != NO_NAME && st.ps[i].after in st.sorted
    ensures PlaceAfter(st, i, fuel) == Some(State(a, st.ps)) && Subseq(st.sorted, a)
    ensures forall x :: x in a <==> x in st.sorted || x == st.ps[i].name
    ensures st.ps[i].name in st.sorted ==> Precedes(a, st.ps[i].name, st.ps[i].name)
    ensures NoDup(st.sorted) && st.ps[i].name !in st.sorted ==> NoDup(a)
  {
    var p, b := st.ps[i], st.sorted;
    var k := RIndex(b, p.after) + 1;
    a := InsertAt(b, k, p.name);
    InsertElements(b, k, p.name);
    SubseqInsert(b, k, p.name);
    if p.name in b { InsertTwice(b, k, p.name); }
  }

  lemma InsertTwice(s: seq<Name>, k: nat, x: Name)
    requires k <= |s| && x in s
    ensures Precedes(InsertAt(s, k, x), x, x)
  {
    var r := InsertAt(s, k, x);
    var j :| 0 <= j < |s| && s[j] == x;
    if j < k { assert r[j] == x && r[k] == x; } else { assert r[k] == x && r[j + 1] == x; }
  }

  /** The target is not placed but the name is: the target, told to come before it, goes in front of it. */
  lemma AfterInFront(st: State, i: nat, r: nat, fuel: nat) returns (a: seq<Name>)
    requires i < |st.ps| && r < |st.ps| && st.ps[i].after != NO_NAME && st.ps[i].after !in st.sorted && fuel >= 1
    requires r == Resolve(st.ps, st.ps[i].after) && st.ps[r].name == st.ps[i].after && Unconstrained(st.ps[r])
    requires st.ps[i].name in st.sorted && st.ps[i].name != NO_NAME
    ensures PlaceAfter(st, i, fuel) == Some(State(a, AdoptBefore(st.ps, r, st.ps[i].name))) && Subseq(st.sorted, a)
    ensures forall x :: x in a <==> x in st.sorted || x == st.ps[i].after
    ensures NoDup(st.sorted) ==> NoDup(a)
  {
    var p, b := st.ps[i], st.sorted;
    var k := RIndex(b, p.name);
    a := InsertAt(b, k, p.after);
    InsertElements(b, k, p.after);
    SubseqInsert(b, k, p.after);
    var mid := State(b, AdoptBefore(st.ps, r, p.name));
    assert PlaceBefore(mid, r, fuel - 1) == Some(State(a, mid.ps));
    assert PlaceAfter(State(a, mid.ps), r, fuel - 1) == Some(State(a, mid.ps));
    assert Place(mid, r, fuel - 1) == Some(State(a, mid.ps));
    assert st.(ps := mid.ps) == mid;
  }

  /** Neither is placed: the target goes to the end and pulls the name in behind it. */
  lemma AfterBehind(st: State, i: nat, r: nat, fuel: nat) returns (a: seq<Name>)
    requires i < |st.ps| && r < |st.ps| && st.ps[i].after != NO_NAME && st.ps[i].after !in st.sorted && fuel >= 2
    requires r == Resolve(st.ps, st.ps[i].after) && st.ps[r].name == st.ps[i].after && Unconstrained(st.ps[r])
    requires st.ps[i].name !in st.sorted && st.ps[i].name != NO_NAME && st.ps[i].name != st.ps[i].after
    requires i == Resolve(st.ps, st.ps[i].name) && !Bound(st.ps, st.ps[i].before)
    requires forall x :: x in st.sorted ==> Registered(st.ps, x)
    ensures PlaceAfter(st, i, fuel) == Some(State(a, AdoptBefore(st.ps, r, st.ps[i].name))) && Subseq(st.sorted, a)
    ensures forall x :: x in a <==> x in st.sorted || x == st.ps[i].after || x == st.ps[i].name
    ensures NoDup(st.sorted) ==> NoDup(a)
  {
    var p, s := st.ps[i], st.sorted;
    a := s + [p.after, p.name];
    AppendTwo(s, p.after, p.name);
    BehindPlaced(st, i, r, fuel, a);
  }

  lemma AppendTwo(s: seq<Name>, x: Name, y: Name)
    requires x !in s && y !in s && x != y
    ensures Subseq(s, s + [x, y]) && (NoDup(s) ==> NoDup(s + [x, y]))
    ensures forall z :: z in s + [x, y] <==> z in s || z == x || z == y
  {
    SubseqAppend(s, x);
    SubseqAppend(s + [x], y);
    assert s + [x] + [y] == s + [x, y];
    SubseqTrans(s, s + [x], s + [x, y]);
  }

  lemma BehindPlaced(st: State, i: nat, r: nat, fuel: nat, a: seq<Name>)
    requires i < |st.ps| && r < |st.ps| && st.ps[i].after != NO_NAME && st.ps[i].after !in st.sorted && fuel >= 2
    requires r == Resolve(st.ps, st.ps[i].after) && st.ps[r].name == st.ps[i].after && Unconstrained(st.ps[r])
    requires st.ps[i].name !in st.sorted && st.ps[i].name != NO_NAME && st.ps[i].name != st.ps[i].after
    requires i == Resolve(st.ps, st.ps[i].name) && !Bound(st.ps, st.ps[i].before)
    requires forall x :: x in st.sorted ==> Registered(st.ps, x)
    requires a == st.sorted + [st.ps[i].after, st.ps[i].name]
    ensures PlaceAfter(st, i, fuel) == Some(State(a, AdoptBefore(st.ps, r, st.ps[i].name)))
  {
    var p, s := st.ps[i], st.sorted;
    var ws := AdoptBefore(st.ps, r, p.name);
    SameNames(st.ps, ws);
    var t, mid, end := State(s + [p.after], ws), State(s, ws), State(a, ws);
    PulledIn(ws, s, p.after, i, fuel - 2);
    assert RIndex(s, p.name) == -1 && Resolve(ws, p.name) == i && ws[r].before == p.name && ws[r].after == NO_NAME;
    assert a[|s|] == p.after && p.after in a;
    assert Place(t, i, fuel - 2) == Some(end);
    hide Registered, NamedBefore, Resolve, RIndex, NoDup, Unconstrained;
    assert PlaceBefore(mid, r, fuel - 1) == Some(end);
    assert PlaceAfter(end, r, fuel - 1) == Some(end);
    assert Place(mid, r, fuel - 1) == Some(end);
    assert st.(ps := ws) == mid;
  }

  lemma PulledIn(ws: seq<Proc>, s: seq<Name>, t: Name, i: nat, fuel: nat)
    requires i < |ws| && ws[i].name !in s && ws[i].name != t && t !in s && ws[i].after == t && t != NO_NAME
    requires !Bound(ws, ws[i].before) && Registered(ws, t) && forall x :: x in s ==> Registered(ws, x)
    ensures Place(State(s + [t], ws), i, fuel) == Some(State(s + [t, ws[i].name], ws))
  {
    var st, name := State(s + [t], ws), ws[i].name;
    assert PlaceBefore(st, i, fuel) == Some(st);
    assert RIndex(s + [t], t) == |s|;
    assert InsertAt(s + [t], |s| + 1, name) == s + [t, name];
    assert (s + [t, name])[|s| + 1] == name;
  }

  /** Nobody is his own target. */
  lemma NotOwn(ps: seq<Proc>, i: nat)
    requires Listed(ps) && i < |ps|
    ensures Bound(ps, ps[i].after) ==> ps[i].after != ps[i].name
    ensures Bound(ps, ps[i].before) ==> ps[i].before != ps[i].name
  {
    assert InOrderAt(ps, i);
    SameName(ps, i, ps[i].name);
  }

  lemma AfterHalf(ps: seq<Proc>, st: State, b: seq<Name>, i: nat, fuel: nat) returns (end: State)
    requires Listed(ps) && i < |ps| && AtTurn(ps, i, st) && st.ps[i] == ps[i] && ps[i].name !in st.sorted && fuel >= 2
    requires forall x :: x in b <==> x in st.sorted || (Bound(ps, ps[i].before) && (x == ps[i].name || x == ps[i].before))
    ensures PlaceAfter(State(b, st.ps), i, fuel) == Some(end) && Subseq(b, end.sorted)
    ensures forall x :: x in end.sorted <==> x in b || (Bound(ps, ps[i].after) && (x == ps[i].name || x == ps[i].after))
    ensures |end.ps| == |ps| && forall k :: 0 <= k < |ps| ==> Kept(ps[k], end.ps[k], end.sorted)
    ensures Twice(ps, i) ==> Precedes(end.sorted, ps[i].name, ps[i].name)
    ensures !Twice(ps, i) && NoDup(b) ==> NoDup(end.sorted)
  {
    var p, mid := ps[i], State(b, st.ps);
    PlacedAreRegistered(ps, i);
    NamesKept(ps, st);
    SameName(ps, i, p.name);
    end := mid;
    SubseqRefl(b);
    NotOwn(ps, i);
    if p.after == NO_NAME {
    } else if p.after in b {
      var a := AfterPlaced(mid, i, fuel);
      end := State(a, st.ps);
    } else if Bound(ps, p.after) {
      var r := TargetUntouched(ps, st, i, p.after);
      var a: seq<Name>;
      if Bound(ps, p.before) {
        a := AfterInFront(mid, i, r, fuel);
      } else {
        RegisteredKept(ps, st);
        a := AfterBehind(mid, i, r, fuel);
      }
      end := State(a, AdoptBefore(st.ps, r, p.name));
    }
  }

  lemma RegisteredKept(ps: seq<Proc>, st: State)
    requires |st.ps| == |ps| && forall k :: 0 <= k < |ps| ==> Kept(ps[k], st.ps[k], st.sorted)
    ensures forall x :: Registered(st.ps, x) <==> Registered(ps, x)
  {
    forall k | 0 <= k < |ps| ensures st.ps[k].name == ps[k].name { assert Kept(ps[k], st.ps[k], st.sorted); }
    SameNames(ps, st.ps);
  }

  // ----- a turn, and the whole sort -----

  lemma TurnTaken(ps: seq<Proc>, st: State, i: nat, fuel: nat) returns (end: State)
    requires Listed(ps) && i < |ps| && AtTurn(ps, i, st) && fuel >= 2
    ensures Place(st, i, fuel) == Some(end) && AtTurn(ps, i + 1, end) && Subseq(st.sorted, end.sorted)
    ensures Twice(ps, i) ==> Precedes(end.sorted, ps[i].name, ps[i].name)
    ensures !Twice(ps, i) && NoDup(st.sorted) ==> NoDup(end.sorted)
  {
    var p := ps[i];
    assert Kept(p, st.ps[i], st.sorted);
    PlacedByStep(ps, i);
    if p.name in st.sorted {
      PlacedIsFree(ps, i);
      end := st;
      SubseqRefl(st.sorted);
    } else {
      var b := BeforeHalf(ps, st, i, fuel);
      var a := AfterHalf(ps, st, b, i, fuel);
      end := PlaceLast(a, p.name);
      SubseqAppend(a.sorted, p.name);
      SubseqRefl(a.sorted);
      SubseqTrans(st.sorted, b, a.sorted);
      SubseqTrans(st.sorted, a.sorted, end.sorted);
      TurnEnds(ps, st, i, b, a, end);
    }
  }

  lemma TurnEnds(ps: seq<Proc>, st: State, i: nat, b: seq<Name>, a: State, end: State)
    requires i < |ps| && AtTurn(ps, i, st) && ps[i].name !in st.sorted && end == PlaceLast(a, ps[i].name)
    requires forall x :: x in b <==> x in st.sorted || (Bound(ps, ps[i].before) && (x == ps[i].name || x == ps[i].before))
    requires forall x :: x in a.sorted <==> x in b || (Bound(ps, ps[i].after) && (x == ps[i].name || x == ps[i].after))
    requires |a.ps| == |ps| && forall k :: 0 <= k < |ps| ==> Kept(ps[k], a.ps[k], a.sorted)
    ensures AtTurn(ps, i + 1, end)
    ensures Precedes(a.sorted, ps[i].name, ps[i].name) ==> Precedes(end.sorted, ps[i].name, ps[i].name)
    ensures NoDup(a.sorted) ==> NoDup(end.sorted)
  {
    var p := ps[i];
    PlacedByStep(ps, i);
    forall x ensures x in end.sorted <==> PlacedBy(ps, i + 1, x) {
      assert x in end.sorted <==> x in a.sorted || x == p.name;
      assert x in a.sorted || x == p.name <==> PlacedBy(ps, i, x) || x == p.name || Names(ps, i, x);
    }
  }

  lemma TwiceStays(m: seq<Name>, r: seq<Name>, x: Name)
    requires Subseq(m, r) && Precedes(m, x, x)
    ensures !NoDup(r)
  {
    SubseqPrecedes(m, r, x, x);
  }

  ghost predicate SomeTwice(ps: seq<Proc>, i: nat)
    requires i <= |ps|
  {
    exists k: nat :: i <= k < |ps| && Twice(ps, k)
  }

  lemma SomeTwiceStep(ps: seq<Proc>, i: nat)
    requires i <= |ps|
    ensures i == |ps| ==> !SomeTwice(ps, i)
    ensures i < |ps| ==> (SomeTwice(ps, i) <==> Twice(ps, i) || SomeTwice(ps, i + 1))
  {
    hide Twice;
  }

  lemma {:induction false} TurnsTaken(ps: seq<Proc>, st: State, i: nat, fuel: nat) returns (end: State)
    requires Listed(ps) && i <= |ps| && AtTurn(ps, i, st) && fuel >= 2
    ensures PlaceFrom(st, i, fuel) == Some(end) && Subseq(st.sorted, end.sorted)
    ensures SomeTwice(ps, i) ==> !NoDup(end.sorted)
    ensures !SomeTwice(ps, i) && NoDup(st.sorted) ==> NoDup(end.sorted)
    decreases |ps| - i
  {
    assert |st.ps| == |ps|;
    hide *;
    PlaceFromStep(st, i, fuel);
    SomeTwiceStep(ps, i);
    if i == |ps| {
      end := st;
      SubseqRefl(st.sorted);
    } else {
      var mid := TurnTaken(ps, st, i, fuel);
      end := TurnsTaken(ps, mid, i + 1, fuel);
      SubseqTrans(st.sorted, mid.sorted, end.sorted);
      if Twice(ps, i) { TwiceStays(mid.sorted, end.sorted, ps[i].name); }
    }
  }

  /** On lists of distinct names whose registered targets are registered earlier or unconstrained, the sort
      ends, and every callback is scheduled once if and only if none has both its targets registered and its
      `after` target placed when its turn comes. */
  lemma RunsOnceExactly(ps: seq<Proc>, fuel: nat)
    requires Listed(ps) && fuel >= 2
    ensures Sort(ps, fuel).Some?
    ensures NoDup(Sort(ps, fuel).value.sorted) <==> forall i: nat :: i < |ps| ==> !Twice(ps, i)
  {
    var st := State([], ps);
    assert AtTurn(ps, 0, st);
    var end := TurnsTaken(ps, st, 0, fuel);
  }

  /** The smallest lists on which a callback is scheduled twice: both targets there, or only the `after`
      target; and with neither there yet the callback is scheduled once. */
  lemma ScheduledTwice(fuel: nat)
    requires fuel >= 2
    ensures var a, b := Proc(1, NO_NAME, NO_NAME, false, 1), Proc(2, NO_NAME, NO_NAME, false, 2);
            var c := Proc(3, 2, 1, false, 3);
            && Sort([a, b, c], fuel).Some? && !NoDup(Sort([a, b, c], fuel).value.sorted)
            && Sort([a, c, b], fuel).Some? && !NoDup(Sort([a, c, b], fuel).value.sorted)
            && Sort([c, a, b], fuel).Some? && NoDup(Sort([c, a, b], fuel).value.sorted)
  {
    var a, b, c := Proc(1, NO_NAME, NO_NAME, false, 1), Proc(2, NO_NAME, NO_NAME, false, 2), Proc(3, 2, 1, false, 3);
    ThreeListed([a, b, c], 2);
    ThreeListed([a, c, b], 1);
    ThreeListed([c, a, b], 0);
    RunsOnceExactly([a, b, c], fuel);
    RunsOnceExactly([a, c, b], fuel);
    RunsOnceExactly([c, a, b], fuel);
    assert NamedBefore([a, b, c], 2, 1) && NamedBefore([a, c, b], 1, 1);
    assert Twice([a, b, c], 2) && Twice([a, c, b], 1);
    assert !NamedBefore([c, a, b], 0, 1);
  }

  /** Three names, of which the one at `k` alone is constrained. */
  lemma ThreeListed(ps: seq<Proc>, k: nat)
    requires |ps| == 3 && k < 3 && ps[0].name != ps[1].name && ps[0].name != ps[2].name && ps[1].name != ps[2].name
    requires Named(ps) && forall i :: 0 <= i < 3 && i != k ==> Unconstrained(ps[i])
    requires ps[k].before != ps[k].name && ps[k].after != ps[k].name
    requires forall x :: x == ps[k].before || x == ps[k].after ==> Registered(ps, x)
    ensures Listed(ps) && Bound(ps, ps[k].before) == (ps[k].before != NO_NAME) && Bound(ps, ps[k].after) == (ps[k].after != NO_NAME)
    ensures forall i: nat :: i < 3 && i != k ==> !Twice(ps, i)
  {
    forall i: nat | i < 3 ensures InOrderAt(ps, i) {
    }
    forall i: nat | i < 3 ensures !NamedBefore(ps, i, ps[i].name) {
    }
  }
}
