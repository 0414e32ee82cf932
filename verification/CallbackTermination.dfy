/** When `sortProcessors` ends. The recursion is unbounded only along `after` links between processors
    whose `before` names nothing that is registered. */
module CallbackTermination {
  import opened Lists
  import opened CallbackOrder

  /** `before` is set but names an unregistered callback, so it never places the processor. */
  ghost predicate Dangling(ps: seq<Proc>, i: nat)
    requires i < |ps|
  {
    ps[i].before != NO_NAME && !Registered(ps, ps[i].before)
  }

  /** The processor an `after` link leads to, or -1. */
  ghost function Next(ps: seq<Proc>, i: nat): (r: int)
    requires i < |ps|
    ensures -1 <= r < |ps|
  {
    if ps[i].after == NO_NAME then -1 else Resolve(ps, ps[i].after)
  }

  /** `c` is a cycle of `after` links through dangling processors only. */
  ghost predicate IsDanglingCycle(ps: seq<Proc>, c: seq<nat>) {
    c != [] && (forall k :: 0 <= k < |c| ==> c[k] < |ps| && Dangling(ps, c[k])) &&
    forall k {:trigger Next(ps, c[k])} :: 0 <= k < |c| ==> Next(ps, c[k]) == c[if k + 1 < |c| then k + 1 else 0]
  }

  ghost predicate HasDanglingCycle(ps: seq<Proc>) {
    exists c :: IsDanglingCycle(ps, c)
  }

  // ----- the walk along dangling links is short when there is no cycle -----

  ghost function Walk(ps: seq<Proc>, i: nat, n: nat): (w: seq<nat>)
    requires i < |ps|
    ensures 1 <= |w| <= n + 1 && w[0] == i
    ensures forall k :: 0 <= k < |w| ==> w[k] < |ps|
    ensures forall k :: 0 <= k < |w| - 1 ==> Dangling(ps, w[k]) && Next(ps, w[k]) == w[k + 1]
    decreases n
  {
    if n == 0 || !Dangling(ps, i) || Next(ps, i) == -1 then [i]
    else [i] + Walk(ps, Next(ps, i), n - 1)
  }

  lemma {:induction false} Pigeonhole(w: seq<nat>, n: nat)
    requires NoDup(w) && forall k :: 0 <= k < |w| ==> w[k] < n
    ensures |w| <= n
    decreases n
  {
    var first := if w == [] then 0 else w[0];
    if k :| 0 <= k < |w| && w[k] == n - 1 {
      var v := w[..k] + w[k + 1..];
      assert forall i :: 0 <= i < |v| ==> v[i] == w[if i < k then i else i + 1];
      forall i | 0 <= i < |v| ensures v[i] < n - 1 { assert v[i] != w[k]; }
      Pigeonhole(v, n - 1);
    } else if n > 0 {
      Pigeonhole(w, n - 1);
    }
  }

  lemma WalkCycle(ps: seq<Proc>, w: seq<nat>, p: nat, q: nat)
    requires forall k :: 0 <= k < |w| ==> w[k] < |ps|
    requires forall k :: 0 <= k < |w| - 1 ==> Dangling(ps, w[k]) && Next(ps, w[k]) == w[k + 1]
    requires p < q < |w| && w[p] == w[q]
    ensures IsDanglingCycle(ps, w[p..q])
  {
    var c := w[p..q];
    forall k | 0 <= k < |c| ensures Next(ps, c[k]) == c[if k + 1 < |c| then k + 1 else 0] {
      assert c[k] == w[p + k] && Next(ps, w[p + k]) == w[p + k + 1];
    }
  }

  lemma WalkShort(ps: seq<Proc>, i: nat, n: nat)
    requires i < |ps| && !HasDanglingCycle(ps)
    ensures |Walk(ps, i, n)| <= |ps|
  {
    var w := Walk(ps, i, n);
    if |w| > |ps| {
      if NoDup(w) { Pigeonhole(w, |ps|); }
      var p, q :| 0 <= p < q < |w| && w[p] == w[q];
      WalkCycle(ps, w, p, q);
    }
  }

  lemma {:induction false} WalkStable(ps: seq<Proc>, i: nat, n: nat)
    requires i < |ps| && |Walk(ps, i, n)| <= n
    ensures Walk(ps, i, n + 1) == Walk(ps, i, n)
    decreases n
  {
    if Dangling(ps, i) && Next(ps, i) != -1 {
      WalkStable(ps, Next(ps, i), n - 1);
    }
  }

  ghost function Rank(ps: seq<Proc>, i: nat): nat
    requires i < |ps|
  {
    if ps[i].before == NO_NAME then |ps| + 2
    else if Dangling(ps, i) then |Walk(ps, i, |ps|)|
    else 0
  }

  lemma RankStep(ps: seq<Proc>, i: nat)
    requires i < |ps| && !HasDanglingCycle(ps)
    requires Next(ps, i) != -1 && ps[Next(ps, i)].before != NO_NAME
    requires ps[i].before == NO_NAME || Dangling(ps, i)
    ensures Rank(ps, Next(ps, i)) < Rank(ps, i)
  {
    var j := Next(ps, i);
    WalkShort(ps, j, |ps|);
    if ps[i].before != NO_NAME {
      WalkShort(ps, i, |ps|);
      WalkStable(ps, j, |ps| - 1);
    }
  }

  lemma {:induction false} WalkSame(ps: seq<Proc>, qs: seq<Proc>, i: nat, n: nat)
    requires SameButBefore(ps, qs) && i < |ps|
    ensures Dangling(qs, i) == Dangling(ps, i) && Next(qs, i) == Next(ps, i)
    ensures Walk(qs, i, n) == Walk(ps, i, n)
    decreases n
  {
    SameNames(ps, qs);
    assert qs[i] == ps[i].(before := qs[i].before);
    if n > 0 && Next(ps, i) != -1 { WalkSame(ps, qs, Next(ps, i), n - 1); }
  }

  lemma CyclesSame(ps: seq<Proc>, qs: seq<Proc>)
    requires SameButBefore(ps, qs)
    ensures HasDanglingCycle(qs) ==> HasDanglingCycle(ps)
  {
    if HasDanglingCycle(qs) {
      var c :| IsDanglingCycle(qs, c);
      forall x | x in c ensures Dangling(ps, x) && Next(qs, x) == Next(ps, x) { WalkSame(ps, qs, x, 0); }
      assert IsDanglingCycle(ps, c);
    }
  }

  // ----- the measure -----

  ghost function Unsorted(st: State): set<nat> {
    set k: nat | k < |st.ps| && st.ps[k].name !in st.sorted
  }

  ghost function Unbound(ps: seq<Proc>): set<nat> {
    set k: nat | k < |ps| && ps[k].before == NO_NAME
  }

  lemma MeasureShrinks(st: State, after: State)
    requires Grows(st, after)
    ensures Unsorted(after) <= Unsorted(st) && Unbound(after.ps) <= Unbound(st.ps)
    ensures forall k :: 0 <= k < |st.ps| && st.ps[k].name in after.sorted && st.ps[k].name !in st.sorted ==>
      Unsorted(after) < Unsorted(st)
  {
    forall k | k in Unsorted(after) ensures k in Unsorted(st) {
      if st.ps[k].name in st.sorted { SubseqIn(st.sorted, after.sorted, st.ps[k].name); }
    }
    forall k: nat | k < |st.ps| && st.ps[k].name in after.sorted && st.ps[k].name !in st.sorted
      ensures Unsorted(after) < Unsorted(st)
    {
      assert k in Unsorted(st) && k !in Unsorted(after);
    }
  }

  /** Without a dangling cycle every call ends. */
  lemma {:induction false} PlaceEnds(st: State, i: nat) returns (fuel: nat)
    requires i < |st.ps| && Named(st.ps) && !HasDanglingCycle(st.ps)
    ensures Place(st, i, fuel).Some?
    decreases Unsorted(st), Unbound(st.ps), Rank(st.ps, i)
  {
    var c := st.ps[i];
    if c.name in st.sorted { return 0; }
    var f := BeforeEnds(st, i);
    var b := PlaceBefore(st, i, f).value;
    AfterBefore(st, i, f);
    var g := AfterEnds(st, b, i);
    fuel := if f < g then g else f;
    PlaceBeforeMono(st, i, f, fuel);
    PlaceAfterMono(b, i, g, fuel);
  }

  /** The first recursive call ends. */
  lemma {:induction false} BeforeEnds(st: State, i: nat) returns (fuel: nat)
    requires i < |st.ps| && Named(st.ps) && !HasDanglingCycle(st.ps) && st.ps[i].name !in st.sorted
    ensures PlaceBefore(st, i, fuel).Some?
    decreases Unsorted(st), Unbound(st.ps), Rank(st.ps, i), 0
  {
    var c := st.ps[i];
    fuel := 0;
    if c.before != NO_NAME && c.before !in st.sorted && Resolve(st.ps, c.before) != -1 {
      BeforeSmaller(st, i);
      var f := PlaceEnds(st.(sorted := st.sorted + [c.name]), Resolve(st.ps, c.before));
      fuel := f + 1;
    }
  }

  /** Between the two recursive calls: either nothing happened, or the processor has been placed. */
  lemma AfterBefore(st: State, i: nat, fuel: nat)
    requires i < |st.ps| && PlaceBefore(st, i, fuel).Some? && st.ps[i].name !in st.sorted
    ensures Halfway(st, PlaceBefore(st, i, fuel).value, i)
  {
    PlaceBeforeGrows(st, i, fuel);
    if st.ps[i].before != NO_NAME && !Dangling(st.ps, i) { BeforePlaces(st, i, fuel); }
  }

  lemma AdoptGrows(st: State, b: State, i: nat, j: nat)
    requires Grows(st, b) && i < |st.ps| && j < |st.ps|
    ensures Grows(st, b.(ps := AdoptBefore(b.ps, j, st.ps[i].name)))
  {
    var mid := b.(ps := AdoptBefore(b.ps, j, st.ps[i].name));
    assert Registered(st.ps, st.ps[i].name);
    SubseqRefl(b.sorted);
    SameNames(st.ps, b.ps);
    assert Grows(b, mid);
    GrowsTrans(st, b, mid);
  }

  /** The first recursive call, if there is one, has less to place. */
  lemma BeforeSmaller(st: State, i: nat)
    requires i < |st.ps| && st.ps[i].name !in st.sorted
    ensures Grows(st, st.(sorted := st.sorted + [st.ps[i].name]))
    ensures Unsorted(st.(sorted := st.sorted + [st.ps[i].name])) < Unsorted(st)
  {
    var c := st.ps[i];
    var mid := st.(sorted := st.sorted + [c.name]);
    assert Registered(st.ps, c.name);
    SubseqAppend(st.sorted, c.name);
    assert Grows(st, mid);
    MeasureShrinks(st, mid);
    assert c.name in mid.sorted;
  }

  /** What holds between the two recursive calls. */
  ghost predicate Halfway(st: State, b: State, i: nat) {
    && i < |st.ps| && Grows(st, b)
    && st.ps[i].name !in st.sorted
    && b.ps[i] == st.ps[i].(before := b.ps[i].before)
    && (b == st || st.ps[i].name in b.sorted)
    && (b == st ==> st.ps[i].before == NO_NAME || Dangling(st.ps, i))
  }

  /** The second recursive call has less to place, or fewer processors without `before`, or a shorter
      way to go. */
  lemma AfterSmaller(st: State, b: State, i: nat)
    requires Halfway(st, b, i) && Named(st.ps) && !HasDanglingCycle(st.ps) && Next(b.ps, i) != -1
    ensures
      var j := Next(b.ps, i);
      var mid := b.(ps := AdoptBefore(b.ps, j, st.ps[i].name));
      && Grows(st, mid) && Named(mid.ps) && !HasDanglingCycle(mid.ps)
      && (Unsorted(mid) < Unsorted(st) ||
          (Unsorted(mid) == Unsorted(st) && Unbound(mid.ps) < Unbound(st.ps)) ||
          (Unsorted(mid) == Unsorted(st) && Unbound(mid.ps) == Unbound(st.ps) && Rank(mid.ps, j) < Rank(st.ps, i)))
  {
    var j := Next(b.ps, i);
    var mid := b.(ps := AdoptBefore(b.ps, j, st.ps[i].name));
    AdoptGrows(st, b, i, j);
    MeasureShrinks(st, mid);
    CyclesSame(st.ps, mid.ps);
    SameNames(st.ps, mid.ps);
    if b == st {
      if st.ps[j].before == NO_NAME {
        assert j in Unbound(st.ps) && j !in Unbound(mid.ps);
      } else {
        assert mid == st;
        RankStep(st.ps, i);
      }
    }
  }

  /** The second recursive call ends. */
  lemma {:induction false} AfterEnds(st: State, b: State, i: nat) returns (fuel: nat)
    requires Halfway(st, b, i) && Named(st.ps) && !HasDanglingCycle(st.ps)
    ensures PlaceAfter(b, i, fuel).Some?
    decreases Unsorted(st), Unbound(st.ps), Rank(st.ps, i), 0
  {
    fuel := 0;
    if b.ps[i].after != NO_NAME && b.ps[i].after !in b.sorted && Next(b.ps, i) != -1 {
      AfterSmaller(st, b, i);
      var j := Next(b.ps, i);
      var f := PlaceEnds(b.(ps := AdoptBefore(b.ps, j, st.ps[i].name)), j);
      fuel := f + 1;
    }
  }

  /** A processor whose `before` names a registered callback is placed by that constraint. */
  lemma BeforePlaces(st: State, i: nat, fuel: nat)
    requires i < |st.ps| && st.ps[i].before != NO_NAME && !Dangling(st.ps, i)
    requires PlaceBefore(st, i, fuel).Some?
    ensures st.ps[i].name in PlaceBefore(st, i, fuel).value.sorted
  {
    var c := st.ps[i];
    if c.before !in st.sorted {
      var mid := st.(sorted := st.sorted + [c.name]);
      PlaceGrows(mid, Resolve(st.ps, c.before), fuel - 1);
      assert c.name in mid.sorted;
      SubseqIn(mid.sorted, PlaceBefore(st, i, fuel).value.sorted, c.name);
    }
  }

  lemma {:induction false} PlaceFromEnds(st: State, i: nat) returns (fuel: nat)
    requires i <= |st.ps| && Named(st.ps) && !HasDanglingCycle(st.ps)
    ensures PlaceFrom(st, i, fuel).Some?
    decreases |st.ps| - i
  {
    fuel := 0;
    if i < |st.ps| {
      var f := PlaceEnds(st, i);
      PlaceGrows(st, i, f);
      var p := Place(st, i, f).value;
      CyclesSame(st.ps, p.ps);
      SameNames(st.ps, p.ps);
      var g := PlaceFromEnds(p, i + 1);
      fuel := if f < g then g else f;
      PlaceMono(st, i, f, fuel);
      PlaceFromMono(p, i + 1, g, fuel);
    }
  }

  /** The sort ends on every list of named processors that has no dangling cycle. */
  lemma SortEnds(ps: seq<Proc>)
    requires Named(ps) && !HasDanglingCycle(ps)
    ensures exists fuel: nat :: Sort(ps, fuel).Some?
  {
    var fuel := PlaceFromEnds(State([], ps), 0);
    assert Sort(ps, fuel).Some?;
  }

  // ----- and does not end otherwise -----

  /** A set of names nobody can get out of: every registration of one of them is dangling and has its
      `after` target, registered, in the set again. */
  ghost predicate Trap(ps: seq<Proc>, h: set<Name>) {
    forall k: nat {:trigger Trapped(ps, h, k)} :: k < |ps| && ps[k].name in h ==> Trapped(ps, h, k)
  }

  ghost predicate Trapped(ps: seq<Proc>, h: set<Name>, k: nat)
    requires k < |ps|
  {
    Dangling(ps, k) && ps[k].after in h && Next(ps, k) != -1
  }

  ghost predicate Clear(st: State, h: set<Name>) {
    forall n <- st.sorted :: n !in h && Registered(st.ps, n)
  }

  lemma TrapKept(ps: seq<Proc>, qs: seq<Proc>, h: set<Name>)
    requires SameButBefore(ps, qs) && Trap(ps, h)
    ensures Trap(qs, h) && forall x :: Registered(qs, x) == Registered(ps, x)
  {
    SameNames(ps, qs);
    forall k: nat | k < |qs| && qs[k].name in h
      ensures Trapped(qs, h, k)
    {
      assert Trapped(ps, h, k);
      WalkSame(ps, qs, k, 0);
      assert qs[k] == ps[k].(before := qs[k].before);
    }
  }

  /** No call places a trapped name, and a call that has to does not end. */
  lemma {:induction false} TrapNeverPlaced(st: State, i: nat, fuel: nat, h: set<Name>)
    requires i < |st.ps| && Trap(st.ps, h) && Clear(st, h)
    ensures st.ps[i].name in h ==> Place(st, i, fuel).None?
    ensures Place(st, i, fuel).Some? ==> Clear(Place(st, i, fuel).value, h)
    decreases fuel, 1
  {
    var p := st.ps[i];
    if p.name in st.sorted {
    } else if p.name in h {
      assert Trapped(st.ps, h, i);
      assert PlaceBefore(st, i, fuel) == Some(st);
      assert p.after == st.ps[Next(st.ps, i)].name;
      assert Trapped(st.ps, h, Next(st.ps, i));
      if fuel > 0 { TrapNeverPlaced(st, Next(st.ps, i), fuel - 1, h); }
      assert PlaceAfter(st, i, fuel).None?;
    } else if Place(st, i, fuel).Some? {
      BeforeKeepsTrap(st, i, fuel, h);
      AfterKeepsTrap(PlaceBefore(st, i, fuel).value, i, fuel, h);
      assert Registered(st.ps, p.name);
    }
  }

  lemma {:induction false} BeforeKeepsTrap(st: State, i: nat, fuel: nat, h: set<Name>)
    requires i < |st.ps| && Trap(st.ps, h) && Clear(st, h) && st.ps[i].name !in h
    requires PlaceBefore(st, i, fuel).Some?
    ensures
      var b := PlaceBefore(st, i, fuel).value;
      && Trap(b.ps, h) && Clear(b, h) && SameButBefore(st.ps, b.ps) && b.ps[i].name == st.ps[i].name
    decreases fuel, 0
  {
    var p := st.ps[i];
    var j := Resolve(st.ps, p.before);
    assert Registered(st.ps, p.name);
    PlaceBeforeGrows(st, i, fuel);
    hide Place, Subseq, NamedBefore, Trap, RIndex, NoDup, Trapped, Registered, Resolve;
    var b := PlaceBefore(st, i, fuel).value;
    if p.before != NO_NAME && p.before !in st.sorted && j != -1 {
      TrapNeverPlaced(st.(sorted := st.sorted + [p.name]), j, fuel - 1, h);
    } else {
      assert b.ps == st.ps && forall n <- b.sorted :: n in st.sorted || n == p.name by { InsertedBefore(st, i, fuel); }
    }
    TrapKept(st.ps, b.ps, h);
  }

  lemma InsertedBefore(st: State, i: nat, fuel: nat)
    requires i < |st.ps| && PlaceBefore(st, i, fuel).Some?
    requires st.ps[i].before == NO_NAME || st.ps[i].before in st.sorted || Resolve(st.ps, st.ps[i].before) == -1
    ensures var b := PlaceBefore(st, i, fuel).value; b.ps == st.ps && forall n <- b.sorted :: n in st.sorted || n == st.ps[i].name
  {
    hide Resolve, Place;
  }

  lemma {:induction false} AfterKeepsTrap(st: State, i: nat, fuel: nat, h: set<Name>)
    requires i < |st.ps| && Trap(st.ps, h) && Clear(st, h) && st.ps[i].name !in h
    requires PlaceAfter(st, i, fuel).Some?
    ensures
      var a := PlaceAfter(st, i, fuel).value;
      Trap(a.ps, h) && Clear(a, h) && SameButBefore(st.ps, a.ps)
    decreases fuel, 0
  {
    var p := st.ps[i];
    assert Registered(st.ps, p.name);
    hide Place, Subseq, NamedBefore, Trap;
    var j := Resolve(st.ps, p.after);
    if p.after != NO_NAME && p.after !in st.sorted && j != -1 {
      var mid := st.(ps := AdoptBefore(st.ps, j, p.name));
      AdoptSame(st.ps, j, p.name);
      TrapKept(st.ps, mid.ps, h);
      TrapNeverPlaced(mid, j, fuel - 1, h);
    }
    PlaceAfterGrows(st, i, fuel);
    TrapKept(st.ps, PlaceAfter(st, i, fuel).value.ps, h);
  }

  lemma {:induction false} PlaceFromKeepsTrap(st: State, i: nat, fuel: nat, h: set<Name>)
    requires i <= |st.ps| && Trap(st.ps, h) && Clear(st, h) && PlaceFrom(st, i, fuel).Some?
    ensures Clear(PlaceFrom(st, i, fuel).value, h)
    decreases |st.ps| - i
  {
    if i < |st.ps| {
      TrapNeverPlaced(st, i, fuel, h);
      PlaceGrows(st, i, fuel);
      var p := Place(st, i, fuel).value;
      TrapKept(st.ps, p.ps, h);
      PlaceFromKeepsTrap(p, i + 1, fuel, h);
    }
  }

  /** A list with a trapped name has no depth at which the sort ends. */
  lemma TrapDiverges(ps: seq<Proc>, h: set<Name>, fuel: nat)
    requires Trap(ps, h) && exists n <- h :: Registered(ps, n)
    ensures Sort(ps, fuel).None?
  {
    var n :| n in h && Registered(ps, n);
    if Sort(ps, fuel).Some? {
      PlaceFromKeepsTrap(State([], ps), 0, fuel, h);
      SortPlacesExactly(ps, fuel);
    }
  }

  /** With distinct names the sort ends exactly on the lists that have no dangling cycle. */
  lemma SortEndsExactly(ps: seq<Proc>)
    requires Named(ps) && DistinctNames(ps)
    ensures (exists fuel: nat :: Sort(ps, fuel).Some?) <==> !HasDanglingCycle(ps)
  {
    if HasDanglingCycle(ps) {
      var c :| IsDanglingCycle(ps, c);
      var h := set k | 0 <= k < |c| :: ps[c[k]].name;
      CycleTraps(ps, c, h);
      forall fuel: nat ensures Sort(ps, fuel).None? { TrapDiverges(ps, h, fuel); }
    } else {
      SortEnds(ps);
    }
  }

  lemma CycleTraps(ps: seq<Proc>, c: seq<nat>, h: set<Name>)
    requires IsDanglingCycle(ps, c) && DistinctNames(ps) && h == set k | 0 <= k < |c| :: ps[c[k]].name
    ensures Trap(ps, h) && exists n <- h :: Registered(ps, n)
  {
    hide DistinctNames, Resolve, Trapped, Next;
    assert Registered(ps, ps[c[0]].name) && ps[c[0]].name in h;
    hide Registered, Dangling;
    forall i: nat | i < |ps| && ps[i].name in h ensures Trapped(ps, h, i) {
      var k :| 0 <= k < |c| && ps[c[k]].name == ps[i].name;
      CycleMember(ps, c, h, k, i);
    }
  }

  lemma CycleMember(ps: seq<Proc>, c: seq<nat>, h: set<Name>, k: nat, i: nat)
    requires IsDanglingCycle(ps, c) && DistinctNames(ps) && h == set k | 0 <= k < |c| :: ps[c[k]].name
    requires k < |c| && i < |ps| && ps[c[k]].name == ps[i].name
    ensures Trapped(ps, h, i)
  {
    hide DistinctNames, Resolve, NamedBefore;
    DistinctNamesPair(ps, c[k], i);
    CycleTrapped(ps, c, h, k);
  }

  lemma CycleTrapped(ps: seq<Proc>, c: seq<nat>, h: set<Name>, k: nat)
    requires IsDanglingCycle(ps, c) && h == set k | 0 <= k < |c| :: ps[c[k]].name
    requires k < |c|
    ensures Trapped(ps, h, c[k])
  {
    var m := if k + 1 < |c| then k + 1 else 0;
    assert Next(ps, c[k]) == c[m] && ps[c[k]].after == ps[c[m]].name;
  }

  /** The smallest such list: two callbacks after each other, each before a callback that does not exist. */
  lemma DanglingPair(fuel: nat)
    ensures Sort([Proc(1, 9, 2, false, 1), Proc(2, 9, 1, false, 2)], fuel).None?
  {
    var ps := [Proc(1, 9, 2, false, 1), Proc(2, 9, 1, false, 2)];
    assert ps[0].name == 1 && ps[1].name == 2;
    assert Registered(ps, 1) && Registered(ps, 2) && !Registered(ps, 9);
    assert Resolve(ps, 1) == 0 && Resolve(ps, 2) == 1;
    assert Trap(ps, {1, 2});
    TrapDiverges(ps, {1, 2}, fuel);
  }
}
