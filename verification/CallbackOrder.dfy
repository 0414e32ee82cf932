/** The callback scheduler of callback.go on values: a run of `sortProcessors` over a list of
    processors, with the shared list of placed names and the processors' `before` fields as its state. */
module CallbackOrder {
  import opened Lists

  /** Callback names are only compared, so a name is a number here; 0 is the empty string. */
  type Name = int

  const NO_NAME: Name := 0

  /** A registered callback. `handler` stands for the function pointer. */
  datatype Proc = Proc(name: Name, before: Name, after: Name, remove: bool, handler: nat)

  /** State of a run: the names placed so far, and the processors (only `before` ever changes). */
  datatype State = State(sorted: seq<Name>, ps: seq<Proc>)

  /** The name is registered by one of the first `n` processors. */
  ghost predicate NamedBefore(ps: seq<Proc>, n: nat, name: Name)
    requires n <= |ps|
  {
    exists k :: 0 <= k < n && ps[k].name == name
  }

  ghost predicate Registered(ps: seq<Proc>, name: Name) {
    NamedBefore(ps, |ps|, name)
  }

  ghost predicate DistinctNames(ps: seq<Proc>) {
    forall i: nat {:trigger NamedBefore(ps, i, ps[i].name)} :: i < |ps| ==> !NamedBefore(ps, i, ps[i].name)
  }

  lemma DistinctNamesPair(ps: seq<Proc>, i: nat, j: nat)
    requires DistinctNames(ps) && i < |ps| && j < |ps| && ps[i].name == ps[j].name
    ensures i == j
  {
    assert NamedBefore(ps, i, ps[i].name) || NamedBefore(ps, j, ps[j].name) || i == j;
  }

  /** `reorder` hands over named processors only. */
  ghost predicate Named(ps: seq<Proc>) {
    forall k :: 0 <= k < |ps| ==> ps[k].name != NO_NAME
  }

  /** The processor a name resolves to: its last registration, or -1. */
  ghost function Resolve(ps: seq<Proc>, name: Name): (r: int)
    ensures -1 <= r < |ps|
    ensures r == -1 <==> !Registered(ps, name)
    ensures r >= 0 ==> ps[r].name == name && forall k :: r < k < |ps| ==> ps[k].name != name
  {
    if !Registered(ps, name) then -1
    else
      LastNamed(ps, |ps|, name);
      var r :| 0 <= r < |ps| && ps[r].name == name && forall k :: r < k < |ps| ==> ps[k].name != name;
      r
  }

  lemma {:induction false} LastNamed(ps: seq<Proc>, n: nat, name: Name)
    requires n <= |ps| && NamedBefore(ps, n, name)
    ensures exists r :: 0 <= r < n && ps[r].name == name && forall k :: r < k < n ==> ps[k].name != name
    decreases n
  {
    if ps[n - 1].name != name { LastNamed(ps, n - 1, name); }
  }

  /** One call of `sortCallbackProcessor`. The source recurses without a bound; `fuel` bounds the
      depth of the recursion, and `None` means that the bound was reached. */
  ghost function Place(st: State, i: nat, fuel: nat): (r: Option<State>)
    requires i < |st.ps|
    ensures r.Some? ==> |r.value.ps| == |st.ps|
    decreases fuel, 2
  {
    if st.ps[i].name in st.sorted then Some(st)
    else
      var b := PlaceBefore(st, i, fuel);
      if b.None? then None
      else
        var a := PlaceAfter(b.value, i, fuel);
        if a.None? then None
        else Some(PlaceLast(a.value, st.ps[i].name))
  }

  ghost function PlaceBefore(st: State, i: nat, fuel: nat): (r: Option<State>)
    requires i < |st.ps|
    ensures r.Some? ==> |r.value.ps| == |st.ps|
    decreases fuel, 1
  {
    var c := st.ps[i];
    var k := RIndex(st.sorted, c.before);
    var j := Resolve(st.ps, c.before);
    if c.before == NO_NAME then Some(st)
    else if k != -1 then Some(st.(sorted := InsertAt(st.sorted, k, c.name)))
    else if j == -1 then Some(st)
    else if fuel == 0 then None
    else Place(st.(sorted := st.sorted + [c.name]), j, fuel - 1)
  }

  ghost function PlaceAfter(st: State, i: nat, fuel: nat): (r: Option<State>)
    requires i < |st.ps|
    ensures r.Some? ==> |r.value.ps| == |st.ps|
    decreases fuel, 1
  {
    var c := st.ps[i];
    var k := RIndex(st.sorted, c.after);
    var j := Resolve(st.ps, c.after);
    if c.after == NO_NAME then Some(st)
    else if k != -1 then Some(st.(sorted := InsertAt(st.sorted, k + 1, c.name)))
    else if j == -1 then Some(st)
    else if fuel == 0 then None
    else Place(st.(ps := AdoptBefore(st.ps, j, c.name)), j, fuel - 1)
  }

  /** The write the run makes into the processor list: an `after` target that has no `before` of its
      own is told to come before the processor that names it. */
  function AdoptBefore(ps: seq<Proc>, j: nat, name: Name): seq<Proc>
    requires j < |ps|
  {
    if ps[j].before == NO_NAME then ps[j := ps[j].(before := name)] else ps
  }

  function PlaceLast(st: State, name: Name): State {
    if name in st.sorted then st else st.(sorted := st.sorted + [name])
  }

  /** The main loop of `sortProcessors`, from processor `i` on. */
  ghost function PlaceFrom(st: State, i: nat, fuel: nat): (r: Option<State>)
    requires i <= |st.ps|
    ensures r.Some? ==> |r.value.ps| == |st.ps|
    decreases |st.ps| - i
  {
    if i == |st.ps| then Some(st)
    else
      var p := Place(st, i, fuel);
      if p.None? then None else PlaceFrom(p.value, i + 1, fuel)
  }

  ghost function Sort(ps: seq<Proc>, fuel: nat): (r: Option<State>)
    ensures r.Some? ==> |r.value.ps| == |ps|
  {
    PlaceFrom(State([], ps), 0, fuel)
  }

  /** The functions `sortProcessors` returns: for each placed name the handler of its last
      registration, unless that registration removes it. */
  ghost function Handlers(sorted: seq<Name>, ps: seq<Proc>): seq<nat> {
    if sorted == [] then []
    else
      var j := Resolve(ps, sorted[0]);
      (if j == -1 || ps[j].remove then [] else [ps[j].handler]) + Handlers(sorted[1..], ps)
  }

  // ----- more depth never changes a finished run -----

  lemma {:induction false} PlaceMono(st: State, i: nat, f: nat, g: nat)
    requires i < |st.ps| && f <= g && Place(st, i, f).Some?
    ensures Place(st, i, g) == Place(st, i, f)
    decreases f, 2
  {
    if st.ps[i].name !in st.sorted {
      PlaceBeforeMono(st, i, f, g);
      PlaceAfterMono(PlaceBefore(st, i, f).value, i, f, g);
    }
  }

  lemma {:induction false} PlaceBeforeMono(st: State, i: nat, f: nat, g: nat)
    requires i < |st.ps| && f <= g && PlaceBefore(st, i, f).Some?
    ensures PlaceBefore(st, i, g) == PlaceBefore(st, i, f)
    decreases f, 1
  {
    var c := st.ps[i];
    var j := Resolve(st.ps, c.before);
    if c.before != NO_NAME && c.before !in st.sorted && j != -1 {
      PlaceMono(st.(sorted := st.sorted + [c.name]), j, f - 1, g - 1);
    }
  }

  lemma {:induction false} PlaceAfterMono(st: State, i: nat, f: nat, g: nat)
    requires i < |st.ps| && f <= g && PlaceAfter(st, i, f).Some?
    ensures PlaceAfter(st, i, g) == PlaceAfter(st, i, f)
    decreases f, 1
  {
    var c := st.ps[i];
    var j := Resolve(st.ps, c.after);
    if c.after != NO_NAME && c.after !in st.sorted && j != -1 {
      PlaceMono(st.(ps := AdoptBefore(st.ps, j, c.name)), j, f - 1, g - 1);
    }
  }

  lemma {:induction false} PlaceFromMono(st: State, i: nat, f: nat, g: nat)
    requires i <= |st.ps| && f <= g && PlaceFrom(st, i, f).Some?
    ensures PlaceFrom(st, i, g) == PlaceFrom(st, i, f)
    decreases |st.ps| - i
  {
    if i < |st.ps| {
      PlaceMono(st, i, f, g);
      PlaceFromMono(Place(st, i, f).value, i + 1, f, g);
    }
  }

  /** Any two finished runs over the same list end alike, whatever depth they were given. */
  lemma SortDeterministic(ps: seq<Proc>, f: nat, g: nat)
    requires Sort(ps, f).Some? && Sort(ps, g).Some?
    ensures Sort(ps, f) == Sort(ps, g)
  {
    if f <= g { PlaceFromMono(State([], ps), 0, f, g); } else { PlaceFromMono(State([], ps), 0, g, f); }
  }

  // ----- what every step keeps, whatever the constraints -----

  /** Two processor lists that differ only where an empty `before` was set to a registered name. */
  ghost predicate SameButBefore(ps: seq<Proc>, qs: seq<Proc>) {
    |qs| == |ps| &&
    forall k :: 0 <= k < |ps| ==>
      qs[k] == ps[k].(before := qs[k].before) &&
      (qs[k].before == ps[k].before || (ps[k].before == NO_NAME && Registered(ps, qs[k].before)))
  }

  /** From `st` to `after` the placed names are only inserted to, never moved or dropped, and only
      registered names come in. */
  ghost predicate Grows(st: State, after: State) {
    && SameButBefore(st.ps, after.ps)
    && Subseq(st.sorted, after.sorted)
    && forall x <- after.sorted :: x in st.sorted || Registered(st.ps, x)
  }

  lemma SameNames(ps: seq<Proc>, qs: seq<Proc>)
    requires |qs| == |ps| && forall k :: 0 <= k < |ps| ==> qs[k].name == ps[k].name
    ensures forall x :: Registered(qs, x) == Registered(ps, x) && Resolve(qs, x) == Resolve(ps, x)
    ensures Named(qs) == Named(ps)
  {
    forall x ensures Registered(qs, x) == Registered(ps, x) && Resolve(qs, x) == Resolve(ps, x) {
      if k :| 0 <= k < |ps| && ps[k].name == x { assert qs[k].name == x; }
      if k :| 0 <= k < |qs| && qs[k].name == x { assert ps[k].name == x; }
    }
  }

  lemma AdoptSame(ps: seq<Proc>, j: nat, name: Name)
    requires j < |ps| && Registered(ps, name)
    ensures SameButBefore(ps, AdoptBefore(ps, j, name))
  {
  }

  lemma GrowsRefl(st: State)
    ensures Grows(st, st)
  {
    SubseqRefl(st.sorted);
  }

  lemma GrowsTrans(a: State, b: State, c: State)
    requires Grows(a, b) && Grows(b, c)
    ensures Grows(a, c)
  {
    SubseqTrans(a.sorted, b.sorted, c.sorted);
    SameNames(a.ps, b.ps);
    forall k | 0 <= k < |a.ps|
      ensures c.ps[k].before == a.ps[k].before || (a.ps[k].before == NO_NAME && Registered(a.ps, c.ps[k].before))
    {
      assert b.ps[k] == a.ps[k].(before := b.ps[k].before);
    }
  }

  /** Every call, finished or nested, only inserts registered names, and places its own name. */
  lemma {:induction false} PlaceGrows(st: State, i: nat, fuel: nat)
    requires i < |st.ps| && Place(st, i, fuel).Some?
    ensures Grows(st, Place(st, i, fuel).value)
    ensures st.ps[i].name in Place(st, i, fuel).value.sorted
    decreases fuel, 2
  {
    var name := st.ps[i].name;
    if name in st.sorted {
      GrowsRefl(st);
    } else {
      PlaceBeforeGrows(st, i, fuel);
      var b := PlaceBefore(st, i, fuel).value;
      PlaceAfterGrows(b, i, fuel);
      var a := PlaceAfter(b, i, fuel).value;
      GrowsTrans(st, b, a);
      SubseqAppend(a.sorted, name);
      SubseqRefl(a.sorted);
      assert Registered(st.ps, name);
      SameNames(st.ps, a.ps);
      assert Grows(a, PlaceLast(a, name));
      GrowsTrans(st, a, PlaceLast(a, name));
    }
  }

  lemma {:induction false} PlaceBeforeGrows(st: State, i: nat, fuel: nat)
    requires i < |st.ps| && PlaceBefore(st, i, fuel).Some?
    ensures Grows(st, PlaceBefore(st, i, fuel).value)
    decreases fuel, 1
  {
    var c := st.ps[i];
    assert Registered(st.ps, c.name);
    var k := RIndex(st.sorted, c.before);
    var j := Resolve(st.ps, c.before);
    GrowsRefl(st);
    if c.before == NO_NAME {
    } else if k != -1 {
      SubseqInsert(st.sorted, k, c.name);
    } else if j != -1 {
      var mid := st.(sorted := st.sorted + [c.name]);
      SubseqAppend(st.sorted, c.name);
      assert Grows(st, mid);
      PlaceGrows(mid, j, fuel - 1);
      GrowsTrans(st, mid, Place(mid, j, fuel - 1).value);
    }
  }

  lemma {:induction false} PlaceAfterGrows(st: State, i: nat, fuel: nat)
    requires i < |st.ps| && PlaceAfter(st, i, fuel).Some?
    ensures Grows(st, PlaceAfter(st, i, fuel).value)
    decreases fuel, 1
  {
    var c := st.ps[i];
    assert Registered(st.ps, c.name);
    var k := RIndex(st.sorted, c.after);
    var j := Resolve(st.ps, c.after);
    GrowsRefl(st);
    if c.after == NO_NAME {
    } else if k != -1 {
      SubseqInsert(st.sorted, k + 1, c.name);
    } else if j != -1 {
      var mid := st.(ps := AdoptBefore(st.ps, j, c.name));
      AdoptSame(st.ps, j, c.name);
      assert Grows(st, mid);
      PlaceGrows(mid, j, fuel - 1);
      GrowsTrans(st, mid, Place(mid, j, fuel - 1).value);
    }
  }

  lemma {:induction false} PlaceFromGrows(st: State, i: nat, fuel: nat)
    requires i <= |st.ps| && PlaceFrom(st, i, fuel).Some?
    ensures Grows(st, PlaceFrom(st, i, fuel).value)
    ensures forall k :: i <= k < |st.ps| ==> st.ps[k].name in PlaceFrom(st, i, fuel).value.sorted
    decreases |st.ps| - i
  {
    hide Place, Subseq, Registered, Resolve;
    if i == |st.ps| {
      GrowsRefl(st);
    } else {
      PlaceGrows(st, i, fuel);
      var p := Place(st, i, fuel).value;
      PlaceFromGrows(p, i + 1, fuel);
      var r := PlaceFrom(p, i + 1, fuel).value;
      GrowsTrans(st, p, r);
      SubseqIn(p.sorted, r.sorted, st.ps[i].name);
      forall k | i < k < |st.ps| ensures st.ps[k].name in r.sorted {
        assert p.ps[k].name == st.ps[k].name;
      }
    }
  }

  /** For every list on which the sort ends: exactly the registered names are placed, and what was
      placed after any number of turns is a subsequence of the final order. */
  lemma SortPlacesExactly(ps: seq<Proc>, fuel: nat)
    requires Sort(ps, fuel).Some?
    ensures forall x :: x in Sort(ps, fuel).value.sorted <==> Registered(ps, x)
    ensures SameButBefore(ps, Sort(ps, fuel).value.ps)
  {
    PlaceFromGrows(State([], ps), 0, fuel);
  }

  // ----- the returned functions -----

  /** The handlers a list of names stands for are picked one name at a time. */
  lemma {:induction false} HandlersConcat(a: seq<Name>, b: seq<Name>, ps: seq<Proc>)
    ensures Handlers(a + b, ps) == Handlers(a, ps) + Handlers(b, ps)
    decreases |a|
  {
    if a == [] {
      assert a + b == b;
    } else {
      assert (a + b)[1..] == a[1..] + b;
      HandlersConcat(a[1..], b, ps);
    }
  }

  /** A handler is returned exactly when it is the last registration of a placed name and that
      registration is not a removal. */
  lemma {:induction false} HandlersExactly(sorted: seq<Name>, ps: seq<Proc>, h: nat)
    ensures h in Handlers(sorted, ps) <==>
      exists x <- sorted :: Resolve(ps, x) != -1 && !ps[Resolve(ps, x)].remove && ps[Resolve(ps, x)].handler == h
    decreases |sorted|
  {
    if sorted != [] {
      HandlersExactly(sorted[1..], ps, h);
      assert sorted == [sorted[0]] + sorted[1..];
    }
  }

  /** Resolving ignores the `before` fields, so the write made by the run does not change the result. */
  lemma {:induction false} HandlersSame(sorted: seq<Name>, ps: seq<Proc>, qs: seq<Proc>)
    requires SameButBefore(ps, qs)
    ensures Handlers(sorted, qs) == Handlers(sorted, ps)
    decreases |sorted|
  {
    if sorted != [] {
      SameNames(ps, qs);
      HandlersSame(sorted[1..], ps, qs);
    }
  }
}
