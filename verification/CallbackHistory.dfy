/** Sorting over the life of a callback list: replacements and removals, one sort per registration, and
    built-in callbacks under any later registrations. */
module CallbackHistory {
  import opened Lists
  import opened CallbackOrder
  import opened CallbackGuarantees

  // ----- Replace and Remove -----

  lemma {:induction false} TurnsExtend(ps: seq<Proc>, r: Proc, n: nat)
    requires n <= |ps| && Registered(ps, r.name)
    ensures Turns(ps + [r], n) == Turns(ps, n)
    decreases n
  {
    if n > 0 {
      TurnsExtend(ps, r, n - 1);
      var t := Target(ps[n - 1]);
      RegisteredExtends(ps, r, t);
    }
  }

  lemma RegisteredExtends(ps: seq<Proc>, r: Proc, x: Name)
    ensures Registered(ps + [r], x) <==> Registered(ps, x) || x == r.name
    ensures Resolve(ps + [r], x) == if x == r.name then |ps| else Resolve(ps, x)
  {
    var qs := ps + [r];
    if k :| 0 <= k < |ps| && ps[k].name == x { assert qs[k].name == x; }
    assert qs[|ps|] == r;
    var j, q := Resolve(ps, x), Resolve(qs, x);
    if x != r.name && j != -1 {
      assert qs[j].name == x && ps[q].name == x;
    }
  }

  lemma WellOrderedExtends(ps: seq<Proc>, r: Proc)
    requires WellOrdered(ps) && r.name != NO_NAME && Unconstrained(r) && Registered(ps, r.name)
    ensures WellOrdered(ps + [r])
  {
    var qs := ps + [r];
    forall i: nat | i < |qs| ensures WellPlaced(qs, i) {
      if i < |ps| {
        assert WellPlaced(ps, i);
        RegisteredExtends(ps, r, Target(ps[i]));
        forall x ensures NamedBefore(qs, i, x) <==> NamedBefore(ps, i, x) {
          if k :| 0 <= k < i && ps[k].name == x { assert qs[k].name == x; }
        }
        if Free(ps, Target(ps[i])) { assert Free(qs, Target(ps[i])); }
      }
    }
  }

  lemma {:induction false} HandlersExtend(s: seq<Name>, ps: seq<Proc>, r: Proc)
    requires r.name !in s
    ensures Handlers(s, ps + [r]) == Handlers(s, ps)
    decreases |s|
  {
    if s != [] {
      RegisteredExtends(ps, r, s[0]);
      HandlersExtend(s[1..], ps, r);
    }
  }

  /** Replacing or removing does not change the order of the names. */
  lemma SameOrder(ps: seq<Proc>, r: Proc, fuel: nat)
    requires WellOrdered(ps) && fuel >= 2
    requires Unconstrained(r) && r.name != NO_NAME && Registered(ps, r.name)
    ensures Sort(ps, fuel).Some? && Sort(ps + [r], fuel).Some?
    ensures Sort(ps, fuel).value.sorted == Sort(ps + [r], fuel).value.sorted
    ensures r.name in Sort(ps, fuel).value.sorted && NoDup(Sort(ps, fuel).value.sorted)
  {
    var qs := ps + [r];
    WellOrderedExtends(ps, r);
    AdoptedRefl(ps);
    AdoptedRefl(qs);
    SortIsTurns(ps, ps, fuel);
    SortIsTurns(qs, qs, fuel);
    TurnsPermutation(ps);
    TurnsExtend(ps, r, |ps|);
    assert qs[|ps|] == r;
    assert Turns(qs, |qs|) == Turn(qs, Turns(qs, |ps|), r);
  }

  lemma HandlersReplaced(a: seq<Name>, b: seq<Name>, ps: seq<Proc>, r: Proc)
    requires r.name !in a && r.name !in b
    ensures Handlers(a + [r.name] + b, ps + [r]) ==
      Handlers(a, ps) + (if r.remove then [] else [r.handler]) + Handlers(b, ps)
  {
    var qs := ps + [r];
    HandlersConcat(a + [r.name], b, qs);
    HandlersConcat(a, [r.name], qs);
    HandlersExtend(a, ps, r);
    HandlersExtend(b, ps, r);
    HandlersOne(ps, r);
  }

  lemma HandlersOne(ps: seq<Proc>, r: Proc)
    ensures Handlers([r.name], ps + [r]) == if r.remove then [] else [r.handler]
  {
    RegisteredExtends(ps, r, r.name);
    assert [r.name][1..] == [];
  }

  /** A replacement takes the place of the original, and a removal leaves a gap there: the order of all
      other callbacks is what it was. */
  lemma ReplaceInPlace(ps: seq<Proc>, r: Proc, fuel: nat) returns (a: seq<Name>, b: seq<Name>)
    requires WellOrdered(ps) && fuel >= 2
    requires Unconstrained(r) && r.name != NO_NAME && Registered(ps, r.name)
    ensures Sort(ps, fuel).Some? && Sort(ps + [r], fuel).Some?
    ensures Sort(ps, fuel).value.sorted == Sort(ps + [r], fuel).value.sorted == a + [r.name] + b
    ensures r.name !in a && r.name !in b
    ensures Handlers(a + [r.name] + b, ps + [r]) ==
      Handlers(a, ps) + (if r.remove then [] else [r.handler]) + Handlers(b, ps)
  {
    SameOrder(ps, r, fuel);
    var s := Sort(ps, fuel).value.sorted;
    var k :| 0 <= k < |s| && s[k] == r.name;
    a, b := s[..k], s[k + 1..];
    assert s == a + [r.name] + b;
    HandlersReplaced(a, b, ps, r);
  }

  // ----- one sort per registration -----

  /** The processors after `n` registrations: every one is followed by a sort of the list as the sorts
      before it left it. */
  ghost function Registrations(ps: seq<Proc>, n: nat, fuel: nat): (r: Option<State>)
    requires n <= |ps|
    ensures r.Some? ==> |r.value.ps| == n
    decreases n
  {
    if n == 0 then Some(State([], []))
    else
      var before := Registrations(ps, n - 1, fuel);
      if before.None? then None else Sort(before.value.ps + [ps[n - 1]], fuel)
  }

  lemma WellOrderedPrefix(ps: seq<Proc>, n: nat)
    requires WellOrdered(ps) && n <= |ps|
    ensures WellOrdered(ps[..n])
  {
    var qs := ps[..n];
    forall i: nat | i < n ensures WellPlaced(qs, i) {
      assert WellPlaced(ps, i);
      forall x ensures NamedBefore(qs, i, x) <==> NamedBefore(ps, i, x) {
        if k :| 0 <= k < i && ps[k].name == x { assert qs[k].name == x; }
      }
      if Registered(qs, Target(ps[i])) {
        var k :| 0 <= k < n && qs[k].name == Target(ps[i]);
        assert ps[k].name == Target(ps[i]);
      }
      if Free(ps, Target(ps[i])) { assert Free(qs, Target(ps[i])); }
    }
  }

  lemma AdoptedExtends(ps: seq<Proc>, qs: seq<Proc>, p: Proc)
    requires Adopted(ps, qs)
    ensures Adopted(ps + [p], qs + [p])
  {
    var ps', qs' := ps + [p], qs + [p];
    forall k: nat | k < |ps'| ensures AdoptedAt(ps', qs'[k], k) {
      if k < |ps| {
        assert AdoptedAt(ps, qs[k], k);
        if qs[k] != ps[k] {
          var i: nat :| Adopter(ps, i, ps[k].name) && qs[k] == ps[k].(before := ps[i].name);
          assert Adopter(ps', i, ps[k].name);
        }
      }
    }
  }

  lemma {:induction false} RegistrationsAdopted(ps: seq<Proc>, n: nat, fuel: nat)
    requires WellOrdered(ps) && n <= |ps| && fuel >= 2
    ensures Registrations(ps, n, fuel).Some?
    ensures Registrations(ps, n, fuel).value.sorted == Turns(ps[..n], n)
    ensures Adopted(ps[..n], Registrations(ps, n, fuel).value.ps)
    decreases n
  {
    if n > 0 {
      RegistrationsAdopted(ps, n - 1, fuel);
      RegistrationStep(ps[..n - 1], ps[n - 1], Registrations(ps, n - 1, fuel).value.ps, ps[..n], fuel);
    }
    WellOrderedPrefix(ps, n);
  }

  lemma RegistrationStep(ps: seq<Proc>, p: Proc, qs: seq<Proc>, all: seq<Proc>, fuel: nat)
    requires Adopted(ps, qs) && all == ps + [p] && fuel >= 2
    ensures WellOrdered(all) ==> Sort(qs + [p], fuel).Some?
    ensures WellOrdered(all) ==>
      Sort(qs + [p], fuel).value.sorted == Turns(all, |all|) && Adopted(all, Sort(qs + [p], fuel).value.ps)
  {
    AdoptedExtends(ps, qs, p);
    if WellOrdered(all) { SortIsTurns(all, qs + [p], fuel); }
  }

  /** The constraints written into the list by the sort after one registration never disturb a later
      one: after the last registration the order is that of a single sort of the list as written. */
  lemma RegistrationsAgree(ps: seq<Proc>, fuel: nat)
    requires WellOrdered(ps) && fuel >= 2
    ensures Sort(ps, fuel).Some? && Registrations(ps, |ps|, fuel).Some?
    ensures Registrations(ps, |ps|, fuel).value.sorted == Sort(ps, fuel).value.sorted
  {
    RegistrationsAdopted(ps, |ps|, fuel);
    assert ps[..|ps|] == ps;
    AdoptedRefl(ps);
    SortIsTurns(ps, ps, fuel);
  }

  // ----- the built-in callbacks under any later registrations -----

  ghost function NamesOf(ps: seq<Proc>, d: nat): (r: seq<Name>)
    requires d <= |ps|
    ensures |r| == d && forall k :: 0 <= k < d ==> r[k] == ps[k].name
  {
    if d == 0 then [] else NamesOf(ps, d - 1) + [ps[d - 1].name]
  }

  lemma DistinctNamesPrefix(ps: seq<Proc>, i: nat)
    requires 0 < i <= |ps| && DistinctNames(ps[..i])
    ensures DistinctNames(ps[..i - 1])
  {
    var qs := ps[..i - 1];
    forall k: nat | k < |qs| ensures !NamedBefore(qs, k, qs[k].name) {
      var all := ps[..i];
      assert forall j :: 0 <= j < |qs| ==> qs[j] == all[j];
      assert !NamedBefore(all, k, all[k].name);
    }
  }

  lemma {:induction false} LeadersPlaced(ps: seq<Proc>, i: nat, fuel: nat)
    requires i <= |ps| && DistinctNames(ps[..i])
    requires forall k :: 0 <= k < i ==> Unconstrained(ps[k])
    ensures PlaceFrom(State([], ps), 0, fuel) == PlaceFrom(State(NamesOf(ps, i), ps), i, fuel)
    decreases i
  {
    if i > 0 {
      DistinctNamesPrefix(ps, i);
      LeadersPlaced(ps, i - 1, fuel);
      var s := NamesOf(ps, i - 1);
      forall k | 0 <= k < |s| ensures s[k] != ps[i - 1].name {
        if ps[k].name == ps[i - 1].name { DistinctNamesPair(ps[..i], k, i - 1); }
      }
      UnconstrainedPlace(State(s, ps), i - 1, fuel);
    }
  }

  /** In one sort, whatever stands behind them with whatever constraints: if the first `d` callbacks are
      distinct and unconstrained, they keep their order, whenever the sort ends. */
  lemma LeadersKeepOrder(ps: seq<Proc>, d: nat, fuel: nat)
    requires d <= |ps| && Leaders(ps, d) && Sort(ps, fuel).Some?
    ensures Subseq(NamesOf(ps, d), Sort(ps, fuel).value.sorted)
  {
    LeadersPlaced(ps, d, fuel);
    PlaceFromGrows(State(NamesOf(ps, d), ps), d, fuel);
  }

  /** The first `d` processors are distinct and carry no constraint. */
  ghost predicate Leaders(ps: seq<Proc>, d: nat)
    requires d <= |ps|
  {
    DistinctNames(ps[..d]) && forall k :: 0 <= k < d ==> Unconstrained(ps[k])
  }

  // ----- a run never writes to a processor that is placed -----

  ghost predicate PlacedUnwritten(st: State, after: State) {
    |after.ps| == |st.ps| && forall k :: 0 <= k < |st.ps| && st.ps[k].name in st.sorted ==> after.ps[k] == st.ps[k]
  }

  lemma UnwrittenTrans(a: State, b: State, c: State)
    requires PlacedUnwritten(a, b) && PlacedUnwritten(b, c) && Subseq(a.sorted, b.sorted)
    ensures PlacedUnwritten(a, c)
  {
    forall k | 0 <= k < |a.ps| && a.ps[k].name in a.sorted ensures c.ps[k] == a.ps[k] {
      SubseqIn(a.sorted, b.sorted, a.ps[k].name);
    }
  }

  lemma {:induction false} PlaceSparesPlaced(st: State, i: nat, fuel: nat)
    requires i < |st.ps| && Place(st, i, fuel).Some?
    ensures PlacedUnwritten(st, Place(st, i, fuel).value)
    decreases fuel, 2
  {
    hide Subseq, Resolve, Registered;
    if st.ps[i].name !in st.sorted {
      PlaceBeforeSparesPlaced(st, i, fuel);
      PlaceBeforeGrows(st, i, fuel);
      var b := PlaceBefore(st, i, fuel).value;
      PlaceAfterSparesPlaced(b, i, fuel);
      UnwrittenTrans(st, b, PlaceAfter(b, i, fuel).value);
    }
  }

  lemma {:induction false} PlaceBeforeSparesPlaced(st: State, i: nat, fuel: nat)
    requires i < |st.ps| && PlaceBefore(st, i, fuel).Some?
    ensures PlacedUnwritten(st, PlaceBefore(st, i, fuel).value)
    decreases fuel, 1
  {
    var c := st.ps[i];
    var j := Resolve(st.ps, c.before);
    if c.before != NO_NAME && c.before !in st.sorted && j != -1 {
      PlaceSparesPlaced(st.(sorted := st.sorted + [c.name]), j, fuel - 1);
    }
  }

  lemma {:induction false} PlaceAfterSparesPlaced(st: State, i: nat, fuel: nat)
    requires i < |st.ps| && PlaceAfter(st, i, fuel).Some?
    ensures PlacedUnwritten(st, PlaceAfter(st, i, fuel).value)
    decreases fuel, 1
  {
    var c := st.ps[i];
    var j := Resolve(st.ps, c.after);
    if c.after != NO_NAME && c.after !in st.sorted && j != -1 {
      var mid := st.(ps := AdoptBefore(st.ps, j, c.name));
      PlaceSparesPlaced(mid, j, fuel - 1);
    }
  }

  lemma {:induction false} PlaceFromSparesPlaced(st: State, i: nat, fuel: nat)
    requires i <= |st.ps| && PlaceFrom(st, i, fuel).Some?
    ensures PlacedUnwritten(st, PlaceFrom(st, i, fuel).value)
    decreases |st.ps| - i
  {
    hide Place, Subseq, Resolve, Registered;
    if i < |st.ps| {
      PlaceSparesPlaced(st, i, fuel);
      PlaceGrows(st, i, fuel);
      var p := Place(st, i, fuel).value;
      PlaceFromSparesPlaced(p, i + 1, fuel);
      UnwrittenTrans(st, p, PlaceFrom(p, i + 1, fuel).value);
    }
  }

  /** A sort leaves its leaders as they are. */
  lemma LeadersUnwritten(ps: seq<Proc>, d: nat, fuel: nat)
    requires d <= |ps| && Leaders(ps, d) && Sort(ps, fuel).Some?
    ensures forall k :: 0 <= k < d ==> Sort(ps, fuel).value.ps[k] == ps[k]
  {
    var st := State(NamesOf(ps, d), ps);
    LeadersPlaced(ps, d, fuel);
    PlaceFromSparesPlaced(st, d, fuel);
    forall k | 0 <= k < d ensures Sort(ps, fuel).value.ps[k] == ps[k] { assert NamesOf(ps, d)[k] == ps[k].name; }
  }

  /** So after any number of registrations, each followed by a sort, they are as they were registered. */
  lemma {:induction false} LeadersStay(ps: seq<Proc>, n: nat, d: nat, fuel: nat)
    requires d <= |ps| && n <= |ps| && Leaders(ps, d) && Registrations(ps, n, fuel).Some?
    ensures forall k :: 0 <= k < d && k < n ==> Registrations(ps, n, fuel).value.ps[k] == ps[k]
    decreases n
  {
    if n > 0 {
      LeadersStay(ps, n - 1, d, fuel);
      var qs := Registrations(ps, n - 1, fuel).value.ps + [ps[n - 1]];
      var e := if d < n then d else n;
      LeadersAgain(ps, d, qs, e);
      LeadersUnwritten(qs, e, fuel);
    }
  }

  lemma LeadersAgain(ps: seq<Proc>, d: nat, qs: seq<Proc>, e: nat)
    requires e <= d <= |ps| && e <= |qs| && Leaders(ps, d) && forall k :: 0 <= k < e ==> qs[k] == ps[k]
    ensures Leaders(qs, e) && NamesOf(qs, e) == NamesOf(ps, e)
  {
    var all, some := ps[..d], qs[..e];
    forall k: nat | k < |some| ensures !NamedBefore(some, k, some[k].name) {
      assert forall j :: 0 <= j <= k ==> some[j] == all[j];
      assert !NamedBefore(all, k, all[k].name);
    }
  }

  /** However many callbacks are registered behind them, with whatever constraints and with a sort after each,
      the leaders keep their order in the list that is run, whenever the sorts end. */
  lemma RegistrationsKeepLeaders(ps: seq<Proc>, d: nat, fuel: nat)
    requires d <= |ps| && Leaders(ps, d) && Registrations(ps, |ps|, fuel).Some?
    ensures Subseq(NamesOf(ps, d), Registrations(ps, |ps|, fuel).value.sorted)
  {
    var n := |ps|;
    if n == 0 {
    } else {
      LeadersStay(ps, n - 1, d, fuel);
      var qs := Registrations(ps, n - 1, fuel).value.ps + [ps[n - 1]];
      LeadersAgain(ps, d, qs, d);
      LeadersKeepOrder(qs, d, fuel);
    }
  }

  /** So of two built-in callbacks the earlier one, say the one that begins the transaction, runs before
      the later one, say the one that commits it, whatever is registered after them. */
  lemma BuiltInsStayOrdered(ps: seq<Proc>, d: nat, fuel: nat, i: nat, j: nat)
    requires d <= |ps| && Leaders(ps, d) && Registrations(ps, |ps|, fuel).Some? && i < j < d
    ensures Precedes(Registrations(ps, |ps|, fuel).value.sorted, ps[i].name, ps[j].name)
  {
    RegistrationsKeepLeaders(ps, d, fuel);
    var names := NamesOf(ps, d);
    assert names[i] == ps[i].name && names[j] == ps[j].name;
    SubseqPrecedes(names, Registrations(ps, |ps|, fuel).value.sorted, ps[i].name, ps[j].name);
  }
}
