/** What `sortProcessors` guarantees on the lists that state their constraints in order, how the lists
    stay sorted under later registrations, and where the guarantee ends. */
module CallbackGuarantees {
  import opened Lists
  import opened CallbackOrder

  ghost predicate Unconstrained(p: Proc) {
    p.before == NO_NAME && p.after == NO_NAME
  }

  function Target(p: Proc): Name {
    if p.before != NO_NAME then p.before else p.after
  }

  /** Every registration of the name is unconstrained. */
  ghost predicate Free(ps: seq<Proc>, name: Name) {
    forall k :: 0 <= k < |ps| && ps[k].name == name ==> Unconstrained(ps[k])
  }

  /** A constrained processor is the first of its name, has one constraint, and its target is
      unregistered, registered earlier, or unconstrained itself. */
  ghost predicate WellPlaced(ps: seq<Proc>, i: nat)
    requires i < |ps|
  {
    var p := ps[i];
    Unconstrained(p) ||
    (&& !NamedBefore(ps, i, p.name)
     && (p.before == NO_NAME || p.after == NO_NAME)
     && Target(p) != p.name
     && (!Registered(ps, Target(p)) || NamedBefore(ps, i, Target(p)) || Free(ps, Target(p))))
  }

  ghost predicate WellOrdered(ps: seq<Proc>) {
    Named(ps) && forall i: nat {:trigger WellPlaced(ps, i)} :: i < |ps| ==> WellPlaced(ps, i)
  }

  // ----- the simple form: one turn per processor, no recursion -----

  ghost function Turn(ps: seq<Proc>, s: seq<Name>, p: Proc): seq<Name> {
    var t := Target(p);
    if p.name in s then s
    else if t == NO_NAME || (t !in s && !Registered(ps, t)) then s + [p.name]
    else if t in s then InsertAt(s, RIndex(s, t) + (if p.before != NO_NAME then 0 else 1), p.name)
    else if p.before != NO_NAME then s + [p.name, t]
    else s + [t, p.name]
  }

  ghost function Turns(ps: seq<Proc>, n: nat): seq<Name>
    requires n <= |ps|
  {
    if n == 0 then [] else Turn(ps, Turns(ps, n - 1), ps[n - 1])
  }

  lemma UnconstrainedPlace(st: State, i: nat, fuel: nat)
    requires i < |st.ps| && Unconstrained(st.ps[i]) && st.ps[i].name !in st.sorted
    ensures Place(st, i, fuel) == Some(st.(sorted := st.sorted + [st.ps[i].name]))
  {
  }

  // ----- which names are placed after a number of turns -----

  lemma TurnAdds(ps: seq<Proc>, s: seq<Name>, p: Proc)
    ensures forall x :: x in Turn(ps, s, p) <==>
      x in s || x == p.name || (p.name !in s && x == Target(p) && x != NO_NAME && Registered(ps, x))
      || (p.name !in s && x == Target(p) && x in s)
    ensures NoDup(s) && Target(p) != p.name ==> NoDup(Turn(ps, s, p))
  {
    var t := Target(p);
    if p.name !in s && t != NO_NAME && t in s {
      InsertElements(s, RIndex(s, t) + (if p.before != NO_NAME then 0 else 1), p.name);
    } else if p.name !in s {
      InsertElements(s, |s|, p.name);
    }
  }

  lemma {:induction false} PlacedBefore(ps: seq<Proc>, n: nat)
    requires WellOrdered(ps) && n <= |ps|
    ensures forall x :: NamedBefore(ps, n, x) ==> x in Turns(ps, n)
    ensures forall x <- Turns(ps, n) :: NamedBefore(ps, n, x) || (Registered(ps, x) && Free(ps, x))
    ensures NoDup(Turns(ps, n))
    decreases n
  {
    if n > 0 {
      var p, s := ps[n - 1], Turns(ps, n - 1);
      PlacedBefore(ps, n - 1);
      TurnAdds(ps, s, p);
      assert WellPlaced(ps, n - 1);
      assert NamedBefore(ps, n, p.name);
      forall x ensures NamedBefore(ps, n, x) <==> NamedBefore(ps, n - 1, x) || x == p.name {}
    }
  }

  /** A constrained processor is placed at its own turn, not before. */
  lemma NotYetPlaced(ps: seq<Proc>, i: nat)
    requires WellOrdered(ps) && i < |ps| && !Unconstrained(ps[i])
    ensures ps[i].name !in Turns(ps, i)
  {
    PlacedBefore(ps, i);
    assert WellPlaced(ps, i);
  }

  lemma TurnGrows(ps: seq<Proc>, s: seq<Name>, p: Proc)
    ensures Subseq(s, Turn(ps, s, p))
  {
    var t := Target(p);
    SubseqRefl(s);
    if p.name in s {
    } else if t == NO_NAME || (t !in s && !Registered(ps, t)) {
      SubseqAppend(s, p.name);
    } else if t in s {
      SubseqInsert(s, RIndex(s, t) + (if p.before != NO_NAME then 0 else 1), p.name);
    } else {
      var x, y := if p.before != NO_NAME then p.name else t, if p.before != NO_NAME then t else p.name;
      SubseqAppend(s, x);
      SubseqAppend(s + [x], y);
      var r := Turn(ps, s, p);
      assert r == s + [x] + [y];
      SubseqTrans(s, s + [x], r);
    }
  }

  lemma {:induction false} TurnsGrow(ps: seq<Proc>, m: nat, n: nat)
    requires m <= n <= |ps|
    ensures Subseq(Turns(ps, m), Turns(ps, n))
    decreases n - m
  {
    if m == n {
      SubseqRefl(Turns(ps, m));
    } else {
      TurnsGrow(ps, m, n - 1);
      TurnGrows(ps, Turns(ps, n - 1), ps[n - 1]);
      SubseqTrans(Turns(ps, m), Turns(ps, n - 1), Turns(ps, n));
    }
  }

  /** Once a processor has had its turn, its registered target is placed too. */
  lemma TargetPlaced(ps: seq<Proc>, m: nat, n: nat)
    requires WellOrdered(ps) && m < n <= |ps| && Target(ps[m]) != NO_NAME && Registered(ps, Target(ps[m]))
    ensures Target(ps[m]) in Turns(ps, n)
  {
    NotYetPlaced(ps, m);
    TurnAdds(ps, Turns(ps, m), ps[m]);
    TurnsGrow(ps, m + 1, n);
    SubseqIn(Turns(ps, m + 1), Turns(ps, n), Target(ps[m]));
  }

  // ----- the guarantees of the simple form -----

  /** No callback is lost, invented or run twice. */
  lemma TurnsPermutation(ps: seq<Proc>)
    requires WellOrdered(ps)
    ensures NoDup(Turns(ps, |ps|))
    ensures forall x :: x in Turns(ps, |ps|) <==> Registered(ps, x)
  {
    PlacedBefore(ps, |ps|);
  }

  lemma TurnOrders(ps: seq<Proc>, s: seq<Name>, p: Proc)
    requires p.name !in s && Target(p) != NO_NAME && Registered(ps, Target(p))
    ensures p.before != NO_NAME ==> Precedes(Turn(ps, s, p), p.name, p.before)
    ensures p.before == NO_NAME ==> Precedes(Turn(ps, s, p), p.after, p.name)
  {
    var t, r := Target(p), Turn(ps, s, p);
    if t in s {
      var j := RIndex(s, t);
      var k := j + if p.before != NO_NAME then 0 else 1;
      assert r[k] == p.name;
      assert r[if p.before != NO_NAME then j + 1 else j] == t;
    } else {
      assert r[|s|] == (if p.before != NO_NAME then p.name else t) && r[|s| + 1] == (if p.before != NO_NAME then t else p.name);
    }
  }

  /** Every constraint whose target is registered holds in the final order. */
  lemma TurnsRespectConstraints(ps: seq<Proc>, i: nat)
    requires WellOrdered(ps) && i < |ps| && Target(ps[i]) != NO_NAME && Registered(ps, Target(ps[i]))
    ensures ps[i].before != NO_NAME ==> Precedes(Turns(ps, |ps|), ps[i].name, ps[i].before)
    ensures ps[i].before == NO_NAME ==> Precedes(Turns(ps, |ps|), ps[i].after, ps[i].name)
  {
    NotYetPlaced(ps, i);
    TurnOrders(ps, Turns(ps, i), ps[i]);
    TurnsGrow(ps, i + 1, |ps|);
    if ps[i].before != NO_NAME {
      SubseqPrecedes(Turns(ps, i + 1), Turns(ps, |ps|), ps[i].name, ps[i].before);
    } else {
      SubseqPrecedes(Turns(ps, i + 1), Turns(ps, |ps|), ps[i].after, ps[i].name);
    }
  }

  /** Neither constrained nor anybody's target. */
  ghost predicate Bystander(ps: seq<Proc>, name: Name) {
    Free(ps, name) && forall k :: 0 <= k < |ps| ==> Target(ps[k]) != name
  }

  lemma {:induction false} BystanderWaits(ps: seq<Proc>, name: Name, n: nat)
    requires n <= |ps| && Bystander(ps, name) && !NamedBefore(ps, n, name)
    ensures name !in Turns(ps, n)
    decreases n
  {
    if n > 0 {
      assert NamedBefore(ps, n, ps[n - 1].name);
      BystanderWaits(ps, name, n - 1);
      TurnAdds(ps, Turns(ps, n - 1), ps[n - 1]);
    }
  }

  /** Bystanders keep their registration order. */
  lemma TurnsKeepBystanders(ps: seq<Proc>, u: nat, v: nat)
    requires WellOrdered(ps) && u < v < |ps| && Bystander(ps, ps[v].name)
    requires !NamedBefore(ps, v, ps[v].name)
    ensures Precedes(Turns(ps, |ps|), ps[u].name, ps[v].name)
  {
    BystanderWaits(ps, ps[v].name, v);
    PlacedBefore(ps, v);
    var s := Turns(ps, v);
    assert ps[u].name in s by { assert NamedBefore(ps, v, ps[u].name); }
    assert Turns(ps, v + 1) == s + [ps[v].name];
    hide *;
    AppendPrecedes(s, ps[u].name, ps[v].name);
    TurnsGrow(ps, v + 1, |ps|);
    SubseqPrecedes(Turns(ps, v + 1), Turns(ps, |ps|), ps[u].name, ps[v].name);
  }

  lemma AppendPrecedes(s: seq<Name>, x: Name, y: Name)
    requires x in s
    ensures Precedes(s + [y], x, y)
  {
    var k :| 0 <= k < |s| && s[k] == x;
    assert (s + [y])[k] == x && (s + [y])[|s|] == y;
  }

  // ----- the recursive sort is the simple form -----

  /** `i` is the first processor that names `t`, it asks to come after it, and `t` is not registered
      up to there: the one situation in which the sort writes into the list. */
  ghost predicate Adopter(ps: seq<Proc>, i: nat, t: Name) {
    i < |ps| && ps[i].after == t != NO_NAME && ps[i].before == NO_NAME && !NamedBefore(ps, i + 1, t) &&
    forall m :: 0 <= m < i ==> Target(ps[m]) != t
  }

  ghost predicate AdoptedAt(ps: seq<Proc>, q: Proc, k: nat)
    requires k < |ps|
  {
    q == ps[k] ||
    (Unconstrained(ps[k]) && exists i: nat :: Adopter(ps, i, ps[k].name) && q == ps[k].(before := ps[i].name))
  }

  /** `qs` is `ps` after any number of sorts. */
  ghost predicate Adopted(ps: seq<Proc>, qs: seq<Proc>) {
    |qs| == |ps| && forall k: nat {:trigger AdoptedAt(ps, qs[k], k)} :: k < |ps| ==> AdoptedAt(ps, qs[k], k)
  }

  lemma AdoptedNames(ps: seq<Proc>, qs: seq<Proc>)
    requires Adopted(ps, qs)
    ensures forall x :: Registered(qs, x) == Registered(ps, x) && Resolve(qs, x) == Resolve(ps, x)
    ensures forall k :: 0 <= k < |ps| ==> qs[k].name == ps[k].name
  {
    forall k: nat | k < |ps| ensures qs[k].name == ps[k].name { assert AdoptedAt(ps, qs[k], k); }
    SameNames(ps, qs);
  }

  /** A constrained processor is never written to. */
  lemma ConstrainedKept(ps: seq<Proc>, qs: seq<Proc>, i: nat)
    requires Adopted(ps, qs) && i < |ps| && !Unconstrained(ps[i])
    ensures qs[i] == ps[i]
  {
    assert AdoptedAt(ps, qs[i], i);
  }

  /** At turn `i` a registered target that is still to be placed is unconstrained, and `i` is the first
      to name it. */
  lemma ForwardTarget(ps: seq<Proc>, i: nat, t: Name)
    requires WellOrdered(ps) && i < |ps|
    requires t == Target(ps[i]) != NO_NAME && Registered(ps, t) && t !in Turns(ps, i)
    ensures Free(ps, t) && !NamedBefore(ps, i + 1, t)
    ensures forall m :: 0 <= m < i ==> Target(ps[m]) != t
  {
    PlacedBefore(ps, i);
    assert WellPlaced(ps, i);
    forall m | 0 <= m < i ensures Target(ps[m]) != t {
      if Target(ps[m]) == t { TargetPlaced(ps, m, i); }
    }
  }

  /** Such a target carries no constraint of its own, except that of `i` from an earlier sort. */
  lemma TargetUnwritten(ps: seq<Proc>, qs: seq<Proc>, i: nat, r: nat)
    requires WellOrdered(ps) && Adopted(ps, qs) && i < |ps| && r < |ps|
    requires ps[r].name == Target(ps[i]) != NO_NAME && ps[r].name !in Turns(ps, i)
    ensures Unconstrained(ps[r]) && qs[r].after == NO_NAME
    ensures qs[r].before == NO_NAME || (qs[r].before == ps[i].name && ps[i].before == NO_NAME)
    ensures ps[i].before == NO_NAME ==> Adopter(ps, i, ps[r].name)
  {
    var t := ps[r].name;
    assert NamedBefore(ps, |ps|, t);
    ForwardTarget(ps, i, t);
    assert AdoptedAt(ps, qs[r], r);
    if qs[r] != ps[r] {
      var j: nat :| Adopter(ps, j, t) && qs[r] == ps[r].(before := ps[j].name);
      assert Target(ps[j]) == t;
    }
  }

  /** The other registrations of a constrained processor's name are never written to either. */
  lemma ReplacementUnwritten(ps: seq<Proc>, qs: seq<Proc>, i: nat, q: nat)
    requires WellOrdered(ps) && Adopted(ps, qs) && i < |ps| && q < |ps|
    requires !Unconstrained(ps[i]) && ps[q].name == ps[i].name && q != i
    ensures Unconstrained(qs[q])
  {
    assert WellPlaced(ps, i) && WellPlaced(ps, q);
    assert AdoptedAt(ps, qs[q], q);
    if qs[q] != ps[q] {
      var j: nat :| Adopter(ps, j, ps[q].name) && qs[q] == ps[q].(before := ps[j].name);
      NamedEarlier(ps, i, j);
    }
  }

  /** A constrained processor can only be the target of a later one. */
  lemma NamedEarlier(ps: seq<Proc>, i: nat, j: nat)
    requires WellOrdered(ps) && i < |ps| && j < |ps|
    requires !Unconstrained(ps[i]) && !Unconstrained(ps[j]) && Target(ps[j]) == ps[i].name
    ensures NamedBefore(ps, j, ps[i].name)
  {
    assert WellPlaced(ps, i) && WellPlaced(ps, j);
    assert NamedBefore(ps, |ps|, ps[i].name);
  }

  /** One turn of the recursive sort is one turn of the simple form. */
  lemma PlaceIsTurn(ps: seq<Proc>, qs: seq<Proc>, i: nat, fuel: nat) returns (qs': seq<Proc>)
    requires WellOrdered(ps) && Adopted(ps, qs) && i < |ps| && fuel >= 2
    ensures Adopted(ps, qs')
    ensures Place(State(Turns(ps, i), qs), i, fuel) == Some(State(Turns(ps, i + 1), qs'))
  {
    var s, p := Turns(ps, i), ps[i];
    AdoptedNames(ps, qs);
    if p.name in s {
      assert AdoptedAt(ps, qs[i], i);
      qs' := qs;
    } else if Unconstrained(p) {
      FreeTurn(ps, qs, i, fuel);
      qs' := qs;
    } else {
      ConstrainedKept(ps, qs, i);
      assert WellPlaced(ps, i);
      if Target(p) in s || !Registered(qs, Target(p)) {
        BackwardTurn(ps, qs, s, i, fuel);
        qs' := qs;
      } else {
        qs' := ForwardTurn(ps, qs, i, fuel);
      }
    }
  }

  /** A constraint whose target is placed, or registered nowhere, takes one step. */
  lemma BackwardTurn(ps: seq<Proc>, qs: seq<Proc>, s: seq<Name>, i: nat, fuel: nat)
    requires |ps| == |qs| && i < |ps| && qs[i] == ps[i] && ps[i].name !in s
    requires !Unconstrained(ps[i]) && (ps[i].before == NO_NAME || ps[i].after == NO_NAME)
    requires Target(ps[i]) in s || Resolve(qs, Target(ps[i])) == -1
    requires Registered(ps, Target(ps[i])) <==> Resolve(qs, Target(ps[i])) != -1
    ensures Place(State(s, qs), i, fuel) == Some(State(Turn(ps, s, ps[i]), qs))
  {
    if Target(ps[i]) in s {
      BackwardInsert(qs, s, i, fuel);
    } else if ps[i].before != NO_NAME {
      assert PlaceBefore(State(s, qs), i, fuel) == Some(State(s, qs));
    } else {
      assert PlaceAfter(State(s, qs), i, fuel) == Some(State(s, qs));
    }
  }

  lemma BackwardInsert(qs: seq<Proc>, s: seq<Name>, i: nat, fuel: nat)
    requires i < |qs| && qs[i].name !in s && Target(qs[i]) in s
    requires !Unconstrained(qs[i]) && (qs[i].before == NO_NAME || qs[i].after == NO_NAME)
    ensures Place(State(s, qs), i, fuel) ==
      Some(State(InsertAt(s, RIndex(s, Target(qs[i])) + (if qs[i].before != NO_NAME then 0 else 1), qs[i].name), qs))
  {
    var p := qs[i];
    var k := RIndex(s, Target(p)) + if p.before != NO_NAME then 0 else 1;
    var r := InsertAt(s, k, p.name);
    InsertElements(s, k, p.name);
    if p.before != NO_NAME { PlacedInFront(qs, s, i, fuel, r); } else { PlacedBehind(qs, s, i, fuel, r); }
  }

  lemma PlacedInFront(qs: seq<Proc>, s: seq<Name>, i: nat, fuel: nat, r: seq<Name>)
    requires i < |qs| && qs[i].name !in s && qs[i].before != NO_NAME && qs[i].before in s && qs[i].after == NO_NAME
    requires r == InsertAt(s, RIndex(s, qs[i].before), qs[i].name) && qs[i].name in r
    ensures Place(State(s, qs), i, fuel) == Some(State(r, qs))
  {
    hide InsertAt, Resolve;
    assert PlaceBefore(State(s, qs), i, fuel) == Some(State(r, qs));
    assert PlaceAfter(State(r, qs), i, fuel) == Some(State(r, qs));
  }

  lemma PlacedBehind(qs: seq<Proc>, s: seq<Name>, i: nat, fuel: nat, r: seq<Name>)
    requires i < |qs| && qs[i].name !in s && qs[i].after != NO_NAME && qs[i].after in s && qs[i].before == NO_NAME
    requires r == InsertAt(s, RIndex(s, qs[i].after) + 1, qs[i].name) && qs[i].name in r
    ensures Place(State(s, qs), i, fuel) == Some(State(r, qs))
  {
    hide InsertAt, Resolve;
    assert PlaceBefore(State(s, qs), i, fuel) == Some(State(s, qs));
    assert PlaceAfter(State(s, qs), i, fuel) == Some(State(r, qs));
  }

  /** A constraint whose target comes later places both at the end. */
  lemma ForwardTurn(ps: seq<Proc>, qs: seq<Proc>, i: nat, fuel: nat) returns (qs': seq<Proc>)
    requires WellOrdered(ps) && Adopted(ps, qs) && i < |ps| && fuel >= 2
    requires !Unconstrained(ps[i]) && ps[i].name !in Turns(ps, i)
    requires Target(ps[i]) !in Turns(ps, i) && Registered(ps, Target(ps[i]))
    ensures Adopted(ps, qs')
    ensures Place(State(Turns(ps, i), qs), i, fuel) == Some(State(Turns(ps, i + 1), qs'))
  {
    var s, p := Turns(ps, i), ps[i];
    AdoptedNames(ps, qs);
    ConstrainedKept(ps, qs, i);
    assert WellPlaced(ps, i);
    var r := Resolve(qs, Target(p));
    TargetUnwritten(ps, qs, i, r);
    if p.before != NO_NAME {
      ForwardBefore(qs, s, i, r, fuel);
      qs' := qs;
    } else {
      qs' := AdoptBefore(qs, r, p.name);
      AdoptKeeps(ps, qs, i, r);
      assert NamedBefore(qs, |qs|, p.name);
      var q := Resolve(qs, p.name);
      if q != i { ReplacementUnwritten(ps, qs, i, q); }
      ForwardAfter(qs, s, i, r, q, fuel);
    }
  }

  lemma AdoptKeeps(ps: seq<Proc>, qs: seq<Proc>, i: nat, r: nat)
    requires Adopted(ps, qs) && r < |ps| && Unconstrained(ps[r]) && Adopter(ps, i, ps[r].name)
    ensures Adopted(ps, AdoptBefore(qs, r, ps[i].name))
  {
    var ws := AdoptBefore(qs, r, ps[i].name);
    forall k: nat | k < |ps| ensures AdoptedAt(ps, ws[k], k) {
      assert AdoptedAt(ps, qs[k], k);
      if k == r { assert ws[k] == qs[k] || ws[k] == ps[k].(before := ps[i].name); }
    }
  }

  /** An unconstrained processor that is not yet placed was not written to. */
  lemma FreeTurn(ps: seq<Proc>, qs: seq<Proc>, i: nat, fuel: nat)
    requires WellOrdered(ps) && Adopted(ps, qs) && i < |ps| && Unconstrained(ps[i])
    requires ps[i].name !in Turns(ps, i)
    ensures Place(State(Turns(ps, i), qs), i, fuel) == Some(State(Turns(ps, i + 1), qs))
  {
    var name := ps[i].name;
    assert AdoptedAt(ps, qs[i], i);
    if qs[i] != ps[i] {
      var j: nat :| Adopter(ps, j, name) && qs[i] == ps[i].(before := ps[j].name);
      assert NamedBefore(ps, |ps|, name);
      assert Target(ps[j]) == name;
      TargetPlaced(ps, j, i);
    }
  }

  lemma ForwardBefore(qs: seq<Proc>, s: seq<Name>, i: nat, r: nat, fuel: nat)
    requires i < |qs| && r < |qs| && fuel >= 1 && qs[i].name !in s
    requires qs[i].before != NO_NAME && qs[i].after == NO_NAME && qs[i].before !in s && qs[i].before != qs[i].name
    requires r == Resolve(qs, qs[i].before) && Unconstrained(qs[r])
    ensures Place(State(s, qs), i, fuel) == Some(State(s + [qs[i].name, qs[i].before], qs))
  {
    var t := qs[i].before;
    var mid := State(s + [qs[i].name], qs);
    assert Place(mid, r, fuel - 1) == Some(State(mid.sorted + [t], qs));
    assert mid.sorted + [t] == s + [qs[i].name, t];
    assert (s + [qs[i].name, t])[|s|] == qs[i].name;
  }

  lemma ForwardAfter(qs: seq<Proc>, s: seq<Name>, i: nat, r: nat, q: nat, fuel: nat)
    requires i < |qs| && r < |qs| && q < |qs| && fuel >= 2 && qs[i].name !in s && qs[i].name != NO_NAME
    requires qs[i].before == NO_NAME && qs[i].after != NO_NAME && qs[i].after !in s && qs[i].after != qs[i].name
    requires r == Resolve(qs, qs[i].after) && q == Resolve(qs, qs[i].name)
    requires qs[r].name == qs[i].after && qs[q].name == qs[i].name
    requires qs[r].after == NO_NAME && (qs[r].before == NO_NAME || qs[r].before == qs[i].name)
    requires q == i || Unconstrained(qs[q])
    ensures Place(State(s, qs), i, fuel) == Some(State(s + [qs[i].after, qs[i].name], AdoptBefore(qs, r, qs[i].name)))
  {
    var name, t := qs[i].name, qs[i].after;
    var ws := AdoptBefore(qs, r, name);
    SameNames(qs, ws);
    var both := State(s + [t] + [name], ws);
    assert s + [t] + [name] == s + [t, name];
    assert (s + [t, name])[|s|] == t && (s + [t, name])[|s| + 1] == name;
    PullBack(ws, s, t, q, fuel - 2);
    assert Place(State(s, ws), r, fuel - 1) == Some(both);
    assert State(s, qs).(ps := ws) == State(s, ws);
  }

  /** The adopted target, once placed, pulls the processor that names it in right behind it. */
  lemma PullBack(ws: seq<Proc>, s: seq<Name>, t: Name, q: nat, fuel: nat)
    requires q < |ws| && ws[q].name !in s && ws[q].name != t && t !in s
    requires ws[q].before == NO_NAME && (ws[q].after == NO_NAME || ws[q].after == t)
    ensures Place(State(s + [t], ws), q, fuel) == Some(State(s + [t] + [ws[q].name], ws))
  {
    assert RIndex(s + [t], t) == |s|;
    assert InsertAt(s + [t], |s| + 1, ws[q].name) == s + [t] + [ws[q].name];
  }

  lemma PlaceFromStep(st: State, i: nat, fuel: nat)
    requires i <= |st.ps|
    ensures i == |st.ps| ==> PlaceFrom(st, i, fuel) == Some(st)
    ensures i < |st.ps| && Place(st, i, fuel).Some? ==> PlaceFrom(st, i, fuel) == PlaceFrom(Place(st, i, fuel).value, i + 1, fuel)
  {
    hide Place;
  }

  lemma {:induction false} SortIsTurnsFrom(ps: seq<Proc>, qs: seq<Proc>, i: nat, fuel: nat) returns (qs': seq<Proc>)
    requires WellOrdered(ps) && Adopted(ps, qs) && i <= |ps| && fuel >= 2
    ensures Adopted(ps, qs')
    ensures PlaceFrom(State(Turns(ps, i), qs), i, fuel) == Some(State(Turns(ps, |ps|), qs'))
    decreases |ps| - i
  {
    assert |qs| == |ps|;
    hide *;
    qs' := qs;
    var st := State(Turns(ps, i), qs);
    PlaceFromStep(st, i, fuel);
    if i < |ps| {
      var mid := PlaceIsTurn(ps, qs, i, fuel);
      qs' := SortIsTurnsFrom(ps, mid, i + 1, fuel);
      assert Place(st, i, fuel) == Some(State(Turns(ps, i + 1), mid));
    }
  }

  /** Sorting the list, or the list as any number of earlier sorts left it, gives the order of the
      simple form; so sorting again never changes the order. */
  lemma SortIsTurns(ps: seq<Proc>, qs: seq<Proc>, fuel: nat)
    requires WellOrdered(ps) && Adopted(ps, qs) && fuel >= 2
    ensures Sort(qs, fuel).Some?
    ensures Sort(qs, fuel).value.sorted == Turns(ps, |ps|) && Adopted(ps, Sort(qs, fuel).value.ps)
  {
    var qs' := SortIsTurnsFrom(ps, qs, 0, fuel);
  }

  lemma AdoptedRefl(ps: seq<Proc>)
    ensures Adopted(ps, ps)
  {
  }

  /** The scheduler's contract on lists that state their constraints in order. */
  lemma SortGuarantees(ps: seq<Proc>, fuel: nat)
    requires WellOrdered(ps) && fuel >= 2
    ensures Sort(ps, fuel).Some?
    ensures
      var sorted := Sort(ps, fuel).value.sorted;
      && NoDup(sorted)
      && (forall x :: x in sorted <==> Registered(ps, x))
      && (forall i :: 0 <= i < |ps| && ps[i].before != NO_NAME && Registered(ps, ps[i].before) ==>
            Precedes(sorted, ps[i].name, ps[i].before))
      && (forall i :: 0 <= i < |ps| && ps[i].after != NO_NAME && Registered(ps, ps[i].after) ==>
            Precedes(sorted, ps[i].after, ps[i].name))
      && (forall u, v :: 0 <= u < v < |ps| && Bystander(ps, ps[v].name) && !NamedBefore(ps, v, ps[v].name) ==>
            Precedes(sorted, ps[u].name, ps[v].name))
      && Sort(Sort(ps, fuel).value.ps, fuel).Some?
      && Sort(Sort(ps, fuel).value.ps, fuel).value.sorted == sorted
  {
    AdoptedRefl(ps);
    SortIsTurns(ps, ps, fuel);
    SortIsTurns(ps, Sort(ps, fuel).value.ps, fuel);
    TurnsPermutation(ps);
    forall i: nat | i < |ps| && Target(ps[i]) != NO_NAME && Registered(ps, Target(ps[i]))
      ensures ps[i].before != NO_NAME ==> Precedes(Turns(ps, |ps|), ps[i].name, ps[i].before)
      ensures ps[i].after != NO_NAME ==> Precedes(Turns(ps, |ps|), ps[i].after, ps[i].name)
    {
      assert WellPlaced(ps, i);
      TurnsRespectConstraints(ps, i);
    }
    forall i | 0 <= i < |ps| && ps[i].after != NO_NAME && Registered(ps, ps[i].after)
      ensures Precedes(Turns(ps, |ps|), ps[i].after, ps[i].name)
    {
      assert WellPlaced(ps, i);
      assert Target(ps[i]) == ps[i].after;
    }
    forall u, v | 0 <= u < v < |ps| && Bystander(ps, ps[v].name) && !NamedBefore(ps, v, ps[v].name)
      ensures Precedes(Turns(ps, |ps|), ps[u].name, ps[v].name)
    {
      TurnsKeepBystanders(ps, u, v);
    }
  }
}
