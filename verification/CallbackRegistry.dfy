/** The callback list of callback.go with its in-place updates: builders, registration and reordering. */
module CallbackRegistry {
  import opened Lists
  import opened CallbackOrder
  import opened CallbackTermination
  import G = CallbackGuarantees

  datatype Kind = Create | Update | Delete | Query | RowQuery

  /** The lists of the five kinds. */
  datatype ByKind = ByKind(creates: seq<Proc>, updates: seq<Proc>, deletes: seq<Proc>, queries: seq<Proc>, rowQueries: seq<Proc>)

  datatype Funcs = Funcs(creates: seq<nat>, updates: seq<nat>, deletes: seq<nat>, queries: seq<nat>, rowQueries: seq<nat>)

  /** The name "aorm:row_query". */
  const ROW_QUERY: Name := 1

  class CallbackProcessor {
    var name: Name
    var before: Name
    var after: Name
    var replace: bool
    var remove: bool
    var processor: nat
    const kind: Kind
    const parent: Callback

    constructor (kind: Kind, parent: Callback)
      ensures Snap() == Proc(NO_NAME, NO_NAME, NO_NAME, false, 0) && this.kind == kind && this.parent == parent && !replace
    {
      this.kind, this.parent := kind, parent;
      name, before, after, replace, remove, processor := NO_NAME, NO_NAME, NO_NAME, false, false, 0;
    }

    ghost function Snap(): Proc
      reads this
    {
      Proc(name, before, after, remove, processor)
    }

    method Before(callbackName: Name) returns (cp: CallbackProcessor)
      modifies this`before
      ensures cp == this && Snap() == old(Snap()).(before := callbackName)
    {
      before := callbackName;
      return this;
    }

    method After(callbackName: Name) returns (cp: CallbackProcessor)
      modifies this`after
      ensures cp == this && Snap() == old(Snap()).(after := callbackName)
    {
      after := callbackName;
      return this;
    }

    /** `before` of a row-query callback registered without any order. */
    ghost function BeforeOnRegister(callbackName: Name): Name
      reads this
    {
      if kind == RowQuery && before == NO_NAME && after == NO_NAME && callbackName != ROW_QUERY
      then ROW_QUERY else before
    }

    /** The lists once this builder holds `p` and is entered, for the first time or again. */
    ghost function Entering(p: Proc): ByKind
      reads this, parent, parent.processors
    {
      var cps := parent.processors + [this];
      AllWith(cps, Snaps(cps), this, p)
    }

    method Register(callbackName: Name, callback: nat)
      requires AllEnd(Entering(Proc(callbackName, BeforeOnRegister(callbackName), after, remove, callback)))
      modifies this, parent, parent.processors
      ensures parent.processors == old(parent.processors) + [this]
      ensures parent.SortedFrom(old(Entering(Proc(callbackName, BeforeOnRegister(callbackName), after, remove, callback))))
    {
      ghost var p := Proc(callbackName, BeforeOnRegister(callbackName), after, remove, callback);
      ghost var ps := Snaps(parent.processors + [this]);
      if kind == RowQuery {
        if before == NO_NAME && after == NO_NAME && callbackName != ROW_QUERY {
          before := ROW_QUERY;
        }
      }
      name := callbackName;
      processor := callback;
      parent.Enter(this, p, ps);
    }

    method Remove(callbackName: Name)
      requires AllEnd(Entering(Proc(callbackName, before, after, true, processor)))
      modifies this, parent, parent.processors
      ensures parent.processors == old(parent.processors) + [this]
      ensures parent.SortedFrom(old(Entering(Proc(callbackName, before, after, true, processor))))
    {
      ghost var p := Proc(callbackName, before, after, true, processor);
      ghost var ps := Snaps(parent.processors + [this]);
      name := callbackName;
      remove := true;
      parent.Enter(this, p, ps);
    }

    method Replace(callbackName: Name, callback: nat)
      requires AllEnd(Entering(Proc(callbackName, before, after, remove, callback)))
      modifies this, parent, parent.processors
      ensures parent.processors == old(parent.processors) + [this]
      ensures parent.SortedFrom(old(Entering(Proc(callbackName, before, after, remove, callback))))
    {
      ghost var p := Proc(callbackName, before, after, remove, callback);
      ghost var ps := Snaps(parent.processors + [this]);
      name := callbackName;
      processor := callback;
      replace := true;
      parent.Enter(this, p, ps);
    }
  }

  class Callback {
    var creates: seq<nat>
    var updates: seq<nat>
    var deletes: seq<nat>
    var queries: seq<nat>
    var rowQueries: seq<nat>
    var processors: seq<CallbackProcessor>

    constructor ()
      ensures processors == [] && creates == [] && updates == [] && deletes == [] && queries == [] && rowQueries == []
    {
      creates, updates, deletes, queries, rowQueries, processors := [], [], [], [], [], [];
    }

    /** The functions of each kind are those of its list sorted, and its processors are that list as the sort
        left it. */
    ghost predicate SortedFrom(l: ByKind)
      reads this, processors
    {
      AllSorted(processors, Held(processors), Funcs(creates, updates, deletes, queries, rowQueries), l)
    }

    /** Append a processor that holds `p`, the others holding `ps`, then `reorder`. */
    method Enter(cp: CallbackProcessor, ghost p: Proc, ghost ps: seq<Proc>)
      requires Holding(processors + [cp], ps, cp, p) && AllEnd(AllWith(processors + [cp], ps, cp, p))
      modifies this, processors, cp
      ensures processors == old(processors) + [cp] && SortedFrom(AllWith(processors, ps, cp, p))
    {
      hide AllEnd, Held, AllWith, SortedFrom, Snaps;
      processors := processors + [cp];
      HeldIs(processors, ps, cp, p);
      Reorder();
    }

    /** The named processors of each kind are sorted by themselves. */
    method Reorder()
      requires AllEnd(Held(processors))
      modifies this, processors`before
      ensures processors == old(processors) && SortedFrom(old(Held(processors)))
    {
      hide AllEnd, Held, AllSorted;
      var c, u, d, q, r := SortKinds(processors);
      creates, updates, deletes, queries, rowQueries := c, u, d, q, r;
    }

    /** Sorting one kind leaves the processors of the others alone. */
    static method SortKinds(processors: seq<CallbackProcessor>)
      returns (c: seq<nat>, u: seq<nat>, d: seq<nat>, q: seq<nat>, r: seq<nat>)
      requires AllEnd(Held(processors))
      modifies processors`before
      ensures AllSorted(processors, Held(processors), Funcs(c, u, d, q, r), old(Held(processors)))
    {
      hide *;
      var cs, us, ds, qs, rs := Split(processors);
      EndsEach(processors, cs, us, ds, qs, rs);
      ghost var l := ByKind(Snaps(cs), Snaps(us), Snaps(ds), Snaps(qs), Snaps(rs));
      assert l == old(Held(processors));
      c, u, d, q, r := SortEach(cs, us, ds, qs, rs);
      SortedEach(processors, cs, us, ds, qs, rs, Funcs(c, u, d, q, r), l);
    }

    static lemma EndsEach(processors: seq<CallbackProcessor>, cs: seq<CallbackProcessor>, us: seq<CallbackProcessor>,
                          ds: seq<CallbackProcessor>, qs: seq<CallbackProcessor>, rs: seq<CallbackProcessor>)
      requires AreOf(processors, cs, us, ds, qs, rs) && AllEnd(Held(processors))
      ensures Ends(Snaps(cs)) && Ends(Snaps(us)) && Ends(Snaps(ds)) && Ends(Snaps(qs)) && Ends(Snaps(rs))
      ensures Held(processors) == ByKind(Snaps(cs), Snaps(us), Snaps(ds), Snaps(qs), Snaps(rs))
    {
      hide Ends, Snaps, Of;
    }

    static lemma SortedEach(processors: seq<CallbackProcessor>, cs: seq<CallbackProcessor>, us: seq<CallbackProcessor>,
                            ds: seq<CallbackProcessor>, qs: seq<CallbackProcessor>, rs: seq<CallbackProcessor>, f: Funcs, l: ByKind)
      requires AreOf(processors, cs, us, ds, qs, rs)
      requires Sorted(cs, Snaps(cs), f.creates, l.creates) && Sorted(us, Snaps(us), f.updates, l.updates)
      requires Sorted(ds, Snaps(ds), f.deletes, l.deletes) && Sorted(qs, Snaps(qs), f.queries, l.queries)
      requires Sorted(rs, Snaps(rs), f.rowQueries, l.rowQueries)
      ensures AllSorted(processors, Held(processors), f, l)
    {
      hide Sorted, Snaps, Of;
    }

    static method SortEach(cs: seq<CallbackProcessor>, us: seq<CallbackProcessor>, ds: seq<CallbackProcessor>,
                           qs: seq<CallbackProcessor>, rs: seq<CallbackProcessor>)
      returns (c: seq<nat>, u: seq<nat>, d: seq<nat>, q: seq<nat>, r: seq<nat>)
      requires AllOf(cs, Create) && AllOf(us, Update) && AllOf(ds, Delete) && AllOf(qs, Query) && AllOf(rs, RowQuery)
      requires Ends(Snaps(cs)) && Ends(Snaps(us)) && Ends(Snaps(ds)) && Ends(Snaps(qs)) && Ends(Snaps(rs))
      modifies cs`before, us`before, ds`before, qs`before, rs`before
      ensures Sorted(cs, Snaps(cs), c, old(Snaps(cs))) && Sorted(us, Snaps(us), u, old(Snaps(us)))
      ensures Sorted(ds, Snaps(ds), d, old(Snaps(ds))) && Sorted(qs, Snaps(qs), q, old(Snaps(qs)))
      ensures Sorted(rs, Snaps(rs), r, old(Snaps(rs)))
    {
      hide Ends, Sorted, Snaps;
      c, u, d := SortThree(cs, us, ds, Create, Update, Delete);
      q, r := SortTwo(qs, rs, Query, RowQuery);
    }

    static method SortThree(cs: seq<CallbackProcessor>, us: seq<CallbackProcessor>, ds: seq<CallbackProcessor>,
                            ghost i: Kind, ghost j: Kind, ghost k: Kind)
      returns (c: seq<nat>, u: seq<nat>, d: seq<nat>)
      requires i != j && i != k && j != k && AllOf(cs, i) && AllOf(us, j) && AllOf(ds, k)
      requires Ends(Snaps(cs)) && Ends(Snaps(us)) && Ends(Snaps(ds))
      modifies cs`before, us`before, ds`before
      ensures Sorted(cs, Snaps(cs), c, old(Snaps(cs))) && Sorted(us, Snaps(us), u, old(Snaps(us)))
      ensures Sorted(ds, Snaps(ds), d, old(Snaps(ds)))
    {
      hide Ends, Sorted, Snaps;
      c := SortList(cs);
      u, d := SortTwo(us, ds, j, k);
    }

    static method SortTwo(us: seq<CallbackProcessor>, ds: seq<CallbackProcessor>, ghost j: Kind, ghost k: Kind)
      returns (u: seq<nat>, d: seq<nat>)
      requires j != k && AllOf(us, j) && AllOf(ds, k) && Ends(Snaps(us)) && Ends(Snaps(ds))
      modifies us`before, ds`before
      ensures Sorted(us, Snaps(us), u, old(Snaps(us))) && Sorted(ds, Snaps(ds), d, old(Snaps(ds)))
    {
      hide Ends, Sorted, Snaps;
      u := SortList(us);
      d := SortList(ds);
    }

    static method SortList(cps: seq<CallbackProcessor>) returns (funcs: seq<nat>)
      requires Ends(Snaps(cps))
      modifies cps`before
      ensures Sorted(cps, Snaps(cps), funcs, old(Snaps(cps)))
    {
      hide Sort;
      ghost var ps := Snaps(cps);
      ghost var depth: nat :| Sort(ps, depth).Some?;
      funcs := SortProcessors(cps, ps, depth);
    }

    static method Split(processors: seq<CallbackProcessor>)
      returns (cs: seq<CallbackProcessor>, us: seq<CallbackProcessor>, ds: seq<CallbackProcessor>,
               qs: seq<CallbackProcessor>, rs: seq<CallbackProcessor>)
      ensures AreOf(processors, cs, us, ds, qs, rs)
      ensures forall i :: 0 <= i < |cs| ==> cs[i] in processors
      ensures forall i :: 0 <= i < |us| ==> us[i] in processors
      ensures forall i :: 0 <= i < |ds| ==> ds[i] in processors
      ensures forall i :: 0 <= i < |qs| ==> qs[i] in processors
      ensures forall i :: 0 <= i < |rs| ==> rs[i] in processors
      ensures AllOf(cs, Create) && AllOf(us, Update) && AllOf(ds, Delete) && AllOf(qs, Query) && AllOf(rs, RowQuery)
    {
      cs, us, ds, qs, rs := [], [], [], [], [];
      for i := 0 to |processors|
        invariant cs == Of(processors[..i], Create) && us == Of(processors[..i], Update) && ds == Of(processors[..i], Delete)
        invariant qs == Of(processors[..i], Query) && rs == Of(processors[..i], RowQuery)
      {
        var p := processors[i];
        assert processors[..i + 1] == processors[..i] + [p];
        OfNext(processors[..i], p);
        hide Of;
        if p.name != NO_NAME {
          match p.kind
          case Create => cs := cs + [p];
          case Update => us := us + [p];
          case Delete => ds := ds + [p];
          case Query => qs := qs + [p];
          case RowQuery => rs := rs + [p];
        }
      }
      assert processors[..|processors|] == processors;
    }
  }

  /** Registered without any order, a row-query callback runs before "aorm:row_query"; every other callback is
      entered with the order it was given. */
  lemma RowQueryRunsBefore(cp: CallbackProcessor, name: Name, handler: nat, ps: seq<Proc>, i: nat, fuel: nat)
    requires i < |ps| && ps[i] == Proc(name, cp.BeforeOnRegister(name), cp.after, cp.remove, handler)
    requires G.WellOrdered(ps) && Registered(ps, ROW_QUERY) && fuel >= 2
    ensures
      if cp.kind == RowQuery && cp.before == NO_NAME && cp.after == NO_NAME && name != ROW_QUERY
      then Sort(ps, fuel).Some? && Precedes(Sort(ps, fuel).value.sorted, name, ROW_QUERY)
      else ps[i].before == cp.before
  {
    G.SortGuarantees(ps, fuel);
  }

  // ----- the processors of a kind -----

  /** The processors of a kind that have a name, in order. */
  ghost function Of(cps: seq<CallbackProcessor>, k: Kind): (r: seq<CallbackProcessor>)
    reads cps`name
    ensures forall i :: 0 <= i < |r| ==> r[i] in cps && r[i].kind == k
  {
    if cps == [] then []
    else
      var c := cps[|cps| - 1];
      Of(cps[..|cps| - 1], k) + (if c.kind == k && c.name != NO_NAME then [c] else [])
  }

  ghost predicate AreOf(processors: seq<CallbackProcessor>, cs: seq<CallbackProcessor>, us: seq<CallbackProcessor>,
                        ds: seq<CallbackProcessor>, qs: seq<CallbackProcessor>, rs: seq<CallbackProcessor>)
    reads processors`name
  {
    && cs == Of(processors, Create) && us == Of(processors, Update) && ds == Of(processors, Delete)
    && qs == Of(processors, Query) && rs == Of(processors, RowQuery)
  }

  ghost predicate AllSorted(cps: seq<CallbackProcessor>, held: ByKind, f: Funcs, l: ByKind)
    reads cps`name
  {
    && Sorted(Of(cps, Create), held.creates, f.creates, l.creates)
    && Sorted(Of(cps, Update), held.updates, f.updates, l.updates)
    && Sorted(Of(cps, Delete), held.deletes, f.deletes, l.deletes)
    && Sorted(Of(cps, Query), held.queries, f.queries, l.queries)
    && Sorted(Of(cps, RowQuery), held.rowQueries, f.rowQueries, l.rowQueries)
  }

  ghost predicate AllOf(cps: seq<CallbackProcessor>, k: Kind) {
    forall i :: 0 <= i < |cps| ==> cps[i].kind == k
  }

  lemma OfNext(cps: seq<CallbackProcessor>, c: CallbackProcessor)
    ensures forall k: Kind :: Of(cps + [c], k) == Of(cps, k) + if c.kind == k && c.name != NO_NAME then [c] else []
  {
    assert (cps + [c])[..|cps|] == cps;
  }

  /** The processors hold `ps`, except that `cp` holds `p`. */
  ghost predicate Holding(cps: seq<CallbackProcessor>, ps: seq<Proc>, cp: CallbackProcessor, p: Proc)
    reads cps
  {
    |ps| == |cps| && forall i :: 0 <= i < |cps| ==> cps[i].Snap() == if cps[i] == cp then p else ps[i]
  }

  /** The values of a kind's named processors then. */
  ghost function With(cps: seq<CallbackProcessor>, ps: seq<Proc>, cp: CallbackProcessor, p: Proc, k: Kind): seq<Proc>
    requires |ps| == |cps|
  {
    if cps == [] then []
    else
      var n := |cps| - 1;
      var q := if cps[n] == cp then p else ps[n];
      With(cps[..n], ps[..n], cp, p, k) + (if cps[n].kind == k && q.name != NO_NAME then [q] else [])
  }

  ghost function AllWith(cps: seq<CallbackProcessor>, ps: seq<Proc>, cp: CallbackProcessor, p: Proc): ByKind
    requires |ps| == |cps|
  {
    ByKind(With(cps, ps, cp, p, Create), With(cps, ps, cp, p, Update), With(cps, ps, cp, p, Delete),
          With(cps, ps, cp, p, Query), With(cps, ps, cp, p, RowQuery))
  }

  ghost function Held(cps: seq<CallbackProcessor>): ByKind
    reads cps
  {
    ByKind(Snaps(Of(cps, Create)), Snaps(Of(cps, Update)), Snaps(Of(cps, Delete)), Snaps(Of(cps, Query)), Snaps(Of(cps, RowQuery)))
  }

  lemma HeldIs(cps: seq<CallbackProcessor>, ps: seq<Proc>, cp: CallbackProcessor, p: Proc)
    requires Holding(cps, ps, cp, p)
    ensures Held(cps) == AllWith(cps, ps, cp, p)
  {
    hide Snaps, Of, With;
    WithIsOf(cps, ps, cp, p, Create);
    WithIsOf(cps, ps, cp, p, Update);
    WithIsOf(cps, ps, cp, p, Delete);
    WithIsOf(cps, ps, cp, p, Query);
    WithIsOf(cps, ps, cp, p, RowQuery);
  }

  /** The sort of every kind ends. */
  ghost predicate AllEnd(l: ByKind) {
    Ends(l.creates) && Ends(l.updates) && Ends(l.deletes) && Ends(l.queries) && Ends(l.rowQueries)
  }

  lemma HoldingFront(cps: seq<CallbackProcessor>, ps: seq<Proc>, cp: CallbackProcessor, p: Proc)
    requires Holding(cps, ps, cp, p) && cps != []
    ensures var n := |cps| - 1;
            && |ps| == n + 1 && Holding(cps[..n], ps[..n], cp, p)
            && cps[n].Snap() == (if cps[n] == cp then p else ps[n]) && cps == cps[..n] + [cps[n]]
  {
  }

  lemma WithNext(cps: seq<CallbackProcessor>, ps: seq<Proc>, cp: CallbackProcessor, p: Proc, k: Kind)
    requires |ps| == |cps| > 0
    ensures var n := |cps| - 1;
            var q := if cps[n] == cp then p else ps[n];
            With(cps, ps, cp, p, k) == With(cps[..n], ps[..n], cp, p, k) + if cps[n].kind == k && q.name != NO_NAME then [q] else []
  {
  }

  lemma NothingOf(cp: CallbackProcessor, p: Proc, k: Kind)
    ensures Of([], k) == [] && Snaps([]) == [] && With([], [], cp, p, k) == []
  {
  }

  lemma {:induction false} WithIsOf(cps: seq<CallbackProcessor>, ps: seq<Proc>, cp: CallbackProcessor, p: Proc, k: Kind)
    requires Holding(cps, ps, cp, p)
    ensures |ps| == |cps| && Snaps(Of(cps, k)) == With(cps, ps, cp, p, k)
    decreases |cps|
  {
    if cps == [] {
      NothingOf(cp, p, k);
    } else {
      var n := |cps| - 1;
      var c, front := cps[n], Of(cps[..n], k);
      HoldingFront(cps, ps, cp, p);
      hide *;
      WithIsOf(cps[..n], ps[..n], cp, p, k);
      WithNext(cps, ps, cp, p, k);
      SnapsNext(front, c);
      OfNext(cps[..n], c);
      assert c.name == c.Snap().name by { SnapName(c); }
      assert Of(cps, k) == front + if c.kind == k && c.name != NO_NAME then [c] else [];
    }
  }

  lemma SnapName(c: CallbackProcessor)
    ensures c.Snap().name == c.name
  {
  }

  lemma SnapsNext(cps: seq<CallbackProcessor>, c: CallbackProcessor)
    ensures Snaps(cps + [c]) == Snaps(cps) + [c.Snap()] && cps + [] == cps
  {
    assert (cps + [c])[..|cps|] == cps;
  }

  /** The sort of the list ends. */
  ghost predicate Ends(ps: seq<Proc>) {
    exists depth: nat :: Sort(ps, depth).Some?
  }

  lemma EndsWithoutCycle(ps: seq<Proc>)
    requires Named(ps) && !HasDanglingCycle(ps)
    ensures Ends(ps)
  {
    SortEnds(ps);
  }

  /** The values the processors hold. */
  ghost predicate Shows(cps: seq<CallbackProcessor>, ps: seq<Proc>)
    reads cps
  {
    |ps| == |cps| && forall k :: 0 <= k < |cps| ==> cps[k].Snap() == ps[k]
  }

  ghost function Snaps(cps: seq<CallbackProcessor>): (ps: seq<Proc>)
    reads cps
    ensures Shows(cps, ps)
  {
    if cps == [] then [] else Snaps(cps[..|cps| - 1]) + [cps[|cps| - 1].Snap()]
  }

  /** The last entry of the processor at `k`, which may be in the list more than once. */
  ghost function Last(cps: seq<CallbackProcessor>, k: nat): (r: nat)
    requires k < |cps|
    ensures k <= r < |cps| && cps[r] == cps[k]
  {
    RIndex(cps, cps[k])
  }

  /** The processors hold the values of their last entries. */
  ghost predicate Shown(cps: seq<CallbackProcessor>, ps: seq<Proc>)
    reads cps
  {
    |ps| == |cps| && forall k :: 0 <= k < |cps| ==> cps[k].Snap() == ps[Last(cps, k)]
  }

  /** `funcs` are the functions of `ps` sorted, and the processors, which hold `held`, are `ps` as that sort
      left them. */
  ghost predicate Sorted(cps: seq<CallbackProcessor>, held: seq<Proc>, funcs: seq<nat>, ps: seq<Proc>) {
    exists depth: nat ::
      && Sort(ps, depth).Some?
      && |held| == |cps| == |Sort(ps, depth).value.ps|
      && (forall k :: 0 <= k < |cps| ==> held[k] == Sort(ps, depth).value.ps[Last(cps, k)])
      && funcs == Handlers(Sort(ps, depth).value.sorted, ps)
  }

  /** `allNames`: the names in registration order. */
  ghost predicate AreNames(names: seq<Name>, ps: seq<Proc>) {
    |names| == |ps| && forall k :: 0 <= k < |ps| ==> names[k] == ps[k].name
  }

  lemma NamesResolve(names: seq<Name>, ps: seq<Proc>, name: Name)
    requires AreNames(names, ps)
    ensures RIndex(names, name) == Resolve(ps, name)
  {
    if k :| 0 <= k < |ps| && ps[k].name == name { assert names[k] == name; }
  }

  method GetRIndex(strs: seq<Name>, str: Name) returns (index: int)
    ensures index == RIndex(strs, str)
  {
    index := |strs| - 1;
    while index >= 0
      invariant -1 <= index < |strs|
      invariant str !in strs[index + 1..]
    {
      if strs[index] == str { return; }
      index := index - 1;
    }
  }

  /** The variables that the recursive closure of `sortProcessors` shares. */
  class SortRun {
    var sortedNames: seq<Name>
    const allNames: seq<Name>
    const cps: seq<CallbackProcessor>

    constructor (cps: seq<CallbackProcessor>, allNames: seq<Name>)
      ensures this.cps == cps && this.allNames == allNames && sortedNames == []
    {
      this.cps, this.allNames, sortedNames := cps, allNames, [];
    }

    /** The objects are in state `st`. */
    ghost predicate At(st: State)
      reads this, cps
    {
      && sortedNames == st.sorted && Shown(cps, st.ps) && AreNames(allNames, st.ps)
      && forall k :: 0 <= k < |cps| ==> cps[k].name == allNames[k]
    }

    /** A name resolves to the last entry of its processor. */
    lemma ResolvedIsLast(st: State, j: nat)
      requires At(st) && j < |cps| && j == Resolve(st.ps, allNames[j])
      ensures Last(cps, j) == j && cps[j].Snap() == st.ps[j]
    {
      assert cps[Last(cps, j)].name == cps[j].name;
      assert st.ps[Last(cps, j)].name == st.ps[j].name;
    }

    /** The last registration of a name, at the last entry of its processor. */
    method Registration(name: Name, ghost st: State) returns (index: int)
      requires At(st)
      ensures -1 <= index < |cps| && index == Resolve(st.ps, name)
      ensures index >= 0 ==> Last(cps, index) == index && cps[index].Snap() == st.ps[index]
    {
      NamesResolve(allNames, st.ps, name);
      index := GetRIndex(allNames, name);
      if index != -1 { ResolvedIsLast(st, index); }
    }

    /** The recursive closure, called where the recursion ends within `depth`; `i` is the last entry of `c`. */
    method SortCallbackProcessor(c: CallbackProcessor, ghost i: nat, ghost st: State, ghost depth: nat)
      requires i < |cps| && cps[i] == c && Last(cps, i) == i && At(st) && Place(st, i, depth).Some?
      modifies this`sortedNames, cps`before
      ensures At(Place(st, i, depth).value)
      decreases depth, 2
    {
      var at := GetRIndex(sortedNames, c.name);
      if at == -1 {
        PlaceByBefore(c, i, st, depth);
        ghost var b := PlaceBefore(st, i, depth).value;
        PlaceByAfter(c, i, b, depth);
        PlaceBeforeGrows(st, i, depth);
        PlaceAfterGrows(b, i, depth);
        at := GetRIndex(sortedNames, c.name);
        if at == -1 {
          sortedNames := sortedNames + [c.name];
        }
      }
    }

    /** The closure's first half: the `before` constraint. */
    method PlaceByBefore(c: CallbackProcessor, ghost i: nat, ghost st: State, ghost depth: nat)
      requires i < |cps| && cps[i] == c && Last(cps, i) == i && At(st) && PlaceBefore(st, i, depth).Some?
      modifies this`sortedNames, cps`before
      ensures At(PlaceBefore(st, i, depth).value)
      decreases depth, 1
    {
      assert st.ps[i] == c.Snap();
      hide Place, PlaceAfter, Resolve, Shown, AreNames, RIndex, NoDup;
      if c.before != NO_NAME {
        var index := GetRIndex(sortedNames, c.before);
        if index != -1 {
          sortedNames := sortedNames[..index] + [c.name] + sortedNames[index..];
        } else {
          index := Registration(c.before, st);
          if index != -1 {
            sortedNames := sortedNames + [c.name];
            SortCallbackProcessor(cps[index], index, st.(sorted := sortedNames), depth - 1);
          }
        }
      }
    }

    /** The closure's second half: the `after` constraint. */
    method PlaceByAfter(c: CallbackProcessor, ghost i: nat, ghost st: State, ghost depth: nat)
      requires i < |cps| && cps[i] == c && Last(cps, i) == i && At(st) && PlaceAfter(st, i, depth).Some?
      modifies this`sortedNames, cps`before
      ensures At(PlaceAfter(st, i, depth).value)
      decreases depth, 1
    {
      assert st.ps[i] == c.Snap();
      hide Place, PlaceBefore, Resolve, Shown, AreNames, NoDup;
      if c.after != NO_NAME {
        var index := GetRIndex(sortedNames, c.after);
        if index != -1 {
          sortedNames := sortedNames[..index + 1] + [c.name] + sortedNames[index + 1..];
        } else {
          index := Registration(c.after, st);
          if index != -1 {
            var cp := cps[index];
            Adopt(cp, index, c.name, st);
            SortCallbackProcessor(cp, index, st.(ps := AdoptBefore(st.ps, index, st.ps[i].name)), depth - 1);
          }
        }
      }
    }

    /** The write to another processor is seen at all of its entries; the value model writes the last one. */
    method Adopt(cp: CallbackProcessor, ghost index: nat, name: Name, ghost st: State)
      requires index < |cps| && cps[index] == cp && Last(cps, index) == index && At(st)
      modifies cp`before
      ensures At(st.(ps := AdoptBefore(st.ps, index, name)))
    {
      assert st.ps[index] == cp.Snap();
      if cp.before == NO_NAME {
        cp.before := name;
      }
    }

    /** The handler of a placed name, if its last registration does not remove it. */
    method Pick(name: Name, ghost st: State) returns (one: seq<nat>)
      requires At(st) && Registered(st.ps, name)
      ensures one == Handlers([name], st.ps)
    {
      var index := Registration(name, st);
      assert [name][1..] == [];
      one := if cps[index].remove then [] else [cps[index].processor];
    }

    /** The final loop: the handlers of the placed names. */
    method Collect(ghost st: State) returns (sortedFuncs: seq<nat>)
      requires At(st) && forall x <- st.sorted :: Registered(st.ps, x)
      ensures sortedFuncs == Handlers(st.sorted, st.ps)
    {
      hide Handlers, Registered, Shown, AreNames;
      NoHandlers(st.ps);
      sortedFuncs := [];
      for k := 0 to |sortedNames|
        invariant sortedFuncs == Handlers(st.sorted[..k], st.ps)
      {
        var one := Pick(sortedNames[k], st);
        assert st.sorted[..k + 1] == st.sorted[..k] + [sortedNames[k]];
        HandlersConcat(st.sorted[..k], [sortedNames[k]], st.ps);
        sortedFuncs := sortedFuncs + one;
      }
      assert st.sorted[..|sortedNames|] == st.sorted;
    }

    static lemma NoHandlers(ps: seq<Proc>)
      ensures Handlers([], ps) == []
    {
    }

    /** The main loop: every processor takes its turn, at its last entry. */
    method SortAll(ghost ps: seq<Proc>, ghost depth: nat) returns (ghost st: State)
      requires At(State([], ps)) && EntriesAgree(cps, State([], ps)) && NamesAgree(cps, ps) && Sort(ps, depth).Some?
      modifies this`sortedNames, cps`before
      ensures At(st) && Sort(ps, depth) == Some(st)
    {
      hide Place, Resolve, Shown, AreNames;
      st := State([], ps);
      for k := 0 to |cps|
        invariant |st.ps| == |cps| && At(st) && EntriesAgree(cps, st) && NamesAgree(cps, st.ps)
        invariant PlaceFrom(State([], ps), 0, depth) == PlaceFrom(st, k, depth)
      {
        TurnAgrees(cps, st, k, depth);
        SortCallbackProcessor(cps[k], Last(cps, k), st, depth);
        st := Place(st, k, depth).value;
      }
    }
  }

  // ----- entries of one processor -----

  /** A processor whose `before` was written has been placed. */
  ghost predicate WrittenPlaced(ps: seq<Proc>, st: State) {
    |st.ps| == |ps| && forall k :: 0 <= k < |ps| ==> st.ps[k] == ps[k] || ps[k].name in st.sorted
  }

  lemma WrittenTrans(a: State, b: State, c: State)
    requires WrittenPlaced(a.ps, b) && WrittenPlaced(b.ps, c) && Grows(a, b) && Grows(b, c)
    ensures WrittenPlaced(a.ps, c)
  {
    forall k | 0 <= k < |a.ps| && c.ps[k] != a.ps[k] ensures a.ps[k].name in c.sorted {
      if b.ps[k] != a.ps[k] { SubseqIn(b.sorted, c.sorted, a.ps[k].name); }
    }
  }

  lemma {:induction false} PlaceWrites(st: State, i: nat, fuel: nat)
    requires i < |st.ps| && Place(st, i, fuel).Some?
    ensures WrittenPlaced(st.ps, Place(st, i, fuel).value)
    decreases fuel, 2
  {
    hide Subseq, Resolve;
    if st.ps[i].name !in st.sorted {
      PlaceBeforeWrites(st, i, fuel);
      PlaceBeforeGrows(st, i, fuel);
      var b := PlaceBefore(st, i, fuel).value;
      PlaceAfterWrites(b, i, fuel);
      PlaceAfterGrows(b, i, fuel);
      WrittenTrans(st, b, PlaceAfter(b, i, fuel).value);
    }
  }

  lemma {:induction false} PlaceBeforeWrites(st: State, i: nat, fuel: nat)
    requires i < |st.ps| && PlaceBefore(st, i, fuel).Some?
    ensures WrittenPlaced(st.ps, PlaceBefore(st, i, fuel).value)
    decreases fuel, 1
  {
    var c := st.ps[i];
    if c.before != NO_NAME && RIndex(st.sorted, c.before) == -1 && Resolve(st.ps, c.before) != -1 {
      PlaceWrites(st.(sorted := st.sorted + [c.name]), Resolve(st.ps, c.before), fuel - 1);
    }
  }

  lemma {:induction false} PlaceAfterWrites(st: State, i: nat, fuel: nat)
    requires i < |st.ps| && PlaceAfter(st, i, fuel).Some?
    ensures WrittenPlaced(st.ps, PlaceAfter(st, i, fuel).value)
    decreases fuel, 1
  {
    var c := st.ps[i];
    var j := Resolve(st.ps, c.after);
    if c.after != NO_NAME && RIndex(st.sorted, c.after) == -1 && j != -1 {
      var mid := st.(ps := AdoptBefore(st.ps, j, c.name));
      PlaceWrites(mid, j, fuel - 1);
      PlaceGrows(mid, j, fuel - 1);
    }
  }

  /** Two entries with the same values are placed alike. */
  lemma PlaceSame(st: State, i: nat, j: nat, fuel: nat)
    requires i < |st.ps| && j < |st.ps| && st.ps[i] == st.ps[j] && Place(st, i, fuel).Some?
    ensures Place(st, j, fuel) == Place(st, i, fuel)
  {
    if st.ps[i].name !in st.sorted {
      PlaceBeforeGrows(st, i, fuel);
      var b := PlaceBefore(st, i, fuel).value;
      assert PlaceBefore(st, j, fuel) == Some(b);
      assert b.ps[i].name == b.ps[j].name && b.ps[i].after == b.ps[j].after;
      assert PlaceAfter(b, j, fuel) == PlaceAfter(b, i, fuel);
    }
  }

  /** Before a turn the entries of a processor are equal, or it is placed. */
  ghost predicate EntriesAgree(cps: seq<CallbackProcessor>, st: State) {
    |st.ps| == |cps| && forall k :: 0 <= k < |cps| ==> st.ps[k] == st.ps[Last(cps, k)] || st.ps[k].name in st.sorted
  }

  ghost predicate NamesAgree(cps: seq<CallbackProcessor>, ps: seq<Proc>) {
    |ps| == |cps| && forall k :: 0 <= k < |cps| ==> ps[k].name == ps[Last(cps, k)].name
  }

  lemma TurnAgrees(cps: seq<CallbackProcessor>, st: State, k: nat, fuel: nat)
    requires EntriesAgree(cps, st) && k < |cps| && Place(st, k, fuel).Some?
    requires NamesAgree(cps, st.ps)
    ensures Place(st, Last(cps, k), fuel) == Place(st, k, fuel)
    ensures EntriesAgree(cps, Place(st, k, fuel).value) && NamesAgree(cps, Place(st, k, fuel).value.ps)
  {
    var r := Place(st, k, fuel).value;
    if st.ps[k] == st.ps[Last(cps, k)] { PlaceSame(st, k, Last(cps, k), fuel); }
    PlaceWrites(st, k, fuel);
    PlaceGrows(st, k, fuel);
    forall m | 0 <= m < |cps| ensures r.ps[m] == r.ps[Last(cps, m)] || r.ps[m].name in r.sorted {
      assert r.ps[m].name == st.ps[m].name;
      if st.ps[m].name in st.sorted { SubseqIn(st.sorted, r.sorted, st.ps[m].name); }
    }
  }

  /** `sortProcessors`, called where the sort ends within `depth`. */
  method SortProcessors(cps: seq<CallbackProcessor>, ghost ps: seq<Proc>, ghost depth: nat) returns (sortedFuncs: seq<nat>)
    requires Shows(cps, ps) && Sort(ps, depth).Some?
    modifies cps`before
    ensures Shown(cps, Sort(ps, depth).value.ps)
    ensures sortedFuncs == Handlers(Sort(ps, depth).value.sorted, ps)
  {
    var allNames := AllNames(cps, ps);
    var run := new SortRun(cps, allNames);
    EntriesAtFirst(cps, ps);
    ghost var st := run.SortAll(ps, depth);
    SortPlacesExactly(ps, depth);
    SameNames(ps, st.ps);
    HandlersSame(st.sorted, ps, st.ps);
    sortedFuncs := run.Collect(st);
  }

  method AllNames(cps: seq<CallbackProcessor>, ghost ps: seq<Proc>) returns (allNames: seq<Name>)
    requires Shows(cps, ps)
    ensures AreNames(allNames, ps) && forall k :: 0 <= k < |cps| ==> cps[k].name == allNames[k]
  {
    allNames := [];
    for k := 0 to |cps|
      invariant |allNames| == k && forall j :: 0 <= j < k ==> allNames[j] == ps[j].name
    {
      assert ps[k] == cps[k].Snap();
      allNames := allNames + [cps[k].name];
    }
    forall k | 0 <= k < |cps| ensures cps[k].name == allNames[k] { assert ps[k] == cps[k].Snap(); }
  }

  lemma EntriesAtFirst(cps: seq<CallbackProcessor>, ps: seq<Proc>)
    requires Shows(cps, ps)
    ensures Shown(cps, ps) && EntriesAgree(cps, State([], ps)) && NamesAgree(cps, ps)
  {
    forall k | 0 <= k < |cps| ensures ps[Last(cps, k)] == ps[k] && cps[k].Snap() == ps[k] {
      assert cps[Last(cps, k)].Snap() == ps[Last(cps, k)];
    }
  }
}
