/** Query handles derived from each other. A handle is copied with its slices, so handles share backing
    arrays; memory is modelled as those arrays. */
module Handles {
  import opened Lists

  /** An element of a list: a condition or an order, or a preload with its schema and its options. */
  datatype Entry = Entry(name: int, detail: int)

  /** A backing array and the list of a handle it was allocated for. Array 0 is the one without cells
      behind every nil slice. */
  datatype Array = Array(list: nat, cells: seq<Entry>)
  type Memory = seq<Array>

  /** A slice from the front of an array: its capacity is the length of the array. */
  datatype Slice = Slice(arr: nat, len: nat)

  const NIL := Slice(0, 0)

  /** The lists of a search that grow by append: Where, Or, Not, Having, Joins, Order and Preload. */
  const LISTS: nat := 7
  const ORDERS: nat := 5
  const PRELOADS: nat := 6

  datatype Handle = Handle(slices: seq<Slice>, settings: map<int, int>, parent: int)

  datatype World = World(mem: Memory, handles: seq<Handle>)

  predicate SliceOk(mem: Memory, s: Slice, list: nat) {
    s.arr < |mem| && s.len <= |mem[s.arr].cells| && (s.arr == 0 || mem[s.arr].list == list)
  }

  predicate HandleOk(mem: Memory, h: Handle) {
    |h.slices| == LISTS && forall k :: 0 <= k < LISTS ==> SliceOk(mem, h.slices[k], k)
  }

  function Visible(mem: Memory, s: Slice): seq<Entry>
    requires s.arr < |mem| && s.len <= |mem[s.arr].cells|
  {
    mem[s.arr].cells[..s.len]
  }

  // ---------------------------------------------------------------- append

  function Spare(n: nat): (r: seq<Entry>)
    ensures |r| == n
  {
    seq(n, k => Entry(0, 0))
  }

  datatype Appended = Appended(mem: Memory, slice: Slice)

  /** Go's append of one element: into the spare capacity, or into a new array of some larger capacity. */
  function AppendOne(mem: Memory, s: Slice, list: nat, x: Entry, spare: nat): Appended
    requires SliceOk(mem, s, list)
  {
    var a := mem[s.arr];
    if s.len < |a.cells| then Appended(mem[s.arr := Array(a.list, a.cells[s.len := x])], Slice(s.arr, s.len + 1))
    else Appended(mem + [Array(list, a.cells + [x] + Spare(spare))], Slice(|mem|, s.len + 1))
  }

  /** `s` before and `t` after are the same handle's list, or `t` a list derived from it: what `s` shows stays
      what it was as long as nobody writes below its length. */
  ghost predicate Behind(s: Slice, t: Slice) {
    s.arr == t.arr ==> s.len <= t.len
  }

  /** Nothing changes in memory below `t`'s end or outside its array, except for new arrays. */
  ghost predicate Extends(mem: Memory, mem2: Memory, t: Slice) {
    && |mem| <= |mem2|
    && (forall i :: 0 <= i < |mem| ==> mem2[i].list == mem[i].list && |mem2[i].cells| == |mem[i].cells|)
    && (forall i, k :: 0 <= i < |mem| && 0 <= k < |mem[i].cells| && (i != t.arr || k < t.len) ==> mem2[i].cells[k] == mem[i].cells[k])
  }

  lemma AppendOneGrows(mem: Memory, s: Slice, list: nat, x: Entry, spare: nat)
    requires SliceOk(mem, s, list) && |mem| > 0 && mem[0].cells == []
    ensures var r := AppendOne(mem, s, list, x, spare);
            && SliceOk(r.mem, r.slice, list) && Visible(r.mem, r.slice) == Visible(mem, s) + [x]
            && Extends(mem, r.mem, s) && r.mem[0].cells == []
            && (if s.len < |mem[s.arr].cells| then r.slice == Slice(s.arr, s.len + 1) && |r.mem| == |mem|
                else r.slice.arr == |mem| == |r.mem| - 1 && |r.mem[r.slice.arr].cells| == s.len + 1 + spare)
  {
    var r := AppendOne(mem, s, list, x, spare);
    var a := mem[s.arr];
    if s.len < |a.cells| {
      assert a.cells[s.len := x][..s.len + 1] == a.cells[..s.len] + [x];
    } else {
      assert (a.cells + [x] + Spare(spare))[..s.len + 1] == a.cells[..s.len] + [x];
    }
  }

  function Append(mem: Memory, s: Slice, list: nat, xs: seq<Entry>, spare: nat): (r: Appended)
    requires SliceOk(mem, s, list) && |mem| > 0 && mem[0].cells == []
    decreases |xs|
  {
    if xs == [] then Appended(mem, s) else
    AppendOneGrows(mem, s, list, xs[0], spare);
    var a := AppendOne(mem, s, list, xs[0], spare);
    Append(a.mem, a.slice, list, xs[1..], spare)
  }

  lemma {:induction false} AppendGrows(mem: Memory, s: Slice, list: nat, xs: seq<Entry>, spare: nat)
    requires SliceOk(mem, s, list) && |mem| > 0 && mem[0].cells == []
    ensures var r := Append(mem, s, list, xs, spare);
            && SliceOk(r.mem, r.slice, list) && Visible(r.mem, r.slice) == Visible(mem, s) + xs
            && Extends(mem, r.mem, s) && r.mem[0].cells == []
            && ((r.slice.arr == s.arr && r.slice.len >= s.len) || r.slice.arr >= |mem|)
    decreases |xs|
  {
    if xs != [] {
      AppendOneGrows(mem, s, list, xs[0], spare);
      hide AppendOne;
      var a := AppendOne(mem, s, list, xs[0], spare);
      AppendGrows(a.mem, a.slice, list, xs[1..], spare);
      assert xs == [xs[0]] + xs[1..];
      var r := Append(a.mem, a.slice, list, xs[1..], spare);
      assert Visible(mem, s) + [xs[0]] + xs[1..] == Visible(mem, s) + xs;
    }
  }

  /** A slice that is not ahead of the one appended to still shows the same. */
  lemma StillVisible(mem: Memory, mem2: Memory, s: Slice, t: Slice, list: nat)
    requires SliceOk(mem, s, list) && Extends(mem, mem2, t) && Behind(s, t)
    ensures SliceOk(mem2, s, list) && Visible(mem2, s) == Visible(mem, s)
  {
  }

  // ---------------------------------------------------------------- derivations

  /** What a derivation does to the copy: append to a list (Where, Or, Not, Having, Joins, Order), drop the
      orders first, replace the preload of a schema, set a value. */
  datatype Op = Add(list: nat, xs: seq<Entry>, spare: nat) | Reorder(xs: seq<Entry>, spare: nat)
              | Preload(x: Entry, spare: nat) | Set(name: int, value: int)

  predicate OpOk(op: Op) {
    op.Add? ==> op.list < LISTS
  }

  function Drop(xs: seq<Entry>, schema: int): seq<Entry> {
    if xs == [] then [] else (if xs[0].name == schema then [] else [xs[0]]) + Drop(xs[1..], schema)
  }

  lemma {:induction false} DropLeaves(xs: seq<Entry>, schema: int)
    ensures Leaves(Drop(xs, schema), xs, (e: Entry) => e.name == schema)
    decreases |xs|
  {
    hide Leaves;
    if xs == [] {
      NothingDropped(schema);
    } else {
      DropLeaves(xs[1..], schema);
      LeavesNext(Drop(xs[1..], schema), xs[1..], (e: Entry) => e.name == schema, xs[0]);
      assert xs == [xs[0]] + xs[1..];
    }
  }

  lemma NothingDropped(schema: int)
    ensures Leaves([], [], (e: Entry) => e.name == schema)
  {
  }

  predicate WorldOk(w: World) {
    && |w.mem| > 0 && w.mem[0].cells == []
    && forall h :: 0 <= h < |w.handles| ==> HandleOk(w.mem, w.handles[h]) && w.handles[h].parent < h
  }

  function Derive(w: World, h: nat, op: Op): World
    requires WorldOk(w) && h < |w.handles| && OpOk(op)
  {
    var c := w.handles[h];
    match op
    case Set(name, value) => World(w.mem, w.handles + [Handle(c.slices, c.settings[name := value], h)])
    case Add(list, xs, spare) => (
      var r := Append(w.mem, c.slices[list], list, xs, spare);
      World(r.mem, w.handles + [Handle(c.slices[list := r.slice], c.settings, h)]))
    case Reorder(xs, spare) => (
      var r := Append(w.mem, NIL, ORDERS, xs, spare);
      World(r.mem, w.handles + [Handle(c.slices[ORDERS := r.slice], c.settings, h)]))
    case Preload(x, spare) => (
      var r := Append(w.mem, NIL, PRELOADS, Drop(Visible(w.mem, c.slices[PRELOADS]), x.name) + [x], spare);
      World(r.mem, w.handles + [Handle(c.slices[PRELOADS := r.slice], c.settings, h)]))
  }

  predicate Ancestor(w: World, a: nat, d: int)
    decreases d
  {
    0 <= d < |w.handles| && (a == d || (w.handles[d].parent < d && Ancestor(w, a, w.handles[d].parent)))
  }

  /** No handle is ahead of its descendants in a shared array. */
  ghost predicate Ordered(w: World)
    requires WorldOk(w)
  {
    forall a: nat, d: nat, k :: a < |w.handles| && d < |w.handles| && Ancestor(w, a, d) && 0 <= k < LISTS ==>
      Behind(w.handles[a].slices[k], w.handles[d].slices[k])
  }

  /** What a handle shows: the contents of its lists, and its settings. */
  ghost predicate SameView(w: World, w2: World, h: nat)
    requires WorldOk(w) && WorldOk(w2)
  {
    && h < |w.handles| && h < |w2.handles| && w.handles[h] == w2.handles[h]
    && forall k :: 0 <= k < LISTS ==> Visible(w.mem, w.handles[h].slices[k]) == Visible(w2.mem, w2.handles[h].slices[k])
  }

  /** The list a derivation appends to, if any, and the slice it starts from. */
  function TargetList(op: Op): int {
    match op case Add(list, _, _) => list case Reorder(_, _) => ORDERS case Preload(_, _) => PRELOADS case Set(_, _) => -1
  }

  function TargetSlice(c: Handle, op: Op): Slice
    requires |c.slices| == LISTS && OpOk(op)
  {
    if op.Add? then c.slices[op.list] else NIL
  }

  lemma DeriveShape(w: World, h: nat, op: Op)
    requires WorldOk(w) && h < |w.handles| && OpOk(op)
    ensures var w2, c := Derive(w, h, op), w.handles[h];
            var list, from := TargetList(op), TargetSlice(c, op);
            && |w2.handles| == |w.handles| + 1 && w2.handles[..|w.handles|] == w.handles
            && Extends(w.mem, w2.mem, from) && w2.mem[0].cells == []
            && var n := w2.handles[|w.handles|];
               && n.parent == h && HandleOk(w2.mem, n)
               && (forall k :: 0 <= k < LISTS && k != list ==> n.slices[k] == c.slices[k])
               && (list >= 0 ==> (n.slices[list].arr == from.arr && n.slices[list].len >= from.len) || n.slices[list].arr >= |w.mem|)
  {
    var c := w.handles[h];
    match op {
      case Set(_, _) =>
      case Add(list, xs, spare) => AppendGrows(w.mem, c.slices[list], list, xs, spare);
      case Reorder(xs, spare) => AppendGrows(w.mem, NIL, ORDERS, xs, spare);
      case Preload(x, spare) => AppendGrows(w.mem, NIL, PRELOADS, Drop(Visible(w.mem, c.slices[PRELOADS]), x.name) + [x], spare);
    }
    hide Append, Spare;
  }

  lemma {:induction false} AncestorKept(w: World, w2: World, a: nat, d: int)
    requires |w.handles| <= |w2.handles| && w2.handles[..|w.handles|] == w.handles && d < |w.handles|
    ensures Ancestor(w2, a, d) == Ancestor(w, a, d)
    decreases d
  {
    if 0 <= d {
      assert w2.handles[d] == w2.handles[..|w.handles|][d];
      if a != d && w.handles[d].parent < d { AncestorKept(w, w2, a, w.handles[d].parent); }
    }
  }

  lemma {:induction false} AncestorBelow(w: World, a: nat, d: int)
    requires Ancestor(w, a, d)
    ensures a <= d && a < |w.handles|
    decreases d
  {
    if a != d { AncestorBelow(w, a, w.handles[d].parent); }
  }

  /** One derivation: no ancestor of the new handle shows anything else than before. */
  lemma DeriveKeepsAncestors(w: World, h: nat, op: Op)
    requires WorldOk(w) && Ordered(w) && h < |w.handles| && OpOk(op)
    ensures WorldOk(Derive(w, h, op)) && Ordered(Derive(w, h, op))
    ensures forall a: nat :: Ancestor(w, a, h) ==> SameView(w, Derive(w, h, op), a)
  {
    var w2, c, n := Derive(w, h, op), w.handles[h], |w.handles|;
    var list, from := TargetList(op), TargetSlice(w.handles[h], op);
    DeriveShape(w, h, op);
    hide Derive;
    DeriveOk(w, w2, from);
    forall a: nat | Ancestor(w, a, h) ensures SameView(w, w2, a) {
      AncestorBelow(w, a, h);
      forall k | 0 <= k < LISTS
        ensures Visible(w.mem, w.handles[a].slices[k]) == Visible(w2.mem, w2.handles[a].slices[k])
      {
        assert w2.handles[a] == w2.handles[..n][a];
        assert SliceOk(w.mem, w.handles[a].slices[k], k) && Behind(w.handles[a].slices[k], w.handles[h].slices[k]);
        BehindTarget(w, a, h, k, op);
        StillVisible(w.mem, w2.mem, w.handles[a].slices[k], from, k);
      }
      assert w2.handles[a] == w2.handles[..n][a];
    }
    forall a: nat, d: nat, k | a < |w2.handles| && d < |w2.handles| && Ancestor(w2, a, d) && 0 <= k < LISTS
      ensures Behind(w2.handles[a].slices[k], w2.handles[d].slices[k])
    {
      AncestorBelow(w2, a, d);
      if d < n {
        AncestorKept(w, w2, a, d);
        assert w2.handles[d] == w2.handles[..n][d] && w2.handles[a] == w2.handles[..n][a];
      } else if a < n {
        assert Ancestor(w2, a, h);
        AncestorKept(w, w2, a, h);
        assert w2.handles[a] == w2.handles[..n][a];
        assert SliceOk(w.mem, w.handles[a].slices[k], k) && Behind(w.handles[a].slices[k], w.handles[h].slices[k]);
        BehindTarget(w, a, h, k, op);
      }
    }
  }

  lemma DeriveOk(w: World, w2: World, from: Slice)
    requires WorldOk(w) && Extends(w.mem, w2.mem, from) && w2.mem[0].cells == []
    requires |w2.handles| == |w.handles| + 1 && w2.handles[..|w.handles|] == w.handles
    requires HandleOk(w2.mem, w2.handles[|w.handles|]) && w2.handles[|w.handles|].parent < |w.handles|
    ensures WorldOk(w2)
  {
    forall h | 0 <= h < |w2.handles| ensures HandleOk(w2.mem, w2.handles[h]) && w2.handles[h].parent < h {
      if h < |w.handles| {
        assert w2.handles[h] == w2.handles[..|w.handles|][h];
        assert HandleOk(w.mem, w.handles[h]);
      }
    }
  }

  /** An ancestor is not ahead of the slice a derivation starts from: its own list, another list with
      another array, or nil. */
  lemma BehindTarget(w: World, a: nat, h: nat, k: nat, op: Op)
    requires WorldOk(w) && a < |w.handles| && h < |w.handles| && k < LISTS && OpOk(op)
    requires Behind(w.handles[a].slices[k], w.handles[h].slices[k])
    ensures Behind(w.handles[a].slices[k], TargetSlice(w.handles[h], op))
  {
    assert HandleOk(w.mem, w.handles[a]) && HandleOk(w.mem, w.handles[h]);
    assert SliceOk(w.mem, w.handles[a].slices[k], k);
    if op.Add? {
      assert SliceOk(w.mem, w.handles[h].slices[op.list], op.list);
    }
  }

  lemma DerivedLists(w: World, h: nat, op: Op)
    requires WorldOk(w) && h < |w.handles| && OpOk(op)
    ensures WorldOk(Derive(w, h, op))
    ensures var w2, c := Derive(w, h, op), w.handles[h];
            var n := w2.handles[|w.handles|];
            && n.settings == (if op.Set? then c.settings[op.name := op.value] else c.settings)
            && forall k :: 0 <= k < LISTS ==>
                 Visible(w2.mem, n.slices[k]) ==
                 if k != TargetList(op) then Visible(w.mem, c.slices[k])
                 else if op.Add? then Visible(w.mem, c.slices[k]) + op.xs
                 else if op.Reorder? then op.xs
                 else Drop(Visible(w.mem, c.slices[k]), op.x.name) + [op.x]
  {
    var w2, c := Derive(w, h, op), w.handles[h];
    DeriveShape(w, h, op);
    DeriveOk(w, w2, TargetSlice(c, op));
    match op {
      case Set(_, _) =>
      case Add(list, xs, spare) => AppendGrows(w.mem, c.slices[list], list, xs, spare);
      case Reorder(xs, spare) => AppendGrows(w.mem, NIL, ORDERS, xs, spare);
      case Preload(x, spare) => AppendGrows(w.mem, NIL, PRELOADS, Drop(Visible(w.mem, c.slices[PRELOADS]), x.name) + [x], spare);
    }
    hide Append, AppendOne, Drop;
    var n := w2.handles[|w.handles|];
    forall k | 0 <= k < LISTS && k != TargetList(op) ensures Visible(w2.mem, n.slices[k]) == Visible(w.mem, c.slices[k]) {
      assert HandleOk(w.mem, c) && SliceOk(w.mem, c.slices[k], k);
      if op.Add? { assert SliceOk(w.mem, c.slices[op.list], op.list); }
      StillVisible(w.mem, w2.mem, c.slices[k], TargetSlice(c, op), k);
    }
  }

  /** The new handle shows what its parent shows with the one change asked for. */
  lemma DerivedShows(w: World, h: nat, op: Op)
    requires WorldOk(w) && h < |w.handles| && OpOk(op)
    ensures WorldOk(Derive(w, h, op))
    ensures var w2, c := Derive(w, h, op), w.handles[h];
            var n := w2.handles[|w.handles|];
            && n.settings == (if op.Set? then c.settings[op.name := op.value] else c.settings)
            && forall k :: 0 <= k < LISTS ==>
                 var shown, was := Visible(w2.mem, n.slices[k]), Visible(w.mem, c.slices[k]);
                 match op
                 case Add(list, xs, _) => shown == if k == list then was + xs else was
                 case Reorder(xs, _) => shown == if k == 5 then xs else was
                 case Preload(x, _) => (
                   if k != 6 then shown == was
                   else shown != [] && shown[|shown| - 1] == x && Leaves(shown[..|shown| - 1], was, (e: Entry) => e.name == x.name))
                 case Set(_, _) => shown == was
  {
    DerivedLists(w, h, op);
    var c := w.handles[h];
    assert HandleOk(w.mem, c) && SliceOk(w.mem, c.slices[PRELOADS], PRELOADS);
    if op.Preload? {
      var kept := Drop(Visible(w.mem, c.slices[PRELOADS]), op.x.name);
      DropLeaves(Visible(w.mem, c.slices[PRELOADS]), op.x.name);
      assert (kept + [op.x])[..|kept|] == kept;
    }
    hide Derive, Drop, Leaves, Visible, WorldOk;
  }

  // ---------------------------------------------------------------- runs of derivations

  datatype Step = Step(from: nat, op: Op)

  ghost predicate StepsOk(n: nat, steps: seq<Step>)
    decreases |steps|
  {
    steps == [] || (steps[0].from < n && OpOk(steps[0].op) && StepsOk(n + 1, steps[1..]))
  }

  function Run(w: World, steps: seq<Step>): World
    requires WorldOk(w) && Ordered(w) && StepsOk(|w.handles|, steps)
    decreases |steps|
  {
    if steps == [] then w else
    DeriveKeepsAncestors(w, steps[0].from, steps[0].op);
    DeriveShape(w, steps[0].from, steps[0].op);
    Run(Derive(w, steps[0].from, steps[0].op), steps[1..])
  }

  /** A handle without a parent and without conditions. */
  function Fresh(settings: map<int, int>): World {
    World([Array(0, [])], [Handle([NIL, NIL, NIL, NIL, NIL, NIL, NIL], settings, -1)])
  }

  /** Every world that comes out of such a handle keeps its handles in order. */
  lemma {:induction false} RunKeepsOrder(w: World, steps: seq<Step>)
    requires WorldOk(w) && Ordered(w) && StepsOk(|w.handles|, steps)
    ensures WorldOk(Run(w, steps)) && Ordered(Run(w, steps))
    decreases |steps|
  {
    if steps != [] {
      DeriveKeepsAncestors(w, steps[0].from, steps[0].op);
      DeriveShape(w, steps[0].from, steps[0].op);
      hide Derive, Ordered, WorldOk;
      RunKeepsOrder(Derive(w, steps[0].from, steps[0].op), steps[1..]);
    }
  }

  lemma FreshOrdered(settings: map<int, int>)
    ensures WorldOk(Fresh(settings)) && Ordered(Fresh(settings))
    ensures var w := Fresh(settings);
            && |w.handles| == 1 && w.handles[0].settings == settings && w.handles[0].parent == -1
            && forall k :: 0 <= k < LISTS ==> Visible(w.mem, w.handles[0].slices[k]) == []
  {
  }

  /** A run makes one handle after the other. */
  lemma {:induction false} RunStep(w: World, steps: seq<Step>, last: Step)
    requires WorldOk(w) && Ordered(w) && StepsOk(|w.handles|, steps + [last])
    ensures StepsOk(|w.handles|, steps) && WorldOk(Run(w, steps)) && Ordered(Run(w, steps))
    ensures Run(w, []) == w && |Run(w, steps).handles| == |w.handles| + |steps|
    ensures last.from < |Run(w, steps).handles| && OpOk(last.op)
    ensures Run(w, steps + [last]) == Derive(Run(w, steps), last.from, last.op)
    decreases |steps|
  {
    RunKeepsOrder(w, steps + [last]);
    if steps == [] {
      assert steps + [last] == [last] && [last][1..] == [];
    } else {
      var all := steps + [last];
      assert all[0] == steps[0] && all[1..] == steps[1..] + [last];
      DeriveKeepsAncestors(w, steps[0].from, steps[0].op);
      DeriveShape(w, steps[0].from, steps[0].op);
      hide Derive, Ordered, WorldOk;
      RunStep(Derive(w, steps[0].from, steps[0].op), steps[1..], last);
    }
  }

  /** Every step of the run derives from `a` or from a descendant of it. */
  ghost predicate Lineage(w: World, a: nat, steps: seq<Step>)
    requires WorldOk(w) && Ordered(w) && StepsOk(|w.handles|, steps)
    decreases |steps|
  {
    steps == [] || (
      Ancestor(w, a, steps[0].from) &&
      (DeriveKeepsAncestors(w, steps[0].from, steps[0].op);
       DeriveShape(w, steps[0].from, steps[0].op);
       Lineage(Derive(w, steps[0].from, steps[0].op), a, steps[1..])))
  }

  /** Whatever tree of handles is derived from a handle, the handle shows what it showed. */
  lemma {:induction false} DescendantsNeverDisturb(w: World, a: nat, steps: seq<Step>)
    requires WorldOk(w) && Ordered(w) && StepsOk(|w.handles|, steps) && a < |w.handles| && Lineage(w, a, steps)
    ensures WorldOk(Run(w, steps)) && SameView(w, Run(w, steps), a)
    decreases |steps|
  {
    if steps != [] {
      var w2 := Derive(w, steps[0].from, steps[0].op);
      DeriveKeepsAncestors(w, steps[0].from, steps[0].op);
      DeriveShape(w, steps[0].from, steps[0].op);
      assert SameView(w, w2, a);
      hide Derive, SliceOk;
      DescendantsNeverDisturb(w2, a, steps[1..]);
    }
  }

  /** So it is for every handle of every program that starts with a handle without conditions: `before` makes
      any handles in any order, and what `after` derives from one of them does not disturb it. */
  lemma ProgramsNeverDisturb(settings: map<int, int>, before: seq<Step>, a: nat, after: seq<Step>)
    requires StepsOk(1, before)
    ensures WorldOk(Fresh(settings)) && Ordered(Fresh(settings))
    ensures var w := Run(Fresh(settings), before);
            && WorldOk(w) && Ordered(w)
            && (a < |w.handles| && StepsOk(|w.handles|, after) && Lineage(w, a, after) ==>
                WorldOk(Run(w, after)) && SameView(w, Run(w, after), a))
  {
    FreshOrdered(settings);
    hide WorldOk, Ordered, Run, Lineage, SameView;
    RunKeepsOrder(Fresh(settings), before);
    var w := Run(Fresh(settings), before);
    if a < |w.handles| && StepsOk(|w.handles|, after) && Lineage(w, a, after) {
      DescendantsNeverDisturb(w, a, after);
    }
  }

  // ---------------------------------------------------------------- siblings

  /** A derivation that appends one element changes what another handle shows exactly when it writes into
      spare capacity the other handle has already filled with something else. */
  lemma AppendDisturbsExactly(w: World, h: nat, g: nat, list: nat, x: Entry, spare: nat)
    requires WorldOk(w) && h < |w.handles| && g < |w.handles| && list < LISTS
    ensures var w2, s, t := Derive(w, h, Add(list, [x], spare)), w.handles[h].slices[list], w.handles[g].slices[list];
            SliceOk(w2.mem, t, list) && SliceOk(w.mem, t, list) && SliceOk(w.mem, s, list) &&
            (Visible(w2.mem, t) != Visible(w.mem, t) <==>
             s.len < |w.mem[s.arr].cells| && t.arr == s.arr && t.len > s.len && w.mem[s.arr].cells[s.len] != x)
  {
    var s, t := w.handles[h].slices[list], w.handles[g].slices[list];
    assert HandleOk(w.mem, w.handles[h]) && HandleOk(w.mem, w.handles[g]);
    assert SliceOk(w.mem, s, list) && SliceOk(w.mem, t, list);
    var r := AppendOne(w.mem, s, list, x, spare);
    assert [x][1..] == [];
    AppendOneGrows(w.mem, s, list, x, spare);
    assert Append(w.mem, s, list, [x], spare) == r;
    if s.len < |w.mem[s.arr].cells| && t.arr == s.arr && t.len > s.len {
      assert Visible(r.mem, t)[s.len] == x && Visible(w.mem, t)[s.len] == w.mem[s.arr].cells[s.len];
      if w.mem[s.arr].cells[s.len] == x {
        assert w.mem[s.arr].cells[s.len := x] == w.mem[s.arr].cells;
      }
    }
  }

  // ---------------------------------------------------------------- the primary key condition put in front

  /** `whereSQL` puts the ID of the record in front of its Where list: append nil, copy up by one, assign. */
  method Prepend(mem: Memory, s: Slice, list: nat, id: Entry, spare: nat) returns (r: Appended)
    requires SliceOk(mem, s, list) && |mem| > 0 && mem[0].cells == []
    ensures SliceOk(r.mem, r.slice, list) && Visible(r.mem, r.slice) == [id] + Visible(mem, s)
    ensures r == Prepended(mem, s, list, id, spare)
  {
    var a := AppendOne(mem, s, list, Entry(0, 0), spare);
    AppendOneGrows(mem, s, list, Entry(0, 0), spare);
    var cells := a.mem[a.slice.arr].cells;
    ghost var before := cells;
    var n := a.slice.len;
    var k := n - 1;
    while k > 0
      invariant 0 <= k < n <= |cells| == |before|
      invariant forall i :: 0 <= i < |cells| && (i <= k || i >= n) ==> cells[i] == before[i]
      invariant forall i :: k < i < n ==> cells[i] == before[i - 1]
    {
      cells := cells[k := cells[k - 1]];
      k := k - 1;
    }
    cells := cells[0 := id];
    assert before[..n] == Visible(mem, s) + [Entry(0, 0)];
    assert cells == [id] + before[..n - 1] + before[n..];
    r := Appended(a.mem[a.slice.arr := Array(a.mem[a.slice.arr].list, cells)], a.slice);
    assert before[..n - 1] == Visible(mem, s);
    assert cells[..n] == [id] + Visible(mem, s);
  }

  function Prepended(mem: Memory, s: Slice, list: nat, id: Entry, spare: nat): Appended
    requires SliceOk(mem, s, list) && |mem| > 0 && mem[0].cells == []
  {
    AppendOneGrows(mem, s, list, Entry(0, 0), spare);
    var a := AppendOne(mem, s, list, Entry(0, 0), spare);
    var cells, n := a.mem[a.slice.arr].cells, a.slice.len;
    Appended(a.mem[a.slice.arr := Array(a.mem[a.slice.arr].list, [id] + cells[..n - 1] + cells[n..])], a.slice)
  }

  /** Building a statement therefore changes the handle it was derived from exactly when that handle's Where
      list has spare capacity: its conditions move up by one and the ID comes in. */
  lemma PrependDisturbsExactly(mem: Memory, s: Slice, list: nat, id: Entry, spare: nat)
    requires SliceOk(mem, s, list) && |mem| > 0 && mem[0].cells == [] && id !in Visible(mem, s) && s.len > 0
    ensures var r := Prepended(mem, s, list, id, spare);
            SliceOk(r.mem, s, list) &&
            Visible(r.mem, s) == if s.len < |mem[s.arr].cells| then [id] + Visible(mem, s)[..s.len - 1] else Visible(mem, s)
    ensures Visible(Prepended(mem, s, list, id, spare).mem, s) != Visible(mem, s) <==> s.len < |mem[s.arr].cells|
  {
    AppendOneGrows(mem, s, list, Entry(0, 0), spare);
    var a := AppendOne(mem, s, list, Entry(0, 0), spare);
    var cells, n := a.mem[a.slice.arr].cells, a.slice.len;
    var c2 := [id] + cells[..n - 1] + cells[n..];
    if s.len < |mem[s.arr].cells| {
      assert c2[..s.len] == [id] + Visible(mem, s)[..s.len - 1];
      assert Visible(mem, s)[0] in Visible(mem, s);
    }
  }
}
