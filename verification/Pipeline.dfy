/** Operation pipelines and transactions of scope.go, main.go and callback_save.go on values: a database
    with durable writes and transactions, the state of a handle, and callback runs with nested runs. */
module Pipeline {

  /** What a handle's statements go to: the pool, a transaction, or the nil transaction left by a BEGIN
      that failed. */
  datatype Conn = Pool | InTx(id: nat) | NoTx

  datatype Tx = Open(pending: seq<int>) | Committed | RolledBack

  /** `scopes` counts the scopes created so far; it provides instance ids. */
  datatype World = World(durable: seq<int>, txs: seq<Tx>, scopes: nat)

  /** A `*DB`: connection, recorded error, the two settings that bear on transactions, and the instance
      ids under which "aorm:started_transaction" is set. */
  datatype Handle = Handle(conn: Conn, failed: bool, scopeTxOff: bool, commitOff: bool, started: set<nat>)

  /** What a callback does to the database and to its scope. The answers of the driver are part of the
      action, so all lists of actions stand for all behaviours of the driver. */
  datatype Action =
    | Begin(ok: bool)
    | Finish(ok: bool)
    | Exec(write: int, ok: bool)
    | Insert(write: int, ok: bool)
    | Fail
    | Skip
    | Nested(funcs: seq<Callback>, reported: bool)

  /** A callback function: what it does, in order. */
  datatype Callback = Do(acts: seq<Action>)

  /** A scope while its callbacks run. */
  datatype Run = Run(w: World, h: Handle, skipLeft: bool)

  // ----- statements -----

  /** A statement outside a transaction is durable at once; in an open one it is pending; in a finished
      or nil one it is an error. */
  function Write(r: Run, write: int, ok: bool): Run {
    match r.h.conn
    case Pool =>
      if ok then r.(w := r.w.(durable := r.w.durable + [write])) else AddError(r)
    case InTx(t) =>
      if ok && t < |r.w.txs| && r.w.txs[t].Open?
      then r.(w := r.w.(txs := r.w.txs[t := Open(r.w.txs[t].pending + [write])]))
      else AddError(r)
    case NoTx => AddError(r)
  }

  function AddError(r: Run): Run {
    r.(h := r.h.(failed := true))
  }

  /** `tx.Commit()`. */
  function CommitTx(w: World, t: nat, ok: bool): (World, bool) {
    if t < |w.txs| && w.txs[t].Open? then
      if ok then (w.(durable := w.durable + w.txs[t].pending, txs := w.txs[t := Committed]), true)
      else (w.(txs := w.txs[t := RolledBack]), false)
    else (w, false)
  }

  /** `tx.Rollback()`. */
  function RollbackTx(w: World, t: nat): World {
    if t < |w.txs| && w.txs[t].Open? then w.(txs := w.txs[t := RolledBack]) else w
  }

  // ----- Scope.Begin, Scope.CommitOrRollback -----

  function ScopeBegin(r: Run, id: nat, ok: bool): Run {
    if !r.h.scopeTxOff && r.h.conn.Pool? && ok then
      Run(r.w.(txs := r.w.txs + [Open([])]), r.h.(conn := InTx(|r.w.txs|), started := r.h.started + {id}), r.skipLeft)
    else r
  }

  function ScopeFinish(r: Run, id: nat, ok: bool): Run {
    if id in r.h.started && r.h.conn.InTx? then
      if r.h.failed then Run(RollbackTx(r.w, r.h.conn.id), r.h.(conn := Pool), r.skipLeft)
      else
        var (w, committed) := CommitTx(r.w, r.h.conn.id, ok);
        Run(w, r.h.(conn := Pool, failed := !committed), r.skipLeft)
    else r
  }

  // ----- callbacks -----

  function Act(r: Run, id: nat, a: Action): Run
    decreases a
  {
    match a
    case Begin(ok) => ScopeBegin(r, id, ok)
    case Finish(ok) => ScopeFinish(r, id, ok)
    case Exec(write, ok) => if r.h.failed then r else Write(r, write, ok)
    case Insert(write, ok) => Write(r, write, ok)
    case Fail => AddError(r)
    case Skip => r.(skipLeft := true)
    case Nested(funcs, reported) =>
      var inner := Callbacks(Run(r.w.(scopes := r.w.scopes + 1), r.h, false), r.w.scopes, funcs);
      r.(w := inner.w, h := r.h.(failed := r.h.failed || (reported && inner.h.failed)))
  }

  function Acts(r: Run, id: nat, actions: seq<Action>): Run
    decreases actions
  {
    if actions == [] then r else Acts(Act(r, id, actions[0]), id, actions[1..])
  }

  /** `callCallbacks`: in order, until one skips the rest or an error is recorded. */
  function Callbacks(r: Run, id: nat, funcs: seq<Callback>): Run
    decreases funcs
  {
    if funcs == [] then r
    else
      var s := Acts(r, id, funcs[0].acts);
      if s.skipLeft || s.h.failed then s else Callbacks(s, id, funcs[1..])
  }

  /** An operation on a handle: a new scope with a copy of the handle. */
  function Operation(w: World, h: Handle, funcs: seq<Callback>): Run {
    Callbacks(Run(w.(scopes := w.scopes + 1), h, false), w.scopes, funcs)
  }

  /** Instance ids recorded on a handle belong to scopes that exist. */
  predicate Sound(w: World, h: Handle) {
    forall i <- h.started :: i < w.scopes
  }

  // ----- errors are sticky -----

  lemma {:induction false} ErrorsStick(r: Run, id: nat, funcs: seq<Callback>)
    requires r.h.failed
    ensures Callbacks(r, id, funcs).h.failed
    decreases funcs
  {
    if funcs != [] { ActsStick(r, id, funcs[0].acts); }
  }

  lemma {:induction false} ActsStick(r: Run, id: nat, actions: seq<Action>)
    requires r.h.failed
    ensures Acts(r, id, actions).h.failed
    decreases actions
  {
    if actions != [] { ActsStick(Act(r, id, actions[0]), id, actions[1..]); }
  }

  // ----- a handle in error writes nothing -----

  /** Under a recorded error only the first callback runs; it, and the first callbacks of the runs it
      nests, make no insert outside the guard of `ExecResult` and begin no transaction. */
  predicate QuietAct(a: Action)
    decreases a
  {
    match a
    case Begin(_) => false
    case Insert(_, _) => false
    case Nested(funcs, _) => funcs == [] || Quiet(funcs[0].acts)
    case _ => true
  }

  predicate Quiet(actions: seq<Action>)
    decreases actions
  {
    forall a <- actions :: QuietAct(a)
  }

  /** Same transactions and durable writes; at most scopes were created. */
  predicate Untouched(r: Run, s: Run) {
    && s.w.durable == r.w.durable && s.w.txs == r.w.txs && s.w.scopes >= r.w.scopes
    && s.h.failed && s.h.started == r.h.started
  }

  lemma {:induction false} FailedActQuiet(r: Run, id: nat, a: Action)
    requires r.h.failed && id !in r.h.started && QuietAct(a) && Sound(r.w, r.h) && id < r.w.scopes
    ensures Untouched(r, Act(r, id, a))
    decreases a, 1
  {
    if a.Nested? && a.funcs != [] {
      var inner := Run(r.w.(scopes := r.w.scopes + 1), r.h, false);
      FailedHandleQuiet(inner, r.w.scopes, a.funcs[0].acts);
      assert Callbacks(inner, r.w.scopes, a.funcs) == Acts(inner, r.w.scopes, a.funcs[0].acts);
    }
  }

  lemma {:induction false} FailedHandleQuiet(r: Run, id: nat, actions: seq<Action>)
    requires r.h.failed && id !in r.h.started && Quiet(actions) && Sound(r.w, r.h) && id < r.w.scopes
    ensures Untouched(r, Acts(r, id, actions))
    decreases actions, 2
  {
    if actions != [] {
      assert actions[0] in actions;
      FailedActQuiet(r, id, actions[0]);
      FailedHandleQuiet(Act(r, id, actions[0]), id, actions[1..]);
    }
  }

  /** An operation on a handle that already carries an error leaves the database as it is, if its first
      callback is quiet; the built-in pipelines start with a callback that does nothing. */
  lemma FailedOperationWritesNothing(w: World, h: Handle, funcs: seq<Callback>)
    requires Sound(w, h) && h.failed && (funcs == [] || Quiet(funcs[0].acts))
    ensures Operation(w, h, funcs).w.durable == w.durable && Operation(w, h, funcs).w.txs == w.txs
    ensures Operation(w, h, funcs).h.failed
  {
    var r := Run(w.(scopes := w.scopes + 1), h, false);
    if funcs != [] {
      FailedHandleQuiet(r, w.scopes, funcs[0].acts);
    }
  }

  // ----- a run inside a transaction -----

  /** From `w` to `v` only writes were added, to transaction `t` if there is one and it is open. */
  predicate OnlyAppends(w: World, v: World, t: nat) {
    && v.durable == w.durable && |v.txs| == |w.txs| && v.scopes >= w.scopes
    && (forall k :: 0 <= k < |w.txs| && k != t ==> v.txs[k] == w.txs[k])
    && (t < |w.txs| ==>
          if w.txs[t].Open? then v.txs[t].Open? && w.txs[t].pending <= v.txs[t].pending else v.txs[t] == w.txs[t])
  }

  /** The handle is bound to transaction `t`, or to the nil transaction. */
  predicate Inside(w: World, h: Handle, t: nat) {
    Sound(w, h) && (h.conn == InTx(t) || (h.conn == NoTx && t >= |w.txs|))
  }

  /** A run's own scope makes no commit call. */
  predicate NoFinish(actions: seq<Action>) {
    forall a <- actions :: !a.Finish?
  }

  /** The step from `r` to `s` stayed inside `t`. */
  predicate StaysInside(r: Run, s: Run, t: nat) {
    OnlyAppends(r.w, s.w, t) && s.h == r.h.(failed := s.h.failed) && Inside(s.w, s.h, t)
  }

  /** Inside a transaction, a scope that did not begin it only appends to it; whatever it nests. */
  lemma {:induction false} ActInside(r: Run, id: nat, a: Action, t: nat)
    requires Inside(r.w, r.h, t) && id < r.w.scopes && (id !in r.h.started || !a.Finish?)
    ensures StaysInside(r, Act(r, id, a), t)
    decreases a, 1
  {
    if a.Nested? {
      CallbacksInside(Run(r.w.(scopes := r.w.scopes + 1), r.h, false), r.w.scopes, a.funcs, t);
    }
  }

  lemma {:induction false} ActsInside(r: Run, id: nat, actions: seq<Action>, t: nat)
    requires Inside(r.w, r.h, t) && id < r.w.scopes && (id !in r.h.started || NoFinish(actions))
    ensures StaysInside(r, Acts(r, id, actions), t)
    decreases actions, 2
  {
    if actions != [] {
      assert actions[0] in actions;
      ActInside(r, id, actions[0], t);
      ActsInside(Act(r, id, actions[0]), id, actions[1..], t);
    }
  }

  lemma {:induction false} CallbacksInside(r: Run, id: nat, funcs: seq<Callback>, t: nat)
    requires Inside(r.w, r.h, t) && id < r.w.scopes && (id !in r.h.started || forall f <- funcs :: NoFinish(f.acts))
    ensures StaysInside(r, Callbacks(r, id, funcs), t)
    decreases funcs, 3
  {
    if funcs != [] {
      assert funcs[0] in funcs;
      ActsInside(r, id, funcs[0].acts, t);
      var s := Acts(r, id, funcs[0].acts);
      if !s.skipLeft && !s.h.failed { CallbacksInside(s, id, funcs[1..], t); }
    }
  }

  /** Whatever operation is started on a handle inside a transaction, and whatever it nests: it neither
      commits nor rolls back nor begins one, and nothing becomes durable. */
  lemma OperationInside(w: World, h: Handle, funcs: seq<Callback>, t: nat)
    requires Inside(w, h, t)
    ensures
      var s := Operation(w, h, funcs);
      OnlyAppends(w, s.w, t) && s.h == h.(failed := s.h.failed) && Inside(s.w, h, t)
  {
    CallbacksInside(Run(w.(scopes := w.scopes + 1), h, false), w.scopes, funcs, t);
  }

  // ----- the scope that begins the transaction -----

  /** Callbacks that come before the begin callback: they touch neither the database nor the run. */
  predicate Idle(funcs: seq<Callback>) {
    forall f <- funcs :: f.acts == []
  }

  lemma {:induction false} IdleRuns(r: Run, id: nat, pre: seq<Callback>, rest: seq<Callback>)
    requires Idle(pre) && !r.skipLeft && !r.h.failed
    ensures Callbacks(r, id, pre + rest) == Callbacks(r, id, rest)
    decreases |pre|
  {
    if pre == [] {
      assert pre + rest == rest;
    } else {
      assert pre[0] in pre && (pre + rest)[1..] == pre[1..] + rest;
      assert Idle(pre[1..]);
      IdleRuns(r, id, pre[1..], rest);
    }
  }

  /** Running a list is running its first part and, unless that stopped, the rest. */
  lemma {:induction false} CallbacksSplit(r: Run, id: nat, a: seq<Callback>, b: seq<Callback>)
    requires a != [] || (!r.skipLeft && !r.h.failed)
    ensures
      var s := Callbacks(r, id, a);
      Callbacks(r, id, a + b) == if s.skipLeft || s.h.failed then s else Callbacks(s, id, b)
    decreases |a|
  {
    if a == [] {
      assert a + b == b;
    } else {
      assert (a + b)[0] == a[0] && (a + b)[1..] == a[1..] + b;
      var s := Acts(r, id, a[0].acts);
      if !s.skipLeft && !s.h.failed { CallbacksSplit(s, id, a[1..], b); }
    }
  }

  /** The pipeline of a save or a delete: start callbacks, the begin callback, the work with all the
      nested pipelines it starts, and the commit callback. */
  function SavePipeline(pre: seq<Callback>, begun: bool, work: seq<Callback>, committed: bool): seq<Callback> {
    pre + ([Do([Begin(begun)])] + (work + [Do([Finish(committed)])]))
  }

  /** The scope right after the begin callback. */
  function Begun(w: World, h: Handle): Run {
    Run(World(w.durable, w.txs + [Open([])], w.scopes + 1),
        h.(conn := InTx(|w.txs|), started := h.started + {w.scopes}), false)
  }

  lemma SavePipelineRuns(w: World, h: Handle, pre: seq<Callback>, work: seq<Callback>, committed: bool)
    requires Sound(w, h) && h.conn == Pool && !h.failed && !h.scopeTxOff && Idle(pre)
    ensures Operation(w, h, SavePipeline(pre, true, work, committed)) ==
      Callbacks(Begun(w, h), w.scopes, work + [Do([Finish(committed)])])
  {
    var r := Run(w.(scopes := w.scopes + 1), h, false);
    var rest := work + [Do([Finish(committed)])];
    IdleRuns(r, w.scopes, pre, [Do([Begin(true)])] + rest);
    var funcs := [Do([Begin(true)])] + rest;
    assert funcs[0] == Do([Begin(true)]) && funcs[1..] == rest;
    OneAct(r, w.scopes, Begin(true));
    assert Acts(r, w.scopes, funcs[0].acts) == Begun(w, h);
  }

  lemma OneAct(r: Run, id: nat, a: Action)
    ensures Acts(r, id, [a]) == Act(r, id, a)
  {
    assert [a][1..] == [];
    assert Acts(Act(r, id, a), id, []) == Act(r, id, a);
  }

  /** Atomicity. With the transaction begun, all writes of the work and of everything nested in it are
      pending in one transaction. They become durable together, and exactly when the work recorded no
      error, skipped nothing and the commit succeeded. Otherwise nothing is durable; and after an error or
      a skip the transaction is left open, it is not rolled back. */
  lemma SaveIsAtomic(w: World, h: Handle, pre: seq<Callback>, work: seq<Callback>, committed: bool)
    requires Sound(w, h) && h.conn == Pool && !h.failed && !h.scopeTxOff && Idle(pre)
    requires forall f <- work :: NoFinish(f.acts)
    ensures
      var done := Callbacks(Begun(w, h), w.scopes, work);
      var end := Operation(w, h, SavePipeline(pre, true, work, committed));
      var t := |w.txs|;
      && |done.w.txs| == t + 1 && done.w.txs[t].Open? && done.w.txs[..t] == w.txs && done.w.durable == w.durable
      && (done.h.failed || done.skipLeft ==>
            end == done && end.h.conn == InTx(t))
      && (!done.h.failed && !done.skipLeft && committed ==>
            end.w == World(w.durable + done.w.txs[t].pending, w.txs + [Committed], done.w.scopes) &&
            end.h.conn == Pool && !end.h.failed)
      && (!done.h.failed && !done.skipLeft && !committed ==>
            end.w == World(w.durable, w.txs + [RolledBack], done.w.scopes) && end.h.conn == Pool && end.h.failed)
  {
    var t, id := |w.txs|, w.scopes;
    var r := Begun(w, h);
    SavePipelineRuns(w, h, pre, work, committed);
    CallbacksInside(r, id, work, t);
    var done := Callbacks(r, id, work);
    assert done.w.txs[..t] == w.txs;
    CallbacksSplit(r, id, work, [Do([Finish(committed)])]);
    if !done.h.failed && !done.skipLeft {
      OneAct(done, id, Finish(committed));
      var s := ScopeFinish(done, id, committed);
      assert [Do([Finish(committed)])][1..] == [];
      assert Callbacks(done, id, [Do([Finish(committed)])]) == s;
      assert s.w.txs == w.txs + [if committed then Committed else RolledBack];
    }
  }

  /** An operation that reports an error has made nothing durable, whatever its work does and nests and
      whatever the driver answers. */
  ghost predicate Atomic(w: World, h: Handle, pre: seq<Callback>, begun: bool) {
    forall work: seq<Callback>, committed: bool :: (forall f <- work :: NoFinish(f.acts)) ==>
      var end := Operation(w, h, SavePipeline(pre, begun, work, committed));
      end.h.failed ==> end.w.durable == w.durable
  }

  /** A statement that succeeds, and an error after it. */
  const WriteThenFail: seq<Callback> := [Do([Exec(7, true)]), Do([Fail])]

  /** Without a transaction the write stays. */
  lemma UnbegunKeepsWrite(w: World, h: Handle, pre: seq<Callback>, begun: bool)
    requires h.conn == Pool && !h.failed && Idle(pre) && (!begun || h.scopeTxOff)
    ensures var end := Operation(w, h, SavePipeline(pre, begun, WriteThenFail, true));
            end.h.failed && end.w.durable == w.durable + [7]
  {
    var id := w.scopes;
    var r := Run(w.(scopes := id + 1), h, false);
    var funcs := WriteThenFail + [Do([Finish(true)])];
    IdleRuns(r, id, pre, [Do([Begin(begun)])] + funcs);
    var all := [Do([Begin(begun)])] + funcs;
    assert all[0] == Do([Begin(begun)]) && all[1..] == funcs;
    OneAct(r, id, Begin(begun));
    assert Callbacks(r, id, all) == Callbacks(r, id, funcs);
    assert funcs[0] == Do([Exec(7, true)]) && funcs[1..][0] == Do([Fail]);
    OneAct(r, id, Exec(7, true));
    var s := Write(r, 7, true);
    OneAct(s, id, Fail);
    assert Callbacks(s, id, funcs[1..]) == AddError(s);
  }

  /** A save or delete on a pool handle is atomic exactly when the driver grants the BEGIN and the handle has
      scoped transactions enabled: a BEGIN that is refused is passed over, and the work runs without one. */
  lemma AtomicExactly(w: World, h: Handle, pre: seq<Callback>, begun: bool)
    requires Sound(w, h) && h.conn == Pool && !h.failed && Idle(pre)
    ensures Atomic(w, h, pre, begun) <==> begun && !h.scopeTxOff
  {
    if begun && !h.scopeTxOff {
      forall work: seq<Callback>, committed: bool | forall f <- work :: NoFinish(f.acts)
        ensures var end := Operation(w, h, SavePipeline(pre, begun, work, committed));
                end.h.failed ==> end.w.durable == w.durable
      {
        SaveIsAtomic(w, h, pre, work, committed);
      }
    } else {
      UnbegunKeepsWrite(w, h, pre, begun);
      assert |w.durable + [7]| > |w.durable|;
      assert forall f <- WriteThenFail :: NoFinish(f.acts);
    }
  }

  // ----- an update and, if it hit no row, a create -----

  /** `DB.Save` on a record with a primary key. `affected` tells whether the UPDATE hit a row. */
  function SaveOrCreate(w: World, h: Handle, update: seq<Callback>, affected: bool, create: seq<Callback>): Run {
    var first := Operation(w, h, update);
    if first.h.failed || affected then first else Operation(first.w, h, create)
  }

  lemma SoundAfter(w: World, h: Handle, pre: seq<Callback>, work: seq<Callback>, committed: bool)
    requires Sound(w, h) && h.conn == Pool && !h.failed && !h.scopeTxOff && Idle(pre)
    requires forall f <- work :: NoFinish(f.acts)
    ensures Sound(Operation(w, h, SavePipeline(pre, true, work, committed)).w, h)
  {
    SavePipelineRuns(w, h, pre, work, committed);
    var r := Begun(w, h);
    CallbacksInside(r, w.scopes, work, |w.txs|);
    var done := Callbacks(r, w.scopes, work);
    CallbacksSplit(r, w.scopes, work, [Do([Finish(committed)])]);
    if !done.h.failed && !done.skipLeft {
      OneAct(done, w.scopes, Finish(committed));
      assert [Do([Finish(committed)])][1..] == [];
    }
  }

  /** Each of the two is atomic for itself: what a failing save leaves is nothing, or the whole update. */
  lemma SaveKeepsHalves(w: World, h: Handle, pre: seq<Callback>, work: seq<Callback>, committed: bool, affected: bool,
                        pre2: seq<Callback>, work2: seq<Callback>, committed2: bool)
    requires Sound(w, h) && h.conn == Pool && !h.failed && !h.scopeTxOff && Idle(pre) && Idle(pre2)
    requires (forall f <- work :: NoFinish(f.acts)) && forall f <- work2 :: NoFinish(f.acts)
    ensures var first := Operation(w, h, SavePipeline(pre, true, work, committed));
            var create := SavePipeline(pre2, true, work2, committed2);
            var end := SaveOrCreate(w, h, SavePipeline(pre, true, work, committed), affected, create);
            end.h.failed ==> end.w.durable == if first.h.failed || affected then w.durable else first.w.durable
  {
    SaveIsAtomic(w, h, pre, work, committed);
    SoundAfter(w, h, pre, work, committed);
    SaveIsAtomic(Operation(w, h, SavePipeline(pre, true, work, committed)).w, h, pre2, work2, committed2);
  }

  ghost predicate PairAtomic(w: World, h: Handle, pre: seq<Callback>, begun: bool, affected: bool, pre2: seq<Callback>, begun2: bool) {
    forall work: seq<Callback>, committed: bool, work2: seq<Callback>, committed2: bool ::
      (forall f <- work :: NoFinish(f.acts)) && (forall f <- work2 :: NoFinish(f.acts)) ==>
      var create := SavePipeline(pre2, begun2, work2, committed2);
      var end := SaveOrCreate(w, h, SavePipeline(pre, begun, work, committed), affected, create);
      end.h.failed ==> end.w.durable == w.durable
  }

  /** One statement that succeeds is durable after the pipeline, with a transaction or without. */
  lemma OneWriteKept(w: World, h: Handle, pre: seq<Callback>, begun: bool)
    requires Sound(w, h) && h.conn == Pool && !h.failed && Idle(pre)
    ensures var end := Operation(w, h, SavePipeline(pre, begun, [Do([Exec(7, true)])], true));
            !end.h.failed && end.w.durable == w.durable + [7]
  {
    var id, work := w.scopes, [Do([Exec(7, true)])];
    var r := Run(w.(scopes := id + 1), h, false);
    var rest := work + [Do([Finish(true)])];
    var all := [Do([Begin(begun)])] + rest;
    IdleRuns(r, id, pre, all);
    assert all[0] == Do([Begin(begun)]) && all[1..] == rest && rest[0] == work[0] && rest[1..] == [Do([Finish(true)])];
    var b := ScopeBegin(r, id, begun);
    OneAct(r, id, Begin(begun));
    OneAct(b, id, Exec(7, true));
    var s := Write(b, 7, true);
    OneAct(s, id, Finish(true));
    assert [Do([Finish(true)])][1..] == [];
    assert Callbacks(r, id, all) == Callbacks(b, id, rest) == Callbacks(s, id, rest[1..]) == ScopeFinish(s, id, true);
    assert begun && !h.scopeTxOff ==> s.w.txs[|w.txs|] == Open([] + [7]) && [] + [7] == [7];
  }

  /** A pipeline whose work only fails changes nothing durable. */
  lemma FailingWork(w: World, h: Handle, pre: seq<Callback>, begun: bool)
    requires h.conn == Pool && !h.failed && Idle(pre)
    ensures var end := Operation(w, h, SavePipeline(pre, begun, [Do([Fail])], true));
            end.h.failed && end.w.durable == w.durable
  {
    var id, work := w.scopes, [Do([Fail])];
    var r := Run(w.(scopes := id + 1), h, false);
    var rest := work + [Do([Finish(true)])];
    var all := [Do([Begin(begun)])] + rest;
    IdleRuns(r, id, pre, all);
    assert all[0] == Do([Begin(begun)]) && all[1..] == rest && rest[0] == work[0];
    var b := ScopeBegin(r, id, begun);
    OneAct(r, id, Begin(begun));
    OneAct(b, id, Fail);
    assert Callbacks(r, id, all) == Callbacks(b, id, rest) == AddError(b);
  }

  /** A save of a record with a primary key is atomic exactly when its UPDATE hits a row and is atomic itself:
      otherwise the create is a transaction of its own, and what the update saved besides stays. */
  lemma PairAtomicExactly(w: World, h: Handle, pre: seq<Callback>, begun: bool, affected: bool, pre2: seq<Callback>, begun2: bool)
    requires Sound(w, h) && h.conn == Pool && !h.failed && Idle(pre) && Idle(pre2)
    ensures PairAtomic(w, h, pre, begun, affected, pre2, begun2) <==> affected && begun && !h.scopeTxOff
  {
    hide Operation, SavePipeline, Idle, NoFinish, Sound;
    var write, fail := [Do([Exec(7, true)])], [Do([Fail])];
    NoneFinish();
    assert |w.durable + [7]| > |w.durable|;
    if !affected {
      OneWriteKept(w, h, pre, begun);
      FailingWork(Operation(w, h, SavePipeline(pre, begun, write, true)).w, h, pre2, begun2);
    } else {
      AtomicExactly(w, h, pre, begun);
      if !begun || h.scopeTxOff {
        UnbegunKeepsWrite(w, h, pre, begun);
        var first := SavePipeline(pre, begun, WriteThenFail, true);
        assert SaveOrCreate(w, h, first, affected, SavePipeline(pre2, begun2, fail, true)) == Operation(w, h, first);
      }
    }
  }

  lemma NoneFinish()
    ensures forall f <- [Do([Exec(7, true)])] :: NoFinish(f.acts)
    ensures forall f <- [Do([Fail])] :: NoFinish(f.acts)
    ensures forall f <- WriteThenFail :: NoFinish(f.acts)
  {
  }
}
