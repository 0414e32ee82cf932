/** What a save leaves and whether it fails, told from the work alone: from the driver's answers, the errors
    and the nested operations, without a database, a transaction or a handle. */
module PipelineOutcome {
  import opened Pipeline

  // ----- which work fails -----

  /** An action records an error on its scope: a refused statement, an error of its own, or a nested
      operation that fails and whose error is reported. */
  predicate Fails(a: Action)
    decreases a
  {
    match a
    case Exec(_, ok) => !ok
    case Insert(_, ok) => !ok
    case Fail => true
    case Nested(funcs, reported) => reported && RunFails(funcs)
    case _ => false
  }

  predicate ActsFail(actions: seq<Action>)
    decreases actions
  {
    exists a <- actions :: Fails(a)
  }

  predicate Skips(actions: seq<Action>) {
    exists a <- actions :: a.Skip?
  }

  /** Some callback fails before one that skips the rest. */
  predicate RunFails(funcs: seq<Callback>)
    decreases funcs
  {
    funcs != [] && (ActsFail(funcs[0].acts) || (!Skips(funcs[0].acts) && RunFails(funcs[1..])))
  }

  /** Some callback skips the rest, none before it fails. */
  predicate RunSkips(funcs: seq<Callback>, failed: bool)
    decreases funcs
  {
    funcs != [] && (Skips(funcs[0].acts) || (!failed && !ActsFail(funcs[0].acts) && RunSkips(funcs[1..], false)))
  }

  // ----- what the work writes -----

  /** The writes of an action, in order; under a recorded error an INSERT is still sent, other statements are
      not. */
  function Written(a: Action, failed: bool): seq<int>
    decreases a
  {
    match a
    case Exec(write, ok) => if ok && !failed then [write] else []
    case Insert(write, ok) => if ok then [write] else []
    case Nested(funcs, _) => WrittenRun(funcs, failed)
    case _ => []
  }

  function WrittenActs(actions: seq<Action>, failed: bool): seq<int>
    decreases actions
  {
    if actions == [] then []
    else Written(actions[0], failed) + WrittenActs(actions[1..], failed || Fails(actions[0]))
  }

  function WrittenRun(funcs: seq<Callback>, failed: bool): seq<int>
    decreases funcs
  {
    if funcs == [] then []
    else
      var first := funcs[0].acts;
      WrittenActs(first, failed) +
      if failed || ActsFail(first) || Skips(first) then [] else WrittenRun(funcs[1..], false)
  }

  // ----- runs that begin no transaction -----

  /** An open transaction, or the pool with scoped transactions disabled: a Begin does nothing here. */
  predicate Steady(w: World, h: Handle) {
    && Sound(w, h)
    && match h.conn
       case InTx(t) => t < |w.txs| && w.txs[t].Open?
       case Pool => h.scopeTxOff
       case NoTx => false
  }

  /** What a successful statement adds to. */
  function Sink(w: World, h: Handle): seq<int>
    requires Steady(w, h)
  {
    match h.conn case InTx(t) => w.txs[t].pending case _ => w.durable
  }

  /** From `r` to `s` exactly `writes` were added, and the handle has a new error if `failed`. */
  predicate Adds(r: Run, s: Run, writes: seq<int>, failed: bool)
    requires Steady(r.w, r.h)
  {
    && Steady(s.w, s.h) && Sink(s.w, s.h) == Sink(r.w, r.h) + writes
    && s.h == r.h.(failed := r.h.failed || failed) && s.w.scopes >= r.w.scopes
  }

  lemma {:induction false} ActOutcome(r: Run, id: nat, a: Action)
    requires Steady(r.w, r.h) && id < r.w.scopes && (id !in r.h.started || !a.Finish?)
    ensures var s := Act(r, id, a);
            Adds(r, s, Written(a, r.h.failed), Fails(a)) && s.skipLeft == (r.skipLeft || a.Skip?)
    decreases a, 1
  {
    if a.Nested? {
      RunOutcome(Run(r.w.(scopes := r.w.scopes + 1), r.h, false), r.w.scopes, a.funcs);
    }
  }

  lemma {:induction false} ActsOutcome(r: Run, id: nat, actions: seq<Action>)
    requires Steady(r.w, r.h) && id < r.w.scopes && (id !in r.h.started || NoFinish(actions))
    ensures var s := Acts(r, id, actions);
            Adds(r, s, WrittenActs(actions, r.h.failed), ActsFail(actions)) && s.skipLeft == (r.skipLeft || Skips(actions))
    decreases actions, 2
  {
    if actions != [] {
      var a, rest := actions[0], actions[1..];
      assert a in actions && actions == [a] + rest;
      var s := Act(r, id, a);
      ActOutcome(r, id, a);
      ActsOutcome(s, id, rest);
      HeadFails(actions);
      var p, q, x := Sink(r.w, r.h), Written(a, r.h.failed), WrittenActs(rest, r.h.failed || Fails(a));
      assert p + q + x == p + (q + x);
    }
  }

  lemma HeadFails(actions: seq<Action>)
    requires actions != []
    ensures ActsFail(actions) == (Fails(actions[0]) || ActsFail(actions[1..]))
  {
    hide Fails;
    assert actions == [actions[0]] + actions[1..];
  }

  lemma {:induction false} RunOutcome(r: Run, id: nat, funcs: seq<Callback>)
    requires Steady(r.w, r.h) && id < r.w.scopes && !r.skipLeft
    requires id !in r.h.started || forall f <- funcs :: NoFinish(f.acts)
    ensures var s := Callbacks(r, id, funcs);
            && Adds(r, s, WrittenRun(funcs, r.h.failed), s.h.failed)
            && s.h.failed == (r.h.failed || RunFails(funcs)) && s.skipLeft == RunSkips(funcs, r.h.failed)
    decreases funcs, 3
  {
    if funcs != [] {
      var first, rest := funcs[0].acts, funcs[1..];
      assert funcs[0] in funcs;
      var s := Acts(r, id, first);
      ActsOutcome(r, id, first);
      hide ActsFail, Skips, Acts, Sink;
      if !s.skipLeft && !s.h.failed {
        RunOutcome(s, id, rest);
        var p, q, x := Sink(r.w, r.h), WrittenActs(first, r.h.failed), WrittenRun(rest, false);
        assert p + q + x == p + (q + x);
      } else {
        assert WrittenActs(first, r.h.failed) + [] == WrittenActs(first, r.h.failed);
      }
    }
  }

  lemma OperationOutcome(w: World, h: Handle, funcs: seq<Callback>)
    requires Steady(w, h)
    ensures var end := Operation(w, h, funcs);
            && Steady(end.w, h) && Sink(end.w, h) == Sink(w, h) + WrittenRun(funcs, h.failed)
            && (end.h.failed <==> h.failed || RunFails(funcs))
  {
    RunOutcome(Run(w.(scopes := w.scopes + 1), h, false), w.scopes, funcs);
  }

  /** With scoped transactions disabled every write is durable at once, whether the operation fails or not. */
  lemma UntransactedOutcome(w: World, h: Handle, funcs: seq<Callback>)
    requires Sound(w, h) && h.conn == Pool && h.scopeTxOff
    ensures var end := Operation(w, h, funcs);
            && end.w.durable == w.durable + WrittenRun(funcs, h.failed)
            && (end.h.failed <==> h.failed || RunFails(funcs))
  {
    OperationOutcome(w, h, funcs);
  }

  // ----- the whole save -----

  /** The work gets to the COMMIT. */
  predicate Through(work: seq<Callback>) {
    !RunFails(work) && !RunSkips(work, false)
  }

  predicate SaveFails(work: seq<Callback>, committed: bool) {
    RunFails(work) || (Through(work) && !committed)
  }

  /** All writes of the work, with everything nested in it, or none. */
  function SaveKeeps(work: seq<Callback>, committed: bool): seq<int> {
    if Through(work) && committed then WrittenRun(work, false) else []
  }

  /** With the BEGIN granted, a save or delete fails exactly when its work does, or gets to the COMMIT and that
      fails; and the writes that become durable are all writes of the work or none. */
  lemma SaveOutcome(w: World, h: Handle, pre: seq<Callback>, work: seq<Callback>, committed: bool)
    requires Sound(w, h) && h.conn == Pool && !h.failed && !h.scopeTxOff && Idle(pre)
    requires forall f <- work :: NoFinish(f.acts)
    ensures var end := Operation(w, h, SavePipeline(pre, true, work, committed));
            && (end.h.failed <==> SaveFails(work, committed))
            && end.w.durable == w.durable + SaveKeeps(work, committed)
  {
    var r := Begun(w, h);
    SaveIsAtomic(w, h, pre, work, committed);
    RunOutcome(r, w.scopes, work);
    assert [] + WrittenRun(work, false) == WrittenRun(work, false);
  }

  /** `DB.Save` on a record with a primary key: the update and, if it succeeds and hits no row, the create,
      each with all of its writes or none. */
  lemma SaveOrCreateOutcome(w: World, h: Handle, pre: seq<Callback>, work: seq<Callback>, committed: bool, affected: bool,
                            pre2: seq<Callback>, work2: seq<Callback>, committed2: bool)
    requires Sound(w, h) && h.conn == Pool && !h.failed && !h.scopeTxOff && Idle(pre) && Idle(pre2)
    requires (forall f <- work :: NoFinish(f.acts)) && forall f <- work2 :: NoFinish(f.acts)
    ensures var end := SaveOrCreate(w, h, SavePipeline(pre, true, work, committed), affected,
                                    SavePipeline(pre2, true, work2, committed2));
            var again := !SaveFails(work, committed) && !affected;
            && (end.h.failed <==> SaveFails(work, committed) || (again && SaveFails(work2, committed2)))
            && end.w.durable == w.durable + SaveKeeps(work, committed) + if again then SaveKeeps(work2, committed2) else []
  {
    hide Operation, SavePipeline, Idle, NoFinish, Sound, SaveKeeps, SaveFails;
    SaveOutcome(w, h, pre, work, committed);
    SoundAfter(w, h, pre, work, committed);
    SaveOutcome(Operation(w, h, SavePipeline(pre, true, work, committed)).w, h, pre2, work2, committed2);
  }

  /** `CommitOrRollback` in the scope that began the transaction, wherever it is called: a recorded error rolls
      back, and stays; without one the COMMIT decides. Either way the handle leaves the transaction. */
  lemma FinishDecides(r: Run, id: nat, t: nat, ok: bool)
    requires id in r.h.started && r.h.conn == InTx(t) && t < |r.w.txs| && r.w.txs[t].Open?
    ensures var s := Act(r, id, Finish(ok));
            var kept := ok && !r.h.failed;
            && s.w == World(r.w.durable + (if kept then r.w.txs[t].pending else []),
                            r.w.txs[t := if kept then Committed else RolledBack], r.w.scopes)
            && s.h == r.h.(conn := Pool, failed := !kept) && s.skipLeft == r.skipLeft
  {
    assert r.w.durable + [] == r.w.durable;
  }

  // ----- a nested operation -----

  lemma OneNested(r: Run, id: nat, funcs: seq<Callback>, reported: bool)
    ensures var inner := Operation(r.w, r.h, funcs);
            Acts(r, id, [Nested(funcs, reported)]) == r.(w := inner.w, h := r.h.(failed := r.h.failed || (reported && inner.h.failed)))
  {
    OneAct(r, id, Nested(funcs, reported));
  }

  /** A nested operation that fails and is reported ends the operation around it, with nothing durable; one
      that succeeds, or whose error is dropped, leaves the scope around it as it was, apart from its writes,
      and the rest of the work runs. So the operation fails exactly if the nested one fails and is reported, or
      the rest fails. */
  lemma NestedDecides(w: World, h: Handle, pre: seq<Callback>, a: seq<Callback>, funcs: seq<Callback>, reported: bool,
                      b: seq<Callback>, committed: bool)
    requires Sound(w, h) && h.conn == Pool && !h.failed && !h.scopeTxOff && Idle(pre)
    requires (forall f <- a :: NoFinish(f.acts)) && forall f <- b :: NoFinish(f.acts)
    requires var s := Callbacks(Begun(w, h), w.scopes, a); !s.h.failed && !s.skipLeft
    ensures
      var s := Callbacks(Begun(w, h), w.scopes, a);
      var inner := Operation(s.w, s.h, funcs);
      var end := Operation(w, h, SavePipeline(pre, true, a + [Do([Nested(funcs, reported)])] + b, committed));
      var rest := Callbacks(s.(w := inner.w), w.scopes, b + [Do([Finish(committed)])]);
      && (reported && inner.h.failed ==> end.h.failed && end.w.durable == w.durable)
      && (!reported || !inner.h.failed ==> end == rest)
      && (end.h.failed <==> (reported && inner.h.failed) || rest.h.failed)
  {
    var id, f := w.scopes, Do([Nested(funcs, reported)]);
    var work := a + [f] + b;
    var finish := [Do([Finish(committed)])];
    SavePipelineRuns(w, h, pre, work, committed);
    assert work + finish == a + ([f] + (b + finish));
    CallbacksSplit(Begun(w, h), id, a, [f] + (b + finish));
    var s := Callbacks(Begun(w, h), id, a);
    assert ([f] + (b + finish))[0] == f && ([f] + (b + finish))[1..] == b + finish;
    OneNested(s, id, funcs, reported);
    CallbacksInside(Begun(w, h), id, a, |w.txs|);
    OperationInside(s.w, s.h, funcs, |w.txs|);
    var inner := Operation(s.w, s.h, funcs);
    if reported && inner.h.failed {
      assert Operation(w, h, SavePipeline(pre, true, work, committed)) == Acts(s, id, f.acts);
    }
  }
}
