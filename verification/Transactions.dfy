/** `DB.Begin`, `DB.Commit`, `DB.Rollback` and `DB.Transaction` of main.go over the pipelines. */
module Transactions {
  import opened Lists
  import opened Pipeline
  import opened PipelineOutcome

  datatype Outcome = Nil | Err | Panic

  /** What the function given to `Transaction` does with its handle: operations, and further calls of
      `Transaction`. `begun` and `committed` are the driver's answers. */
  datatype Op =
    | Operate(funcs: seq<Callback>)
    | Inner(body: seq<Op>, outcome: Outcome, begun: bool, committed: bool)

  function DbBegin(w: World, h: Handle, ok: bool): (World, Handle) {
    if h.conn.Pool? then
      if ok then (w.(txs := w.txs + [Open([])]), h.(conn := InTx(|w.txs|)))
      else (w, h.(conn := NoTx, failed := true))
    else (w, h.(failed := true))
  }

  predicate IsOpen(w: World, t: nat) {
    t < |w.txs| && w.txs[t].Open?
  }

  /** `ok` is the driver's answer to the COMMIT, or to the ROLLBACK where commits are disabled. */
  function DbCommit(w: World, h: Handle, ok: bool): (World, bool) {
    if !h.conn.InTx? then (w, false)
    else if h.commitOff then (RollbackTx(w, h.conn.id), ok && IsOpen(w, h.conn.id) && !h.failed)
    else
      var (v, done) := CommitTx(w, h.conn.id, ok);
      (v, done && !h.failed)
  }

  function DbRollback(w: World, h: Handle): World {
    if h.conn.InTx? then RollbackTx(w, h.conn.id) else w
  }

  /** The handle `Transaction` passes to its function. */
  function TxHandle(w: World, h: Handle, begun: bool): (World, Handle) {
    var (v, c) := DbBegin(w, h, begun);
    (v, c.(scopeTxOff := true))
  }

  /** `DB.Transaction`: the database afterwards, and whether nil is returned. */
  function Transaction(w: World, h: Handle, body: seq<Op>, outcome: Outcome, begun: bool, committed: bool): (World, bool)
    decreases body, 1
  {
    var (v, c) := TxHandle(w, h, begun);
    Settle(Ops(v, c, body), c, outcome, committed)
  }

  /** The deferred function. */
  function Settle(w: World, c: Handle, outcome: Outcome, committed: bool): (World, bool) {
    if outcome == Nil then DbCommit(w, c, committed) else (DbRollback(w, c), false)
  }

  /** Every operation gets a handle derived from `c`; `c` itself records none of their errors. */
  function Ops(w: World, c: Handle, body: seq<Op>): World
    decreases body, 0
  {
    if body == [] then w else Ops(OpStep(w, c, body[0]), c, body[1..])
  }

  function OpStep(w: World, c: Handle, op: Op): World
    decreases op, 0
  {
    match op
    case Operate(funcs) => Operation(w, c, funcs).w
    case Inner(body, outcome, begun, committed) => Transaction(w, c, body, outcome, begun, committed).0
  }

  // ----- what is sent -----

  /** The writes of the operations that run until the first inner call returns, in order. In an inner call the
      BEGIN is refused, so its operations start on a handle in error. */
  function Sent(body: seq<Op>, failed: bool): seq<int>
    decreases body
  {
    if body == [] then []
    else match body[0]
      case Operate(funcs) => WrittenRun(funcs, failed) + Sent(body[1..], failed)
      case Inner(inner, _, _, _) => Sent(inner, true)
  }

  // ----- no Transaction within the Transaction -----

  predicate Flat(body: seq<Op>) {
    forall op <- body :: op.Operate?
  }

  lemma {:induction false} FlatOpsInside(w: World, c: Handle, body: seq<Op>, t: nat)
    requires Inside(w, c, t) && Flat(body)
    ensures OnlyAppends(w, Ops(w, c, body), t) && Inside(Ops(w, c, body), c, t)
    decreases body
  {
    if body != [] {
      assert body[0] in body;
      OperationInside(w, c, body[0].funcs, t);
      FlatOpsInside(OpStep(w, c, body[0]), c, body[1..], t);
    }
  }

  lemma {:induction false} FlatUndecided(w: World, c: Handle, body: seq<Op>)
    requires c.conn.InTx? && Flat(body)
    ensures Verdict(w, c, body).None? && Decision(body, c.commitOff).None?
    decreases body
  {
    if body != [] {
      assert body[0] in body;
      FlatUndecided(OpStep(w, c, body[0]), c, body[1..]);
    }
  }

  /** `Transaction` makes the writes of its function durable, all of them, exactly when the function
      returns nil without panicking, the transaction could be begun and committed and commits are not
      disabled; otherwise none. The transaction is finished in any case, whatever operations and nested
      pipelines ran in it, and other transactions are not touched. */
  lemma TransactionAllOrNothing(w: World, h: Handle, body: seq<Op>, outcome: Outcome, begun: bool, committed: bool)
    requires h.conn.Pool? && Sound(w, h) && Flat(body)
    ensures
      var (v, ok) := Transaction(w, h, body, outcome, begun, committed);
      var kept := outcome == Nil && begun && committed && !h.commitOff;
      && v.durable == w.durable + (if kept then Sent(body, h.failed) else [])
      && v.txs == w.txs + (if begun then [if kept then Committed else RolledBack] else [])
      && (ok <==> outcome == Nil && begun && committed && !h.failed)
  {
    var t := |w.txs|;
    var (v, c) := TxHandle(w, h, begun);
    FlatOpsInside(v, c, body, t);
    var end := Ops(v, c, body);
    if begun {
      FlatUndecided(v, c, body);
      OpsSend(v, c, body, t);
      assert [] + Sent(body, h.failed) == Sent(body, h.failed);
    }
    assert end.txs[..t] == w.txs;
    var after := Settle(end, c, outcome, committed).0;
    if begun {
      assert end.txs == w.txs + [end.txs[t]] && end.txs[t].Open?;
      assert end.txs[t := Committed] == w.txs + [Committed] && end.txs[t := RolledBack] == w.txs + [RolledBack];
    } else {
      assert end.txs == w.txs;
    }
  }

  // ----- a Transaction within the Transaction -----

  /** What decides the outer transaction while its function still runs: the first inner `Transaction` to
      return, whether it commits, and the writes pending at that moment. */
  function Verdict(w: World, c: Handle, body: seq<Op>): Option<(bool, seq<int>)>
    requires c.conn.InTx?
    decreases body
  {
    if body == [] then None
    else
      var v := OpVerdict(w, c, body[0]);
      if v.Some? then v else Verdict(OpStep(w, c, body[0]), c, body[1..])
  }

  function OpVerdict(w: World, c: Handle, op: Op): Option<(bool, seq<int>)>
    requires c.conn.InTx?
    decreases op
  {
    match op
    case Operate(_) => None
    case Inner(body, outcome, begun, committed) =>
      var (v, d) := TxHandle(w, c, begun);
      var inner := Verdict(v, d, body);
      if inner.Some? then inner else Some((outcome == Nil && committed && !c.commitOff, PendingOf(Ops(v, d, body), c.conn.id)))
  }

  function PendingOf(w: World, t: nat): seq<int> {
    if t < |w.txs| && w.txs[t].Open? then w.txs[t].pending else []
  }

  /** The world after the decision, relative to the world `w` in which `t` was open. */
  predicate Decided(w: World, v: World, t: nat, verdict: (bool, seq<int>)) {
    && t < |w.txs| && |v.txs| == |w.txs| && v.scopes >= w.scopes
    && v.durable == w.durable + (if verdict.0 then verdict.1 else [])
    && v.txs == w.txs[t := if verdict.0 then Committed else RolledBack]
  }

  lemma {:induction false} FinishedOps(w: World, c: Handle, body: seq<Op>, t: nat)
    requires Inside(w, c, t) && c.conn == InTx(t) && t < |w.txs| && !w.txs[t].Open?
    ensures
      var v := Ops(w, c, body);
      v.durable == w.durable && v.txs == w.txs && v.scopes >= w.scopes && Inside(v, c, t)
    decreases body, 0
  {
    if body != [] {
      FinishedOp(w, c, body[0], t);
      FinishedOps(OpStep(w, c, body[0]), c, body[1..], t);
    }
  }

  lemma {:induction false} FinishedOp(w: World, c: Handle, op: Op, t: nat)
    requires Inside(w, c, t) && c.conn == InTx(t) && t < |w.txs| && !w.txs[t].Open?
    ensures
      var v := OpStep(w, c, op);
      v.durable == w.durable && v.txs == w.txs && v.scopes >= w.scopes && Inside(v, c, t)
    decreases op, 0
  {
    match op
    case Operate(funcs) => OperationInside(w, c, funcs, t);
    case Inner(body, outcome, begun, committed) =>
      var (v, d) := TxHandle(w, c, begun);
      FinishedOps(v, d, body, t);
  }

  /** While the transaction is open: either no inner call has returned and the writes are pending, or the
      first one to return has decided it for good. */
  lemma {:induction false} OpsDecide(w: World, c: Handle, body: seq<Op>, t: nat)
    requires Inside(w, c, t) && c.conn == InTx(t) && t < |w.txs| && w.txs[t].Open?
    ensures
      var v := Ops(w, c, body);
      var d := Verdict(w, c, body);
      Inside(v, c, t) && if d.Some? then Decided(w, v, t, d.value) else OnlyAppends(w, v, t)
    decreases body, 0
  {
    if body != [] {
      OpDecides(w, c, body[0], t);
      var v := OpStep(w, c, body[0]);
      if OpVerdict(w, c, body[0]).Some? {
        FinishedOps(v, c, body[1..], t);
      } else {
        OpsDecide(v, c, body[1..], t);
        assert v.txs[t := Committed] == w.txs[t := Committed] && v.txs[t := RolledBack] == w.txs[t := RolledBack];
      }
    }
  }

  lemma {:induction false} OpDecides(w: World, c: Handle, op: Op, t: nat)
    requires Inside(w, c, t) && c.conn == InTx(t) && t < |w.txs| && w.txs[t].Open?
    ensures
      var v := OpStep(w, c, op);
      var d := OpVerdict(w, c, op);
      Inside(v, c, t) && if d.Some? then Decided(w, v, t, d.value) else OnlyAppends(w, v, t)
    decreases op, 0
  {
    match op
    case Operate(funcs) => OperationInside(w, c, funcs, t);
    case Inner(body, outcome, begun, committed) =>
      var (v, d) := TxHandle(w, c, begun);
      OpsDecide(v, d, body, t);
      var end := Ops(v, d, body);
      if Verdict(v, d, body).None? {
        assert end.txs[t := Committed] == w.txs[t := Committed] && end.txs[t := RolledBack] == w.txs[t := RolledBack];
      }
  }

  /** Whether the first inner call to return commits can be told from the calls, the driver's answers and the
      commit setting, before anything runs. */
  function Decision(body: seq<Op>, commitOff: bool): Option<bool>
    decreases body
  {
    if body == [] then None
    else if OpDecision(body[0], commitOff).Some? then OpDecision(body[0], commitOff)
    else Decision(body[1..], commitOff)
  }

  function OpDecision(op: Op, commitOff: bool): Option<bool>
    decreases op
  {
    match op
    case Operate(_) => None
    case Inner(body, outcome, _, committed) =>
      var inner := Decision(body, commitOff);
      if inner.Some? then inner else Some(outcome == Nil && committed && !commitOff)
  }

  lemma {:induction false} VerdictDecision(w: World, c: Handle, body: seq<Op>)
    requires c.conn.InTx?
    ensures var v, d := Verdict(w, c, body), Decision(body, c.commitOff);
            (v.Some? <==> d.Some?) && (v.Some? ==> v.value.0 == d.value)
    decreases body, 0
  {
    if body != [] {
      OpVerdictDecision(w, c, body[0]);
      VerdictDecision(OpStep(w, c, body[0]), c, body[1..]);
    }
  }

  lemma {:induction false} OpVerdictDecision(w: World, c: Handle, op: Op)
    requires c.conn.InTx?
    ensures var v, d := OpVerdict(w, c, op), OpDecision(op, c.commitOff);
            (v.Some? <==> d.Some?) && (v.Some? ==> v.value.0 == d.value)
    decreases op, 0
  {
    if op.Inner? {
      var (v, d) := TxHandle(w, c, op.begun);
      VerdictDecision(v, d, op.body);
    }
  }

  /** The writes pending at the decision, or at the end without one, are those sent until then. */
  lemma {:induction false} OpsSend(w: World, c: Handle, body: seq<Op>, t: nat)
    requires Inside(w, c, t) && c.conn == InTx(t) && IsOpen(w, t)
    ensures
      var d, all := Verdict(w, c, body), w.txs[t].pending + Sent(body, c.failed);
      if d.Some? then d.value.1 == all else IsOpen(Ops(w, c, body), t) && Ops(w, c, body).txs[t].pending == all
    decreases body, 0
  {
    if body != [] {
      OpDecides(w, c, body[0], t);
      match body[0]
      case Operate(funcs) =>
        OperationOutcome(w, c, funcs);
        OpsSend(OpStep(w, c, body[0]), c, body[1..], t);
        var p, q, x := w.txs[t].pending, WrittenRun(funcs, c.failed), Sent(body[1..], c.failed);
        assert p + q + x == p + (q + x);
      case Inner(inner, outcome, begun, committed) =>
        var (v, d) := TxHandle(w, c, begun);
        OpsSend(v, d, inner, t);
    }
  }

  /** `Transaction` on a handle that is already in one does not nest: the first inner call to return
      commits or rolls back everything sent so far, by itself and by the outer function, and the outer
      outcome only decides about the error; after an inner call one is always returned. */
  lemma InnerDecidesOuter(w: World, h: Handle, body: seq<Op>, outcome: Outcome, committed: bool)
    requires h.conn.Pool? && Sound(w, h)
    ensures
      var d := Decision(body, h.commitOff);
      var (end, ok) := Transaction(w, h, body, outcome, true, committed);
      var kept := if d.Some? then d.value else outcome == Nil && committed && !h.commitOff;
      && end.durable == w.durable + (if kept then Sent(body, h.failed) else [])
      && (ok <==> outcome == Nil && committed && !h.failed && d.None?)
  {
    var t := |w.txs|;
    var (v, c) := TxHandle(w, h, true);
    OpsDecide(v, c, body, t);
    OpsSend(v, c, body, t);
    VerdictDecision(v, c, body);
    assert [] + Sent(body, h.failed) == Sent(body, h.failed);
  }

  /** On a connection whose BEGIN was refused nothing is ever written, committed or rolled back. */
  lemma {:induction false} RefusedOps(w: World, c: Handle, body: seq<Op>)
    requires c.conn.NoTx? && Sound(w, c)
    ensures var v := Ops(w, c, body); v.durable == w.durable && v.txs == w.txs && v.scopes >= w.scopes
    decreases body, 0
  {
    if body != [] {
      RefusedOp(w, c, body[0]);
      RefusedOps(OpStep(w, c, body[0]), c, body[1..]);
    }
  }

  lemma {:induction false} RefusedOp(w: World, c: Handle, op: Op)
    requires c.conn.NoTx? && Sound(w, c)
    ensures var v := OpStep(w, c, op); v.durable == w.durable && v.txs == w.txs && v.scopes >= w.scopes
    decreases op, 0
  {
    match op
    case Operate(funcs) => OperationInside(w, c, funcs, |w.txs|);
    case Inner(body, outcome, begun, committed) =>
      var (v, d) := TxHandle(w, c, begun);
      RefusedOps(v, d, body);
  }

  /** A refused BEGIN: whatever the function does and nests, nothing happens and an error is returned. */
  lemma RefusedTransaction(w: World, h: Handle, body: seq<Op>, outcome: Outcome, committed: bool)
    requires h.conn.Pool? && Sound(w, h)
    ensures var (v, ok) := Transaction(w, h, body, outcome, false, committed);
            v.durable == w.durable && v.txs == w.txs && !ok
  {
    var (v, c) := TxHandle(w, h, false);
    RefusedOps(v, c, body);
  }

  /** So the promise that nothing is durable unless the outer function returns nil holds exactly when the
      outer BEGIN is refused or the first inner call to return does not commit a write. */
  lemma FailedTransactionKeepsNothing(w: World, h: Handle, body: seq<Op>, outcome: Outcome, begun: bool, committed: bool)
    requires h.conn.Pool? && Sound(w, h) && outcome != Nil
    ensures
      var kept := if begun && Decision(body, h.commitOff) == Some(true) then Sent(body, h.failed) else [];
      var end := Transaction(w, h, body, outcome, begun, committed).0;
      end.durable == w.durable + kept && (end.durable == w.durable <==> kept == [])
  {
    if begun {
      InnerDecidesOuter(w, h, body, outcome, committed);
    } else {
      RefusedTransaction(w, h, body, outcome, committed);
    }
    var kept := if begun && Decision(body, h.commitOff) == Some(true) then Sent(body, h.failed) else [];
    assert kept != [] ==> |w.durable + kept| > |w.durable|;
    assert w.durable + [] == w.durable;
  }

  /** The smallest case: a write, then an inner call that does nothing and returns nil, then an error. */
  lemma InnerCommitsOuterWrite(h: Handle)
    requires h == Handle(Pool, false, false, false, {})
    ensures
      var body := [Operate([Do([Exec(7, true)])]), Inner([], Nil, true, true)];
      Transaction(World([], [], 0), h, body, Err, true, true).0.durable == [7]
  {
    var w := World([], [], 0);
    var body := [Operate([Do([Exec(7, true)])]), Inner([], Nil, true, true)];
    assert body[1..] == [Inner([], Nil, true, true)] && [Do([Exec(7, true)])][1..] == [] && [Exec(7, true)][1..] == [];
    assert OpDecision(body[1], false) == Some(true) && Decision(body[1..], false) == Some(true);
    assert WrittenActs([Exec(7, true)], false) == [7] && WrittenRun([Do([Exec(7, true)])], false) == [7];
    InnerDecidesOuter(w, h, body, Err, true);
  }
}
