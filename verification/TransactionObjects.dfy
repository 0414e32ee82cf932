/** The handle, scope and transaction objects of main.go and scope.go with their in-place updates, each
    method proved to take the step of the value model. */
module TransactionObjects {
  import opened Pipeline
  import opened Transactions

  /** The database behind all handles. */
  class Database {
    var durable: seq<int>
    var txs: seq<Tx>
    var scopes: nat

    ghost function Value(): World
      reads this
    {
      World(durable, txs, scopes)
    }

    constructor ()
      ensures Value() == World([], [], 0)
    {
      durable, txs, scopes := [], [], 0;
    }

    /** Commit on a driver transaction. */
    method Commit(t: nat, ok: bool) returns (done: bool)
      modifies this
      ensures (Value(), done) == CommitTx(old(Value()), t, ok)
    {
      done := false;
      if t < |txs| && txs[t].Open? {
        if ok {
          durable := durable + txs[t].pending;
          txs := txs[t := Committed];
          done := true;
        } else {
          txs := txs[t := RolledBack];
        }
      }
    }

    /** Returns whether the transaction was open. */
    method Rollback(t: nat) returns (open: bool)
      modifies this
      ensures Value() == RollbackTx(old(Value()), t)
      ensures open == (t < |old(txs)| && old(txs)[t].Open?)
    {
      open := t < |txs| && txs[t].Open?;
      if t < |txs| && txs[t].Open? {
        txs := txs[t := RolledBack];
      }
    }
  }

  /** A `*DB`. */
  class DB {
    const database: Database
    var conn: Conn
    var failed: bool
    var scopeTxOff: bool
    var commitOff: bool
    var started: set<nat>

    constructor (database: Database, conn: Conn, failed: bool, scopeTxOff: bool, commitOff: bool, started: set<nat>)
      ensures this.database == database && Value() == Handle(conn, failed, scopeTxOff, commitOff, started)
    {
      this.database, this.conn, this.failed := database, conn, failed;
      this.scopeTxOff, this.commitOff, this.started := scopeTxOff, commitOff, started;
    }

    ghost function Value(): Handle
      reads this
    {
      Handle(conn, failed, scopeTxOff, commitOff, started)
    }

    /** A handle of its own with the same connection, error and settings. */
    method Clone() returns (c: DB)
      ensures fresh(c) && c.database == database && c.Value() == Value()
    {
      c := new DB(database, conn, failed, scopeTxOff, commitOff, started);
    }

    method AddError(err: bool)
      modifies this`failed
      ensures failed == (old(failed) || err)
    {
      if err { failed := true; }
    }

    method Begin(ok: bool) returns (c: DB)
      modifies database
      ensures fresh(c) && c.database == database
      ensures (database.Value(), c.Value()) == DbBegin(old(database.Value()), old(Value()), ok)
    {
      c := Clone();
      if c.conn.Pool? {
        if ok {
          c.conn := InTx(|database.txs|);
          database.txs := database.txs + [Open([])];
        } else {
          c.conn := NoTx;
          c.AddError(true);
        }
      } else {
        c.AddError(true);
      }
    }

    /** Returns whether the handle ends up without an error. */
    method Commit(ok: bool) returns (clean: bool)
      modifies this`failed, database
      ensures (database.Value(), clean) == DbCommit(old(database.Value()), old(Value()), ok)
    {
      if conn.InTx? {
        if commitOff {
          var open := database.Rollback(conn.id);
          AddError(!open || !ok);
        } else {
          var done := database.Commit(conn.id, ok);
          AddError(!done);
        }
      } else {
        AddError(true);
      }
      clean := !failed;
    }

    method Rollback()
      modifies this`failed, database
      ensures database.Value() == DbRollback(old(database.Value()), old(Value()))
    {
      if conn.InTx? {
        var open := database.Rollback(conn.id);
        AddError(!open);
      } else {
        AddError(true);
      }
    }

    /** `DB.Transaction` with the function's doings as data. */
    method Transaction(body: seq<Op>, outcome: Outcome, begun: bool, committed: bool) returns (clean: bool)
      modifies database
      ensures (database.Value(), clean) ==
        Transactions.Transaction(old(database.Value()), Value(), body, outcome, begun, committed)
      decreases body, 1
    {
      var s := Begin(begun);
      s := s.Clone();
      s.scopeTxOff := true;
      s.CallFunction(body);
      if outcome == Nil {
        clean := s.Commit(committed);
      } else {
        s.Rollback();
        clean := false;
      }
    }

    /** The function given to `Transaction`. */
    method CallFunction(body: seq<Op>)
      modifies database
      ensures database.Value() == Ops(old(database.Value()), Value(), body)
      decreases body, 0
    {
      if body != [] {
        match body[0] {
          case Operate(funcs) =>
            var scope := NewScope();
            scope.CallCallbacks(funcs);
          case Inner(b, outcome, begun, committed) =>
            var clean := Transaction(b, outcome, begun, committed);
        }
        CallFunction(body[1..]);
      }
    }

    method NewScope() returns (scope: Scope)
      modifies database`scopes
      ensures fresh(scope) && fresh(scope.db) && scope.db.database == database && scope.id == old(database.scopes)
      ensures scope.Value() == Run(old(database.Value()).(scopes := old(database.scopes) + 1), Value(), false)
    {
      var c := Clone();
      scope := new Scope(c, database.scopes);
      database.scopes := database.scopes + 1;
    }
  }

  class Scope {
    const db: DB
    const id: nat
    var skipLeft: bool

    constructor (db: DB, id: nat)
      ensures this.db == db && this.id == id && !skipLeft
    {
      this.db, this.id, skipLeft := db, id, false;
    }

    ghost function Value(): Run
      reads this, db, db.database
    {
      Run(db.database.Value(), db.Value(), skipLeft)
    }

    method Begin(ok: bool)
      modifies db, db.database
      ensures Value() == ScopeBegin(old(Value()), id, ok)
    {
      if !db.scopeTxOff {
        if db.conn.Pool? {
          if ok {
            db.conn := InTx(|db.database.txs|);
            db.database.txs := db.database.txs + [Open([])];
            db.started := db.started + {id};
          }
        }
      }
    }

    method CommitOrRollback(ok: bool)
      modifies db, db.database
      ensures Value() == ScopeFinish(old(Value()), id, ok)
    {
      if id in db.started {
        if db.conn.InTx? {
          if db.failed {
            var open := db.database.Rollback(db.conn.id);
          } else {
            var done := db.database.Commit(db.conn.id, ok);
            db.AddError(!done);
          }
          db.conn := Pool;
        }
      }
    }

    /** The driver runs a statement on the scope's connection. */
    method Statement(write: int, ok: bool)
      modifies db, db.database
      ensures Value() == Write(old(Value()), write, ok)
    {
      match db.conn
      case Pool =>
        if ok {
          db.database.durable := db.database.durable + [write];
        } else {
          db.AddError(true);
        }
      case InTx(t) =>
        var txs := db.database.txs;
        if ok && t < |txs| && txs[t].Open? {
          db.database.txs := txs[t := Open(txs[t].pending + [write])];
        } else {
          db.AddError(true);
        }
      case NoTx =>
        db.AddError(true);
    }

    /** One callback function. */
    method Call(actions: seq<Action>)
      modifies this, db, db.database
      ensures Value() == Acts(old(Value()), id, actions)
      decreases actions, 0
    {
      if actions != [] {
        match actions[0] {
          case Begin(ok) => Begin(ok);
          case Finish(ok) => CommitOrRollback(ok);
          case Exec(write, ok) => if !db.failed { Statement(write, ok); }
          case Insert(write, ok) => Statement(write, ok);
          case Fail => db.AddError(true);
          case Skip => skipLeft := true;
          case Nested(funcs, reported) =>
            var inner := db.NewScope();
            inner.CallCallbacks(funcs);
            db.AddError(reported && inner.db.failed);
        }
        Call(actions[1..]);
      }
    }

    /** `callCallbacks`. */
    method CallCallbacks(funcs: seq<Callback>)
      modifies this, db, db.database
      ensures Value() == Callbacks(old(Value()), id, funcs)
      decreases funcs, 1
    {
      for k := 0 to |funcs|
        invariant Callbacks(old(Value()), id, funcs) == Callbacks(Value(), id, funcs[k..])
      {
        assert funcs[k..][0] == funcs[k] && funcs[k..][1..] == funcs[k + 1..];
        Call(funcs[k].acts);
        if skipLeft || db.failed {
          return;
        }
      }
    }
  }
}
