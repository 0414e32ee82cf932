/** Deleting: an UPDATE of the deleted-at column where the model has one and the statement is scoped, a
    DELETE otherwise. */
module SoftDelete {
  import opened Lists
  import opened SqlText
  import opened SqlBuild
  import opened SqlParse
  import opened SqlClause
  import opened SqlWhere
  import opened SqlWhereBinding
  import R = SqlRows
  import S = SqlScope

  /** A row of the table: the values of its columns that are not NULL. */
  type Stored = map<int, int>
  type Table = seq<Stored>

  /** How the database reads a stored row. */
  type Reading = Stored -> Record

  ghost predicate Faithful(read: Reading, column: int) {
    forall r :: read(r)([Word(column), IS_NULL]) == if column in r then False else True
  }

  datatype User = User(column: int, id: int)

  /** A delete operation: its conditions, the model's deleted-at column, the time, and the current user if
      there is one and the model records who deleted. */
  datatype Delete = Delete(search: Search, unscoped: bool, column: Option<int>, now: int, user: Option<User>)

  function Scoped(d: Delete): Search {
    d.search.(deletedAt := if d.unscoped then None else d.column)
  }

  datatype Statement =
    | Update(pairs: seq<Text>, condition: Text, vector: seq<int>)
    | Remove(condition: Text, vector: seq<int>)

  /** `deleteCallback` for numbered markers: the values of the SET clause come before those of the condition. */
  function DeleteStatement(d: Delete, pk: int): Statement {
    if d.unscoped || d.column.None? then
      var w := WhereSql(Scoped(d), pk, 0, Numbered);
      Remove(w.text, w.vals)
    else
      var at := [Word(d.column.value), EQ, Mark(1)];
      match d.user
      case None =>
        var w := WhereSql(Scoped(d), pk, 1, Numbered);
        Update([at], w.text, [d.now] + w.vals)
      case Some(u) =>
        var w := WhereSql(Scoped(d), pk, 2, Numbered);
        Update([at, [Word(u.column), EQ, Mark(2)]], w.text, [d.now, u.id] + w.vals)
  }

  /** `deleteCallback` on a fresh scope. */
  method DeleteCallback(scope: S.Scope, d: Delete) returns (s: Statement)
    requires scope.args == [] && scope.mode == Numbered
    modifies scope
    ensures s == DeleteStatement(d, scope.pk) && scope.args == s.vector
    ensures s.Update? <==> !d.unscoped && d.column.Some?
  {
    hide WhereSql;
    if !d.unscoped && d.column.Some? {
      var columns := [d.column.value];
      var value := scope.AddToVars(Value(d.now));
      var values := [value];
      if d.user.Some? {
        columns := columns + [d.user.value.column];
        value := scope.AddToVars(Value(d.user.value.id));
        values := values + [value];
      }
      var pairs: seq<Text> := [];
      for i := 0 to |columns|
        invariant |pairs| == i && forall k :: 0 <= k < i ==> pairs[k] == [Word(columns[k]), EQ] + values[k]
      {
        pairs := pairs + [[Word(columns[i]), EQ] + values[i]];
      }
      ghost var all := pairs;
      assert all[0] == [Word(d.column.value), EQ, Mark(1)];
      assert d.user.Some? ==> all[1] == [Word(d.user.value.column), EQ, Mark(2)];
      var condition := scope.WhereSQL(Scoped(d));
      s := Update(pairs, condition, scope.args);
    } else {
      var condition := scope.WhereSQL(Scoped(d));
      assert scope.args == [] + scope.args;
      s := Remove(condition, scope.args);
    }
  }

  // ---------------------------------------------------------------- what the database does

  /** One assignment of a SET clause, its marker replaced by the value it names. */
  function Assigned(r: Stored, pair: Text): Stored {
    if |pair| == 3 && pair[0].Word? && pair[1] == EQ && pair[2].Val? then r[pair[0].w := pair[2].v] else r
  }

  function AssignedAll(r: Stored, pairs: seq<Text>, vector: seq<int>): Stored
    decreases |pairs|
  {
    if pairs == [] then r else AssignedAll(Assigned(r, Resolve(pairs[0], vector)), pairs[1..], vector)
  }

  function Exec(t: Table, s: Statement, read: Reading): Table {
    if t == [] then [] else
    var hit := Passes(Resolve(s.condition, s.vector), read(t[0]));
    (if !hit then [t[0]] else match s case Update(pairs, _, vector) => [AssignedAll(t[0], pairs, vector)] case Remove(_, _) => [])
    + Exec(t[1..], s, read)
  }

  // ---------------------------------------------------------------- what deleting means

  /** The rows a delete of this kind asks for. */
  predicate Selected(search: Search, deletedAt: Option<int>, pk: int, record: Record) {
    Expected(search.(deletedAt := deletedAt), pk, record).True?
  }

  lemma ConditionSelects(d: Delete, pk: int, record: Record)
    requires SearchOk(d.search)
    ensures var s := DeleteStatement(d, pk);
            Passes(Resolve(s.condition, s.vector), record) <==> Selected(d.search, if d.unscoped then None else d.column, pk, record)
  {
    hide WhereSql, Resolve, Passes, Expected, ClauseOk, Lacks, Inline;
    var s := DeleteStatement(d, pk);
    assert SearchOk(Scoped(d));
    var n := if s.Remove? then 0 else |s.pairs|;
    NumberedSelects(Scoped(d), pk, n, s.vector, record);
  }

  /** In terms of the columns: the rows not deleted, if the statement asks for that, that meet the conditions. */
  lemma SelectedColumns(search: Search, deletedAt: Option<int>, pk: int, r: Stored, cells: R.Cells, record: Record)
    requires R.Tabular(search.(deletedAt := deletedAt)) && R.Stores(record, cells)
    requires forall c :: cells(c) == if c in r then Some(r[c]) else None
    ensures Selected(search, deletedAt, pk, record) <==> R.Wanted(search.(deletedAt := deletedAt), pk, record, cells)
  {
    hide WhereSql, Resolve, Passes, Expected, R.Stores, R.Wanted, R.AllScalar, SearchOk;
    var s := search.(deletedAt := deletedAt);
    var vals := WhereSql(s, pk, 0, Numbered).vals;
    AtAll(vals);
    R.StatementSelects(s, pk, 0, vals, record, cells);
    NumberedSelects(s, pk, 0, vals, record);
  }

  lemma ResolvePair(w: int, n: nat, vector: seq<int>)
    requires 1 <= n <= |vector|
    ensures Resolve([Word(w), EQ, Mark(n)], vector) == [Word(w), EQ, Val(vector[n - 1])]
  {
    var t: Text := [Word(w), EQ, Mark(n)];
    var u: Text, v: Text := [EQ, Mark(n)], [Mark(n)];
    assert t[1..] == u && u[1..] == v && v[1..] == [];
    assert Resolve(v, vector) == [Val(vector[n - 1])];
    assert Resolve(u, vector) == [EQ] + Resolve(v, vector);
  }

  /** A soft delete writes the time and, if there is one, the user into a row. */
  lemma Marked(d: Delete, pk: int, r: Stored)
    requires !d.unscoped && d.column.Some?
    ensures var s := DeleteStatement(d, pk);
            var at := r[d.column.value := d.now];
            s.Update? && AssignedAll(r, s.pairs, s.vector) == if d.user.Some? then at[d.user.value.column := d.user.value.id] else at
  {
    hide WhereSql, Resolve;
    var s := DeleteStatement(d, pk);
    var at := Assigned(r, Resolve(s.pairs[0], s.vector));
    ResolvePair(d.column.value, 1, s.vector);
    if d.user.Some? {
      ResolvePair(d.user.value.column, 2, s.vector);
      assert s.pairs[1..][1..] == [];
      assert AssignedAll(at, s.pairs[1..], s.vector) == Assigned(at, Resolve(s.pairs[1..][0], s.vector));
    } else {
      assert s.pairs[1..] == [];
    }
  }

  /** A scoped delete of a model with a deleted-at column, with a current user or without: every row stays in
      its place; those asked for that are not deleted yet get the time, and the user if there is one, and keep
      all their other columns; the rest are as they were. */
  lemma {:induction false} SoftDeletes(t: Table, d: Delete, pk: int, read: Reading)
    requires SearchOk(d.search) && !d.unscoped && d.column.Some?
    ensures
      var after := Exec(t, DeleteStatement(d, pk), read);
      && |after| == |t|
      && forall k :: 0 <= k < |t| ==>
           after[k] ==
             if !Selected(d.search, d.column, pk, read(t[k])) then t[k]
             else if d.user.Some? then t[k][d.column.value := d.now][d.user.value.column := d.user.value.id]
             else t[k][d.column.value := d.now]
    decreases |t|
  {
    hide DeleteStatement, Selected, Resolve, Passes, SearchOk, AssignedAll;
    if t != [] {
      SoftDeletes(t[1..], d, pk, read);
      ConditionSelects(d, pk, read(t[0]));
      Marked(d, pk, t[0]);
      assert forall k :: 0 < k < |t| ==> t[k] == t[1..][k - 1];
    }
  }

  /** An unscoped delete, or one of a model without the column, removes exactly the rows asked for, deleted or
      not; the others stay as they were and in order. */
  lemma {:induction false} HardDeletes(t: Table, d: Delete, pk: int, read: Reading)
    requires SearchOk(d.search) && (d.unscoped || d.column.None?)
    ensures Leaves(Exec(t, DeleteStatement(d, pk), read), t, r => Selected(d.search, None, pk, read(r)))
    decreases |t|
  {
    var s := DeleteStatement(d, pk);
    hide Selected, Resolve, Passes, SearchOk, WhereSql, Leaves;
    var gone := r => Selected(d.search, None, pk, read(r));
    if t == [] {
      assert Leaves(t, t, gone) by { NothingLeaves(gone); }
    } else {
      assert s.Remove?;
      HardDeletes(t[1..], d, pk, read);
      ConditionSelects(d, pk, read(t[0]));
      LeavesNext(Exec(t[1..], s, read), t[1..], gone, t[0]);
      assert t == [t[0]] + t[1..];
    }
  }

  lemma NothingLeaves(gone: Stored -> bool)
    ensures Leaves([], [], gone)
  {
  }

  /** A scoped delete of such a model never touches a row that is deleted already: not even an OR inside a
      condition reaches it. */
  lemma DeletedStaysAsIs(search: Search, column: int, pk: int, read: Reading, r: Stored)
    requires SearchOk(search) && Faithful(read, column) && column in r
    ensures !Selected(search, Some(column), pk, read(r))
  {
    hide Expected, Reference, Passes, ClauseOk, Lacks;
    var s := search.(deletedAt := Some(column));
    assert SearchOk(s) && SearchBalanced(s);
    hide ListOk;
    SoftDeletedNeverPasses(s, pk, read(r));
    ReferenceSays(s, pk, read(r));
  }

  function Run(t: Table, ds: seq<Delete>, pk: int, read: Reading): Table
    decreases |ds|
  {
    if ds == [] then t else Run(Exec(t, DeleteStatement(ds[0], pk), read), ds[1..], pk, read)
  }

  /** A run is one delete after the other. */
  lemma {:induction false} RunStep(t: Table, ds: seq<Delete>, last: Delete, pk: int, read: Reading)
    ensures Run(t, [], pk, read) == t
    ensures Run(t, ds + [last], pk, read) == Exec(Run(t, ds, pk, read), DeleteStatement(last, pk), read)
    decreases |ds|
  {
    hide Exec, DeleteStatement;
    if ds == [] {
      assert ds + [last] == [last] && [last][1..] == [];
    } else {
      assert (ds + [last])[0] == ds[0] && (ds + [last])[1..] == ds[1..] + [last];
      RunStep(Exec(t, DeleteStatement(ds[0], pk), read), ds[1..], last, pk, read);
    }
  }

  /** Scoped deletes of a model with the column, with or without a current user. */
  ghost predicate ScopedRun(ds: seq<Delete>, column: int, read: Reading) {
    && Faithful(read, column)
    && forall d <- ds :: SearchOk(d.search) && !d.unscoped && d.column == Some(column)
  }

  function UserColumns(ds: seq<Delete>): set<int> {
    set d | d in ds && d.user.Some? :: d.user.value.column
  }

  /** Row by row: all other columns stay, and a row that was deleted stays as it was. */
  ghost predicate Conserves(t: Table, u: Table, column: int, users: set<int>) {
    |u| == |t| && forall k :: 0 <= k < |t| ==>
      u[k] - ({column} + users) == t[k] - ({column} + users) && (column in t[k] ==> u[k] == t[k])
  }

  lemma OneConserves(t: Table, d: Delete, pk: int, read: Reading, users: set<int>)
    requires SearchOk(d.search) && !d.unscoped && d.column.Some? && Faithful(read, d.column.value)
    requires d.user.Some? ==> d.user.value.column in users
    ensures Conserves(t, Exec(t, DeleteStatement(d, pk), read), d.column.value, users)
  {
    hide Exec, DeleteStatement, Selected, SearchOk, Faithful;
    SoftDeletes(t, d, pk, read);
    forall k | 0 <= k < |t| && d.column.value in t[k] ensures !Selected(d.search, d.column, pk, read(t[k])) {
      DeletedStaysAsIs(d.search, d.column.value, pk, read, t[k]);
    }
  }

  /** Over any run of scoped deletes no row is lost, only the time and the user of the deletion are written,
      and the first deletion of a row is the one that counts. */
  lemma {:induction false} SoftRunsConserve(t: Table, ds: seq<Delete>, column: int, pk: int, read: Reading, users: set<int>)
    requires ScopedRun(ds, column, read) && UserColumns(ds) <= users
    ensures Conserves(t, Run(t, ds, pk, read), column, users)
    decreases |ds|
  {
    hide Exec, DeleteStatement, Faithful, SearchOk;
    if ds != [] {
      var d, u := ds[0], Exec(t, DeleteStatement(ds[0], pk), read);
      assert d in ds && (d.user.Some? ==> d.user.value.column in UserColumns(ds));
      OneConserves(t, d, pk, read, users);
      assert UserColumns(ds[1..]) <= UserColumns(ds);
      SoftRunsConserve(u, ds[1..], column, pk, read, users);
    }
  }
}
