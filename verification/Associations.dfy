/** The association of one record through a join table: Append, Replace, Delete and Clear as the statements
    they send, and the slice field they keep up to date. */
module Associations {
  import opened Lists
  import opened JoinTables

  predicate Blank(k: Key) {
    forall i :: 0 <= i < |k| ==> k[i] == 0
  }

  /** A record passed as argument: its key, whether its main primary field is blank, the key that saving it
      then gives (None: the save fails), and whether the driver accepts its row of the join table. */
  datatype Value = Value(key: Key, zero: bool, saved: Option<Key>, joined: bool)

  /** An argument is a record, a slice of records, or something else. */
  datatype Argument = One(v: Value) | Slice(vs: seq<Value>) | Invalid

  ghost predicate ValueOk(v: Value, n: nat) {
    && |v.key| == n && (!v.zero ==> !Blank(v.key))
    && (v.saved.Some? ==> |v.saved.value| == n && !Blank(v.saved.value))
  }

  ghost predicate ArgumentOk(a: Argument, n: nat) {
    match a
    case One(v) => ValueOk(v, n)
    case Slice(vs) => forall k :: 0 <= k < |vs| ==> ValueOk(vs[k], n)
    case Invalid => true
  }

  ghost predicate ArgumentsOk(args: seq<Argument>, n: nat) {
    forall k :: 0 <= k < |args| ==> ArgumentOk(args[k], n)
  }

  // ---------------------------------------------------------------- the keys of the arguments

  function Values(a: Argument): seq<Value> {
    match a case One(v) => [v] case Slice(vs) => vs case Invalid => []
  }

  /** The key under which a record is associated: its own, or the one it is saved under. */
  function Entered(v: Value): Option<Key> {
    if v.zero then v.saved else Some(v.key)
  }

  /** The keys that enter the slice field; with `joined` those whose row the driver accepts. */
  function AddedOf(vs: seq<Value>, joined: bool): seq<Key> {
    if vs == [] then []
    else (if Entered(vs[0]).Some? && (vs[0].joined || !joined) then [Entered(vs[0]).value] else []) + AddedOf(vs[1..], joined)
  }

  function FailedOf(vs: seq<Value>): bool {
    exists k :: 0 <= k < |vs| && (Entered(vs[k]).None? || !vs[k].joined)
  }

  function Added(args: seq<Argument>, joined: bool): seq<Key> {
    if args == [] then [] else AddedOf(Values(args[0]), joined) + Added(args[1..], joined)
  }

  function Failed(args: seq<Argument>): bool {
    exists k :: 0 <= k < |args| && (args[k].Invalid? || FailedOf(Values(args[k])))
  }

  /** `getColumnAsArray`: records whose key is blank are passed over. */
  function NonBlank(keys: seq<Key>): seq<Key> {
    if keys == [] then [] else (if Blank(keys[0]) then [] else [keys[0]]) + NonBlank(keys[1..])
  }

  function KeysOf(vs: seq<Value>): seq<Key> {
    if vs == [] then [] else [vs[0].key] + KeysOf(vs[1..])
  }

  function Given(args: seq<Argument>): seq<Key> {
    if args == [] then [] else NonBlank(KeysOf(Values(args[0]))) + Given(args[1..])
  }

  /** The slice field without the deleted records. */
  function Without(field: seq<Key>, gone: seq<Key>): seq<Key> {
    if field == [] then [] else (if field[0] in gone then [] else [field[0]]) + Without(field[1..], gone)
  }

  lemma {:induction false} WithoutKeeps(field: seq<Key>, gone: seq<Key>, n: nat)
    requires forall k :: 0 <= k < |field| ==> |field[k]| == n
    ensures forall k :: 0 <= k < |Without(field, gone)| ==> |Without(field, gone)[k]| == n
    decreases |field|
  {
    if field != [] { WithoutKeeps(field[1..], gone, n); }
  }

  // ---------------------------------------------------------------- which keys those are

  predicate Bears(a: Argument, k: Key) {
    match a
    case One(v) => v.key == k
    case Slice(vs) => exists v <- vs :: v.key == k
    case Invalid => false
  }

  /** Some argument is, or is a slice that contains, a record with this key, and the key is not blank. */
  predicate Asked(args: seq<Argument>, k: Key) {
    (exists c <- k :: c != 0) && exists a <- args :: Bears(a, k)
  }

  lemma BlankExactly(k: Key)
    ensures Blank(k) <==> !exists c <- k :: c != 0
  {
    if !Blank(k) {
      var i :| 0 <= i < |k| && k[i] != 0;
      assert k[i] in k;
    }
  }

  lemma {:induction false} KeysOfExactly(vs: seq<Value>, k: Key)
    ensures k in NonBlank(KeysOf(vs)) <==> (exists c <- k :: c != 0) && exists v <- vs :: v.key == k
    decreases |vs|
  {
    BlankExactly(k);
    hide Blank;
    if vs != [] {
      var v, rest := vs[0], vs[1..];
      assert vs == [v] + rest && KeysOf(vs)[1..] == KeysOf(rest);
      KeysOfExactly(rest, k);
      assert NonBlank(KeysOf(vs)) == (if Blank(v.key) then [] else [v.key]) + NonBlank(KeysOf(rest));
    }
  }

  lemma {:induction false} GivenExactly(args: seq<Argument>, k: Key)
    ensures k in Given(args) <==> Asked(args, k)
    decreases |args|
  {
    hide KeysOf, NonBlank;
    if args != [] {
      var a, rest := args[0], args[1..];
      assert args == [a] + rest;
      KeysOfExactly(Values(a), k);
      if a.One? { assert forall v <- [a.v] :: v == a.v; }
      assert (exists v <- Values(a) :: v.key == k) <==> Bears(a, k);
      GivenExactly(rest, k);
      hide Bears;
      assert Given(args) == NonBlank(KeysOf(Values(a))) + Given(rest);
    }
  }

  lemma SomeGiven(args: seq<Argument>)
    ensures (exists k :: Asked(args, k)) <==> Given(args) != []
  {
    hide Given, Asked;
    if Given(args) != [] { GivenExactly(args, Given(args)[0]); }
    if k :| Asked(args, k) { GivenExactly(args, k); }
  }

  /** The field keeps, in order, exactly the records whose key is not among those asked for. */
  lemma {:induction false} WithoutLeaves(field: seq<Key>, args: seq<Argument>)
    ensures Leaves(Without(field, Given(args)), field, k => Asked(args, k))
    decreases |field|
  {
    hide Given, Asked, Leaves;
    if field == [] {
      NothingLeaves(args);
    } else {
      WithoutLeaves(field[1..], args);
      GivenExactly(args, field[0]);
      LeavesNext(Without(field[1..], Given(args)), field[1..], k => Asked(args, k), field[0]);
      assert field == [field[0]] + field[1..];
    }
  }

  lemma NothingLeaves(args: seq<Argument>)
    ensures Leaves([], [], (k: Key) => Asked(args, k))
  {
  }

  /** The keys asked for go, those of other records and of other sources stay. */
  lemma RemovedRelates(t: Table, schema: Schema, s: Key, args: seq<Argument>)
    requires Clean(t, schema)
    ensures var t' := RemoveAll(t, schema, s, Given(args));
            && (forall k :: k in Related(t', schema, s) <==> k in Related(t, schema, s) && !Asked(args, k))
            && Others(t', schema, s) == Others(t, schema, s)
  {
    hide RemoveAll, Related, Others, Given, Asked, Clean;
    RemoveAllIsDifference(t, schema, s, Given(args));
    forall k ensures k in Keys(Given(args)) <==> Asked(args, k) { GivenExactly(args, k); }
  }

  /** A record enters the association under this key: its own or, if it is saved first, the one that gives
      it; with `joined` only if the driver takes its row. */
  predicate Enters(v: Value, k: Key, joined: bool) {
    (joined ==> v.joined) && if v.zero then v.saved == Some(k) else v.key == k
  }

  predicate Brings(a: Argument, k: Key, joined: bool) {
    match a
    case One(v) => Enters(v, k, joined)
    case Slice(vs) => exists v <- vs :: Enters(v, k, joined)
    case Invalid => false
  }

  /** Some argument is, or contains, a record that enters under this key. */
  predicate Entering(args: seq<Argument>, k: Key, joined: bool) {
    exists a <- args :: Brings(a, k, joined)
  }

  lemma {:induction false} AddedOfExactly(vs: seq<Value>, k: Key, joined: bool)
    ensures k in AddedOf(vs, joined) <==> exists v <- vs :: Enters(v, k, joined)
    decreases |vs|
  {
    if vs != [] {
      var v, rest := vs[0], vs[1..];
      assert vs == [v] + rest;
      AddedOfExactly(rest, k, joined);
      var one := if Entered(v).Some? && (v.joined || !joined) then [Entered(v).value] else [];
      assert k in one <==> Enters(v, k, joined);
      hide Entered, Enters;
      assert AddedOf(vs, joined) == one + AddedOf(rest, joined);
    }
  }

  lemma {:induction false} AddedExactly(args: seq<Argument>, k: Key, joined: bool)
    ensures k in Added(args, joined) <==> Entering(args, k, joined)
    decreases |args|
  {
    hide AddedOf, Enters;
    if args != [] {
      var a, rest := args[0], args[1..];
      assert args == [a] + rest;
      AddedOfExactly(Values(a), k, joined);
      if a.One? { assert forall v <- [a.v] :: v == a.v; }
      AddedExactly(rest, k, joined);
      assert (exists v <- Values(a) :: Enters(v, k, joined)) <==> Brings(a, k, joined);
      hide Brings, Values;
      assert Added(args, joined) == AddedOf(Values(a), joined) + Added(rest, joined);
    }
  }

  /** One record, alone or in a slice; more of them by `AddedConcat` and `AddedOfConcat`. */
  lemma OneAdded(v: Value, joined: bool)
    ensures Added([One(v)], joined) == Added([Slice([v])], joined) ==
            if joined && !v.joined then []
            else if !v.zero then [v.key]
            else if v.saved.Some? then [v.saved.value] else []
  {
    assert [v][1..] == [] && [One(v)][1..] == [] && [Slice([v])][1..] == [];
    assert AddedOf([v][1..], joined) == [] && Added([One(v)][1..], joined) == [] && Added([Slice([v])][1..], joined) == [];
    assert [v][0] == v;
    assert Added([One(v)], joined) == AddedOf([v], joined) + [] && Added([Slice([v])], joined) == AddedOf([v], joined) + [];
  }

  ghost predicate KeysOk(keys: seq<Key>, n: nat) {
    forall k :: 0 <= k < |keys| ==> |keys[k]| == n && !Blank(keys[k])
  }

  lemma {:induction false} AddedOfOk(vs: seq<Value>, n: nat)
    requires forall k :: 0 <= k < |vs| ==> ValueOk(vs[k], n)
    ensures forall joined :: KeysOk(AddedOf(vs, joined), n)
    decreases |vs|
  {
    if vs != [] { AddedOfOk(vs[1..], n); }
  }

  lemma {:induction false} AddedOk(args: seq<Argument>, n: nat)
    requires ArgumentsOk(args, n)
    ensures forall joined :: KeysOk(Added(args, joined), n)
    decreases |args|
  {
    if args != [] {
      assert ArgumentOk(args[0], n);
      AddedOfOk(Values(args[0]), n);
      AddedOk(args[1..], n);
    }
  }

  lemma {:induction false} NonBlankAll(keys: seq<Key>, n: nat)
    requires KeysOk(keys, n)
    ensures NonBlank(keys) == keys
    decreases |keys|
  {
    if keys != [] { NonBlankAll(keys[1..], n); }
  }

  lemma {:induction false} AddAllConcat(t: Table, schema: Schema, s: Key, a: seq<Key>, b: seq<Key>)
    requires |s| == |schema.src| && KeysOk(a, |schema.dst|) && KeysOk(b, |schema.dst|)
    ensures AddAll(t, schema, s, a + b) == AddAll(AddAll(t, schema, s, a), schema, s, b)
    decreases |a|
  {
    if a == [] {
      assert a + b == b;
    } else {
      assert (a + b)[1..] == a[1..] + b;
      AddAllConcat(Insert(t, RowOf(schema, s, a[0])), schema, s, a[1..], b);
    }
  }

  lemma {:induction false} AddedOfConcat(a: seq<Value>, b: seq<Value>, joined: bool)
    ensures AddedOf(a + b, joined) == AddedOf(a, joined) + AddedOf(b, joined)
    decreases |a|
  {
    hide Entered;
    if a == [] {
      assert a + b == b;
    } else {
      assert (a + b)[1..] == a[1..] + b && (a + b)[0] == a[0];
      var one := if Entered(a[0]).Some? && (a[0].joined || !joined) then [Entered(a[0]).value] else [];
      AddedOfConcat(a[1..], b, joined);
      Associate(one, AddedOf(a[1..], joined), AddedOf(b, joined));
    }
  }

  lemma {:induction false} AddedConcat(a: seq<Argument>, b: seq<Argument>, joined: bool)
    ensures Added(a + b, joined) == Added(a, joined) + Added(b, joined)
    decreases |a|
  {
    hide AddedOf, Values;
    if a == [] {
      assert a + b == b;
    } else {
      assert (a + b)[1..] == a[1..] + b;
      AddedConcat(a[1..], b, joined);
      Associate(AddedOf(Values(a[0]), joined), Added(a[1..], joined), Added(b, joined));
    }
  }

  /** Every joined key is in the field. */
  lemma {:induction false} JoinedAreFieldedOf(vs: seq<Value>)
    ensures forall k :: k in AddedOf(vs, true) ==> k in AddedOf(vs, false)
    ensures !FailedOf(vs) ==> AddedOf(vs, true) == AddedOf(vs, false)
    decreases |vs|
  {
    hide Entered;
    if vs != [] {
      JoinedAreFieldedOf(vs[1..]);
      if !FailedOf(vs) {
        assert Entered(vs[0]).Some? && vs[0].joined;
        forall k | 0 <= k < |vs[1..]| ensures Entered(vs[1..][k]).Some? && vs[1..][k].joined { assert vs[1..][k] == vs[k + 1]; }
      }
    }
  }

  lemma {:induction false} JoinedAreFielded(args: seq<Argument>)
    ensures Keys(Added(args, true)) <= Keys(Added(args, false))
    ensures !Failed(args) ==> Added(args, true) == Added(args, false)
    decreases |args|
  {
    hide AddedOf, FailedOf, Values;
    if args != [] {
      JoinedAreFieldedOf(Values(args[0]));
      JoinedAreFielded(args[1..]);
      forall k | k in Added(args[1..], true) ensures k in Added(args[1..], false) {
        assert k in Keys(Added(args[1..], true));
        assert k in Keys(Added(args[1..], false));
      }
      if !Failed(args) {
        assert !FailedOf(Values(args[0]));
        forall k | 0 <= k < |args[1..]| ensures !args[1..][k].Invalid? && !FailedOf(Values(args[1..][k])) {
          assert args[1..][k] == args[k + 1];
        }
      }
    }
  }

  /** One more record of a slice, one more argument: the table, the field and the error all advance. */
  lemma SliceStep(t: Table, schema: Schema, s: Key, vs: seq<Value>, i: nat)
    requires i < |vs| && |s| == |schema.src| && forall k :: 0 <= k < |vs| ==> ValueOk(vs[k], |schema.dst|)
    ensures AddedOf(vs[..i + 1], false) == AddedOf(vs[..i], false) + AddedOf([vs[i]], false)
    ensures FailedOf(vs[..i + 1]) == (FailedOf(vs[..i]) || FailedOf([vs[i]]))
    ensures KeysOk(AddedOf(vs[..i], true), |schema.dst|) && KeysOk(AddedOf([vs[i]], true), |schema.dst|)
    ensures KeysOk(AddedOf(vs[..i + 1], true), |schema.dst|)
    ensures AddAll(t, schema, s, AddedOf(vs[..i + 1], true)) ==
            AddAll(AddAll(t, schema, s, AddedOf(vs[..i], true)), schema, s, AddedOf([vs[i]], true))
  {
    hide AddedOf, KeysOk, AddAll, Blank, ValueOk, Entered;
    assert vs[..i + 1] == vs[..i] + [vs[i]];
    AddedOfConcat(vs[..i], [vs[i]], true);
    AddedOfConcat(vs[..i], [vs[i]], false);
    AddedOfOk(vs[..i], |schema.dst|);
    AddedOfOk([vs[i]], |schema.dst|);
    AddedOfOk(vs[..i + 1], |schema.dst|);
    AddAllConcat(t, schema, s, AddedOf(vs[..i], true), AddedOf([vs[i]], true));
    assert [vs[i]][0] == vs[i];
  }

  lemma ArgumentStep(t: Table, schema: Schema, s: Key, args: seq<Argument>, i: nat)
    requires i < |args| && |s| == |schema.src| && ArgumentsOk(args, |schema.dst|)
    ensures var vs := Values(args[i]);
            && Added(args[..i + 1], false) == Added(args[..i], false) + AddedOf(vs, false)
            && Failed(args[..i + 1]) == (Failed(args[..i]) || args[i].Invalid? || FailedOf(vs))
            && KeysOk(Added(args[..i], true), |schema.dst|) && KeysOk(AddedOf(vs, true), |schema.dst|)
            && KeysOk(Added(args[..i + 1], true), |schema.dst|)
            && AddAll(t, schema, s, Added(args[..i + 1], true)) ==
               AddAll(AddAll(t, schema, s, Added(args[..i], true)), schema, s, AddedOf(vs, true))
  {
    hide AddedOf, FailedOf, KeysOk, AddAll, Blank, ValueOk;
    assert ArgumentOk(args[i], |schema.dst|);
    assert args[..i + 1] == args[..i] + [args[i]];
    AddedConcat(args[..i], [args[i]], true);
    AddedConcat(args[..i], [args[i]], false);
    assert [args[i]][1..] == [];
    assert Added([args[i]], true) == AddedOf(Values(args[i]), true) && Added([args[i]], false) == AddedOf(Values(args[i]), false);
    AddedOk(args[..i], |schema.dst|);
    AddedOk(args[..i + 1], |schema.dst|);
    assert forall k :: 0 <= k < |Values(args[i])| ==> ValueOk(Values(args[i])[k], |schema.dst|);
    AddedOfOk(Values(args[i]), |schema.dst|);
    AddAllConcat(t, schema, s, Added(args[..i], true), AddedOf(Values(args[i]), true));
  }

  /** The table after Replace; `deleted` is the driver's answer to the deletion. A source without a key
      deletes nothing. */
  function Replaced(t: Table, schema: Schema, s: Key, args: seq<Argument>, deleted: bool): Table
    requires |s| == |schema.src| && forall k :: 0 <= k < |Added(args, true)| ==> |Added(args, true)[k]| == |schema.dst|
  {
    var u := AddAll(t, schema, s, Added(args, true));
    if Blank(s) || !deleted then u else DeleteWhere(u, Leaving(schema, s, Added(args, false)))
  }

  lemma SomeElement<T>(s: set<T>) returns (x: T)
    requires s != {}
    ensures x in s
  {
    x :| x in s;
  }

  // ---------------------------------------------------------------- the join table

  class JoinTableHandler {
    const schema: Schema
    var rows: Table

    ghost predicate Valid()
      reads this
    {
      schema.Distinct() && Clean(rows, schema)
    }

    constructor (schema: Schema)
      requires schema.Distinct()
      ensures Valid() && this.schema == schema && rows == []
    {
      this.schema, rows := schema, [];
    }

    /** The columns and values of the condition map, in any order. */
    static method Entries(conditionMap: Row) returns (columns: seq<int>, values: seq<int>)
      ensures NoDup(columns) && |values| == |columns| && forall c :: c in conditionMap ==> c in columns
      ensures forall i :: 0 <= i < |columns| ==> columns[i] in conditionMap && values[i] == conditionMap[columns[i]]
    {
      columns, values := [], [];
      var left := conditionMap.Keys;
      while left != {}
        invariant left <= conditionMap.Keys && |values| == |columns| && NoDup(columns)
        invariant forall c :: c in conditionMap ==> (c in columns <==> c !in left)
        invariant forall i :: 0 <= i < |columns| ==> columns[i] in conditionMap && values[i] == conditionMap[columns[i]]
        decreases |left|
      {
        ghost var some := SomeElement(left);
        var key :| key in left;
        columns := columns + [key];
        values := values + [conditionMap[key]];
        left := left - {key};
      }
    }

    /** Inserts the pair unless it is there. The entries of the condition map come in any order; the list of
        values is doubled, the first half for the inserted row and the second for the condition. */
    method Add(source: Key, destination: Key, accepted: bool) returns (err: bool)
      requires Valid() && |source| == |schema.src| && |destination| == |schema.dst|
      modifies this
      ensures Valid() && err == !accepted
      ensures rows == if accepted then Insert(old(rows), RowOf(schema, source, destination)) else old(rows)
    {
      hide RowOf, Project, Insert, Assign, InsertUnlessExists;
      var conditionMap := RowOf(schema, source, destination);
      RowOfProjects(schema, source, destination);
      var columns, values := Entries(conditionMap);
      ghost var once := values;
      var n := |values|;
      for i := 0 to n
        invariant values == once + once[..i]
      {
        values := values + [values[i]];
      }
      assert values[..n] == once && values[n..] == once;
      StatementInserts(rows, schema, conditionMap, columns, once);
      InsertAddsKey(rows, schema, source, destination);
      if !accepted { return true; }
      rows := InsertUnlessExists(rows, columns, values[..n], values[n..]);
      err := false;
    }

    /** Deletes the rows of the records given, under the conditions gathered by the caller. The entries of
        the condition map come in any order; without records it is empty. */
    method Delete(source: Option<Key>, destination: Option<Key>, conditions: seq<Condition>, accepted: bool) returns (err: bool)
      requires Valid()
      requires (source.Some? ==> |source.value| == |schema.src|) && (destination.Some? ==> |destination.value| == |schema.dst|)
      modifies this
      ensures Valid() && err == !accepted
      ensures rows == if accepted then DeleteWhere(old(rows), OfRecords(schema, source, destination) + conditions) else old(rows)
    {
      if !accepted { return true; }
      err := false;
      var columns, values := Entries(MapOf(schema, source, destination));
      var all := [Are(columns, values)] + conditions;
      forall k | 0 <= k < |rows|
        ensures AllHold(all, rows[k]) <==> AllHold(OfRecords(schema, source, destination) + conditions, rows[k])
      {
        RecordsAsked(schema, source, destination, rows[k], columns, values, conditions);
      }
      SameDeletion(rows, all, OfRecords(schema, source, destination) + conditions);
      DeleteClean(rows, schema, all);
      rows := DeleteWhere(rows, all);
    }
  }

  // ---------------------------------------------------------------- the association

  class Association {
    const table: JoinTableHandler
    const source: Key
    var field: seq<Key>
    var error: bool

    ghost predicate Valid()
      reads this, table
    {
      table.Valid() && |source| == |table.schema.src| && forall k :: 0 <= k < |field| ==> |field[k]| == |table.schema.dst|
    }

    constructor (table: JoinTableHandler, source: Key, field: seq<Key>)
      requires table.Valid() && |source| == |table.schema.src|
      requires forall k :: 0 <= k < |field| ==> |field[k]| == |table.schema.dst|
      ensures Valid() && this.table == table && this.source == source && this.field == field && !error
    {
      this.table, this.source, this.field, error := table, source, field, false;
    }

    /** One record: saved first if its main primary field is blank, put into the field, then joined. */
    method SaveAssociation(v: Value)
      requires Valid() && ValueOk(v, |table.schema.dst|)
      modifies this, table
      ensures Valid() && KeysOk(AddedOf([v], true), |table.schema.dst|)
      ensures field == old(field) + AddedOf([v], false) && error == (old(error) || FailedOf([v]))
      ensures table.rows == AddAll(old(table.rows), table.schema, source, AddedOf([v], true))
    {
      assert [v][0] == v && [v][1..] == [] && AddedOf([], true) == AddedOf([], false) == [];
      AddedOfOk([v], |table.schema.dst|);
      var key := v.key;
      if v.zero {
        match v.saved
        case None =>
          error := true;
          return;
        case Some(k) =>
          key := k;
      }
      assert Entered(v) == Some(key) && AddedOf([v], false) == [key] && [key][1..] == [];
      assert AddedOf([v], true) == if v.joined then [key] else [];
      field := field + [key];
      var err := table.Add(source, key, v.joined);
      if err { error := true; }
    }

    method SaveSlice(vs: seq<Value>)
      requires Valid() && forall k :: 0 <= k < |vs| ==> ValueOk(vs[k], |table.schema.dst|)
      modifies this, table
      ensures Valid() && KeysOk(AddedOf(vs, true), |table.schema.dst|)
      ensures field == old(field) + AddedOf(vs, false) && error == (old(error) || FailedOf(vs))
      ensures table.rows == AddAll(old(table.rows), table.schema, source, AddedOf(vs, true))
    {
      hide AddedOf, FailedOf, AddAll, Blank, ValueOk, Clean, NoDup;
      ghost var schema, t := table.schema, table.rows;
      NothingAdded(t, schema, source);
      for i := 0 to |vs|
        invariant Valid() && KeysOk(AddedOf(vs[..i], true), |schema.dst|)
        invariant field == old(field) + AddedOf(vs[..i], false)
        invariant error == (old(error) || FailedOf(vs[..i]))
        invariant forall k :: 0 <= k < |AddedOf(vs[..i], true)| ==> |AddedOf(vs[..i], true)[k]| == |schema.dst|
        invariant table.rows == AddAll(t, schema, source, AddedOf(vs[..i], true))
      {
        SliceStep(t, schema, source, vs, i);
        SaveAssociation(vs[i]);
      }
      assert vs[..|vs|] == vs;
    }

    static lemma NothingAdded(t: Table, schema: Schema, s: Key)
      requires |s| == |schema.src|
      ensures (forall joined :: Added([], joined) == [] && AddedOf([], joined) == []) && !Failed([]) && !FailedOf([])
      ensures KeysOk([], |schema.dst|) && AddAll(t, schema, s, []) == t
    {
    }

    static lemma AddedLengths(args: seq<Argument>, n: nat)
      requires ArgumentsOk(args, n)
      ensures forall i, k :: 0 <= i <= |args| && 0 <= k < |Added(args[..i], true)| ==> |Added(args[..i], true)[k]| == n
    {
      forall i, k | 0 <= i <= |args| && 0 <= k < |Added(args[..i], true)| ensures |Added(args[..i], true)[k]| == n {
        AddedOk(args[..i], n);
      }
    }

    method SaveArgument(a: Argument)
      requires Valid() && ArgumentOk(a, |table.schema.dst|)
      modifies this, table
      ensures Valid() && KeysOk(AddedOf(Values(a), true), |table.schema.dst|)
      ensures field == old(field) + AddedOf(Values(a), false) && error == (old(error) || a.Invalid? || FailedOf(Values(a)))
      ensures table.rows == AddAll(old(table.rows), table.schema, source, AddedOf(Values(a), true))
    {
      hide AddedOf, FailedOf, AddAll, Blank, ValueOk, Clean, NoDup;
      NothingAdded(table.rows, table.schema, source);
      match a
      case One(v) => SaveAssociation(v);
      case Slice(vs) => SaveSlice(vs);
      case Invalid =>
        error := true;
    }

    method SaveAssociations(args: seq<Argument>)
      requires Valid() && ArgumentsOk(args, |table.schema.dst|)
      modifies this, table
      ensures Valid() && KeysOk(Added(args, true), |table.schema.dst|)
      ensures field == old(field) + Added(args, false) && error == (old(error) || Failed(args))
      ensures table.rows == AddAll(old(table.rows), table.schema, source, Added(args, true))
    {
      hide Added, AddedOf, Failed, FailedOf, KeysOk, AddAll, Blank, ArgumentOk, Clean, NoDup, Values, ValueOk;
      ghost var schema, t := table.schema, table.rows;
      NothingAdded(t, schema, source);
      AddedLengths(args, |schema.dst|);
      for i := 0 to |args|
        invariant Valid() && KeysOk(Added(args[..i], true), |schema.dst|)
        invariant field == old(field) + Added(args[..i], false)
        invariant error == (old(error) || Failed(args[..i]))
        invariant table.rows == AddAll(t, schema, source, Added(args[..i], true))
      {
        ArgumentStep(t, schema, source, args, i);
        SaveArgument(args[i]);
      }
      assert args[..|args|] == args;
    }

    method Append(args: seq<Argument>)
      requires Valid() && ArgumentsOk(args, |table.schema.dst|)
      modifies this, table
      ensures Valid() && KeysOk(Added(args, true), |table.schema.dst|)
      ensures old(error) ==> error && field == old(field) && table.rows == old(table.rows)
      ensures !old(error) ==> error == Failed(args) && field == old(field) + Added(args, false)
      ensures !old(error) ==> table.rows == AddAll(old(table.rows), table.schema, source, Added(args, true))
      ensures !old(error) ==> forall k :: k in Related(table.rows, table.schema, source) <==>
        k in Related(old(table.rows), table.schema, source) || Entering(args, k, true)
    {
      EnteredRelates(table.rows, table.schema, source, args, true);
      hide Related, Entering;
      if error { return; }
      SaveAssociations(args);
    }

    /** Whatever could not be saved or joined among the arguments, the rows of the other associated records
        go. A source without a key deletes nothing. */
    method Replace(args: seq<Argument>, deleted: bool)
      requires Valid() && ArgumentsOk(args, |table.schema.dst|)
      modifies this, table
      ensures Valid() && KeysOk(Added(args, true), |table.schema.dst|)
      ensures old(error) ==> error && field == old(field) && table.rows == old(table.rows)
      ensures !old(error) ==> error == (Failed(args) || (!Blank(source) && !deleted)) && field == Added(args, false)
      ensures !old(error) ==> table.rows == Replaced(old(table.rows), table.schema, source, args, deleted)
      ensures !old(error) ==> forall k :: k in Related(table.rows, table.schema, source) <==>
        Entering(args, k, true) ||
        (k in Related(old(table.rows), table.schema, source) && (!deleted || Entering(args, k, false) || forall c <- source :: c == 0))
    {
      hide Related, Entering;
      hide Added, Failed, AddAll, DeleteWhere, Clean, NoDup, Blank;
      NothingAdded(table.rows, table.schema, source);
      EnteredRelates(table.rows, table.schema, source, args, deleted);
      AddedOk(args, |table.schema.dst|);
      if error { return; }
      field := [];
      SaveAssociations(args);
      assert field == Added(args, false);
      var conditions: seq<Condition> := [];
      if |args| > 0 {
        NonBlankAll(field, |table.schema.dst|);
        var newPrimaryKeys := NonBlank(field);
        if |newPrimaryKeys| > 0 {
          conditions := conditions + [NotIn(table.schema.dst, newPrimaryKeys)];
        }
      }
      if !Blank(source) {
        assert conditions == if field == [] then [] else [NotIn(table.schema.dst, field)];
        conditions := conditions + [In(table.schema.src, [source])];
        assert conditions == Leaving(table.schema, source, field);
        NoRecords(table.schema, conditions);
        var err := table.Delete(None, None, conditions, deleted);
        if err { error := true; }
      }
    }

    method Clear(deleted: bool)
      requires Valid()
      modifies this, table
      ensures Valid()
      ensures old(error) ==> error && field == old(field) && table.rows == old(table.rows)
      ensures !old(error) ==> error == (!Blank(source) && !deleted) && field == []
      ensures !old(error) ==> table.rows == if Blank(source) || !deleted then old(table.rows)
                                            else ReplaceAll(old(table.rows), table.schema, source, [])
    {
      Replace([], deleted);
    }

    /** Removes the pairs and the records of the field. Arguments without any key make an empty list, which
        the database refuses; a record without a key in the field is an index out of range afterwards. */
    method Delete(args: seq<Argument>, deleted: bool) returns (panicked: bool)
      requires Valid()
      modifies this, table
      ensures Valid()
      ensures old(error) || args == [] ==>
        !panicked && error == old(error) && field == old(field) && table.rows == old(table.rows)
      ensures !old(error) && args != [] && ((forall k :: !Asked(args, k)) || !deleted) ==>
        !panicked && error && field == old(field) && table.rows == old(table.rows)
      ensures !old(error) && args != [] && (exists k :: Asked(args, k)) && deleted ==>
        && !error
        && (forall k :: k in Related(table.rows, table.schema, source) <==>
              k in Related(old(table.rows), table.schema, source) && !Asked(args, k))
        && Others(table.rows, table.schema, source) == Others(old(table.rows), table.schema, source)
        && panicked == (exists i :: 0 <= i < |old(field)| && Blank(old(field)[i]))
        && if panicked then field == old(field) else Leaves(field, old(field), k => Asked(args, k))
    {
      ghost var given := Given(args);
      assert (exists k :: Asked(args, k)) <==> given != [] by { SomeGiven(args); }
      panicked := false;
      if error || |args| == 0 { return; }
      var deleting := CollectKeys(args);
      var conditions := [In(table.schema.src, [source]), In(table.schema.dst, deleting)];
      NoRecords(table.schema, conditions);
      var err := table.Delete(None, None, conditions, deleted && |deleting| > 0);
      if err { error := true; }
      if !error {
        RemovedRelates(old(table.rows), table.schema, source, args);
        WithoutLeaves(field, args);
        var leftValues;
        leftValues, panicked := Remaining(field, deleting);
        if panicked { return; }
        WithoutKeeps(field, deleting, |table.schema.dst|);
        field := leftValues;
      }
    }

    /** The loop over the field's records. */
    static method Remaining(field: seq<Key>, deleting: seq<Key>) returns (leftValues: seq<Key>, panicked: bool)
      ensures panicked == (exists k :: 0 <= k < |field| && Blank(field[k]))
      ensures !panicked ==> leftValues == Without(field, deleting)
    {
      hide Blank, Without;
      leftValues, panicked := [], false;
      assert field[0..] == field;
      for i := 0 to |field|
        invariant forall k :: 0 <= k < i ==> !Blank(field[k])
        invariant leftValues + Without(field[i..], deleting) == Without(field, deleting)
      {
        WithoutStep(field, i, deleting);
        Associate(leftValues, [field[i]], Without(field[i + 1..], deleting));
        if Blank(field[i]) {
          return leftValues, true;
        }
        if field[i] !in deleting {
          leftValues := leftValues + [field[i]];
        }
      }
      WithoutNothing(field, deleting);
    }

    static lemma WithoutStep(field: seq<Key>, i: nat, gone: seq<Key>)
      requires i < |field|
      ensures var rest := Without(field[i + 1..], gone);
              Without(field[i..], gone) == if field[i] in gone then rest else [field[i]] + rest
    {
      assert field[i..][1..] == field[i + 1..];
    }

    static lemma WithoutNothing(field: seq<Key>, gone: seq<Key>)
      ensures Without(field[|field|..], gone) == []
    {
    }

    static method CollectKeys(args: seq<Argument>) returns (keys: seq<Key>)
      ensures keys == Given(args)
    {
      hide NonBlank, KeysOf;
      keys := [];
      for i := 0 to |args|
        invariant keys + Given(args[i..]) == Given(args)
      {
        assert args[i..][1..] == args[i + 1..];
        ghost var rest := Given(args[i + 1..]);
        var more := NonBlank(KeysOf(Values(args[i])));
        assert Given(args[i..]) == more + rest;
        Associate(keys, more, rest);
        keys := keys + more;
      }
    }
  }

  // ---------------------------------------------------------------- what Replace does to the relation

  /** Whatever the arguments and the driver's answers: the joined keys are added and, unless nothing is
      deleted, the old ones go that are not in the field. Other sources keep their rows. */
  lemma ReplacedRelates(t: Table, schema: Schema, s: Key, args: seq<Argument>, deleted: bool)
    requires schema.Distinct() && Clean(t, schema) && |s| == |schema.src| && ArgumentsOk(args, |schema.dst|)
    ensures KeysOk(Added(args, true), |schema.dst|)
    ensures var t' := Replaced(t, schema, s, args, deleted);
            var kept := if Blank(s) || !deleted then Related(t, schema, s) else Related(t, schema, s) * Keys(Added(args, false));
            && Clean(t', schema) && Related(t', schema, s) == kept + Keys(Added(args, true))
            && Others(t', schema, s) == Others(t, schema, s)
  {
    hide Added, AddAll, DeleteWhere, Others, Clean, Related, Leaving, Keys, Blank;
    AddedOk(args, |schema.dst|);
    JoinedAreFielded(args);
    var u := AddAll(t, schema, s, Added(args, true));
    AddAllIsUnion(t, schema, s, Added(args, true));
    LeavingKeeps(u, schema, s, Added(args, false));
  }

  /** In terms of the arguments: after Append exactly the records that were taken are related besides the old
      ones; after Replace, unless nothing is deleted, old ones stay only if they enter the field again. */
  lemma EnteredRelates(t: Table, schema: Schema, s: Key, args: seq<Argument>, deleted: bool)
    requires schema.Distinct() && Clean(t, schema) && |s| == |schema.src| && ArgumentsOk(args, |schema.dst|)
    ensures KeysOk(Added(args, true), |schema.dst|)
    ensures var t' := AddAll(t, schema, s, Added(args, true));
            forall k :: k in Related(t', schema, s) <==> k in Related(t, schema, s) || Entering(args, k, true)
    ensures var t' := Replaced(t, schema, s, args, deleted);
            forall k :: k in Related(t', schema, s) <==>
              Entering(args, k, true) ||
              (k in Related(t, schema, s) && (!deleted || Entering(args, k, false) || forall c <- s :: c == 0))
  {
    hide Added, AddAll, Clean, Related, Entering, Replaced, Blank;
    AddedOk(args, |schema.dst|);
    AddAllIsUnion(t, schema, s, Added(args, true));
    ReplacedRelates(t, schema, s, args, deleted);
    BlankExactly(s);
    forall k ensures k in Keys(Added(args, true)) <==> Entering(args, k, true) { AddedExactly(args, k, true); }
    forall k ensures k in Keys(Added(args, false)) <==> Entering(args, k, false) { AddedExactly(args, k, false); }
  }

  /** A Replace without failures leaves exactly the new keys, if the source has a key. */
  lemma CleanReplace(t: Table, schema: Schema, s: Key, args: seq<Argument>)
    requires |s| == |schema.src| && ArgumentsOk(args, |schema.dst|) && !Failed(args) && !Blank(s)
    ensures KeysOk(Added(args, true), |schema.dst|)
    ensures Replaced(t, schema, s, args, true) == ReplaceAll(t, schema, s, Added(args, true))
  {
    hide Added, AddAll, DeleteWhere, Leaving, Blank, Failed;
    AddedOk(args, |schema.dst|);
    JoinedAreFielded(args);
  }

  /** Failing or not, a Replace keeps every old relation exactly when the source has no key, the deletion is
      refused, or the old keys are all in the new field: that saving a record failed does not matter. */
  lemma ReplaceKeepsExactly(t: Table, schema: Schema, s: Key, args: seq<Argument>, deleted: bool)
    requires schema.Distinct() && Clean(t, schema) && |s| == |schema.src| && ArgumentsOk(args, |schema.dst|)
    ensures KeysOk(Added(args, true), |schema.dst|)
    ensures Related(t, schema, s) <= Related(Replaced(t, schema, s, args, deleted), schema, s) <==>
            Blank(s) || !deleted || Related(t, schema, s) <= Keys(Added(args, false))
  {
    hide Added, Clean, Related, Keys, Blank, Replaced;
    ReplacedRelates(t, schema, s, args, deleted);
    JoinedAreFielded(args);
  }

  /** The smallest case: the only record cannot be saved, and the association is empty afterwards. */
  lemma FailedReplaceStillRemoves(t: Table, schema: Schema, s: Key, k: Key, joined: bool)
    requires schema.Distinct() && Clean(t, schema) && |s| == |schema.src| && |k| == |schema.dst| && !Blank(s)
    ensures var args := [One(Value(k, true, None, joined))];
            Failed(args) && Added(args, true) == [] && Related(Replaced(t, schema, s, args, true), schema, s) == {}
  {
    var v := Value(k, true, None, joined);
    var args := [One(v)];
    assert args[1..] == [] && [v][1..] == [] && [v][0] == v && args[0] == One(v);
    assert FailedOf([v]) && AddedOf([v], true) == AddedOf([v], false) == [];
    assert Failed(args) by { assert FailedOf(Values(args[0])); }
    assert Added(args, true) == Added(args, false) == [];
    assert ArgumentsOk(args, |schema.dst|);
    hide Related, Clean, Replaced;
    ReplacedRelates(t, schema, s, args, true);
    assert Keys([]) == {};
  }
}
