/** The join table of a many-to-many field, the statements generated for it, and the set algebra they are
    meant to be. */
module JoinTables {
  import opened Lists

  /** The values of the foreign key columns of one side. */
  type Key = seq<int>

  /** A row of the join table: its columns and their values. */
  type Row = map<int, int>
  type Table = seq<Row>

  datatype Schema = Schema(src: seq<int>, dst: seq<int>) {
    /** The two sides use different column names. */
    ghost predicate Distinct() {
      NoDup(src + dst)
    }
  }

  /** Every row has a value in every foreign key column. */
  ghost predicate WellFormed(t: Table, schema: Schema) {
    forall k :: 0 <= k < |t| ==> t[k].Keys == (set c | c in schema.src + schema.dst)
  }

  // ---------------------------------------------------------------- rows

  /** `updateConditionMap` for one side. */
  function Assign(m: Row, cols: seq<int>, key: Key): Row
    requires |cols| == |key|
    decreases |cols|
  {
    if cols == [] then m else Assign(m[cols[0] := key[0]], cols[1..], key[1..])
  }

  function RowOf(schema: Schema, s: Key, d: Key): Row
    requires |s| == |schema.src| && |d| == |schema.dst|
  {
    Assign(Assign(map[], schema.src, s), schema.dst, d)
  }

  function Project(r: Row, cols: seq<int>): Key {
    if cols == [] then [] else [if cols[0] in r then r[cols[0]] else 0] + Project(r, cols[1..])
  }

  lemma {:induction false} AssignColumns(m: Row, cols: seq<int>, key: Key)
    requires |cols| == |key| && NoDup(cols)
    ensures var r := Assign(m, cols, key);
            && r.Keys == m.Keys + (set c | c in cols)
            && (forall i :: 0 <= i < |cols| ==> r[cols[i]] == key[i])
            && (forall c :: c in m && c !in cols ==> r[c] == m[c])
    decreases |cols|
  {
    if cols != [] {
      AssignColumns(m[cols[0] := key[0]], cols[1..], key[1..]);
      var r := Assign(m, cols, key);
      assert cols == [cols[0]] + cols[1..] && key == [key[0]] + key[1..];
      assert cols[0] !in cols[1..];
      forall i | 0 <= i < |cols| ensures r[cols[i]] == key[i] {
        if i > 0 { assert cols[i] == cols[1..][i - 1]; }
      }
    }
  }

  lemma {:induction false} ProjectIs(r: Row, cols: seq<int>, key: Key)
    requires |cols| == |key| && forall i :: 0 <= i < |cols| ==> cols[i] in r && r[cols[i]] == key[i]
    ensures Project(r, cols) == key
    decreases |cols|
  {
    if cols != [] {
      assert key == [key[0]] + key[1..];
      ProjectIs(r, cols[1..], key[1..]);
    }
  }

  lemma {:induction false} ProjectAny(r: Row, cols: seq<int>, i: nat)
    requires i < |cols|
    ensures |Project(r, cols)| == |cols| && Project(r, cols)[i] == if cols[i] in r then r[cols[i]] else 0
    decreases |cols|
  {
    if i > 0 { ProjectAny(r, cols[1..], i - 1); } else if |cols| > 1 { ProjectAny(r, cols[1..], 0); }
  }

  lemma DistinctSides(schema: Schema)
    requires schema.Distinct()
    ensures NoDup(schema.src) && NoDup(schema.dst) && forall c :: c in schema.src ==> c !in schema.dst
  {
    var both := schema.src + schema.dst;
    forall i, j | 0 <= i < j < |schema.src| ensures schema.src[i] != schema.src[j] { assert both[i] != both[j]; }
    forall i, j | 0 <= i < j < |schema.dst| ensures schema.dst[i] != schema.dst[j] {
      assert both[|schema.src| + i] != both[|schema.src| + j];
    }
    forall c | c in schema.src ensures c !in schema.dst {
      var i :| 0 <= i < |schema.src| && schema.src[i] == c;
      forall j | 0 <= j < |schema.dst| ensures schema.dst[j] != c { assert both[i] != both[|schema.src| + j]; }
    }
  }

  /** The row of a pair of keys carries the two keys and nothing else. */
  lemma RowOfProjects(schema: Schema, s: Key, d: Key)
    requires schema.Distinct() && |s| == |schema.src| && |d| == |schema.dst|
    ensures var r := RowOf(schema, s, d);
            && r.Keys == (set c | c in schema.src + schema.dst)
            && Project(r, schema.src) == s && Project(r, schema.dst) == d
  {
    DistinctSides(schema);
    var m := Assign(map[], schema.src, s);
    AssignColumns(map[], schema.src, s);
    AssignColumns(m, schema.dst, d);
    ProjectIs(RowOf(schema, s, d), schema.src, s);
    ProjectIs(RowOf(schema, s, d), schema.dst, d);
  }

  // ---------------------------------------------------------------- statements

  /** "c1 = v1 AND c2 = v2 …". */
  predicate Matches(r: Row, cols: seq<int>, vals: seq<int>)
    requires |cols| == |vals|
  {
    forall i :: 0 <= i < |cols| ==> cols[i] in r && r[cols[i]] == vals[i]
  }

  /** INSERT INTO t (cols) SELECT binds WHERE NOT EXISTS (SELECT * FROM t WHERE cols = conditions). */
  function InsertUnlessExists(t: Table, cols: seq<int>, binds: seq<int>, conditions: seq<int>): Table
    requires |cols| == |binds| == |conditions|
  {
    if exists k :: 0 <= k < |t| && Matches(t[k], cols, conditions) then t else t + [Assign(map[], cols, binds)]
  }

  /** What the insertion is for: the row, unless the table has it. */
  function Insert(t: Table, m: Row): Table {
    if m in t then t else t + [m]
  }

  /** "(cols) IN (keys)", "(cols) NOT IN (keys)" or "c1 = v1 AND c2 = v2 …". */
  datatype Condition = In(cols: seq<int>, keys: seq<Key>) | NotIn(cols: seq<int>, keys: seq<Key>) | Are(cols: seq<int>, vals: seq<int>)

  predicate Holds(c: Condition, r: Row) {
    match c
    case In(cols, keys) => Project(r, cols) in keys
    case NotIn(cols, keys) => Project(r, cols) !in keys
    case Are(cols, vals) => |cols| == |vals| && Matches(r, cols, vals)
  }

  predicate AllHold(cs: seq<Condition>, r: Row) {
    forall k :: 0 <= k < |cs| ==> Holds(cs[k], r)
  }

  /** DELETE FROM t WHERE all of the conditions. */
  function DeleteWhere(t: Table, cs: seq<Condition>): Table {
    if t == [] then [] else (if AllHold(cs, t[0]) then [] else [t[0]]) + DeleteWhere(t[1..], cs)
  }

  // ---------------------------------------------------------------- the relation a table stands for

  /** The destination keys related to a source key. */
  function Related(t: Table, schema: Schema, s: Key): set<Key> {
    set r | r in t && Project(r, schema.src) == s :: Project(r, schema.dst)
  }

  /** The rows of all other sources, in their order. */
  function Others(t: Table, schema: Schema, s: Key): Table {
    if t == [] then []
    else (if Project(t[0], schema.src) == s then [] else [t[0]]) + Others(t[1..], schema, s)
  }

  /** A table that stands for a relation: no row twice, every row complete. */
  ghost predicate Clean(t: Table, schema: Schema) {
    WellFormed(t, schema) && NoDup(t)
  }

  lemma {:induction false} OthersConcat(a: Table, b: Table, schema: Schema, s: Key)
    ensures Others(a + b, schema, s) == Others(a, schema, s) + Others(b, schema, s)
    decreases |a|
  {
    if a == [] {
      assert a + b == b;
    } else {
      assert (a + b)[1..] == a[1..] + b;
      OthersConcat(a[1..], b, schema, s);
    }
  }

  /** The relation of another source can be read off the other rows. */
  lemma {:induction false} RelatedOfOthers(t: Table, schema: Schema, s: Key, s2: Key)
    requires s2 != s
    ensures Related(Others(t, schema, s), schema, s2) == Related(t, schema, s2)
    decreases |t|
  {
    OthersIn(t, schema, s);
    assert forall r :: r in Others(t, schema, s) <==> r in t && Project(r, schema.src) != s;
  }

  lemma {:induction false} OthersIn(t: Table, schema: Schema, s: Key)
    ensures forall r :: r in Others(t, schema, s) <==> r in t && Project(r, schema.src) != s
    decreases |t|
  {
    if t != [] {
      OthersIn(t[1..], schema, s);
      assert t == [t[0]] + t[1..];
    }
  }

  // ---------------------------------------------------------------- Add

  /** The insertion of a pair: union with one key, other sources untouched, nothing twice. */
  lemma InsertAddsKey(t: Table, schema: Schema, s: Key, d: Key)
    requires schema.Distinct() && Clean(t, schema) && |s| == |schema.src| && |d| == |schema.dst|
    ensures var t' := Insert(t, RowOf(schema, s, d));
            && Clean(t', schema) && t <= t'
            && Related(t', schema, s) == Related(t, schema, s) + {d}
            && Others(t', schema, s) == Others(t, schema, s)
  {
    hide Project;
    var m := RowOf(schema, s, d);
    RowOfProjects(schema, s, d);
    if m !in t {
      OthersConcat(t, [m], schema, s);
      assert [m][1..] == [];
      assert Others([m], schema, s) == [];
    }
  }

  lemma InsertTwice(t: Table, m: Row)
    ensures Insert(Insert(t, m), m) == Insert(t, m)
  {
    assert m !in t ==> (t + [m])[|t|] == m;
  }

  /** In whatever order the entries of the condition map come, the statement inserts the same row under the
      same condition. */
  lemma StatementInserts(t: Table, schema: Schema, m: Row, cols: seq<int>, vals: seq<int>)
    requires WellFormed(t, schema) && m.Keys == set c | c in schema.src + schema.dst
    requires NoDup(cols) && |vals| == |cols| && (forall i :: 0 <= i < |cols| ==> cols[i] in m && vals[i] == m[cols[i]])
    requires forall c :: c in m ==> c in cols
    ensures InsertUnlessExists(t, cols, vals, vals) == Insert(t, m)
  {
    AssignColumns(map[], cols, vals);
    var r := Assign(map[], cols, vals);
    forall c | c in m ensures c in r && r[c] == m[c] {
      var i :| 0 <= i < |cols| && cols[i] == c;
    }
    assert r.Keys == m.Keys;
    assert r == m;
    forall k | 0 <= k < |t| ensures Matches(t[k], cols, vals) <==> t[k] == m {
      if Matches(t[k], cols, vals) {
        forall c | c in m ensures t[k][c] == m[c] {
          var i :| 0 <= i < |cols| && cols[i] == c;
        }
        assert t[k].Keys == m.Keys;
      }
    }
  }

  // ---------------------------------------------------------------- deleting

  lemma {:induction false} DeleteKeeps(t: Table, cs: seq<Condition>)
    ensures forall r :: r in DeleteWhere(t, cs) <==> r in t && !AllHold(cs, r)
    decreases |t|
  {
    if t != [] {
      DeleteKeeps(t[1..], cs);
      assert t == [t[0]] + t[1..];
    }
  }

  lemma {:induction false} DeleteNoDup(t: Table, cs: seq<Condition>)
    requires NoDup(t)
    ensures NoDup(DeleteWhere(t, cs))
    decreases |t|
  {
    if t != [] {
      assert NoDup(t[1..]) && t[0] !in t[1..];
      DeleteNoDup(t[1..], cs);
      DeleteKeeps(t[1..], cs);
      var d := DeleteWhere(t[1..], cs);
      assert t[0] !in d;
      assert NoDup([t[0]] + d);
    }
  }

  lemma DeleteClean(t: Table, schema: Schema, cs: seq<Condition>)
    requires Clean(t, schema)
    ensures Clean(DeleteWhere(t, cs), schema)
  {
    hide AllHold;
    DeleteKeeps(t, cs);
    DeleteNoDup(t, cs);
    var t' := DeleteWhere(t, cs);
    forall k | 0 <= k < |t'| ensures t'[k].Keys == set c | c in schema.src + schema.dst {
      assert t'[k] in t;
    }
  }

  /** A deletion restricted to one source: the rows of the others stay, in their order. */
  lemma {:induction false} DeleteSparesOthers(t: Table, schema: Schema, s: Key, cs: seq<Condition>)
    requires forall r :: r in t && AllHold(cs, r) ==> Project(r, schema.src) == s
    ensures Others(DeleteWhere(t, cs), schema, s) == Others(t, schema, s)
    decreases |t|
  {
    if t != [] {
      hide AllHold, Project;
      var rest := DeleteWhere(t[1..], cs);
      DeleteSparesOthers(t[1..], schema, s, cs);
      assert t[0] in t;
      if AllHold(cs, t[0]) {
        assert DeleteWhere(t, cs) == rest;
      } else {
        assert DeleteWhere(t, cs) == [t[0]] + rest && ([t[0]] + rest)[1..] == rest;
      }
    }
  }

  lemma {:induction false} DeleteRelated(t: Table, schema: Schema, s: Key, cs: seq<Condition>, gone: set<Key>)
    requires Clean(t, schema)
    requires forall r :: r in t ==> (AllHold(cs, r) <==> Project(r, schema.src) == s && Project(r, schema.dst) in gone)
    ensures var t' := DeleteWhere(t, cs);
            && Clean(t', schema)
            && Related(t', schema, s) == Related(t, schema, s) - gone
            && Others(t', schema, s) == Others(t, schema, s)
  {
    hide AllHold, Project, Others;
    DeleteKeeps(t, cs);
    DeleteClean(t, schema, cs);
    DeleteSparesOthers(t, schema, s, cs);
    var t' := DeleteWhere(t, cs);
    forall r | r in t && r !in t' ensures AllHold(cs, r) { }
  }

  // ---------------------------------------------------------------- deleting for records

  /** The condition map of a deletion that is given records, of the source, of the destination, or neither. */
  function MapOf(schema: Schema, s: Option<Key>, d: Option<Key>): Row
    requires (s.Some? ==> |s.value| == |schema.src|) && (d.Some? ==> |d.value| == |schema.dst|)
  {
    var m := if s.Some? then Assign(map[], schema.src, s.value) else map[];
    if d.Some? then Assign(m, schema.dst, d.value) else m
  }

  /** What the map is for. */
  function OfRecords(schema: Schema, s: Option<Key>, d: Option<Key>): seq<Condition> {
    (if s.Some? then [In(schema.src, [s.value])] else []) + (if d.Some? then [In(schema.dst, [d.value])] else [])
  }

  ghost predicate HasAll(r: Row, cols: seq<int>, key: Key)
    requires |key| == |cols|
  {
    forall i :: 0 <= i < |cols| ==> cols[i] in r && r[cols[i]] == key[i]
  }

  /** A row has a key in columns exactly when it has each of its components. */
  lemma ProjectsTo(r: Row, cols: seq<int>, key: Key)
    requires |key| == |cols| && forall i :: 0 <= i < |cols| ==> cols[i] in r
    ensures Project(r, cols) == key <==> HasAll(r, cols, key)
  {
    hide Project;
    if HasAll(r, cols, key) { ProjectIs(r, cols, key); }
    forall i | 0 <= i < |cols| ensures |Project(r, cols)| == |cols| && Project(r, cols)[i] == r[cols[i]] { ProjectAny(r, cols, i); }
  }

  /** The row agrees with the map at each of its columns. */
  ghost predicate AgreesWith(r: Row, m: Row) {
    forall c :: c in m ==> c in r && r[c] == m[c]
  }

  lemma SideAgrees(r: Row, m: Row, cols: seq<int>, key: Key)
    requires |key| == |cols| && NoDup(cols) && forall c :: c in m ==> c !in cols
    ensures AgreesWith(r, Assign(m, cols, key)) <==> AgreesWith(r, m) && HasAll(r, cols, key)
    ensures Assign(m, cols, key).Keys == m.Keys + set c | c in cols
  {
    AssignColumns(m, cols, key);
    hide Assign, NoDup;
    var n := Assign(m, cols, key);
    if AgreesWith(r, n) {
      forall c | c in m ensures c in r && r[c] == m[c] { assert c in n && n[c] == m[c]; }
      forall i | 0 <= i < |cols| ensures cols[i] in r && r[cols[i]] == key[i] {
        var c := cols[i];
        assert c in n && c in r && r[c] == n[c] && n[c] == key[i];
      }
    }
    if AgreesWith(r, m) && HasAll(r, cols, key) {
      forall c | c in n ensures c in r && r[c] == n[c] {
        if c in cols {
          var i :| 0 <= i < |cols| && cols[i] == c;
          assert n[cols[i]] == key[i];
        } else {
          assert c in m && n[c] == m[c];
        }
      }
    }
  }

  /** The condition map is met by the rows that have the keys of the records. */
  lemma MapAgrees(schema: Schema, s: Option<Key>, d: Option<Key>, r: Row)
    requires schema.Distinct() && r.Keys == set c | c in schema.src + schema.dst
    requires (s.Some? ==> |s.value| == |schema.src|) && (d.Some? ==> |d.value| == |schema.dst|)
    ensures AgreesWith(r, MapOf(schema, s, d)) <==>
            (s.Some? ==> Project(r, schema.src) == s.value) && (d.Some? ==> Project(r, schema.dst) == d.value)
  {
    DistinctSides(schema);
    forall i | 0 <= i < |schema.src| ensures schema.src[i] in r { assert schema.src[i] in schema.src + schema.dst; }
    forall i | 0 <= i < |schema.dst| ensures schema.dst[i] in r { assert schema.dst[i] in schema.src + schema.dst; }
    hide Project, Assign, NoDup, HasAll;
    var e: Row := map[];
    var m := if s.Some? then Assign(e, schema.src, s.value) else e;
    assert AgreesWith(r, e);
    if s.Some? {
      SideAgrees(r, e, schema.src, s.value);
      ProjectsTo(r, schema.src, s.value);
    }
    hide AgreesWith;
    if d.Some? {
      SideAgrees(r, m, schema.dst, d.value);
      ProjectsTo(r, schema.dst, d.value);
    }
  }

  lemma OneHolds(c: Condition, r: Row)
    ensures AllHold([c], r) <==> Holds(c, r)
  {
    hide Holds;
    assert [c][0] == c;
  }

  /** In whatever order the entries of the map come, "c1 = v1 AND …" says that the row agrees with it. */
  lemma EntriesAgree(m: Row, r: Row, cols: seq<int>, vals: seq<int>)
    requires |vals| == |cols| && (forall c :: c in m ==> c in cols)
    requires forall i :: 0 <= i < |cols| ==> cols[i] in m && vals[i] == m[cols[i]]
    ensures Matches(r, cols, vals) <==> AgreesWith(r, m)
  {
    if Matches(r, cols, vals) {
      forall c | c in m ensures c in r && r[c] == m[c] {
        var i :| 0 <= i < |cols| && cols[i] == c;
      }
    }
    if AgreesWith(r, m) {
      forall i | 0 <= i < |cols| ensures cols[i] in r && r[cols[i]] == vals[i] {
        var c := cols[i];
        assert c in m && c in r && r[c] == m[c];
      }
    }
  }

  /** So the generated condition asks for the records' keys. */
  lemma RecordsAsked(schema: Schema, s: Option<Key>, d: Option<Key>, r: Row, cols: seq<int>, vals: seq<int>, rest: seq<Condition>)
    requires schema.Distinct() && r.Keys == set c | c in schema.src + schema.dst
    requires (s.Some? ==> |s.value| == |schema.src|) && (d.Some? ==> |d.value| == |schema.dst|)
    requires |vals| == |cols| && forall c :: c in MapOf(schema, s, d) ==> c in cols
    requires forall i :: 0 <= i < |cols| ==> cols[i] in MapOf(schema, s, d) && vals[i] == MapOf(schema, s, d)[cols[i]]
    ensures AllHold([Are(cols, vals)] + rest, r) <==> AllHold(OfRecords(schema, s, d) + rest, r)
  {
    hide Project, MapOf, AllHold, Matches, AgreesWith;
    MapAgrees(schema, s, d, r);
    EntriesAgree(MapOf(schema, s, d), r, cols, vals);
    AllHoldConcat([Are(cols, vals)], rest, r);
    OneHolds(Are(cols, vals), r);
    AllHoldConcat(OfRecords(schema, s, d), rest, r);
    RecordsHold(schema, s, d, r);
  }

  lemma RecordsHold(schema: Schema, s: Option<Key>, d: Option<Key>, r: Row)
    ensures AllHold(OfRecords(schema, s, d), r) <==>
            (s.Some? ==> Project(r, schema.src) == s.value) && (d.Some? ==> Project(r, schema.dst) == d.value)
  {
    hide Project, AllHold;
    assert AllHold([], r) by { NothingHolds(r); }
    if s.Some? { OneHolds(In(schema.src, [s.value]), r); }
    if d.Some? { OneHolds(In(schema.dst, [d.value]), r); }
    AllHoldConcat(if s.Some? then [In(schema.src, [s.value])] else [], if d.Some? then [In(schema.dst, [d.value])] else [], r);
  }

  lemma NothingHolds(r: Row)
    ensures AllHold([], r)
  {
  }

  lemma NoRecords(schema: Schema, conditions: seq<Condition>)
    ensures OfRecords(schema, None, None) + conditions == conditions
  {
  }

  lemma AllHoldConcat(a: seq<Condition>, b: seq<Condition>, r: Row)
    ensures AllHold(a + b, r) <==> AllHold(a, r) && AllHold(b, r)
  {
    hide Holds;
    assert forall k :: 0 <= k < |a| ==> (a + b)[k] == a[k];
    assert forall k :: 0 <= k < |b| ==> (a + b)[|a| + k] == b[k];
    if AllHold(a, r) && AllHold(b, r) {
      forall k | 0 <= k < |a + b| ensures Holds((a + b)[k], r) {
        if k >= |a| { assert (a + b)[k] == b[k - |a|]; }
      }
    }
  }

  lemma {:induction false} SameDeletion(t: Table, a: seq<Condition>, b: seq<Condition>)
    requires forall k :: 0 <= k < |t| ==> (AllHold(a, t[k]) <==> AllHold(b, t[k]))
    ensures DeleteWhere(t, a) == DeleteWhere(t, b)
    decreases |t|
  {
    hide AllHold;
    if t != [] {
      assert AllHold(a, t[0]) <==> AllHold(b, t[0]);
      SameDeletion(t[1..], a, b);
    }
  }

  // ---------------------------------------------------------------- the operations on the table

  /** The rows of `saveAssociations`: one insertion for each key. */
  function AddAll(t: Table, schema: Schema, s: Key, keys: seq<Key>): Table
    requires |s| == |schema.src| && forall k :: 0 <= k < |keys| ==> |keys[k]| == |schema.dst|
    decreases |keys|
  {
    if keys == [] then t else AddAll(Insert(t, RowOf(schema, s, keys[0])), schema, s, keys[1..])
  }

  function Keys(keys: seq<Key>): set<Key> {
    set k | k in keys
  }

  lemma {:induction false} AddAllIsUnion(t: Table, schema: Schema, s: Key, keys: seq<Key>)
    requires schema.Distinct() && Clean(t, schema) && |s| == |schema.src|
    requires forall k :: 0 <= k < |keys| ==> |keys[k]| == |schema.dst|
    ensures var t' := AddAll(t, schema, s, keys);
            && Clean(t', schema) && t <= t'
            && Related(t', schema, s) == Related(t, schema, s) + Keys(keys)
            && Others(t', schema, s) == Others(t, schema, s)
    decreases |keys|
  {
    hide Related, Others, Clean, Insert, RowOf;
    if keys != [] {
      InsertAddsKey(t, schema, s, keys[0]);
      AddAllIsUnion(Insert(t, RowOf(schema, s, keys[0])), schema, s, keys[1..]);
      assert keys == [keys[0]] + keys[1..];
      assert Keys(keys) == {keys[0]} + Keys(keys[1..]);
    } else {
      assert Keys(keys) == {};
    }
  }

  /** The conditions of Replace: everything of the source that is not among the keys. */
  function Leaving(schema: Schema, s: Key, keys: seq<Key>): seq<Condition> {
    var source := In(schema.src, [s]);
    if keys == [] then [source] else [NotIn(schema.dst, keys), source]
  }

  lemma LeavingKeeps(t: Table, schema: Schema, s: Key, keys: seq<Key>)
    requires Clean(t, schema)
    ensures var t' := DeleteWhere(t, Leaving(schema, s, keys));
            && Clean(t', schema)
            && Related(t', schema, s) == Related(t, schema, s) * Keys(keys)
            && Others(t', schema, s) == Others(t, schema, s)
  {
    hide DeleteWhere, Others, Project, Clean;
    var cs := Leaving(schema, s, keys);
    var gone := Related(t, schema, s) - Keys(keys);
    forall r | r in t ensures AllHold(cs, r) <==> Project(r, schema.src) == s && Project(r, schema.dst) in gone {
      assert Holds(In(schema.src, [s]), r) <==> Project(r, schema.src) == s;
      if keys == [] {
        assert AllHold(cs, r) <==> Holds(cs[0], r);
        assert Keys(keys) == {};
      } else {
        assert AllHold(cs, r) <==> Holds(cs[0], r) && Holds(cs[1], r);
      }
    }
    DeleteRelated(t, schema, s, cs, gone);
  }

  /** Replace: the new rows, then everything of the source that is not among them. */
  function ReplaceAll(t: Table, schema: Schema, s: Key, keys: seq<Key>): Table
    requires |s| == |schema.src| && forall k :: 0 <= k < |keys| ==> |keys[k]| == |schema.dst|
  {
    DeleteWhere(AddAll(t, schema, s, keys), Leaving(schema, s, keys))
  }

  lemma ReplaceAllIsReplacement(t: Table, schema: Schema, s: Key, keys: seq<Key>)
    requires schema.Distinct() && Clean(t, schema) && |s| == |schema.src|
    requires forall k :: 0 <= k < |keys| ==> |keys[k]| == |schema.dst|
    ensures var t' := ReplaceAll(t, schema, s, keys);
            && Clean(t', schema)
            && Related(t', schema, s) == Keys(keys)
            && Others(t', schema, s) == Others(t, schema, s)
  {
    hide AddAll, DeleteWhere, Others, Clean, Related, Leaving, Keys;
    AddAllIsUnion(t, schema, s, keys);
    LeavingKeeps(AddAll(t, schema, s, keys), schema, s, keys);
  }

  function RemoveAll(t: Table, schema: Schema, s: Key, keys: seq<Key>): Table {
    DeleteWhere(t, [In(schema.src, [s]), In(schema.dst, keys)])
  }

  lemma RemoveAllIsDifference(t: Table, schema: Schema, s: Key, keys: seq<Key>)
    requires Clean(t, schema)
    ensures var t' := RemoveAll(t, schema, s, keys);
            && Clean(t', schema)
            && Related(t', schema, s) == Related(t, schema, s) - Keys(keys)
            && Others(t', schema, s) == Others(t, schema, s)
  {
    hide DeleteWhere, Others, Project, Clean;
    var cs := [In(schema.src, [s]), In(schema.dst, keys)];
    forall r | r in t ensures AllHold(cs, r) <==> Project(r, schema.src) == s && Project(r, schema.dst) in Keys(keys) {
      assert AllHold(cs, r) <==> Holds(cs[0], r) && Holds(cs[1], r);
    }
    DeleteRelated(t, schema, s, cs, Keys(keys));
  }

  // ---------------------------------------------------------------- runs

  datatype Op = Append(keys: seq<Key>) | Replace(keys: seq<Key>) | Remove(keys: seq<Key>) | Clear

  /** One operation on the association of one source. */
  datatype Call = Call(source: Key, op: Op)

  predicate Fits(c: Call, schema: Schema) {
    |c.source| == |schema.src| &&
    (c.op.Append? || c.op.Replace? ==> forall k :: 0 <= k < |c.op.keys| ==> |c.op.keys[k]| == |schema.dst|)
  }

  function Apply(t: Table, schema: Schema, c: Call): Table
    requires Fits(c, schema)
  {
    match c.op
    case Append(keys) => AddAll(t, schema, c.source, keys)
    case Replace(keys) => ReplaceAll(t, schema, c.source, keys)
    case Remove(keys) => RemoveAll(t, schema, c.source, keys)
    case Clear => ReplaceAll(t, schema, c.source, [])
  }

  function Run(t: Table, schema: Schema, calls: seq<Call>): Table
    requires forall k :: 0 <= k < |calls| ==> Fits(calls[k], schema)
    decreases |calls|
  {
    if calls == [] then t else Run(Apply(t, schema, calls[0]), schema, calls[1..])
  }

  /** The same calls on plain sets. */
  function SetApply(rel: set<Key>, op: Op): set<Key> {
    match op
    case Append(keys) => rel + Keys(keys)
    case Replace(keys) => Keys(keys)
    case Remove(keys) => rel - Keys(keys)
    case Clear => {}
  }

  function SetRun(rel: set<Key>, s: Key, calls: seq<Call>): set<Key>
    decreases |calls|
  {
    if calls == [] then rel
    else SetRun(if calls[0].source == s then SetApply(rel, calls[0].op) else rel, s, calls[1..])
  }

  lemma ApplyRefines(t: Table, schema: Schema, c: Call, s: Key)
    requires schema.Distinct() && Clean(t, schema) && Fits(c, schema)
    ensures Clean(Apply(t, schema, c), schema)
    ensures Related(Apply(t, schema, c), schema, s) ==
            if c.source == s then SetApply(Related(t, schema, s), c.op) else Related(t, schema, s)
  {
    hide Related, Others, Clean, AddAll, ReplaceAll, RemoveAll;
    match c.op {
      case Append(keys) => AddAllIsUnion(t, schema, c.source, keys);
      case Replace(keys) => ReplaceAllIsReplacement(t, schema, c.source, keys);
      case Remove(keys) => RemoveAllIsDifference(t, schema, c.source, keys);
      case Clear =>
        ReplaceAllIsReplacement(t, schema, c.source, []);
        assert Keys([]) == {};
    }
    if c.source != s {
      RelatedOfOthers(t, schema, c.source, s);
      RelatedOfOthers(Apply(t, schema, c), schema, c.source, s);
    }
  }

  /** Over any run of operations on any sources, the table stands for the sets the operations describe. */
  lemma {:induction false} RunRefines(t: Table, schema: Schema, calls: seq<Call>, s: Key)
    requires schema.Distinct() && Clean(t, schema) && forall k :: 0 <= k < |calls| ==> Fits(calls[k], schema)
    ensures Clean(Run(t, schema, calls), schema)
    ensures Related(Run(t, schema, calls), schema, s) == SetRun(Related(t, schema, s), s, calls)
    decreases |calls|
  {
    hide Related, Clean, Apply, Fits, SetApply;
    if calls != [] {
      ApplyRefines(t, schema, calls[0], s);
      RunRefines(Apply(t, schema, calls[0]), schema, calls[1..], s);
    }
  }

  // ---------------------------------------------------------------- column names in common

  /** Both keys can be read back from the row of any pair. */
  ghost predicate Carries(schema: Schema) {
    forall s: Key, d: Key {:trigger RowOf(schema, s, d)} :: |s| == |schema.src| && |d| == |schema.dst| ==>
      Project(RowOf(schema, s, d), schema.src) == s && Project(RowOf(schema, s, d), schema.dst) == d
  }

  /** The condition map carries both keys exactly when all columns have different names. */
  lemma CarriesExactly(schema: Schema)
    ensures Carries(schema) <==> schema.Distinct()
  {
    if schema.Distinct() {
      forall s: Key, d: Key | |s| == |schema.src| && |d| == |schema.dst|
        ensures Project(RowOf(schema, s, d), schema.src) == s && Project(RowOf(schema, s, d), schema.dst) == d
      {
        RowOfProjects(schema, s, d);
      }
    } else {
      var n := |schema.src|;
      var both := schema.src + schema.dst;
      var s, d := seq(n, k => k), seq(|schema.dst|, k => n + k);
      var r := RowOf(schema, s, d);
      var i, j :| 0 <= i < j < |both| && both[i] == both[j];
      assert (s + d)[i] == i && (s + d)[j] == j;
      ReadsColumn(r, schema, s, d, i);
      ReadsColumn(r, schema, s, d, j);
    }
  }

  lemma ReadsColumn(r: Row, schema: Schema, s: Key, d: Key, i: nat)
    requires |s| == |schema.src| && |d| == |schema.dst| && i < |s + d|
    ensures var c := (schema.src + schema.dst)[i];
            Project(r, schema.src) == s && Project(r, schema.dst) == d ==> (s + d)[i] == if c in r then r[c] else 0
  {
    if i < |schema.src| { ProjectAny(r, schema.src, i); } else { ProjectAny(r, schema.dst, i - |schema.src|); }
  }

  /** The smallest case: the destination key overwrites the source key. */
  lemma SharedColumnLosesSource(c: int, s: int, d: int)
    ensures RowOf(Schema([c], [c]), [s], [d]) == map[c := d]
  {
    var cs, ks, kd := [c], [s], [d];
    assert cs[1..] == [] && ks[1..] == [] && kd[1..] == [];
    assert Assign(map[], cs, ks) == Assign(map[c := s], cs[1..], ks[1..]) == map[c := s];
    assert Assign(map[c := s], cs, kd) == Assign(map[c := d], cs[1..], kd[1..]) == map[c := d];
  }
}
