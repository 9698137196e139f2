/** The PostgreSQL sink (pkg/pipeline/peer/pg/peer.go, pkg/pgx/crud.go) and the claim it serves:
    replaying a source's change stream keeps the sink's tables equal to the source's. */
module Replica {
  import opened Options
  import opened Cdc

  // ---- Databases ----

  type TableName = (string, string)   // schema, table

  datatype TableDef = TableDef(columns: seq<RelColumn>, primaryKeys: seq<string>)

  type Catalog = map<TableName, TableDef>

  type Database = map<TableName, set<Row>>

  predicate IsColumn(columns: seq<RelColumn>, name: string) {
    exists i | 0 <= i < |columns| :: columns[i].name == name
  }

  predicate ValidDef(def: TableDef) {
    && Distinct(def.columns)
    && def.primaryKeys != []
    && forall k | k in def.primaryKeys :: IsColumn(def.columns, k)
  }

  /** Two rows agree on the primary key. */
  predicate SameKey(def: TableDef, a: Row, b: Row) {
    forall k | k in def.primaryKeys :: k in a && k in b && a[k] == b[k]
  }

  predicate ValidRow(def: TableDef, row: Row) {
    HasColumns(def.columns, row) && forall k | k in def.primaryKeys :: k in row && row[k] != Null
  }

  predicate ValidTable(def: TableDef, rows: set<Row>) {
    && (forall r | r in rows :: ValidRow(def, r))
    && (forall r, s | r in rows && s in rows && SameKey(def, r, s) :: r == s)
  }

  predicate ValidDatabase(catalog: Catalog, db: Database) {
    && db.Keys == catalog.Keys
    && forall t | t in catalog :: ValidDef(catalog[t]) && ValidTable(catalog[t], db[t])
  }

  // ---- Statements as the sink's server runs them ----

  /** Columns paired with placeholder numbers. */
  datatype Bound = Bound(column: string, n: nat)

  datatype Statement =
    | InsertInto(table: TableName, columns: seq<Bound>)
    | UpdateSet(table: TableName, sets: seq<Bound>, wheres: seq<Bound>)

  /** The values bound to columns; defined when every placeholder has a value. */
  predicate Resolves(bounds: seq<Bound>, values: seq<Value>) {
    forall i | 0 <= i < |bounds| :: 1 <= bounds[i].n <= |values|
  }

  function Assigned(bounds: seq<Bound>, values: seq<Value>): Row
    requires Resolves(bounds, values)
    decreases |bounds|
  {
    if bounds == [] then map[]
    else
      var i := |bounds| - 1;
      Assigned(bounds[..i], values)[bounds[i].column := values[bounds[i].n - 1]]
  }

  function ColumnNames(columns: seq<RelColumn>): set<string> {
    set i | 0 <= i < |columns| :: columns[i].name
  }

  /** Columns an INSERT does not mention are null. */
  function NullRow(columns: seq<RelColumn>): Row {
    map name | name in ColumnNames(columns) :: Null
  }

  predicate Matches(row: Row, where: Row) {
    forall k | k in where :: k in row && where[k] != Null && row[k] == where[k]
  }

  function UpdateRows(rows: set<Row>, where: Row, sets: Row): set<Row> {
    set r | r in rows :: if Matches(r, where) then r + sets else r
  }

  /** The database after a statement and the number of rows affected; a failed statement, without
      columns to insert or set, for an unknown table or column, or for a violated key, changes
      nothing. */
  datatype Outcome = Done(db: Database, affected: nat) | Failed

  /** An UPDATE must keep matching rows apart: two different rows may not end up equal, nor
      share a key. */
  function Run(catalog: Catalog, db: Database, s: Statement, values: seq<Value>): Outcome
    requires db.Keys == catalog.Keys
  {
    if s.table !in catalog then Failed
    else
      var def := catalog[s.table];
      match s
      case InsertInto(t, columns) =>
        if columns == [] || !Resolves(columns, values) then Failed
        else
          var row := NullRow(def.columns) + Assigned(columns, values);
          if ValidRow(def, row) && forall r | r in db[t] :: !SameKey(def, r, row)
          then Outcome.Done(db[t := db[t] + {row}], 1) else Failed
      case UpdateSet(t, sets, wheres) =>
        if sets == [] || !Resolves(sets, values) || !Resolves(wheres, values) then Failed
        else
          var where, new_ := Assigned(wheres, values), Assigned(sets, values);
          var rows := UpdateRows(db[t], where, new_);
          if ValidTable(def, rows) && |rows| == |db[t]|
          then Outcome.Done(db[t := rows], |set r | r in db[t] && Matches(r, where)|) else Failed
  }

  // ---- crud.go ----

  class Server {
    const catalog: Catalog
    var db: Database

    constructor (catalog: Catalog, db: Database)
      requires db.Keys == catalog.Keys
      ensures Valid() && this.catalog == catalog && this.db == db
    {
      this.catalog, this.db := catalog, db;
    }

    ghost predicate Valid()
      reads this
    {
      db.Keys == catalog.Keys
    }

    /** conn.Exec: the number of rows affected, or failure. */
    method Exec(s: Statement, values: seq<Value>) returns (ok: bool, affected: nat)
      requires Valid()
      modifies this
      ensures Valid()
      ensures match Run(catalog, old(db), s, values)
              case Failed => !ok && db == old(db)
              case Done(after, n) => ok && db == after && affected == n
    {
      var r := Run(catalog, db, s, values);
      match r
      case Failed => ok, affected := false, 0;
      case Done(after, n) =>
        db := after;
        ok, affected := true, n;
    }
  }

  class QueryBuilder {
    const table: TableName
    var values: seq<Value>
    var nextIndex: nat

    /** newQueryBuilder: an empty schema name means public. */
    constructor (tableName: string, schemaName: string)
      ensures Aligned() && values == []
      ensures table == TargetTable(tableName, schemaName)
    {
      table := TargetTable(tableName, schemaName);
      values := [];
      nextIndex := 1;
    }

    /** The next placeholder belongs to the next value. */
    ghost predicate Aligned()
      reads this
    {
      nextIndex == |values| + 1
    }

    method Placeholder() returns (n: nat)
      requires Aligned()
      modifies this`nextIndex
      ensures n == old(nextIndex) && nextIndex == n + 1
    {
      n := nextIndex;
      nextIndex := nextIndex + 1;
    }

    method AddValue(v: Value)
      modifies this`values
      ensures values == old(values) + [v]
    {
      values := values + [v];
    }

    /** One loop over a map, in whatever order its keys come: every key is paired with a
        placeholder, and the pairs assign exactly the map. */
    method BindAll(data: Row) returns (bounds: seq<Bound>)
      requires Aligned()
      modifies this
      ensures Aligned() && old(values) <= values
      ensures Resolves(bounds, values) && Assigned(bounds, values) == data
    {
      hide Resolves, Assigned;
      bounds := [];
      EmptyAssigned(values);
      var todo := data.Keys;
      ghost var done: set<string> := {};
      while todo != {}
        invariant Aligned() && old(values) <= values
        invariant done + todo == data.Keys && done !! todo
        invariant Resolves(bounds, values)
        invariant Assigned(bounds, values) == map k | k in done :: data[k]
        decreases todo
      {
        var key :| key in todo;
        todo := todo - {key};
        done := done + {key};
        var n := Placeholder();
        AssignedSnoc(bounds, values, key, data[key]);
        AddValue(data[key]);
        bounds := bounds + [Bound(key, n)];
      }
      assert (map k | k in data.Keys :: data[k]) == data;
    }
  }

  function TargetTable(tableName: string, schemaName: string): TableName {
    (if schemaName == "" then "public" else schemaName, tableName)
  }

  lemma {:induction false} AssignedGrows(bounds: seq<Bound>, values: seq<Value>, more: seq<Value>)
    requires Resolves(bounds, values) && values <= more
    ensures Resolves(bounds, more) && Assigned(bounds, more) == Assigned(bounds, values)
    decreases |bounds|
  {
    if bounds != [] {
      AssignedGrows(bounds[..|bounds| - 1], values, more);
    }
  }

  /** One more value with its placeholder assigns one more column. */
  lemma AssignedSnoc(bounds: seq<Bound>, values: seq<Value>, column: string, v: Value)
    requires Resolves(bounds, values)
    ensures var bounds1, values1 := bounds + [Bound(column, |values| + 1)], values + [v];
            Resolves(bounds1, values1) && Assigned(bounds1, values1) == Assigned(bounds, values)[column := v]
  {
    var bounds1 := bounds + [Bound(column, |values| + 1)];
    AssignedGrows(bounds, values, values + [v]);
    assert bounds1[..|bounds|] == bounds;
  }

  lemma EmptyBounds(bounds: seq<Bound>, values: seq<Value>)
    requires Resolves(bounds, values)
    ensures Assigned(bounds, values) == map[] <==> bounds == []
  {
    if bounds != [] { assert bounds[|bounds| - 1].column in Assigned(bounds, values); }
  }

  lemma EmptyAssigned(values: seq<Value>)
    ensures Resolves([], values) && Assigned([], values) == map[]
  {
  }

  datatype Error = BadData | NotInserted | NoWhere | NotUpdated | NoRows | NotConnected | NoTable | NotCached | NoBefore | NoKey | BadOperation

  /** The state after inserting a row built from data, or the error. */
  function Inserted(catalog: Catalog, db: Database, t: TableName, data: Row): Option<Database>
    requires db.Keys == catalog.Keys
  {
    if t !in catalog || data == map[] then None
    else
      var row := NullRow(catalog[t].columns) + data;
      if ValidRow(catalog[t], row) && forall r | r in db[t] :: !SameKey(catalog[t], r, row)
      then Some(db[t := db[t] + {row}]) else None
  }

  /** InsertRow */
  method InsertRow(server: Server, tableName: string, data: Data, schemaName: string) returns (e: Option<Error>)
    requires server.Valid()
    modifies server
    ensures server.Valid()
    ensures if !data.Fields? then e == Some(BadData) && server.db == old(server.db)
            else match Inserted(server.catalog, old(server.db), TargetTable(tableName, schemaName), data.m)
                 case None => e == Some(NotInserted) && server.db == old(server.db)
                 case Some(after) => e == None && server.db == after
  {
    var qb := new QueryBuilder(tableName, schemaName);
    if !data.Fields? { return Some(BadData); }
    var columns := qb.BindAll(data.m);
    EmptyBounds(columns, qb.values);
    var ok, _ := server.Exec(InsertInto(qb.table, columns), qb.values);
    e := if ok then None else Some(NotInserted);
  }

  /** The rows of a table after setting the columns of data where the columns of where match, and
      how many matched; None when the server refuses. */
  function Updated(catalog: Catalog, db: Database, t: TableName, data: Row, where: Row): Option<(Database, nat)>
    requires db.Keys == catalog.Keys
  {
    if t !in catalog || data == map[] then None
    else
      var rows := UpdateRows(db[t], where, data);
      if ValidTable(catalog[t], rows) && |rows| == |db[t]|
      then Some((db[t := rows], |set r | r in db[t] && Matches(r, where)|)) else None
  }

  /** UpdateRow: SET values first, then WHERE values, in one numbering. */
  method UpdateRow(
    server: Server, tableName: string, data: Data, where: Row, schemaName: string) returns (e: Option<Error>)
    requires server.Valid()
    modifies server
    ensures server.Valid()
    ensures if !data.Fields? then e == Some(BadData) && server.db == old(server.db)
            else if where == map[] then e == Some(NoWhere) && server.db == old(server.db)
            else match Updated(server.catalog, old(server.db), TargetTable(tableName, schemaName), data.m, where)
                 case None => e == Some(NotUpdated) && server.db == old(server.db)
                 case Some((after, n)) => e == (if n == 0 then Some(NoRows) else None) && server.db == after
  {
    var qb := new QueryBuilder(tableName, schemaName);
    if !data.Fields? { return Some(BadData); }
    var sets := qb.BindAll(data.m);
    ghost var setValues := qb.values;
    var wheres := qb.BindAll(where);
    AssignedGrows(sets, setValues, qb.values);
    EmptyBounds(sets, qb.values);
    EmptyBounds(wheres, qb.values);
    if wheres == [] { return Some(NoWhere); }
    var ok, affected := server.Exec(UpdateSet(qb.table, sets, wheres), qb.values);
    if !ok { return Some(NotUpdated); }
    e := if affected == 0 then Some(NoRows) else None;
  }

  // ---- peer.go ----

  function FullName(s: Source): string { s.schemaName + "." + s.table }

  /** The WHERE of an update: the primary key columns present in the before image. */
  function KeyOf(primaryKeys: seq<string>, before: Row): Row {
    map k | k in primaryKeys && k in before :: before[k]
  }

  /** primaryKeys: the sink's schema cache, by schema.table. */
  function Published(
    catalog: Catalog, primaryKeys: map<string, seq<string>>, db: Database, p: Payload): (Database, Option<Error>)
    requires db.Keys == catalog.Keys
  {
    if p.after == Nil then (db, Some(NotConnected))
    else if p.source.table == "" then (db, Some(NoTable))
    else if FullName(p.source) !in primaryKeys then (db, Some(NotCached))
    else
      var t := TargetTable(p.source.table, p.source.schemaName);
      match p.op
      case Create => PublishedCreate(catalog, db, t, p.after)
      case Update => PublishedUpdate(catalog, db, t, primaryKeys[FullName(p.source)], p)
      case Delete => (db, None)
      case Truncate => (db, None)
      case _ => (db, Some(BadOperation))
  }

  function PublishedCreate(catalog: Catalog, db: Database, t: TableName, after: Data): (Database, Option<Error>)
    requires db.Keys == catalog.Keys
  {
    if !after.Fields? then (db, Some(BadData))
    else match Inserted(catalog, db, t, after.m)
      case None => (db, Some(NotInserted))
      case Some(db1) => (db1, None)
  }

  function PublishedUpdate(
    catalog: Catalog, db: Database, t: TableName, keys: seq<string>, p: Payload): (Database, Option<Error>)
    requires db.Keys == catalog.Keys
  {
    if p.before == Nil then (db, Some(NoBefore))
    else if !p.before.Fields? then (db, Some(BadData))
    else
      var where := KeyOf(keys, p.before.m);
      if where == map[] then (db, Some(NoKey))
      else if !p.after.Fields? then (db, Some(BadData))
      else match Updated(catalog, db, t, p.after.m, where)
        case None => (db, Some(NotUpdated))
        case Some((db1, n)) => (db1, if n == 0 then Some(NoRows) else None)
  }

  class PeerPG {
    const server: Server
    var tables: map<string, seq<string>>   // schema cache: primary keys by schema.table

    constructor (server: Server, tables: map<string, seq<string>>)
      ensures this.server == server && this.tables == tables
    {
      this.server, this.tables := server, tables;
    }

    /** Pub, on a connected peer. A before image that is not an object makes the source panic;
        here it is an error. */
    method Pub(event: Payload) returns (e: Option<Error>)
      requires server.Valid()
      modifies server
      ensures server.Valid()
      ensures (server.db, e) == Published(server.catalog, tables, old(server.db), event)
    {
      if event.after == Nil { return Some(NotConnected); }
      if event.source.table == "" { return Some(NoTable); }
      var name := FullName(event.source);
      if name !in tables { return Some(NotCached); }
      match event.op
      case Create =>
        e := InsertRow(server, event.source.table, event.after, event.source.schemaName);
      case Update =>
        if event.before == Nil { return Some(NoBefore); }
        if !event.before.Fields? { return Some(BadData); }
        var where: Row := map[];
        var keys := tables[name];
        for i := 0 to |keys|
          invariant where == KeyOf(keys[..i], event.before.m)
        {
          if keys[i] in event.before.m { where := where[keys[i] := event.before.m[keys[i]]]; }
        }
        assert keys[..|keys|] == keys;
        if where == map[] { return Some(NoKey); }
        e := UpdateRow(server, event.source.table, event.after, where, event.source.schemaName);
      case Delete => return None;
      case Truncate => return None;
      case NoOp => return Some(BadOperation);
      case Read => return Some(BadOperation);
    }
  }

  // ---- The source ----

  /** What happens at the source: a table is described to subscribers under an id, a row is
      inserted, a row is replaced. An update carries an old tuple, or none, and leaves out the
      values of columns that are unchanged and stored apart. */
  datatype Change =
    | Announce(id: nat, t: TableName)
    | InsertRowOf(id: nat, row: Row)
    | ReplaceRowOf(id: nat, old_: Row, new_: Row, oldTuple: Option<Tuple>, omitted: set<string>)

  type Names = map<nat, TableName>   // tables described so far

  function NamesAfter(names: Names, c: Change): Names {
    if c.Announce? then names[c.id := c.t] else names
  }

  /** The source tables after a change. */
  function SourceAfter(names: Names, db: Database, c: Change): Database {
    match c
    case Announce(_, _) => db
    case InsertRowOf(id, row) =>
      if id in names && names[id] in db then db[names[id] := db[names[id]] + {row}] else db
    case ReplaceRowOf(id, o, n, _, _) =>
      if id in names && names[id] in db then db[names[id] := db[names[id]] - {o} + {n}] else db
  }

  /** A change the source can make and describe: tables are described before their rows change,
      rows stay valid with distinct keys, the old tuple of an update, which may be missing and
      carries full identity or just the key, has the old row's key, and only unchanged columns are
      left out. */
  ghost predicate Possible(catalog: Catalog, codec: Codec, names: Names, db: Database, c: Change)
    requires ValidDatabase(catalog, db)
  {
    match c
    case Announce(_, t) => t in catalog
    case InsertRowOf(id, row) =>
      && id in names && names[id] in catalog
      && ValidRow(catalog[names[id]], row)
      && forall r | r in db[names[id]] :: !SameKey(catalog[names[id]], r, row)
    case ReplaceRowOf(id, o, n, oldTuple, omitted) =>
      && (forall k | k in omitted && k in n :: k in o && o[k] == n[k])
      && id in names && names[id] in catalog
      && ValidRow(catalog[names[id]], n) && o in db[names[id]]
      && (forall r | r in db[names[id]] && r != o :: !SameKey(catalog[names[id]], r, n))
      && (oldTuple.Some? ==>
            && |oldTuple.value| <= |catalog[names[id]].columns|
            && SameKey(catalog[names[id]], o, DecodeTuple(codec, catalog[names[id]].columns, oldTuple.value)))
  }

  /** The sink takes an update: it has an old tuple, and its key is not left out. */
  predicate Taken(def: TableDef, c: Change)
    requires c.ReplaceRowOf?
  {
    c.oldTuple.Some? && forall k | k in def.primaryKeys :: k !in c.omitted
  }

  /** The sink learns of the change: an update it takes leaves out only columns that are null, and
      one it refuses changes nothing. */
  predicate Carried(catalog: Catalog, names: Names, c: Change) {
    c.ReplaceRowOf? && c.id in names && names[c.id] in catalog ==>
      if Taken(catalog[names[c.id]], c) then forall k | k in c.omitted && k in c.new_ :: c.new_[k] == Null
      else c.old_ == c.new_
  }

  predicate AllCarried(catalog: Catalog, names: Names, changes: seq<Change>)
    decreases |changes|
  {
    changes != [] ==>
      Carried(catalog, names, changes[0]) && AllCarried(catalog, NamesAfter(names, changes[0]), changes[1..])
  }

  /** The message the source sends for a change. */
  function MessageOf(catalog: Catalog, codec: Codec, names: Names, c: Change): Message
    requires match c
             case Announce(_, t) => t in catalog
             case InsertRowOf(id, row) => id in names && names[id] in catalog && HasColumns(catalog[names[id]].columns, row)
             case ReplaceRowOf(id, _, n, _, _) =>
               id in names && names[id] in catalog && HasColumns(catalog[names[id]].columns, n)
  {
    match c
    case Announce(id, t) => RelationMsg(id, Relation(t.0, t.1, catalog[t].columns))
    case InsertRowOf(id, row) => InsertMsg(id, EncodeRow(codec, catalog[names[id]].columns, row, {}))
    case ReplaceRowOf(id, _, n, oldTuple, omitted) =>
      UpdateMsg(id, oldTuple, Some(EncodeRow(codec, catalog[names[id]].columns, n, omitted)))
  }

  /** The relation cache describes the announced tables. */
  predicate CacheAgrees(catalog: Catalog, names: Names, relations: Relations) {
    && relations.Keys == names.Keys
    && forall id | id in names :: names[id] in catalog
         && relations[id] == Relation(names[id].0, names[id].1, catalog[names[id]].columns)
  }

  /** The sink knows the catalog's primary keys, and names are ones a PostgreSQL table can have. */
  predicate SinkReady(catalog: Catalog, primaryKeys: map<string, seq<string>>) {
    forall t | t in catalog ::
      && t.0 != "" && t.1 != ""
      && FullName(Source(t.0, t.1)) in primaryKeys
      && primaryKeys[FullName(Source(t.0, t.1))] == catalog[t].primaryKeys
  }

  function PublishAll(
    catalog: Catalog, primaryKeys: map<string, seq<string>>, db: Database, events: seq<Payload>): Database
    requires db.Keys == catalog.Keys
    decreases |events|
  {
    if events == [] then db
    else
      PublishedKeepsKeys(catalog, primaryKeys, db, events[0]);
      PublishAll(catalog, primaryKeys, Published(catalog, primaryKeys, db, events[0]).0, events[1..])
  }

  lemma PublishedKeepsKeys(catalog: Catalog, primaryKeys: map<string, seq<string>>, db: Database, p: Payload)
    requires db.Keys == catalog.Keys
    ensures Published(catalog, primaryKeys, db, p).0.Keys == catalog.Keys
  {
  }

  // ---- One step of replication ----

  lemma RowsAreNotEmpty(def: TableDef, row: Row)
    requires ValidDef(def) && HasColumns(def.columns, row)
    ensures row != map[]
  {
    assert def.primaryKeys[0] in def.primaryKeys;
    var i :| 0 <= i < |def.columns| && def.columns[i].name == def.primaryKeys[0];
    assert def.columns[i].name in row;
  }

  lemma InsertedRow(catalog: Catalog, db: Database, t: TableName, row: Row)
    requires ValidDatabase(catalog, db) && t in catalog && ValidRow(catalog[t], row)
    requires forall r | r in db[t] :: !SameKey(catalog[t], r, row)
    ensures Inserted(catalog, db, t, row) == Some(db[t := db[t] + {row}])
    ensures ValidTable(catalog[t], db[t] + {row})
  {
    var def := catalog[t];
    RowsAreNotEmpty(def, row);
    assert (NullRow(def.columns) + row).Keys == row.Keys;
    assert NullRow(def.columns) + row == row;
    forall r, s | r in db[t] + {row} && s in db[t] + {row} && SameKey(def, r, s)
      ensures r == s
    {
      if r == row && s != row { assert SameKey(def, s, r); }
    }
  }

  /** The key of the old row, taken from any image that has it, matches that row alone. */
  lemma KeyMatchesOneRow(def: TableDef, rows: set<Row>, o: Row, before: Row)
    requires ValidDef(def) && ValidTable(def, rows) && o in rows && SameKey(def, o, before)
    ensures var where := KeyOf(def.primaryKeys, before);
            where != map[] && forall r | r in rows :: Matches(r, where) <==> r == o
  {
    var where := KeyOf(def.primaryKeys, before);
    assert def.primaryKeys[0] in where;
    forall r | r in rows
      ensures Matches(r, where) <==> r == o
    {
      assert forall k | k in where :: k in o && where[k] != Null && o[k] == where[k];
      if Matches(r, where) {
        assert forall k | k in def.primaryKeys :: k in where && where[k] == o[k];
        assert SameKey(def, r, o);
      }
    }
  }

  /** Setting every column of the one matching row replaces it. */
  lemma UpdateReplaces(def: TableDef, rows: set<Row>, o: Row, n: Row, where: Row)
    requires o in rows && HasColumns(def.columns, o) && HasColumns(def.columns, n)
    requires forall r | r in rows :: Matches(r, where) <==> r == o
    ensures UpdateRows(rows, where, n) == rows - {o} + {n}
    ensures (set r | r in rows && Matches(r, where)) == {o}
  {
    hide Matches;
    assert o + n == n by {
      assert (o + n).Keys == n.Keys by { OverwriteAll(def, o, n); }
    }
    var after := UpdateRows(rows, where, n);
    forall r | r in after
      ensures r in rows - {o} + {n}
    {
      var q :| q in rows && r == if Matches(q, where) then q + n else q;
    }
    forall r | r in rows - {o} + {n}
      ensures r in after
    {
      var q := if r in rows - {o} then r else o;
      assert q in rows && r == if Matches(q, where) then q + n else q;
    }
  }

  lemma OverwriteAll(def: TableDef, o: Row, n: Row)
    requires HasColumns(def.columns, o) && HasColumns(def.columns, n)
    ensures (o + n).Keys == n.Keys
  {
    forall k | k in o
      ensures k in n
    {
      var i :| 0 <= i < |def.columns| && def.columns[i].name == k;
    }
  }

  lemma ReplacementIsValid(def: TableDef, rows: set<Row>, o: Row, n: Row)
    requires ValidTable(def, rows) && o in rows && ValidRow(def, n)
    requires forall r | r in rows && r != o :: !SameKey(def, r, n)
    ensures ValidTable(def, rows - {o} + {n}) && |rows - {o} + {n}| == |rows|
  {
    hide HasColumns;
    var after := rows - {o} + {n};
    assert SameKey(def, n, n);
    assert n !in rows - {o};
    forall r, s | r in after && s in after && SameKey(def, r, s)
      ensures r == s
    {
      assert SameKey(def, s, r);
    }
  }

  lemma AnnounceStep(
    catalog: Catalog, codec: Codec, primaryKeys: map<string, seq<string>>, names: Names, relations: Relations,
    db: Database, c: Change)
    requires ValidDatabase(catalog, db) && CacheAgrees(catalog, names, relations)
    requires c.Announce? && c.t in catalog
    ensures CacheAgrees(catalog, NamesAfter(names, c), RelationsAfter(relations, MessageOf(catalog, codec, names, c)))
  {
  }

  lemma InsertStep(
    catalog: Catalog, codec: Codec, primaryKeys: map<string, seq<string>>, names: Names, relations: Relations,
    db: Database, c: Change)
    requires ValidDatabase(catalog, db) && CacheAgrees(catalog, names, relations)
    requires SinkReady(catalog, primaryKeys) && RoundTrips(codec)
    requires c.InsertRowOf? && Possible(catalog, codec, names, db, c)
    ensures var msg := MessageOf(catalog, codec, names, c);
            Fits(relations, msg)
            && PublishAll(catalog, primaryKeys, db, EventsOf(codec, relations, msg)) == SourceAfter(names, db, c)
    ensures ValidDatabase(catalog, SourceAfter(names, db, c))
  {
    hide HasColumns, SameKey, EncodeRow, DecodeTuple, RoundTrips, Inserted, PublishedUpdate, PublishAll, ValidTable;
    var t := names[c.id];
    var def := catalog[t];
    DecodeUndoesEncode(codec, def.columns, c.row, {});
    var events := EventsOf(codec, relations, MessageOf(catalog, codec, names, c));
    InsertedRow(catalog, db, t, c.row);
    PublishOne(catalog, primaryKeys, db, events);
  }

  lemma PublishOne(catalog: Catalog, primaryKeys: map<string, seq<string>>, db: Database, events: seq<Payload>)
    requires db.Keys == catalog.Keys && |events| == 1
    ensures PublishAll(catalog, primaryKeys, db, events) == Published(catalog, primaryKeys, db, events[0]).0
  {
    hide Published;
  }

  /** What the sink receives of a valid row is valid, with the row's key, if no key column is left
      out. */
  lemma ReceivedRow(def: TableDef, n: Row, omitted: set<string>)
    requires ValidRow(def, n)
    ensures HasColumns(def.columns, Received(n, omitted))
    ensures ValidRow(def, Received(n, omitted)) <==> forall k | k in def.primaryKeys :: k !in omitted
  {
  }

  /** One row, other than the old one, that has the key of the new one excludes the change. */
  lemma ReceivedKey(def: TableDef, rows: set<Row>, o: Row, n: Row, omitted: set<string>)
    requires ValidRow(def, n) && forall k | k in def.primaryKeys :: k !in omitted
    requires forall r | r in rows && r != o :: !SameKey(def, r, n)
    ensures forall r | r in rows && r != o :: !SameKey(def, r, Received(n, omitted))
  {
    forall r | r in rows && r != o
      ensures !SameKey(def, r, Received(n, omitted))
    {
      var k :| k in def.primaryKeys && !(k in r && k in n && r[k] == n[k]);
      assert Received(n, omitted)[k] == n[k];
    }
  }

  /** A taken update puts the received row in place of the old one. */
  lemma TakenUpdates(catalog: Catalog, codec: Codec, names: Names, db: Database, c: Change)
    requires ValidDatabase(catalog, db) && c.ReplaceRowOf? && Possible(catalog, codec, names, db, c)
    requires Taken(catalog[names[c.id]], c)
    ensures var t, row := names[c.id], Received(c.new_, c.omitted);
            var where := KeyOf(catalog[t].primaryKeys, DecodeTuple(codec, catalog[t].columns, c.oldTuple.value));
            where != map[] && Updated(catalog, db, t, row, where) == Some((db[t := db[t] - {c.old_} + {row}], 1))
  {
    hide DecodeTuple, Matches, UpdateRows, KeyOf, SameKey, Received;
    var t, row := names[c.id], Received(c.new_, c.omitted);
    var def := catalog[t];
    var before := DecodeTuple(codec, def.columns, c.oldTuple.value);
    KeyMatchesOneRow(def, db[t], c.old_, before);
    ReceivedRow(def, c.new_, c.omitted);
    ReceivedKey(def, db[t], c.old_, c.new_, c.omitted);
    RowsAreNotEmpty(def, row);
    hide HasColumns;
    UpdateReplaces(def, db[t], c.old_, row, KeyOf(def.primaryKeys, before));
    ReplacementIsValid(def, db[t], c.old_, row);
  }

  /** Without a key column the server refuses the received row. */
  lemma RefusedUpdates(catalog: Catalog, codec: Codec, names: Names, db: Database, c: Change)
    requires ValidDatabase(catalog, db) && c.ReplaceRowOf? && Possible(catalog, codec, names, db, c) && c.oldTuple.Some?
    requires !Taken(catalog[names[c.id]], c)
    ensures var t := names[c.id];
            var where := KeyOf(catalog[t].primaryKeys, DecodeTuple(codec, catalog[t].columns, c.oldTuple.value));
            Updated(catalog, db, t, Received(c.new_, c.omitted), where) == None
  {
    hide DecodeTuple, Matches, UpdateRows, KeyOf, SameKey, Received;
    var t, row := names[c.id], Received(c.new_, c.omitted);
    var def := catalog[t];
    var before := DecodeTuple(codec, def.columns, c.oldTuple.value);
    KeyMatchesOneRow(def, db[t], c.old_, before);
    ReceivedRow(def, c.new_, c.omitted);
    hide HasColumns;
    UpdateReplaces(def, db[t], c.old_, row, KeyOf(def.primaryKeys, before));
    assert row in db[t] - {c.old_} + {row};
  }

  lemma ReplaceKeepsValid(catalog: Catalog, codec: Codec, names: Names, db: Database, c: Change)
    requires ValidDatabase(catalog, db) && c.ReplaceRowOf? && Possible(catalog, codec, names, db, c)
    ensures ValidDatabase(catalog, SourceAfter(names, db, c))
  {
    hide HasColumns, DecodeTuple, SameKey;
    ReplacementIsValid(catalog[names[c.id]], db[names[c.id]], c.old_, c.new_);
  }

  lemma ReplaceEvent(
    catalog: Catalog, codec: Codec, names: Names, relations: Relations, db: Database, c: Change)
    requires ValidDatabase(catalog, db) && CacheAgrees(catalog, names, relations) && RoundTrips(codec)
    requires c.ReplaceRowOf? && Possible(catalog, codec, names, db, c)
    ensures var msg := MessageOf(catalog, codec, names, c);
            var t := names[c.id];
            var before, row := DecodeOptional(codec, catalog[t].columns, c.oldTuple), Received(c.new_, c.omitted);
            Fits(relations, msg)
            && EventsOf(codec, relations, msg) == [Payload(Fields(before), Fields(row), Source(t.0, t.1), Operation.Update)]
  {
    hide HasColumns, EncodeRow, DecodeTuple, RoundTrips, SameKey, ValidTable, Received;
    DecodesToReceived(codec, catalog[names[c.id]].columns, c.new_, c.omitted);
  }

  lemma PublishUpdate(
    catalog: Catalog, primaryKeys: map<string, seq<string>>, db: Database, t: TableName, before: Row, after: Row)
    requires db.Keys == catalog.Keys
    requires t.0 != "" && t.1 != "" && FullName(Source(t.0, t.1)) in primaryKeys
    ensures var where := KeyOf(primaryKeys[FullName(Source(t.0, t.1))], before);
            var updated := Updated(catalog, db, t, after, where);
            var events := [Payload(Fields(before), Fields(after), Source(t.0, t.1), Operation.Update)];
            PublishAll(catalog, primaryKeys, db, events)
            == if where != map[] && updated.Some? then updated.value.0 else db
  {
    hide KeyOf, Updated, FullName, PublishAll;
    PublishOne(catalog, primaryKeys, db, [Payload(Fields(before), Fields(after), Source(t.0, t.1), Operation.Update)]);
  }

  lemma ReplaceStep(
    catalog: Catalog, codec: Codec, primaryKeys: map<string, seq<string>>, names: Names, relations: Relations,
    db: Database, c: Change)
    requires ValidDatabase(catalog, db) && CacheAgrees(catalog, names, relations)
    requires SinkReady(catalog, primaryKeys) && RoundTrips(codec)
    requires c.ReplaceRowOf? && Possible(catalog, codec, names, db, c)
    ensures var msg := MessageOf(catalog, codec, names, c);
            Fits(relations, msg)
            && (PublishAll(catalog, primaryKeys, db, EventsOf(codec, relations, msg)) == SourceAfter(names, db, c)
                <==> Carried(catalog, names, c))
    ensures ValidDatabase(catalog, SourceAfter(names, db, c))
  {
    hide HasColumns, EncodeRow, DecodeTuple, RoundTrips, KeyOf, SameKey, ValidTable, ValidDef, Updated, EventsOf, Fits,
      Published, PublishAll, Received;
    ReplaceKeepsValid(catalog, codec, names, db, c);
    ReplaceEvent(catalog, codec, names, relations, db, c);
    var t := names[c.id];
    var row := Received(c.new_, c.omitted);
    if c.oldTuple.Some? {
      PublishUpdate(catalog, primaryKeys, db, t, DecodeTuple(codec, catalog[t].columns, c.oldTuple.value), row);
    } else {
      UpdateNeedsOldTuple(catalog, codec, primaryKeys, relations, db, c.id, MessageOf(catalog, codec, names, c).newTuple.value);
    }
    if Taken(catalog[t], c) {
      TakenUpdates(catalog, codec, names, db, c);
      SameReplacement(catalog[t], db[t], c.old_, c.new_, c.omitted);
      assert SourceAfter(names, db, c)[t] == db[t] - {c.old_} + {c.new_};
    } else {
      if c.oldTuple.Some? { RefusedUpdates(catalog, codec, names, db, c); }
      ReplacementChanges(catalog[t], db[t], c.old_, c.new_);
      assert SourceAfter(names, db, c)[t] == db[t] - {c.old_} + {c.new_};
      if c.old_ == c.new_ { assert SourceAfter(names, db, c) == db; }
    }
  }

  /** The received row in place of the new one makes no difference if and only if they are equal. */
  lemma SameReplacement(def: TableDef, rows: set<Row>, o: Row, n: Row, omitted: set<string>)
    requires ValidRow(def, n) && forall k | k in def.primaryKeys :: k !in omitted
    requires forall r | r in rows && r != o :: !SameKey(def, r, n)
    ensures rows - {o} + {Received(n, omitted)} == rows - {o} + {n}
            <==> forall k | k in omitted && k in n :: n[k] == Null
  {
    var row := Received(n, omitted);
    assert SameKey(def, row, n);
    assert row in rows - {o} + {row};
    assert row == n <==> forall k | k in n :: row[k] == n[k];
  }

  lemma ReplacementChanges(def: TableDef, rows: set<Row>, o: Row, n: Row)
    requires o in rows
    ensures rows - {o} + {n} == rows ==> o == n
    ensures o == n ==> rows - {o} + {n} == rows
  {
    assert o != n ==> o !in rows - {o} + {n};
  }

  /** An update that carries no old tuple is refused and changes nothing at the sink. */
  lemma UpdateNeedsOldTuple(
    catalog: Catalog, codec: Codec, primaryKeys: map<string, seq<string>>, relations: Relations, db: Database,
    id: nat, newTuple: Tuple)
    requires db.Keys == catalog.Keys && Fits(relations, UpdateMsg(id, None, Some(newTuple)))
    ensures PublishAll(catalog, primaryKeys, db, EventsOf(codec, relations, UpdateMsg(id, None, Some(newTuple)))) == db
  {
    var events := EventsOf(codec, relations, UpdateMsg(id, None, Some(newTuple)));
    assert |events| == 1 && events[1..] == [];
    forall keys: seq<string>
      ensures KeyOf(keys, map[]) == map[]
    {
    }
  }

  // ---- Runs ----

  function SourceRun(names: Names, db: Database, changes: seq<Change>): Database
    decreases |changes|
  {
    if changes == [] then db
    else SourceRun(NamesAfter(names, changes[0]), SourceAfter(names, db, changes[0]), changes[1..])
  }

  ghost predicate PossibleRun(catalog: Catalog, codec: Codec, names: Names, db: Database, changes: seq<Change>)
    decreases |changes|
  {
    changes != [] ==>
      && ValidDatabase(catalog, db) && Possible(catalog, codec, names, db, changes[0])
      && PossibleRun(catalog, codec, NamesAfter(names, changes[0]), SourceAfter(names, db, changes[0]), changes[1..])
  }

  ghost function Messages(
    catalog: Catalog, codec: Codec, names: Names, db: Database, changes: seq<Change>): seq<Message>
    requires PossibleRun(catalog, codec, names, db, changes)
    decreases |changes|
  {
    if changes == [] then []
    else
      [MessageOf(catalog, codec, names, changes[0])]
      + Messages(catalog, codec, NamesAfter(names, changes[0]), SourceAfter(names, db, changes[0]), changes[1..])
  }

  predicate AllFit(relations: Relations, messages: seq<Message>)
    decreases |messages|
  {
    messages != [] ==> Fits(relations, messages[0]) && AllFit(RelationsAfter(relations, messages[0]), messages[1..])
  }

  /** Decoding each message and publishing its events, in order. */
  function SinkRun(
    catalog: Catalog, codec: Codec, primaryKeys: map<string, seq<string>>, relations: Relations, db: Database,
    messages: seq<Message>): Database
    requires db.Keys == catalog.Keys && AllFit(relations, messages)
    decreases |messages|
  {
    if messages == [] then db
    else
      var events := EventsOf(codec, relations, messages[0]);
      PublishAllKeepsKeys(catalog, primaryKeys, db, events);
      SinkRun(catalog, codec, primaryKeys, RelationsAfter(relations, messages[0]),
              PublishAll(catalog, primaryKeys, db, events), messages[1..])
  }

  lemma {:induction false} PublishAllKeepsKeys(
    catalog: Catalog, primaryKeys: map<string, seq<string>>, db: Database, events: seq<Payload>)
    requires db.Keys == catalog.Keys
    ensures PublishAll(catalog, primaryKeys, db, events).Keys == catalog.Keys
    decreases |events|
  {
    if events != [] {
      PublishedKeepsKeys(catalog, primaryKeys, db, events[0]);
      PublishAllKeepsKeys(catalog, primaryKeys, Published(catalog, primaryKeys, db, events[0]).0, events[1..]);
    }
  }

  /** Decoding each message of the changes and publishing its events, in order, leaves the sink
      equal to the source. */
  ghost predicate Mirrored(
    catalog: Catalog, codec: Codec, primaryKeys: map<string, seq<string>>,
    names: Names, relations: Relations, db: Database, changes: seq<Change>)
  {
    && db.Keys == catalog.Keys && PossibleRun(catalog, codec, names, db, changes)
    && var messages := Messages(catalog, codec, names, db, changes);
       AllFit(relations, messages)
       && SinkRun(catalog, codec, primaryKeys, relations, db, messages) == SourceRun(names, db, changes)
  }

  /** One change, decoded and published, is the same change at the sink if and only if it is
      carried by its message. */
  lemma MirrorStep(
    catalog: Catalog, codec: Codec, primaryKeys: map<string, seq<string>>, names: Names, relations: Relations,
    db: Database, c: Change)
    requires ValidDatabase(catalog, db) && CacheAgrees(catalog, names, relations)
    requires SinkReady(catalog, primaryKeys) && RoundTrips(codec)
    requires Possible(catalog, codec, names, db, c)
    ensures var msg := MessageOf(catalog, codec, names, c);
            && Fits(relations, msg)
            && (PublishAll(catalog, primaryKeys, db, EventsOf(codec, relations, msg)) == SourceAfter(names, db, c)
                <==> Carried(catalog, names, c))
            && CacheAgrees(catalog, NamesAfter(names, c), RelationsAfter(relations, msg))
    ensures ValidDatabase(catalog, SourceAfter(names, db, c))
  {
    hide SinkReady, RoundTrips, ValidDatabase;
    match c
    case Announce(_, _) => AnnounceStep(catalog, codec, primaryKeys, names, relations, db, c);
    case InsertRowOf(_, _) => InsertStep(catalog, codec, primaryKeys, names, relations, db, c);
    case ReplaceRowOf(_, _, _, _, _) => ReplaceStep(catalog, codec, primaryKeys, names, relations, db, c);
  }

  /** After a first change that is mirrored, the rest decides. */
  lemma MirroredRest(
    catalog: Catalog, codec: Codec, primaryKeys: map<string, seq<string>>,
    names: Names, relations: Relations, db: Database, changes: seq<Change>)
    requires changes != [] && ValidDatabase(catalog, db) && PossibleRun(catalog, codec, names, db, changes)
    requires ValidDatabase(catalog, SourceAfter(names, db, changes[0]))
    requires var msg := MessageOf(catalog, codec, names, changes[0]);
             Fits(relations, msg)
             && PublishAll(catalog, primaryKeys, db, EventsOf(codec, relations, msg)) == SourceAfter(names, db, changes[0])
    ensures Mirrored(catalog, codec, primaryKeys, names, relations, db, changes)
            <==> Mirrored(catalog, codec, primaryKeys, NamesAfter(names, changes[0]),
                          RelationsAfter(relations, MessageOf(catalog, codec, names, changes[0])),
                          SourceAfter(names, db, changes[0]), changes[1..])
  {
    hide Possible, Fits, MessageOf, EventsOf, PublishAll, ValidTable, ValidDef, SourceAfter, NamesAfter, RelationsAfter;
    var messages := Messages(catalog, codec, names, db, changes);
    assert messages[1..] == Messages(catalog, codec, NamesAfter(names, changes[0]), SourceAfter(names, db, changes[0]), changes[1..]);
  }

  lemma {:induction false} PossiblePrefix(
    catalog: Catalog, codec: Codec, names: Names, db: Database, changes: seq<Change>, k: nat)
    requires PossibleRun(catalog, codec, names, db, changes) && k <= |changes|
    ensures PossibleRun(catalog, codec, names, db, changes[..k])
    decreases |changes|
  {
    hide Possible, ValidDatabase;
    if k > 0 {
      PossiblePrefix(catalog, codec, NamesAfter(names, changes[0]), SourceAfter(names, db, changes[0]), changes[1..], k - 1);
      assert changes[..k][1..] == changes[1..][..k - 1];
    }
  }

  /** One change alone is mirrored if and only if it is carried. */
  lemma MirroredOne(
    catalog: Catalog, codec: Codec, primaryKeys: map<string, seq<string>>,
    names: Names, relations: Relations, db: Database, c: Change)
    requires ValidDatabase(catalog, db) && CacheAgrees(catalog, names, relations)
    requires SinkReady(catalog, primaryKeys) && RoundTrips(codec) && Possible(catalog, codec, names, db, c)
    ensures Mirrored(catalog, codec, primaryKeys, names, relations, db, [c]) <==> Carried(catalog, names, c)
  {
    MirrorStep(catalog, codec, primaryKeys, names, relations, db, c);
    MessagesOfOne(catalog, codec, names, db, c);
    hide CacheAgrees, SinkReady, RoundTrips, Possible, EventsOf, PublishAll, Fits, ValidTable, ValidDef, SourceAfter,
      MessageOf, Messages, SourceRun, SinkRun, AllFit, PossibleRun, Carried;
    SinkRunOfOne(catalog, codec, primaryKeys, relations, db, MessageOf(catalog, codec, names, c));
  }

  lemma MessagesOfOne(catalog: Catalog, codec: Codec, names: Names, db: Database, c: Change)
    requires ValidDatabase(catalog, db) && Possible(catalog, codec, names, db, c)
    ensures PossibleRun(catalog, codec, names, db, [c])
    ensures Messages(catalog, codec, names, db, [c]) == [MessageOf(catalog, codec, names, c)]
    ensures SourceRun(names, db, [c]) == SourceAfter(names, db, c)
  {
    hide SourceAfter, NamesAfter;
    assert [c][1..] == [];
  }

  lemma SinkRunOfOne(
    catalog: Catalog, codec: Codec, primaryKeys: map<string, seq<string>>, relations: Relations, db: Database, msg: Message)
    requires db.Keys == catalog.Keys && Fits(relations, msg)
    ensures AllFit(relations, [msg])
    ensures SinkRun(catalog, codec, primaryKeys, relations, db, [msg])
            == PublishAll(catalog, primaryKeys, db, EventsOf(codec, relations, msg))
  {
    hide PublishAll, EventsOf, Fits;
    assert [msg][1..] == [];
    assert AllFit(RelationsAfter(relations, msg), []);
  }

  /** Over every run of announcements, inserts and updates, key changes included, and whatever order
      the maps are iterated in: the sink equals the source after every change if and only if every
      update that the sink takes, having an old tuple and its key, leaves out only null columns,
      and every other changes nothing. */
  lemma {:induction false} MirrorExactly(
    catalog: Catalog, codec: Codec, primaryKeys: map<string, seq<string>>,
    names: Names, relations: Relations, db: Database, changes: seq<Change>)
    requires ValidDatabase(catalog, db) && CacheAgrees(catalog, names, relations)
    requires SinkReady(catalog, primaryKeys) && RoundTrips(codec)
    requires PossibleRun(catalog, codec, names, db, changes)
    ensures (forall k | 0 <= k <= |changes| :: Mirrored(catalog, codec, primaryKeys, names, relations, db, changes[..k]))
            <==> AllCarried(catalog, names, changes)
    decreases |changes|
  {
    hide CacheAgrees, SinkReady, RoundTrips, EventsOf, PublishAll, Fits, ValidTable, ValidDef, SourceAfter,
      MessageOf, NamesAfter, RelationsAfter, Carried;
    assert Mirrored(catalog, codec, primaryKeys, names, relations, db, []);
    if changes == [] {
      assert changes[..0] == [];
    } else {
      var c := changes[0];
      MirroredOne(catalog, codec, primaryKeys, names, relations, db, c);
      assert changes[..1] == [c];
      if Carried(catalog, names, c) {
        MirrorStep(catalog, codec, primaryKeys, names, relations, db, c);
        var names1, db1 := NamesAfter(names, c), SourceAfter(names, db, c);
        var relations1 := RelationsAfter(relations, MessageOf(catalog, codec, names, c));
        MirrorExactly(catalog, codec, primaryKeys, names1, relations1, db1, changes[1..]);
        hide Mirrored;
        forall k | 0 < k <= |changes|
          ensures Mirrored(catalog, codec, primaryKeys, names, relations, db, changes[..k])
                  <==> Mirrored(catalog, codec, primaryKeys, names1, relations1, db1, changes[1..][..k - 1])
        {
          PossiblePrefix(catalog, codec, names, db, changes, k);
          assert changes[..k][1..] == changes[1..][..k - 1];
          MirroredRest(catalog, codec, primaryKeys, names, relations, db, changes[..k]);
        }
        var rest := changes[1..];
        if forall k | 0 <= k <= |changes| :: Mirrored(catalog, codec, primaryKeys, names, relations, db, changes[..k]) {
          forall j | 0 <= j <= |rest|
            ensures Mirrored(catalog, codec, primaryKeys, names1, relations1, db1, rest[..j])
          {
            assert Mirrored(catalog, codec, primaryKeys, names, relations, db, changes[..j + 1]);
          }
        }
      }
    }
  }

  /** The sink ends equal to the source. */
  lemma Mirror(
    catalog: Catalog, codec: Codec, primaryKeys: map<string, seq<string>>,
    names: Names, relations: Relations, db: Database, changes: seq<Change>)
    requires ValidDatabase(catalog, db) && CacheAgrees(catalog, names, relations)
    requires SinkReady(catalog, primaryKeys) && RoundTrips(codec)
    requires PossibleRun(catalog, codec, names, db, changes) && AllCarried(catalog, names, changes)
    ensures var messages := Messages(catalog, codec, names, db, changes);
            AllFit(relations, messages)
            && SinkRun(catalog, codec, primaryKeys, relations, db, messages) == SourceRun(names, db, changes)
  {
    hide CacheAgrees, SinkReady, RoundTrips, ValidDatabase, PossibleRun, AllCarried;
    MirrorExactly(catalog, codec, primaryKeys, names, relations, db, changes);
    assert changes[..|changes|] == changes;
    assert Mirrored(catalog, codec, primaryKeys, names, relations, db, changes[..|changes|]);
  }

  // ---- Outside the theorem's conditions ----

  /** Deletes carry no after image, so the sink rejects them before it looks at the operation. */
  lemma DeletesAreNotReplicated(
    catalog: Catalog, codec: Codec, primaryKeys: map<string, seq<string>>, relations: Relations, db: Database,
    id: nat, tuple: Tuple)
    requires db.Keys == catalog.Keys && Fits(relations, DeleteMsg(id, tuple))
    ensures var events := EventsOf(codec, relations, DeleteMsg(id, tuple));
            |events| == 1 && Published(catalog, primaryKeys, db, events[0]) == (db, Some(NotConnected))
  {
  }

  // ---- One event at the sink ----

  lemma NoMatchNoChange(rows: set<Row>, where: Row, sets: Row)
    requires |set r | r in rows && Matches(r, where)| == 0
    ensures UpdateRows(rows, where, sets) == rows
  {
    hide Matches;
    var matched := set r | r in rows && Matches(r, where);
    assert forall r | r in rows && Matches(r, where) :: r in matched;
    assert matched == {};
    assert forall r | r in rows :: !Matches(r, where);
    forall r | r in rows
      ensures r in UpdateRows(rows, where, sets)
    {
      assert r == if Matches(r, where) then r + sets else r;
    }
  }

  /** An event that is refused changes nothing at the sink. */
  lemma RefusedChangesNothing(catalog: Catalog, primaryKeys: map<string, seq<string>>, db: Database, p: Payload)
    requires db.Keys == catalog.Keys && Published(catalog, primaryKeys, db, p).1.Some?
    ensures Published(catalog, primaryKeys, db, p).0 == db
  {
    hide KeyOf, Matches, UpdateRows, ValidTable;
    if p.op == Operation.Update && p.before.Fields? && p.after.Fields? && FullName(p.source) in primaryKeys {
      var where := KeyOf(primaryKeys[FullName(p.source)], p.before.m);
      var t := TargetTable(p.source.table, p.source.schemaName);
      if t in catalog {
        var matched := set r | r in db[t] && Matches(r, where);
        if |matched| == 0 {
          NoMatchNoChange(db[t], where, p.after.m);
          assert db[t := db[t]] == db;
        }
      }
    }
  }

  /** What an accepted event does: an insert adds one row with its values, null where it has none; an
      update sets its values on the rows with the key of the before image, of which there is one at
      least; deletes and truncates do nothing. The table is looked for in schema public when the event
      names none. No other table changes. */
  lemma AcceptedDoes(catalog: Catalog, primaryKeys: map<string, seq<string>>, db: Database, p: Payload)
    requires db.Keys == catalog.Keys && Published(catalog, primaryKeys, db, p).1.None?
    ensures p.after != Nil && p.source.table != "" && p.source.schemaName + "." + p.source.table in primaryKeys
    ensures var t := (if p.source.schemaName == "" then "public" else p.source.schemaName, p.source.table);
            var after := Published(catalog, primaryKeys, db, p).0;
            var keys := primaryKeys[p.source.schemaName + "." + p.source.table];
            match p.op
            case Create =>
              && t in db && p.after.Fields?
              && exists row :: after == db[t := db[t] + {row}] && IsRowOf(catalog[t].columns, p.after.m, row)
            case Update =>
              && t in db && p.after.Fields? && p.before.Fields?
              && (exists k :: k in keys && k in p.before.m)
              && (exists r :: r in db[t] && HasKey(keys, p.before.m, r))
              && after == db[t := set r | r in db[t] :: if HasKey(keys, p.before.m, r) then r + p.after.m else r]
            case Delete => after == db
            case Truncate => after == db
            case _ => false
  {
    hide ValidTable, ValidRow, SameKey;
    var t := TargetTable(p.source.table, p.source.schemaName);
    match p.op
    case Create =>
      var row := NullRow(catalog[t].columns) + p.after.m;
      assert IsRowOf(catalog[t].columns, p.after.m, row);
    case Update =>
      UpdateDoes(catalog, db, t, primaryKeys[FullName(p.source)], p);
    case _ =>
  }

  /** The values sent, and null for the other columns. */
  predicate IsRowOf(columns: seq<RelColumn>, sent: Row, row: Row) {
    && (forall i | 0 <= i < |columns| && columns[i].name !in sent :: columns[i].name in row && row[columns[i].name] == Null)
    && (forall k | k in sent :: k in row && row[k] == sent[k])
    && forall k | k in row :: k in sent || exists i | 0 <= i < |columns| :: columns[i].name == k
  }

  /** The row has every key column of the image, none of them null, with the image's value. */
  predicate HasKey(keys: seq<string>, image: Row, row: Row) {
    forall k | k in keys && k in image :: image[k] != Null && k in row && row[k] == image[k]
  }

  lemma UpdateDoes(catalog: Catalog, db: Database, t: TableName, keys: seq<string>, p: Payload)
    requires db.Keys == catalog.Keys && PublishedUpdate(catalog, db, t, keys, p).1.None?
    ensures t in db && p.after.Fields? && p.before.Fields?
    ensures exists k :: k in keys && k in p.before.m
    ensures exists r :: r in db[t] && HasKey(keys, p.before.m, r)
    ensures PublishedUpdate(catalog, db, t, keys, p).0
            == db[t := set r | r in db[t] :: if HasKey(keys, p.before.m, r) then r + p.after.m else r]
  {
    hide ValidTable;
    var where := KeyOf(keys, p.before.m);
    assert forall r :: Matches(r, where) <==> HasKey(keys, p.before.m, r);
    var k :| k in where;
    assert k in keys && k in p.before.m;
    var matched := set r | r in db[t] && Matches(r, where);
    assert matched != {};
    var r :| r in matched;
    assert r in db[t] && HasKey(keys, p.before.m, r);
    assert UpdateRows(db[t], where, p.after.m)
           == set r | r in db[t] :: if HasKey(keys, p.before.m, r) then r + p.after.m else r;
  }
}
