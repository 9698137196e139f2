/** Transformations of change events (pkg/pipeline/transform): extract, filter, replace and
    chains of them. An event is an object whose schema fields live in an array that copies of
    the event share. */
module Transform {
  import opened Options
  import opened Text
  import opened Cdc

  // ---- Configurations ----

  datatype RegexRule = RegexRule(kind: string, pattern: string, replace: string)

  datatype FilterConfig = FilterConfig(
    tablePattern: string, tables: seq<string>, excludeTables: seq<string>, operations: seq<string>)

  datatype ReplaceConfig = ReplaceConfig(
    schemas: map<string, string>, tables: map<string, string>, columns: map<string, string>, regex: seq<RegexRule>)

  /** One step of a chain; Undecodable has an unknown type or a configuration that does not
      decode. */
  datatype Transformation =
    | Extract(fields: seq<string>)
    | Filter(filter: FilterConfig)
    | Replace(replace: ReplaceConfig)
    | Undecodable

  /** What the regular expression and glob libraries do. */
  datatype Patterns = Patterns(
    compiles: string -> bool,
    matches: (string, string) -> bool,              // pattern, text
    replaceAll: (string, string, string) -> string, // pattern, text, replacement
    glob: (string, string) -> bool)                 // pattern, text

  /** A transformation keeps an event, drops it, or fails. */
  datatype Outcome<+T> = Keep(value: T) | Skip | Failed

  // ---- Extract ----

  function Restrict(data: Data, fields: seq<string>): Row {
    if data.Fields? then map f | f in fields && f in data.m :: data.m[f] else map[]
  }

  function ExtractPayload(fields: seq<string>, p: Payload): Outcome<Payload> {
    if fields == [] then Failed
    else Keep(p.(before := Fields(Restrict(p.before, fields)), after := Fields(Restrict(p.after, fields))))
  }

  // ---- Filter ----

  datatype TableRef = TableRef(schemaName: string, table: string, isGlob: bool)

  function ParseTableRef(ref: string): TableRef {
    if ref == "*.*" then TableRef("*", "*", true)
    else
      var parts := Split(ref, '.');
      if |parts| == 2 then TableRef(parts[0], parts[1], '*' in parts[0] || '*' in parts[1])
      else TableRef("", ref, '*' in ref)
  }

  predicate MatchesRef(pat: Patterns, s: Source, ref: TableRef) {
    if ref.isGlob then
      if ref.schemaName == "*" && ref.table == "*" then true
      else if ref.table == "*" then pat.glob(ref.schemaName, s.schemaName)
      else if ref.schemaName == "*" then pat.glob(ref.table, s.table)
      else pat.glob(ref.schemaName, s.schemaName) && pat.glob(ref.table, s.table)
    else (ref.schemaName == "" || ref.schemaName == s.schemaName) && ref.table == s.table
  }

  function OpCode(op: Operation): string {
    match op
    case NoOp => ""
    case Create => "c"
    case Update => "u"
    case Delete => "d"
    case Read => "r"
    case Truncate => "t"
  }

  predicate ValidFilter(pat: Patterns, c: FilterConfig) {
    && (c.tables != [] || c.excludeTables != [] || c.tablePattern != "" || c.operations != [])
    && (c.tablePattern != "" ==> pat.compiles(c.tablePattern))
    && forall op | op in c.operations :: op in {"c", "u", "d", "r"}
  }

  predicate MatchesAny(pat: Patterns, s: Source, refs: seq<string>) {
    exists i | 0 <= i < |refs| :: MatchesRef(pat, s, ParseTableRef(refs[i]))
  }

  function FilterPayload(pat: Patterns, c: FilterConfig, p: Payload): Outcome<Payload> {
    var s := p.source;
    if !ValidFilter(pat, c) then Failed
    else if s.schemaName == "" || s.table == "" then Failed
    else if c.operations != [] && OpCode(p.op) == "" then Failed
    else if c.operations != [] && OpCode(p.op) !in c.operations then Skip
    else if MatchesAny(pat, s, c.excludeTables) then Skip
    else if c.tables != [] && !MatchesAny(pat, s, c.tables) then Skip
    else if c.tablePattern != ""
            && !pat.matches(c.tablePattern, s.schemaName + "." + s.table) && !pat.matches(c.tablePattern, s.table) then Skip
    else Keep(p)
  }

  // ---- Replace ----

  function NewName(r: map<string, string>, k: string): string { if k in r then r[k] else k }

  predicate InjectiveOn(r: map<string, string>, keys: set<string>) {
    forall a, b | a in keys && b in keys && NewName(r, a) == NewName(r, b) :: a == b
  }

  /** renamed has the new names of m's columns, each with the value of a column of that name.
      When two columns get one name, either value may be the one kept. */
  ghost predicate IsRenaming(m: Row, r: map<string, string>, renamed: Row) {
    && (forall k | k in m :: NewName(r, k) in renamed)
    && (forall n | n in renamed :: exists k :: k in m && NewName(r, k) == n && renamed[n] == m[k])
  }

  lemma RenamingGrows(m: Row, r: map<string, string>, renamed: Row, k: string, v: Value)
    requires IsRenaming(m, r, renamed) && k !in m
    ensures IsRenaming(m[k := v], r, renamed[NewName(r, k) := v])
  {
    var m1, renamed1 := m[k := v], renamed[NewName(r, k) := v];
    forall n | n in renamed1
      ensures exists k1 :: k1 in m1 && NewName(r, k1) == n && renamed1[n] == m1[k1]
    {
      if n == NewName(r, k) {
        assert k in m1;
      } else {
        var k1 :| k1 in m && NewName(r, k1) == n && renamed[n] == m[k1];
        assert k1 in m1;
      }
    }
  }

  /** The renaming that visiting the columns in this order makes. */
  function RenameInOrder(m: Row, r: map<string, string>, order: seq<string>): Row
    requires forall k | k in order :: k in m
    decreases |order|
  {
    if order == [] then map[]
    else
      var k := order[|order| - 1];
      RenameInOrder(m, r, order[..|order| - 1])[NewName(r, k) := m[k]]
  }

  /** Every column once. */
  predicate IsOrder(m: Row, order: seq<string>) {
    && (forall k | k in order :: k in m) && (forall k | k in m :: k in order)
    && forall i, j | 0 <= i < j < |order| :: order[i] != order[j]
  }

  lemma {:induction false} OrderRenames(m: Row, r: map<string, string>, order: seq<string>)
    requires IsOrder(m, order)
    ensures IsRenaming(m, r, RenameInOrder(m, r, order))
    decreases |order|
  {
    if order != [] {
      var n := |order| - 1;
      OrderOfRest(m, order);
      OrderRenames(m - {order[n]}, r, order[..n]);
      hide IsOrder, IsRenaming;
      LastRenames(m, r, order);
    }
  }

  lemma LastRenames(m: Row, r: map<string, string>, order: seq<string>)
    requires IsOrder(m, order) && order != []
    requires var k, before := order[|order| - 1], order[..|order| - 1];
             IsOrder(m - {k}, before) && IsRenaming(m - {k}, r, RenameInOrder(m - {k}, r, before))
    ensures IsRenaming(m, r, RenameInOrder(m, r, order))
  {
    var k, before := order[|order| - 1], order[..|order| - 1];
    SameInOrder(m, m - {k}, r, before);
    hide IsOrder, IsRenaming, NewName;
    RenamingGrows(m - {k}, r, RenameInOrder(m - {k}, r, before), k, m[k]);
    PutBack(m, k);
  }

  lemma PutBack(m: Row, k: string)
    requires k in m
    ensures (m - {k})[k := m[k]] == m
  {
  }

  lemma OrderOfRest(m: Row, order: seq<string>)
    requires IsOrder(m, order) && order != []
    ensures IsOrder(m - {order[|order| - 1]}, order[..|order| - 1])
  {
    var n := |order| - 1;
    var k, before := order[n], order[..n];
    forall x | x in m - {k}
      ensures x in before
    {
      var i :| 0 <= i < |order| && order[i] == x;
      assert before[i] == x;
    }
  }

  lemma {:induction false} SameInOrder(m: Row, m0: Row, r: map<string, string>, order: seq<string>)
    requires forall k | k in order :: k in m && k in m0 && m[k] == m0[k]
    ensures RenameInOrder(m, r, order) == RenameInOrder(m0, r, order)
    decreases |order|
  {
    if order != [] { SameInOrder(m, m0, r, order[..|order| - 1]); }
  }

  /** What is left to rename when a column that won its new name is visited last. */
  lemma WithoutLast(m: Row, r: map<string, string>, renamed: Row, k: string) returns (before: Row)
    requires IsRenaming(m, r, renamed) && k in m && renamed[NewName(r, k)] == m[k]
    ensures IsRenaming(m - {k}, r, before) && before[NewName(r, k) := m[k]] == renamed
  {
    var n, m0 := NewName(r, k), m - {k};
    if k1 :| k1 in m0 && NewName(r, k1) == n {
      before := renamed[n := m[k1]];
      assert before[n] == m0[k1];
    } else {
      before := renamed - {n};
    }
    forall x | x in before
      ensures exists k1 :: k1 in m0 && NewName(r, k1) == x && before[x] == m0[k1]
    {
      if x != n {
        var k1 :| k1 in m && NewName(r, k1) == x && renamed[x] == m[k1];
        assert k1 in m0;
      }
    }
  }

  /** Visiting the columns in this order makes this renaming. */
  predicate MadeInOrder(m: Row, r: map<string, string>, order: seq<string>, renamed: Row) {
    IsOrder(m, order) && RenameInOrder(m, r, order) == renamed
  }

  lemma LastInOrder(m: Row, r: map<string, string>, k: string, first: seq<string>, before: Row)
    requires k in m && MadeInOrder(m - {k}, r, first, before)
    ensures MadeInOrder(m, r, first + [k], before[NewName(r, k) := m[k]])
  {
    var m0, order := m - {k}, first + [k];
    assert order[..|first|] == first && order[|first|] == k;
    assert k !in first;
    SameInOrder(m, m0, r, first);
    hide RenameInOrder;
    OrderWithLast(m, k, first);
  }

  lemma OrderWithLast(m: Row, k: string, first: seq<string>)
    requires k in m && IsOrder(m - {k}, first)
    ensures IsOrder(m, first + [k])
  {
    forall x | x in m
      ensures x in first + [k]
    {
      assert x == k || x in m - {k};
    }
  }

  lemma {:induction false} RenamingHasOrder(m: Row, r: map<string, string>, renamed: Row) returns (order: seq<string>)
    requires IsRenaming(m, r, renamed)
    ensures MadeInOrder(m, r, order, renamed)
    decreases |m|
  {
    if m == map[] {
      order := [];
    } else {
      var k0 :| k0 in m;
      assert NewName(r, k0) in renamed;
      var k :| k in m && NewName(r, k) == NewName(r, k0) && renamed[NewName(r, k0)] == m[k];
      hide MadeInOrder;
      var before := WithoutLast(m, r, renamed, k);
      hide IsRenaming;
      assert m.Keys == (m - {k}).Keys + {k};
      var first := RenamingHasOrder(m - {k}, r, before);
      order := first + [k];
      LastInOrder(m, r, k, first, before);
    }
  }

  /** The renamings of a row are exactly what the loop over its columns can make, in some order. */
  lemma RenamingsAreOrders(m: Row, r: map<string, string>, renamed: Row)
    ensures IsRenaming(m, r, renamed) <==> exists order :: MadeInOrder(m, r, order, renamed)
  {
    hide IsRenaming;
    if IsRenaming(m, r, renamed) {
      var order := RenamingHasOrder(m, r, renamed);
    }
    if order :| MadeInOrder(m, r, order, renamed) {
      OrderRenames(m, r, order);
    }
  }

  /** One of the renamings. */
  ghost function Rename(m: Row, r: map<string, string>): Row {
    map n | n in (set k | k in m :: NewName(r, k)) :: m[OldName(m, r, n)]
  }

  ghost function OldName(m: Row, r: map<string, string>, n: string): (k: string)
    requires exists k :: k in m && NewName(r, k) == n
    ensures k in m && NewName(r, k) == n
  {
    var k :| k in m && NewName(r, k) == n;
    k
  }

  lemma RenameRenames(m: Row, r: map<string, string>)
    ensures IsRenaming(m, r, Rename(m, r))
  {
    var renamed := Rename(m, r);
    forall n | n in renamed
      ensures exists k :: k in m && NewName(r, k) == n && renamed[n] == m[k]
    {
      assert renamed[n] == m[OldName(m, r, n)];
    }
  }

  /** Without a collision there is exactly one renaming. */
  lemma RenamingIsUnique(m: Row, r: map<string, string>, renamed: Row)
    requires InjectiveOn(r, m.Keys)
    ensures IsRenaming(m, r, renamed) <==> renamed == Rename(m, r)
  {
    RenameRenames(m, r);
    if IsRenaming(m, r, renamed) {
      var expected := Rename(m, r);
      forall n | n in renamed
        ensures n in expected && renamed[n] == expected[n]
      {
        var k :| k in m && NewName(r, k) == n && renamed[n] == m[k];
        assert OldName(m, r, n) == k;
      }
      forall n | n in expected
        ensures n in renamed
      {
        assert n == NewName(r, OldName(m, r, n));
      }
    }
  }

  ghost predicate RenamesData(data: Data, r: map<string, string>, renamed: Data) {
    if data.Fields? then renamed.Fields? && IsRenaming(data.m, r, renamed.m) else renamed == data
  }

  ghost function RenameData(data: Data, r: map<string, string>): Data {
    if data.Fields? then Fields(Rename(data.m, r)) else data
  }

  predicate NoCollision(data: Data, r: map<string, string>) { data.Fields? ==> InjectiveOn(r, data.m.Keys) }

  lemma RenamesDataTo(data: Data, r: map<string, string>, renamed: Data)
    ensures RenamesData(data, r, RenameData(data, r))
    ensures NoCollision(data, r) ==> (RenamesData(data, r, renamed) <==> renamed == RenameData(data, r))
  {
    if data.Fields? {
      RenameRenames(data.m, r);
      if NoCollision(data, r) && renamed.Fields? { RenamingIsUnique(data.m, r, renamed.m); }
    }
  }

  function ReplaceBy(pat: Patterns, kind: string, rules: seq<RegexRule>, text: string): string
    decreases |rules|
  {
    if rules == [] then text
    else
      var rule := rules[0];
      ReplaceBy(pat, kind, rules[1..], if rule.kind == kind then pat.replaceAll(rule.pattern, text, rule.replace) else text)
  }

  predicate ValidReplace(pat: Patterns, c: ReplaceConfig) {
    && (c.schemas != map[] || c.tables != map[] || c.columns != map[] || c.regex != [])
    && forall i | 0 <= i < |c.regex| ::
         c.regex[i].kind in {"schema", "table", "column"} && pat.compiles(c.regex[i].pattern)
  }

  function ReplaceSource(pat: Patterns, c: ReplaceConfig, s: Source): Source {
    Source(ReplaceBy(pat, "schema", c.regex, NewName(c.schemas, s.schemaName)),
           ReplaceBy(pat, "table", c.regex, NewName(c.tables, s.table)))
  }

  /** o is what replace may make of a payload: where columns collide, any of them may win. */
  ghost predicate ReplaceGives(pat: Patterns, c: ReplaceConfig, p: Payload, o: Outcome<Payload>) {
    if !ValidReplace(pat, c) then o == Failed
    else
      && o.Keep? && o.value.source == ReplaceSource(pat, c, p.source) && o.value.op == p.op
      && if c.columns == map[] then o.value.before == p.before && o.value.after == p.after
         else RenamesData(p.before, c.columns, o.value.before) && RenamesData(p.after, c.columns, o.value.after)
  }

  // ---- Chains ----

  ghost predicate StepGives(pat: Patterns, t: Transformation, p: Payload, o: Outcome<Payload>) {
    match t
    case Extract(fields) => o == ExtractPayload(fields, p)
    case Filter(c) => o == FilterPayload(pat, c, p)
    case Replace(c) => ReplaceGives(pat, c, p, o)
    case Undecodable => o == Failed
  }

  /** o is what the steps may make of a payload, one after the other up to the first that drops
      it or fails; n steps are run. */
  ghost predicate ChainGives(pat: Patterns, ts: seq<Transformation>, p: Payload, o: Outcome<Payload>, n: nat)
    decreases |ts|
  {
    if ts == [] then o == Keep(p) && n == 0
    else
      || (!o.Keep? && n == 1 && StepGives(pat, ts[0], p, o))
      || (n > 0 && exists q :: StepGives(pat, ts[0], p, Keep(q)) && ChainGives(pat, ts[1..], q, o, n - 1))
  }

  /** applyTransformations: the whole list is decoded before any of it runs. */
  ghost predicate ApplyGives(pat: Patterns, ts: seq<Transformation>, p: Payload, o: Outcome<Payload>) {
    if Undecodable in ts then o == Failed else exists n: nat :: ChainGives(pat, ts, p, o, n)
  }

  /** What a list may deliver: an event or nothing. */
  ghost predicate Delivers(pat: Patterns, ts: seq<Transformation>, p: Payload, d: Option<Payload>) {
    exists o :: ApplyGives(pat, ts, p, o) && Delivered(o) == d
  }

  function Delivered<T>(o: Outcome<T>): Option<T> {
    match o
    case Keep(v) => Some(v)
    case _ => None
  }

  /** No renaming of the chain makes two columns of the event one. */
  ghost predicate CollisionFree(pat: Patterns, ts: seq<Transformation>, p: Payload)
    decreases |ts|
  {
    ts != [] ==>
      && (ts[0].Replace? ==> NoCollision(p.before, ts[0].replace.columns) && NoCollision(p.after, ts[0].replace.columns))
      && forall q | StepGives(pat, ts[0], p, Keep(q)) :: CollisionFree(pat, ts[1..], q)
  }

  // ---- Events as objects ----

  datatype SchemaField = SchemaField(field: string, name: string)

  class Event {
    var fields: array<SchemaField>
    var payload: Payload

    constructor (fields: array<SchemaField>, payload: Payload)
      ensures this.fields == fields && this.payload == payload
    {
      this.fields, this.payload := fields, payload;
    }
  }

  function RenameField(r: map<string, string>, f: SchemaField): SchemaField {
    if f.field in r then SchemaField(r[f.field], if f.name != "" then r[f.field] else f.name) else f
  }

  function RenameFields(r: map<string, string>, fs: seq<SchemaField>): (out: seq<SchemaField>)
    ensures |out| == |fs|
  {
    seq(|fs|, i requires 0 <= i < |fs| => RenameField(r, fs[i]))
  }

  /** What a transformation leaves in the shared schema fields. */
  function StepFields(pat: Patterns, t: Transformation, fs: seq<SchemaField>): seq<SchemaField> {
    if t.Replace? && ValidReplace(pat, t.replace) then RenameFields(t.replace.columns, fs) else fs
  }

  /** The schema fields after the steps that were run. */
  function FieldsAfter(pat: Patterns, ts: seq<Transformation>, fs: seq<SchemaField>): seq<SchemaField>
    decreases |ts|
  {
    if ts == [] then fs else StepFields(pat, ts[|ts| - 1], FieldsAfter(pat, ts[..|ts| - 1], fs))
  }

  function PayloadOf(o: Outcome<Event>): Outcome<Payload>
    reads if o.Keep? then {o.value} else {}
  {
    match o
    case Keep(e) => Keep(e.payload)
    case Skip => Skip
    case Failed => Failed
  }

  /** Extract overwrites the payload of the event it is given. */
  method ApplyExtract(fields: seq<string>, e: Event) returns (o: Outcome<Event>)
    modifies e`payload
    ensures PayloadOf(o) == ExtractPayload(fields, old(e.payload))
    ensures o.Keep? ==> o.value == e
  {
    if fields == [] { return Failed; }
    var before := CopyFields(e.payload.before, fields);
    var after := CopyFields(e.payload.after, fields);
    e.payload := e.payload.(before := Fields(before), after := Fields(after));
    return Keep(e);
  }

  method CopyFields(data: Data, fields: seq<string>) returns (copy: Row)
    ensures copy == Restrict(data, fields)
  {
    copy := map[];
    if data.Fields? {
      for i := 0 to |fields|
        invariant copy == Restrict(data, fields[..i])
      {
        if fields[i] in data.m { copy := copy[fields[i] := data.m[fields[i]]]; }
      }
      assert fields[..|fields|] == fields;
    }
  }

  method MatchAny(pat: Patterns, s: Source, refs: seq<string>) returns (found: bool)
    ensures found == MatchesAny(pat, s, refs)
  {
    for i := 0 to |refs|
      invariant forall j | 0 <= j < i :: !MatchesRef(pat, s, ParseTableRef(refs[j]))
    {
      var ref := ParseTableRef(refs[i]);
      if MatchesRef(pat, s, ref) { return true; }
    }
    return false;
  }

  method ApplyFilter(pat: Patterns, c: FilterConfig, e: Event) returns (o: Outcome<Event>)
    ensures PayloadOf(o) == FilterPayload(pat, c, e.payload)
    ensures o.Keep? ==> o.value == e
  {
    if !ValidFilter(pat, c) { return Failed; }
    var s := e.payload.source;
    if s.schemaName == "" || s.table == "" { return Failed; }
    if |c.operations| > 0 {
      var code := OpCode(e.payload.op);
      if code == "" { return Failed; }
      var matched := false;
      for i := 0 to |c.operations|
        invariant matched == (code in c.operations[..i])
      {
        if c.operations[i] == code { matched := true; }
      }
      assert c.operations[..|c.operations|] == c.operations;
      if !matched { return Skip; }
    }
    var excluded := MatchAny(pat, s, c.excludeTables);
    if excluded { return Skip; }
    if |c.tables| > 0 {
      var included := MatchAny(pat, s, c.tables);
      if !included { return Skip; }
    }
    if c.tablePattern != "" {
      if !pat.matches(c.tablePattern, s.schemaName + "." + s.table) && !pat.matches(c.tablePattern, s.table) {
        return Skip;
      }
    }
    return Keep(e);
  }

  /** One pass over a map in whatever order its keys come. */
  method ReplaceMapKeys(m: Row, r: map<string, string>) returns (renamed: Row)
    ensures IsRenaming(m, r, renamed)
  {
    renamed := map[];
    var todo := m.Keys;
    ghost var done: Row := map[];
    while todo != {}
      invariant todo <= m.Keys && done == map k | k in m && k !in todo :: m[k]
      invariant IsRenaming(done, r, renamed)
      decreases todo
    {
      var k :| k in todo;
      todo := todo - {k};
      ghost var before, was := renamed, done;
      done := done[k := m[k]];
      renamed := renamed[NewName(r, k) := m[k]];
      RenamingGrows(was, r, before, k, m[k]);
    }
    assert done == m;
  }

  method ReplaceSourceNames(pat: Patterns, c: ReplaceConfig, s: Source) returns (r: Source)
    ensures r == ReplaceSource(pat, c, s)
  {
    var schemaName := if s.schemaName in c.schemas then c.schemas[s.schemaName] else s.schemaName;
    var table := if s.table in c.tables then c.tables[s.table] else s.table;
    for i := 0 to |c.regex|
      invariant ReplaceBy(pat, "schema", c.regex[i..], schemaName)
                == ReplaceBy(pat, "schema", c.regex, NewName(c.schemas, s.schemaName))
      invariant ReplaceBy(pat, "table", c.regex[i..], table)
                == ReplaceBy(pat, "table", c.regex, NewName(c.tables, s.table))
    {
      var rule := c.regex[i];
      assert c.regex[i..][1..] == c.regex[i + 1..];
      if rule.kind == "schema" {
        schemaName := pat.replaceAll(rule.pattern, schemaName, rule.replace);
      } else if rule.kind == "table" {
        table := pat.replaceAll(rule.pattern, table, rule.replace);
      }
    }
    return Source(schemaName, table);
  }

  method RenameInPlace(r: map<string, string>, fields: array<SchemaField>)
    modifies fields
    ensures fields[..] == RenameFields(r, old(fields[..]))
  {
    for i := 0 to fields.Length
      invariant forall j | 0 <= j < i :: fields[j] == RenameField(r, old(fields[j]))
      invariant forall j | i <= j < fields.Length :: fields[j] == old(fields[j])
    {
      if fields[i].field in r { fields[i] := RenameField(r, fields[i]); }
    }
  }

  method RenameColumns(data: Data, r: map<string, string>) returns (renamed: Data)
    ensures RenamesData(data, r, renamed)
  {
    if !data.Fields? { return data; }
    var m := ReplaceMapKeys(data.m, r);
    return Fields(m);
  }

  lemma RenameFieldsByNothing(fs: seq<SchemaField>)
    ensures RenameFields(map[], fs) == fs
  {
  }

  /** Replace works on a copy of the event, which shares the array of schema fields. */
  method ApplyReplace(pat: Patterns, c: ReplaceConfig, e: Event) returns (o: Outcome<Event>)
    modifies e.fields
    ensures ReplaceGives(pat, c, e.payload, PayloadOf(o))
    ensures o.Keep? ==> fresh(o.value) && o.value.fields == e.fields
    ensures e.fields[..] == StepFields(pat, Replace(c), old(e.fields[..]))
  {
    if !ValidReplace(pat, c) { return Failed; }
    var source := ReplaceSourceNames(pat, c, e.payload.source);
    var current := new Event(e.fields, e.payload.(source := source));
    if c.columns != map[] {
      var before := RenameColumns(current.payload.before, c.columns);
      var after := RenameColumns(current.payload.after, c.columns);
      current.payload := current.payload.(before := before, after := after);
      RenameInPlace(c.columns, current.fields);
    } else {
      RenameFieldsByNothing(e.fields[..]);
    }
    return Keep(current);
  }

  method ApplyStep(pat: Patterns, t: Transformation, e: Event) returns (o: Outcome<Event>)
    requires !t.Undecodable?
    modifies e, e.fields
    ensures StepGives(pat, t, old(e.payload), PayloadOf(o))
    ensures o.Keep? ==> (o.value == e || fresh(o.value)) && o.value.fields == old(e.fields)
    ensures e.fields == old(e.fields) && e.fields[..] == StepFields(pat, t, old(e.fields[..]))
  {
    match t
    case Extract(fields) => o := ApplyExtract(fields, e);
    case Filter(c) => o := ApplyFilter(pat, c, e);
    case Replace(c) => o := ApplyReplace(pat, c, e);
  }

  /** Whatever the steps left make of q, the whole chain makes of p. */
  ghost predicate Continues(pat: Patterns, ts: seq<Transformation>, p: Payload, i: nat, q: Payload)
    requires i <= |ts|
  {
    forall o, n: nat | ChainGives(pat, ts[i..], q, o, n) :: ChainGives(pat, ts, p, o, i + n)
  }

  lemma ContinuesStep(pat: Patterns, ts: seq<Transformation>, p: Payload, i: nat, q: Payload, o: Outcome<Payload>)
    requires i < |ts| && Continues(pat, ts, p, i, q) && StepGives(pat, ts[i], q, o)
    ensures if o.Keep? then Continues(pat, ts, p, i + 1, o.value) else ChainGives(pat, ts, p, o, i + 1)
  {
    hide StepGives;
    assert ts[i..][0] == ts[i] && ts[i..][1..] == ts[i + 1..];
    if o.Keep? {
      var rest := ts[i + 1..];
      forall o1, n: nat | ChainGives(pat, rest, o.value, o1, n)
        ensures ChainGives(pat, ts, p, o1, i + 1 + n)
      {
        assert ChainGives(pat, ts[i..], q, o1, n + 1);
      }
    } else {
      assert ChainGives(pat, ts[i..], q, o, 1);
    }
  }

  /** The function Chain returns; n steps are run. */
  method RunChain(pat: Patterns, ts: seq<Transformation>, e: Event) returns (o: Outcome<Event>, ghost n: nat)
    requires Undecodable !in ts
    modifies e, e.fields
    ensures ChainGives(pat, ts, old(e.payload), PayloadOf(o), n)
    ensures o.Keep? ==> (o.value == e || fresh(o.value)) && o.value.fields == old(e.fields)
    ensures e.fields == old(e.fields) && n <= |ts| && e.fields[..] == FieldsAfter(pat, ts[..n], old(e.fields[..]))
  {
    hide StepGives, StepFields, ChainGives, Continues;
    var current := e;
    ghost var fs, p := e.fields[..], e.payload;
    ContinuesStart(pat, ts, p);
    for i := 0 to |ts|
      invariant current == e || fresh(current)
      invariant current.fields == e.fields == old(e.fields)
      invariant Continues(pat, ts, p, i, current.payload)
      invariant e.fields[..] == FieldsAfter(pat, ts[..i], fs)
    {
      assert ts[..i + 1][..i] == ts[..i] && ts[i] in ts;
      ghost var q := current.payload;
      var next := ApplyStep(pat, ts[i], current);
      ContinuesStep(pat, ts, p, i, q, PayloadOf(next));
      if !next.Keep? { return next, i + 1; }
      current := next.value;
    }
    ContinuesEnd(pat, ts, p, current.payload);
    return Keep(current), |ts|;
  }

  lemma ContinuesStart(pat: Patterns, ts: seq<Transformation>, p: Payload)
    ensures Continues(pat, ts, p, 0, p)
  {
    assert ts[0..] == ts;
  }

  lemma ContinuesEnd(pat: Patterns, ts: seq<Transformation>, p: Payload, q: Payload)
    requires Continues(pat, ts, p, |ts|, q)
    ensures ChainGives(pat, ts, p, Keep(q), |ts|)
  {
    assert ts[|ts|..] == [];
    assert ChainGives(pat, ts[|ts|..], q, Keep(q), 0);
  }

  /** applyTransformations; n steps are run. */
  method ApplyTransformations(pat: Patterns, ts: seq<Transformation>, e: Event)
    returns (o: Outcome<Event>, ghost n: nat)
    modifies e, e.fields
    ensures ApplyGives(pat, ts, old(e.payload), PayloadOf(o))
    ensures o.Keep? ==> (o.value == e || fresh(o.value)) && o.value.fields == old(e.fields)
    ensures e.fields == old(e.fields) && n <= |ts| && e.fields[..] == FieldsAfter(pat, ts[..n], old(e.fields[..]))
    ensures if Undecodable in ts then n == 0 else ChainGives(pat, ts, old(e.payload), PayloadOf(o), n)
  {
    if |ts| == 0 {
      assert ChainGives(pat, ts, e.payload, Keep(e.payload), 0);
      return Keep(e), 0;
    }
    for i := 0 to |ts|
      invariant forall j | 0 <= j < i :: ts[j] != Undecodable
    {
      if ts[i].Undecodable? { return Failed, 0; }
    }
    o, n := RunChain(pat, ts, e);
  }

  // ---- What does not depend on the order of maps ----

  /** A payload with its images replaced, if the outcome keeps one. */
  predicate SameFate(a: Outcome<Payload>, b: Outcome<Payload>) {
    match a
    case Keep(p) => b.Keep? && b.value.source == p.source && b.value.op == p.op
    case Skip => b.Skip?
    case Failed => b.Failed?
  }

  lemma StepFate(pat: Patterns, t: Transformation, p: Payload, p1: Payload, o: Outcome<Payload>, o1: Outcome<Payload>)
    requires SameFate(Keep(p), Keep(p1)) && StepGives(pat, t, p, o) && StepGives(pat, t, p1, o1)
    ensures SameFate(o, o1)
  {
    hide MatchesAny, ReplaceSource, RenamesData, ValidFilter, ValidReplace;
  }

  /** Whether an event is kept, dropped or fails, and after how many steps, never depends on
      which of two colliding columns wins. */
  lemma {:induction false} FateIsFixed(
    pat: Patterns, ts: seq<Transformation>, p: Payload, p1: Payload, o: Outcome<Payload>, o1: Outcome<Payload>, n: nat, n1: nat)
    requires SameFate(Keep(p), Keep(p1)) && ChainGives(pat, ts, p, o, n) && ChainGives(pat, ts, p1, o1, n1)
    ensures SameFate(o, o1) && n == n1
    decreases |ts|
  {
    hide StepGives;
    if ts != [] {
      if !o.Keep? && n == 1 && StepGives(pat, ts[0], p, o) {
        FirstStepFate(pat, ts, p, p1, o, o1, n1);
      } else {
        var q :| StepGives(pat, ts[0], p, Keep(q)) && ChainGives(pat, ts[1..], q, o, n - 1);
        if !o1.Keep? && n1 == 1 && StepGives(pat, ts[0], p1, o1) {
          StepFate(pat, ts[0], p, p1, Keep(q), o1);
        } else {
          var q1 :| StepGives(pat, ts[0], p1, Keep(q1)) && ChainGives(pat, ts[1..], q1, o1, n1 - 1);
          StepFate(pat, ts[0], p, p1, Keep(q), Keep(q1));
          FateIsFixed(pat, ts[1..], q, q1, o, o1, n - 1, n1 - 1);
        }
      }
    }
  }

  lemma FirstStepFate(
    pat: Patterns, ts: seq<Transformation>, p: Payload, p1: Payload, o: Outcome<Payload>, o1: Outcome<Payload>, n1: nat)
    requires ts != [] && SameFate(Keep(p), Keep(p1))
    requires !o.Keep? && StepGives(pat, ts[0], p, o) && ChainGives(pat, ts, p1, o1, n1)
    ensures SameFate(o, o1) && n1 == 1
  {
    hide StepGives;
    if !o1.Keep? && n1 == 1 && StepGives(pat, ts[0], p1, o1) {
      StepFate(pat, ts[0], p, p1, o, o1);
    } else {
      var q1 :| StepGives(pat, ts[0], p1, Keep(q1)) && ChainGives(pat, ts[1..], q1, o1, n1 - 1);
      StepFate(pat, ts[0], p, p1, o, Keep(q1));
    }
  }

  lemma StepTotal(pat: Patterns, t: Transformation, p: Payload) returns (o: Outcome<Payload>)
    ensures StepGives(pat, t, p, o)
  {
    match t
    case Extract(fields) => o := ExtractPayload(fields, p);
    case Filter(c) => o := FilterPayload(pat, c, p);
    case Undecodable => o := Failed;
    case Replace(c) =>
      var before, after := RenameData(p.before, c.columns), RenameData(p.after, c.columns);
      RenamesDataTo(p.before, c.columns, before);
      RenamesDataTo(p.after, c.columns, after);
      if !ValidReplace(pat, c) {
        o := Failed;
      } else if c.columns == map[] {
        o := Keep(p.(source := ReplaceSource(pat, c, p.source)));
      } else {
        o := Keep(Payload(before, after, ReplaceSource(pat, c, p.source), p.op));
      }
  }

  /** Every chain has an outcome. */
  lemma {:induction false} ChainTotal(pat: Patterns, ts: seq<Transformation>, p: Payload)
    returns (o: Outcome<Payload>, n: nat)
    ensures ChainGives(pat, ts, p, o, n)
    decreases |ts|
  {
    hide StepGives;
    if ts == [] {
      o, n := Keep(p), 0;
    } else {
      var first := StepTotal(pat, ts[0], p);
      if first.Keep? {
        o, n := ChainTotal(pat, ts[1..], first.value);
        n := n + 1;
      } else {
        o, n := first, 1;
      }
    }
  }

  lemma DeliversTotal(pat: Patterns, ts: seq<Transformation>, p: Payload) returns (d: Option<Payload>)
    ensures Delivers(pat, ts, p, d)
  {
    var o, n := ChainTotal(pat, ts, p);
    o := if Undecodable in ts then Failed else o;
    assert ApplyGives(pat, ts, p, o);
    d := Delivered(o);
  }

  /** Whether anything is delivered never depends on which of two colliding columns wins. */
  lemma DeliveryIsFixed(pat: Patterns, ts: seq<Transformation>, p: Payload, p1: Payload, d: Option<Payload>, d1: Option<Payload>)
    requires SameFate(Keep(p), Keep(p1)) && Delivers(pat, ts, p, d) && Delivers(pat, ts, p1, d1)
    ensures d.Some? == d1.Some?
    ensures d.Some? ==> SameFate(Keep(d.value), Keep(d1.value))
  {
    var o :| ApplyGives(pat, ts, p, o) && Delivered(o) == d;
    var o1 :| ApplyGives(pat, ts, p1, o1) && Delivered(o1) == d1;
    if Undecodable !in ts {
      var n: nat :| ChainGives(pat, ts, p, o, n);
      var n1: nat :| ChainGives(pat, ts, p1, o1, n1);
      FateIsFixed(pat, ts, p, p1, o, o1, n, n1);
    }
  }

  lemma StepIsUnique(pat: Patterns, t: Transformation, p: Payload, o: Outcome<Payload>, o1: Outcome<Payload>)
    requires StepGives(pat, t, p, o) && StepGives(pat, t, p, o1)
    requires t.Replace? ==> NoCollision(p.before, t.replace.columns) && NoCollision(p.after, t.replace.columns)
    ensures o == o1
  {
    hide ReplaceSource, ValidReplace, RenamesData, FilterPayload;
    if t.Replace? && o.Keep? && o1.Keep? {
      RenamesDataTo(p.before, t.replace.columns, o.value.before);
      RenamesDataTo(p.after, t.replace.columns, o.value.after);
      RenamesDataTo(p.before, t.replace.columns, o1.value.before);
      RenamesDataTo(p.after, t.replace.columns, o1.value.after);
    }
  }

  /** Without collisions a chain has exactly one outcome. */
  lemma {:induction false} OutcomeIsUnique(
    pat: Patterns, ts: seq<Transformation>, p: Payload, o: Outcome<Payload>, o1: Outcome<Payload>, n: nat, n1: nat)
    requires CollisionFree(pat, ts, p) && ChainGives(pat, ts, p, o, n) && ChainGives(pat, ts, p, o1, n1)
    ensures o == o1
    decreases |ts|
  {
    hide StepGives, NoCollision;
    FateIsFixed(pat, ts, p, p, o, o1, n, n1);
    if ts != [] && o.Keep? {
      var q :| StepGives(pat, ts[0], p, Keep(q)) && ChainGives(pat, ts[1..], q, o, n - 1);
      var q1 :| StepGives(pat, ts[0], p, Keep(q1)) && ChainGives(pat, ts[1..], q1, o1, n1 - 1);
      StepIsUnique(pat, ts[0], p, Keep(q), Keep(q1));
      OutcomeIsUnique(pat, ts[1..], q, o, o1, n - 1, n1 - 1);
    }
  }

  lemma DeliveryIsUnique(pat: Patterns, ts: seq<Transformation>, p: Payload, d: Option<Payload>, d1: Option<Payload>)
    requires Undecodable !in ts ==> CollisionFree(pat, ts, p)
    requires Delivers(pat, ts, p, d) && Delivers(pat, ts, p, d1)
    ensures d == d1
  {
    var o :| ApplyGives(pat, ts, p, o) && Delivered(o) == d;
    var o1 :| ApplyGives(pat, ts, p, o1) && Delivered(o1) == d1;
    if Undecodable !in ts {
      var n: nat :| ChainGives(pat, ts, p, o, n);
      var n1: nat :| ChainGives(pat, ts, p, o1, n1);
      OutcomeIsUnique(pat, ts, p, o, o1, n, n1);
    }
  }

  // ---- Laws ----

  /** What two lists may deliver in turn: the second works on what the first delivers. */
  ghost predicate DeliversInTurn(
    pat: Patterns, a: seq<Transformation>, b: seq<Transformation>, p: Payload, d: Option<Payload>)
  {
    || (d.None? && Delivers(pat, a, p, None))
    || exists q :: Delivers(pat, a, p, Some(q)) && Delivers(pat, b, q, d)
  }

  lemma {:induction false} ChainsJoin(
    pat: Patterns, a: seq<Transformation>, b: seq<Transformation>, p: Payload, o: Outcome<Payload>, n: nat)
    requires ChainGives(pat, a, p, o, n)
    ensures !o.Keep? ==> ChainGives(pat, a + b, p, o, n)
    ensures o.Keep? ==>
              forall o1, n1: nat | ChainGives(pat, b, o.value, o1, n1) :: ChainGives(pat, a + b, p, o1, n + n1)
    decreases |a|
  {
    hide StepGives;
    if a == [] {
      assert a + b == b;
    } else {
      assert (a + b)[0] == a[0] && (a + b)[1..] == a[1..] + b;
      if o.Keep? || n != 1 || !StepGives(pat, a[0], p, o) {
        var q :| StepGives(pat, a[0], p, Keep(q)) && ChainGives(pat, a[1..], q, o, n - 1);
        ChainsJoin(pat, a[1..], b, q, o, n - 1);
      }
    }
  }

  lemma PassedBoth(
    pat: Patterns, a: seq<Transformation>, b: seq<Transformation>, p: Payload, o: Outcome<Payload>,
    q: Payload, k: nat, m: nat)
    requires ChainGives(pat, a, p, Keep(q), k) && ChainGives(pat, b, q, o, m)
    ensures exists q, k: nat, m: nat :: ChainGives(pat, a, p, Keep(q), k) && ChainGives(pat, b, q, o, m)
  {
    hide ChainGives;
  }

  lemma {:induction false} ChainSplits(
    pat: Patterns, a: seq<Transformation>, b: seq<Transformation>, p: Payload, o: Outcome<Payload>, n: nat)
    requires ChainGives(pat, a + b, p, o, n)
    ensures (!o.Keep? && ChainGives(pat, a, p, o, n))
            || exists q, k: nat, m: nat :: ChainGives(pat, a, p, Keep(q), k) && ChainGives(pat, b, q, o, m)
    decreases |a|
  {
    hide StepGives;
    if a == [] {
      assert a + b == b;
      PassedBoth(pat, a, b, p, o, p, 0, n);
    } else {
      assert (a + b)[0] == a[0] && (a + b)[1..] == a[1..] + b;
      if o.Keep? || n != 1 || !StepGives(pat, a[0], p, o) {
        var q :| StepGives(pat, a[0], p, Keep(q)) && ChainGives(pat, a[1..] + b, q, o, n - 1);
        ChainSplits(pat, a[1..], b, q, o, n - 1);
        if !(!o.Keep? && ChainGives(pat, a[1..], q, o, n - 1)) {
          var q1, k: nat, m: nat :| ChainGives(pat, a[1..], q, Keep(q1), k) && ChainGives(pat, b, q1, o, m);
          PassedBoth(pat, a, b, p, o, q1, k + 1, m);
        } else {
          assert ChainGives(pat, a, p, o, n);
        }
      } else {
        assert ChainGives(pat, a, p, o, n);
      }
    }
  }

  lemma TurnsToChain(
    pat: Patterns, a: seq<Transformation>, b: seq<Transformation>, p: Payload, d: Option<Payload>)
    requires DeliversInTurn(pat, a, b, p, d)
    ensures Delivers(pat, a + b, p, d)
  {
    hide ChainGives;
    assert Undecodable in a + b <==> Undecodable in a || Undecodable in b;
    if Undecodable in a + b {
      assert ApplyGives(pat, a + b, p, Failed);
    } else if d.None? && Delivers(pat, a, p, None) {
      var o :| ApplyGives(pat, a, p, o) && Delivered(o) == None;
      var n: nat :| ChainGives(pat, a, p, o, n);
      ChainsJoin(pat, a, b, p, o, n);
      assert ApplyGives(pat, a + b, p, o);
    } else {
      var q :| Delivers(pat, a, p, Some(q)) && Delivers(pat, b, q, d);
      var n: nat :| ChainGives(pat, a, p, Keep(q), n);
      var o :| ApplyGives(pat, b, q, o) && Delivered(o) == d;
      var m: nat :| ChainGives(pat, b, q, o, m);
      ChainsJoin(pat, a, b, p, Keep(q), n);
      assert ApplyGives(pat, a + b, p, o);
    }
  }

  lemma ChainToTurns(
    pat: Patterns, a: seq<Transformation>, b: seq<Transformation>, p: Payload, d: Option<Payload>)
    requires Delivers(pat, a + b, p, d)
    ensures DeliversInTurn(pat, a, b, p, d)
  {
    hide ChainGives;
    assert Undecodable in a + b <==> Undecodable in a || Undecodable in b;
    var o :| ApplyGives(pat, a + b, p, o) && Delivered(o) == d;
    if Undecodable in a {
      assert ApplyGives(pat, a, p, Failed);
    } else if Undecodable in b {
      var first, k := ChainTotal(pat, a, p);
      assert ApplyGives(pat, a, p, first) && ApplyGives(pat, b, p, Failed);
      if first.Keep? {
        assert Delivers(pat, a, p, Some(first.value));
        assert ApplyGives(pat, b, first.value, Failed);
      }
    } else {
      var n: nat :| ChainGives(pat, a + b, p, o, n);
      ChainSplits(pat, a, b, p, o, n);
      if !o.Keep? && ChainGives(pat, a, p, o, n) {
        assert ApplyGives(pat, a, p, o);
      } else {
        var q, k: nat, m: nat :| ChainGives(pat, a, p, Keep(q), k) && ChainGives(pat, b, q, o, m);
        assert ApplyGives(pat, a, p, Keep(q)) && ApplyGives(pat, b, q, o);
        assert Delivers(pat, a, p, Some(q)) && Delivers(pat, b, q, d);
      }
    }
  }

  /** Source, pipeline and sink transformations applied in stages may deliver exactly what one
      chain of the concatenated lists may deliver, colliding columns included. */
  lemma StagesAreOneChain(
    pat: Patterns, source: seq<Transformation>, pipeline: seq<Transformation>, sink: seq<Transformation>, p: Payload,
    d: Option<Payload>)
    ensures Delivers(pat, source + pipeline + sink, p, d)
            <==> (d.None? && DeliversInTurn(pat, source, pipeline, p, None))
                 || exists q :: DeliversInTurn(pat, source, pipeline, p, Some(q)) && Delivers(pat, sink, q, d)
  {
    hide Delivers, DeliversInTurn;
    var two := source + pipeline;
    forall d1: Option<Payload>
      ensures Delivers(pat, two, p, d1) <==> DeliversInTurn(pat, source, pipeline, p, d1)
    {
      if Delivers(pat, two, p, d1) { ChainToTurns(pat, source, pipeline, p, d1); }
      if DeliversInTurn(pat, source, pipeline, p, d1) { TurnsToChain(pat, source, pipeline, p, d1); }
    }
    ThreeStages(pat, two, sink, p, d);
  }

  lemma ThreeStages(pat: Patterns, two: seq<Transformation>, sink: seq<Transformation>, p: Payload, d: Option<Payload>)
    ensures Delivers(pat, two + sink, p, d)
            <==> (d.None? && Delivers(pat, two, p, None))
                 || exists q :: Delivers(pat, two, p, Some(q)) && Delivers(pat, sink, q, d)
  {
    hide Delivers;
    if Delivers(pat, two + sink, p, d) { ChainToTurns(pat, two, sink, p, d); }
    if DeliversInTurn(pat, two, sink, p, d) { TurnsToChain(pat, two, sink, p, d); }
  }

  // Extracting and renaming commute.

  function RenameList(r: map<string, string>, fields: seq<string>): (out: seq<string>)
    ensures |out| == |fields|
  {
    seq(|fields|, i requires 0 <= i < |fields| => NewName(r, fields[i]))
  }

  function ColumnsOf(data: Data): set<string> { if data.Fields? then data.m.Keys else {} }

  lemma RenameRestrict(m: Row, r: map<string, string>, fields: seq<string>)
    requires InjectiveOn(r, (set f | f in fields) + m.Keys)
    ensures Rename(Restrict(Fields(m), fields), r) == Restrict(Fields(Rename(m, r)), RenameList(r, fields))
  {
    var part := Restrict(Fields(m), fields);
    var left, right := Rename(part, r), Restrict(Fields(Rename(m, r)), RenameList(r, fields));
    forall n | n in left
      ensures n in right && right[n] == left[n]
    {
      var k := OldName(part, r, n);
      var i :| 0 <= i < |fields| && fields[i] == k;
      assert RenameList(r, fields)[i] == n;
      assert n in Rename(m, r) && OldName(m, r, n) == k;
    }
    forall n | n in right
      ensures n in left
    {
      var i :| 0 <= i < |fields| && RenameList(r, fields)[i] == n;
      var k := OldName(m, r, n);
      assert fields[i] in (set f | f in fields);
      assert fields[i] == k;
      assert k in part && NewName(r, k) == n;
    }
  }

  lemma NarrowInjective(r: map<string, string>, fields: seq<string>, a: Data, b: Data)
    requires InjectiveOn(r, (set f | f in fields) + ColumnsOf(a) + ColumnsOf(b))
    ensures InjectiveOn(r, (set f | f in fields) + ColumnsOf(a)) && InjectiveOn(r, (set f | f in fields) + ColumnsOf(b))
  {
  }

  lemma ExtractAfterRename(data: Data, r: map<string, string>, fields: seq<string>)
    requires InjectiveOn(r, (set f | f in fields) + ColumnsOf(data))
    ensures Rename(Restrict(data, fields), r) == Restrict(RenameData(data, r), RenameList(r, fields))
    ensures NoCollision(data, r) && NoCollision(Fields(Restrict(data, fields)), r)
  {
    if data.Fields? {
      RenameRestrict(data.m, r, fields);
    }
  }

  /** The payload with both images restricted and renamed. */
  ghost function RenamedExtract(pat: Patterns, fields: seq<string>, c: ReplaceConfig, p: Payload): Payload {
    Payload(Fields(Rename(Restrict(p.before, fields), c.columns)), Fields(Rename(Restrict(p.after, fields), c.columns)),
            ReplaceSource(pat, c, p.source), p.op)
  }

  lemma RenameNothing(m: Row)
    ensures Rename(m, map[]) == m
  {
    var renamed := Rename(m, map[]);
    assert forall n | n in renamed :: OldName(m, map[], n) == n;
    assert forall k | k in m :: NewName(map[], k) in renamed;
  }

  lemma StepsDeliver(pat: Patterns, t: Transformation, t1: Transformation, p: Payload, q: Payload, o: Outcome<Payload>)
    requires !t.Undecodable? && !t1.Undecodable? && StepGives(pat, t, p, Keep(q)) && StepGives(pat, t1, q, o)
    ensures Delivers(pat, [t, t1], p, Delivered(o))
  {
    hide StepGives;
    assert [t, t1][1..] == [t1] && [t1][1..] == [];
    if o.Keep? { assert ChainGives(pat, [], o.value, o, 0); }
    assert ChainGives(pat, [t1], q, o, 1);
    assert ChainGives(pat, [t, t1], p, o, 2);
    assert ApplyGives(pat, [t, t1], p, o);
  }

  lemma FirstStepDelivers(pat: Patterns, t: Transformation, t1: Transformation, p: Payload)
    requires !t.Undecodable? && !t1.Undecodable? && StepGives(pat, t, p, Failed)
    ensures Delivers(pat, [t, t1], p, None)
  {
    assert ChainGives(pat, [t, t1], p, Failed, 1);
    assert ApplyGives(pat, [t, t1], p, Failed);
  }

  lemma ReplaceOfExtract(pat: Patterns, fields: seq<string>, c: ReplaceConfig, p: Payload, q: Payload)
    requires fields != [] && ExtractPayload(fields, p) == Keep(q) && ValidReplace(pat, c)
    ensures ReplaceGives(pat, c, q, Keep(RenamedExtract(pat, fields, c, p)))
  {
    hide ReplaceSource, ValidReplace, Rename, IsRenaming;
    RenameRenames(q.before.m, c.columns);
    RenameRenames(q.after.m, c.columns);
    if c.columns == map[] {
      RenameNothing(q.before.m);
      RenameNothing(q.after.m);
    }
  }

  lemma ExtractThenRename(pat: Patterns, fields: seq<string>, c: ReplaceConfig, p: Payload)
    ensures var d := if fields == [] || !ValidReplace(pat, c) then None else Some(RenamedExtract(pat, fields, c, p));
            Delivers(pat, [Extract(fields), Replace(c)], p, d)
  {
    hide ValidReplace, RenamedExtract, RenamesData, Delivers;
    var t, t1 := Extract(fields), Replace(c);
    if fields == [] {
      FirstStepDelivers(pat, t, t1, p);
    } else {
      var q := ExtractPayload(fields, p).value;
      if ValidReplace(pat, c) {
        ReplaceOfExtract(pat, fields, c, p, q);
        hide ReplaceGives;
        StepsDeliver(pat, t, t1, p, q, Keep(RenamedExtract(pat, fields, c, p)));
      } else {
        StepsDeliver(pat, t, t1, p, q, Failed);
      }
    }
  }

  lemma RenameThenExtract(pat: Patterns, fields: seq<string>, c: ReplaceConfig, p: Payload)
    requires InjectiveOn(c.columns, (set f | f in fields) + ColumnsOf(p.before) + ColumnsOf(p.after))
    ensures var d := if fields == [] || !ValidReplace(pat, c) then None else Some(RenamedExtract(pat, fields, c, p));
            Delivers(pat, [Replace(c), Extract(RenameList(c.columns, fields))], p, d)
  {
    hide ReplaceSource, ValidReplace, Rename, InjectiveOn, IsRenaming, NoCollision, FilterPayload, Delivers;
    var renamed := RenameList(c.columns, fields);
    var t, t1 := Replace(c), Extract(renamed);
    NarrowInjective(c.columns, fields, p.before, p.after);
    ExtractAfterRename(p.before, c.columns, fields);
    ExtractAfterRename(p.after, c.columns, fields);
    if !ValidReplace(pat, c) {
      FirstStepDelivers(pat, t, t1, p);
    } else {
      var before, after := RenameData(p.before, c.columns), RenameData(p.after, c.columns);
      var q := Payload(before, after, ReplaceSource(pat, c, p.source), p.op);
      RenamesDataTo(p.before, c.columns, before);
      RenamesDataTo(p.after, c.columns, after);
      if c.columns == map[] {
        if p.before.Fields? { RenameNothing(p.before.m); }
        if p.after.Fields? { RenameNothing(p.after.m); }
      }
      StepsDeliver(pat, t, t1, p, q, ExtractPayload(renamed, q));
    }
  }

  lemma CommutingIsFree(pat: Patterns, fields: seq<string>, c: ReplaceConfig, p: Payload)
    requires InjectiveOn(c.columns, (set f | f in fields) + ColumnsOf(p.before) + ColumnsOf(p.after))
    ensures CollisionFree(pat, [Extract(fields), Replace(c)], p)
    ensures CollisionFree(pat, [Replace(c), Extract(RenameList(c.columns, fields))], p)
  {
    hide InjectiveOn, NoCollision, ReplaceGives, FilterPayload;
    var t, r, t1 := Extract(fields), Replace(c), Extract(RenameList(c.columns, fields));
    NarrowInjective(c.columns, fields, p.before, p.after);
    ExtractAfterRename(p.before, c.columns, fields);
    ExtractAfterRename(p.after, c.columns, fields);
    assert [t, r][1..] == [r] && [r, t1][1..] == [t1] && [r][1..] == [] && [t1][1..] == [];
    assert forall q: Payload :: CollisionFree(pat, [], q);
    forall q: Payload
      ensures CollisionFree(pat, [t1], q)
    {
    }
    forall q | StepGives(pat, t, p, Keep(q))
      ensures CollisionFree(pat, [r], q)
    {
      assert q.before == Fields(Restrict(p.before, fields)) && q.after == Fields(Restrict(p.after, fields));
    }
    assert [r, t1][0] == r && [t, r][0] == t;
    assert CollisionFree(pat, [t, r], p);
    assert CollisionFree(pat, [r, t1], p);
  }

  /** extract(F) then replace delivers what replace then extract of the renamed F delivers, when
      the renaming is injective on F and the event's columns. */
  lemma ExtractCommutesWithRename(pat: Patterns, fields: seq<string>, c: ReplaceConfig, p: Payload, d: Option<Payload>)
    requires InjectiveOn(c.columns, (set f | f in fields) + ColumnsOf(p.before) + ColumnsOf(p.after))
    ensures Delivers(pat, [Extract(fields), Replace(c)], p, d)
            <==> Delivers(pat, [Replace(c), Extract(RenameList(c.columns, fields))], p, d)
  {
    hide Delivers, CollisionFree, InjectiveOn, RenamedExtract, ValidReplace;
    ExtractThenRename(pat, fields, c, p);
    RenameThenExtract(pat, fields, c, p);
    CommutingIsFree(pat, fields, c, p);
    var one := if fields == [] || !ValidReplace(pat, c) then None else Some(RenamedExtract(pat, fields, c, p));
    var left, right := [Extract(fields), Replace(c)], [Replace(c), Extract(RenameList(c.columns, fields))];
    if Delivers(pat, left, p, d) { DeliveryIsUnique(pat, left, p, d, one); }
    if Delivers(pat, right, p, d) { DeliveryIsUnique(pat, right, p, d, one); }
  }

  // Schema fields are shared, so they are the one thing a chain can change for others.

  /** A column rename that leaves a schema field alone: it does not name the field, or names it
      to itself without correcting a display name. */
  predicate SparesField(columns: map<string, string>, f: SchemaField) {
    f.field in columns ==> columns[f.field] == f.field && (f.name == "" || f.name == f.field)
  }

  predicate SparesFields(pat: Patterns, t: Transformation, fs: seq<SchemaField>) {
    t.Replace? && ValidReplace(pat, t.replace) ==> forall f | f in fs :: SparesField(t.replace.columns, f)
  }

  /** A step leaves the shared schema fields as they are if and only if it is no valid replace, or
      one whose column renames spare every field. */
  lemma StepKeepsFields(pat: Patterns, t: Transformation, fs: seq<SchemaField>)
    ensures StepFields(pat, t, fs) == fs <==> SparesFields(pat, t, fs)
  {
    if t.Replace? && ValidReplace(pat, t.replace) {
      var out := RenameFields(t.replace.columns, fs);
      assert out == fs <==> forall i | 0 <= i < |fs| :: out[i] == fs[i];
      assert forall i | 0 <= i < |fs| :: out[i] == fs[i] <==> SparesField(t.replace.columns, fs[i]);
      assert forall i | 0 <= i < |fs| :: fs[i] in fs;
    }
  }

  /** The first n steps of a list leave the schema fields that other copies of the event see as
      they were, after every step, if and only if each of these steps spares them. */
  lemma {:induction false} ChainKeepsFields(pat: Patterns, ts: seq<Transformation>, n: nat, fs: seq<SchemaField>)
    requires n <= |ts|
    ensures (forall k | 0 <= k <= n :: FieldsAfter(pat, ts[..k], fs) == fs)
            <==> forall i | 0 <= i < n :: SparesFields(pat, ts[i], fs)
    decreases n
  {
    hide StepFields, SparesFields;
    if n > 0 {
      ChainKeepsFields(pat, ts, n - 1, fs);
      NextFields(pat, ts, n, fs);
      hide FieldsAfter;
      StepKeepsFields(pat, ts[n - 1], fs);
    }
  }

  lemma NextFields(pat: Patterns, ts: seq<Transformation>, n: nat, fs: seq<SchemaField>)
    requires 0 < n <= |ts|
    ensures FieldsAfter(pat, ts[..n], fs) == StepFields(pat, ts[n - 1], FieldsAfter(pat, ts[..n - 1], fs))
  {
    hide StepFields;
    assert ts[..n][..n - 1] == ts[..n - 1];
  }

  lemma {:induction false} ReachesAtMostAll(
    pat: Patterns, ts: seq<Transformation>, p: Payload, o: Outcome<Payload>, n: nat)
    requires ChainGives(pat, ts, p, o, n)
    ensures n <= |ts|
    decreases |ts|
  {
    hide StepGives;
    if ts != [] && (o.Keep? || n != 1 || !StepGives(pat, ts[0], p, o)) {
      var q :| StepGives(pat, ts[0], p, Keep(q)) && ChainGives(pat, ts[1..], q, o, n - 1);
      ReachesAtMostAll(pat, ts[1..], q, o, n - 1);
    }
  }

  /** An event leaves the shared schema fields as they were at every step of a chain if and only
      if it reaches no valid replace whose column renames touch one of them. */
  lemma EventKeepsFields(
    pat: Patterns, ts: seq<Transformation>, p: Payload, o: Outcome<Payload>, n: nat, fs: seq<SchemaField>)
    requires ChainGives(pat, ts, p, o, n)
    ensures n <= |ts|
    ensures (forall k | 0 <= k <= n :: FieldsAfter(pat, ts[..k], fs) == fs)
            <==> forall i | 0 <= i < n :: SparesFields(pat, ts[i], fs)
  {
    hide ChainGives, FieldsAfter, SparesFields;
    ReachesAtMostAll(pat, ts, p, o, n);
    ChainKeepsFields(pat, ts, n, fs);
  }

  /** The input that shows the leak: one rename of one field. */
  lemma FieldsLeak(pat: Patterns, p: Payload)
    ensures var rename := Replace(ReplaceConfig(map[], map[], map["a" := "b"], []));
            FieldsAfter(pat, [rename], [SchemaField("a", "")]) == [SchemaField("b", "")]
  {
    var c := ReplaceConfig(map[], map[], map["a" := "b"], []);
    assert "a" in c.columns;
    assert [Replace(c)][..0] == [];
    assert RenameFields(c.columns, [SchemaField("a", "")]) == [SchemaField("b", "")];
  }
}
