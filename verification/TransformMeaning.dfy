/** What each transformation does to an event, told from its configuration alone: which tables an
    entry names, which events a filter keeps, what an extract leaves, and which names a replace
    gives. */
module TransformMeaning {
  import opened Options
  import opened Text
  import opened Cdc
  import opened Transform

  // ---- Entries that name tables ----

  /** entry is a.b, with no other dot. */
  predicate IsDotted(entry: string, a: string, b: string) {
    entry == a + "." + b && '.' !in a && '.' !in b
  }

  predicate Names(pat: Patterns, pattern: string, name: string) { pattern == "*" || pat.glob(pattern, name) }

  /** What an entry of tables or excludeTables names. With one dot: the part before it is for the schema
      and may be empty, the part after it for the table; with a star anywhere both are patterns.
      Otherwise the whole entry is for the table, in any schema; as a pattern, the empty pattern is
      left for the schema. */
  ghost predicate EntryNames(pat: Patterns, entry: string, schemaName: string, table: string) {
    if exists a, b :: IsDotted(entry, a, b) then
      exists a, b :: IsDotted(entry, a, b) &&
        if '*' in entry then Names(pat, a, schemaName) && Names(pat, b, table)
        else (a == "" || a == schemaName) && b == table
    else if '*' in entry then pat.glob("", schemaName) && Names(pat, entry, table)
    else entry == table
  }

  lemma DottedParts(entry: string, a: string, b: string)
    requires IsDotted(entry, a, b)
    ensures Split(entry, '.') == [a, b]
    ensures '*' in entry <==> '*' in a || '*' in b
  {
    SplitConcat(a, b, '.');
    SplitOne(a, "", '.');
    SplitOne(b, "", '.');
    assert a + "" == a && b + "" == b;
  }

  lemma TwoParts(entry: string) returns (a: string, b: string)
    requires |Split(entry, '.')| == 2
    ensures IsDotted(entry, a, b) && Split(entry, '.') == [a, b]
  {
    hide Split;
    var parts := Split(entry, '.');
    a, b := parts[0], parts[1];
    JoinSplit(entry, '.');
    assert parts[1..] == [b] && parts == [a, b] && a in parts && b in parts;
  }

  lemma DottedRef(entry: string, a: string, b: string)
    requires IsDotted(entry, a, b)
    ensures ParseTableRef(entry) == TableRef(a, b, '*' in entry)
  {
    DottedParts(entry, a, b);
    hide Split;
    StarsAreDotted(entry, a, b);
  }

  lemma StarsAreDotted(entry: string, a: string, b: string)
    requires entry == a + "." + b && '.' !in a
    ensures entry == "*.*" ==> a == "*" && b == "*"
  {
    if entry == "*.*" {
      assert entry[|a|] == '.' && |a| == 1;
      assert a == entry[..1] && b == entry[2..];
    }
  }

  lemma UndottedRef(entry: string)
    requires !exists a, b :: IsDotted(entry, a, b)
    ensures ParseTableRef(entry) == TableRef("", entry, '*' in entry)
  {
    if |Split(entry, '.')| == 2 { var a, b := TwoParts(entry); }
    hide Split;
    DottedIsTwo(entry);
  }

  lemma DottedIsTwo(entry: string)
    ensures entry == "*.*" ==> IsDotted(entry, "*", "*")
  {
  }

  lemma EntryMeaning(pat: Patterns, s: Source, entry: string)
    ensures MatchesRef(pat, s, ParseTableRef(entry)) <==> EntryNames(pat, entry, s.schemaName, s.table)
  {
    hide ParseTableRef, IsDotted;
    if a, b :| IsDotted(entry, a, b) {
      DottedRef(entry, a, b);
      forall x, y | IsDotted(entry, x, y)
        ensures x == a && y == b
      {
        DottedRef(entry, x, y);
      }
    } else {
      UndottedRef(entry);
    }
  }

  /** The documented forms: t, s.t, s.*, *.t and *.*, for names without dots and stars. */
  lemma EntryForms(pat: Patterns, s: Source, schemaName: string, table: string)
    requires '.' !in schemaName && '*' !in schemaName && '.' !in table && '*' !in table && schemaName != ""
    ensures EntryNames(pat, table, s.schemaName, s.table) <==> s.table == table
    ensures EntryNames(pat, schemaName + "." + table, s.schemaName, s.table) <==> s == Source(schemaName, table)
    ensures EntryNames(pat, schemaName + "." + "*", s.schemaName, s.table) <==> pat.glob(schemaName, s.schemaName)
    ensures EntryNames(pat, "*" + "." + table, s.schemaName, s.table) <==> pat.glob(table, s.table)
    ensures EntryNames(pat, "*" + "." + "*", s.schemaName, s.table)
  {
    NotDotted(table);
    OnlyDotted(schemaName, table);
    OnlyDotted(schemaName, "*");
    OnlyDotted("*", table);
    OnlyDotted("*", "*");
  }

  lemma NotDotted(entry: string)
    requires '.' !in entry
    ensures !exists a, b :: IsDotted(entry, a, b)
  {
    forall a, b
      ensures !IsDotted(entry, a, b)
    {
      DotInside(entry, a, b);
    }
  }

  lemma DotInside(entry: string, a: string, b: string)
    ensures IsDotted(entry, a, b) ==> '.' in entry
  {
    if IsDotted(entry, a, b) { assert entry[|a|] == '.'; }
  }

  lemma OnlyDotted(a: string, b: string)
    requires '.' !in a && '.' !in b
    ensures IsDotted(a + "." + b, a, b)
    ensures forall x, y | IsDotted(a + "." + b, x, y) :: x == a && y == b
    ensures '*' in a + "." + b <==> '*' in a || '*' in b
  {
    DottedParts(a + "." + b, a, b);
    hide Split;
    forall x, y | IsDotted(a + "." + b, x, y)
      ensures x == a && y == b
    {
      DottedParts(a + "." + b, x, y);
    }
  }

  /** A pattern without a schema names no table, since the empty pattern matches no schema name. */
  lemma PatternNeedsSchema(pat: Patterns, entry: string, schemaName: string, table: string)
    requires '*' in entry && '.' !in entry && !pat.glob("", schemaName)
    ensures !EntryNames(pat, entry, schemaName, table)
  {
    NotDotted(entry);
  }

  // ---- Filter ----

  /** The letters of operations; a truncate has one that cannot be listed. */
  predicate IsLetterOf(letter: string, op: Operation) {
    || (letter == "c" && op == Create) || (letter == "u" && op == Update)
    || (letter == "d" && op == Delete) || (letter == "r" && op == Read)
  }

  predicate IsFilter(pat: Patterns, c: FilterConfig) {
    && !(c.tables == [] && c.excludeTables == [] && c.tablePattern == "" && c.operations == [])
    && (c.tablePattern == "" || pat.compiles(c.tablePattern))
    && forall i | 0 <= i < |c.operations| ::
         c.operations[i] == "c" || c.operations[i] == "u" || c.operations[i] == "d" || c.operations[i] == "r"
  }

  /** A valid filter keeps an event whose operation is listed, or none is, whose table no exclude entry
      and some include entry names, if there is one, and whose table matches the pattern, if there is
      one, with or without its schema. */
  ghost predicate Wanted(pat: Patterns, c: FilterConfig, p: Payload) {
    var schemaName, table := p.source.schemaName, p.source.table;
    && (c.operations == [] || exists letter :: letter in c.operations && IsLetterOf(letter, p.op))
    && (forall entry | entry in c.excludeTables :: !EntryNames(pat, entry, schemaName, table))
    && (c.tables == [] || exists entry :: entry in c.tables && EntryNames(pat, entry, schemaName, table))
    && (c.tablePattern == "" || pat.matches(c.tablePattern, schemaName + "." + table) || pat.matches(c.tablePattern, table))
  }

  /** A filter fails on an event without a schema or table, and on one without an operation when
      operations are listed. */
  predicate Incomplete(c: FilterConfig, p: Payload) {
    p.source.schemaName == "" || p.source.table == "" || (c.operations != [] && p.op == NoOp)
  }

  lemma NamedByAny(pat: Patterns, s: Source, entries: seq<string>)
    ensures MatchesAny(pat, s, entries)
            <==> exists entry :: entry in entries && EntryNames(pat, entry, s.schemaName, s.table)
  {
    hide MatchesRef, ParseTableRef, EntryNames;
    forall entry
      ensures MatchesRef(pat, s, ParseTableRef(entry)) <==> EntryNames(pat, entry, s.schemaName, s.table)
    {
      EntryMeaning(pat, s, entry);
    }
    if entry :| entry in entries && EntryNames(pat, entry, s.schemaName, s.table) {
      var i :| 0 <= i < |entries| && entries[i] == entry;
      assert MatchesRef(pat, s, ParseTableRef(entries[i]));
    }
  }

  lemma LettersAgree(c: FilterConfig, op: Operation)
    requires op != NoOp && forall letter | letter in c.operations :: letter in {"c", "u", "d", "r"}
    ensures OpCode(op) != "" && (OpCode(op) in c.operations <==> exists letter :: letter in c.operations && IsLetterOf(letter, op))
  {
    if letter :| letter in c.operations && IsLetterOf(letter, op) { assert letter == OpCode(op); }
    if OpCode(op) in c.operations { assert IsLetterOf(OpCode(op), op); }
  }

  /** Every event is kept as it is, dropped, or refused, as the configuration says. */
  lemma FilterDecides(pat: Patterns, c: FilterConfig, p: Payload, o: Outcome<Payload>)
    requires StepGives(pat, Filter(c), p, o)
    ensures o == if !IsFilter(pat, c) || Incomplete(c, p) then Failed else if Wanted(pat, c, p) then Keep(p) else Skip
  {
    NamedByAny(pat, p.source, c.excludeTables);
    NamedByAny(pat, p.source, c.tables);
    FiltersAgree(pat, c);
    hide MatchesAny, EntryNames, OpCode, IsLetterOf;
    if ValidFilter(pat, c) && p.op != NoOp { LettersAgree(c, p.op); }
    NoOperation();
  }

  lemma NoOperation()
    ensures OpCode(NoOp) == ""
  {
  }

  lemma FiltersAgree(pat: Patterns, c: FilterConfig)
    ensures ValidFilter(pat, c) <==> IsFilter(pat, c)
  {
    assert forall i | 0 <= i < |c.operations| :: c.operations[i] in c.operations;
  }

  // ---- Extract ----

  /** An image after an extract: an object with the listed fields the image had, and their values. */
  predicate OnlyFields(image: Data, fields: seq<string>, left: Data) {
    && left.Fields?
    && (forall k | k in left.m :: k in fields && image.Fields? && k in image.m && left.m[k] == image.m[k])
    && forall k | k in fields && image.Fields? && k in image.m :: k in left.m
  }

  /** An extract keeps every event, with only the listed fields in its before and after images; without a
      list it fails. */
  lemma ExtractLeaves(pat: Patterns, fields: seq<string>, p: Payload, o: Outcome<Payload>)
    requires StepGives(pat, Extract(fields), p, o)
    ensures if fields == [] then o == Failed
            else && o.Keep? && o.value.source == p.source && o.value.op == p.op
                 && OnlyFields(p.before, fields, o.value.before) && OnlyFields(p.after, fields, o.value.after)
  {
  }

  // ---- Replace ----

  predicate IsReplace(pat: Patterns, c: ReplaceConfig) {
    && !(c.schemas == map[] && c.tables == map[] && c.columns == map[] && c.regex == [])
    && forall rule | rule in c.regex ::
         (rule.kind == "schema" || rule.kind == "table" || rule.kind == "column") && pat.compiles(rule.pattern)
  }

  function Renamed(names: map<string, string>, name: string): string { if name in names then names[name] else name }

  /** Without expressions, a replace gives the schema and the table their new names, each from its own
      map, and keeps the operation; an invalid one fails. */
  lemma ReplaceRenames(pat: Patterns, c: ReplaceConfig, p: Payload, o: Outcome<Payload>)
    requires StepGives(pat, Replace(c), p, o)
    ensures if !IsReplace(pat, c) then o == Failed
            else o.Keep? && o.value.op == p.op && o.value.source == ReplaceSource(pat, c, p.source)
    ensures c.regex == [] ==>
              ReplaceSource(pat, c, p.source)
              == Source(Renamed(c.schemas, p.source.schemaName), Renamed(c.tables, p.source.table))
  {
    assert forall i | 0 <= i < |c.regex| :: c.regex[i] in c.regex;
  }

  /** One more expression works on the name that the maps and the expressions before it give: on the
      schema, on the table, or, for columns, on nothing. */
  lemma {:induction false} ExpressionsInOrder(pat: Patterns, c: ReplaceConfig, rule: RegexRule, s: Source)
    ensures var before, after := ReplaceSource(pat, c, s), ReplaceSource(pat, c.(regex := c.regex + [rule]), s);
            && after.schemaName == (if rule.kind == "schema" then pat.replaceAll(rule.pattern, before.schemaName, rule.replace)
                                    else before.schemaName)
            && after.table == (if rule.kind == "table" then pat.replaceAll(rule.pattern, before.table, rule.replace)
                               else before.table)
  {
    LastRule(pat, "schema", c.regex, rule, NewName(c.schemas, s.schemaName));
    LastRule(pat, "table", c.regex, rule, NewName(c.tables, s.table));
  }

  lemma {:induction false} LastRule(pat: Patterns, kind: string, rules: seq<RegexRule>, rule: RegexRule, text: string)
    ensures ReplaceBy(pat, kind, rules + [rule], text)
            == var before := ReplaceBy(pat, kind, rules, text);
               if rule.kind == kind then pat.replaceAll(rule.pattern, before, rule.replace) else before
    decreases |rules|
  {
    if rules == [] {
      assert rules + [rule] == [rule] && [rule][1..] == [];
    } else {
      LastRule(pat, kind, rules[1..], rule,
               if rules[0].kind == kind then pat.replaceAll(rules[0].pattern, text, rules[0].replace) else text);
      assert (rules + [rule])[1..] == rules[1..] + [rule];
    }
  }

  /** The columns of an image after a replace: each under its new name, with the value of a column that
      gets the name, and no others. */
  lemma ColumnsRenamed(pat: Patterns, c: ReplaceConfig, p: Payload, o: Outcome<Payload>)
    requires StepGives(pat, Replace(c), p, o) && o.Keep?
    ensures RenamedImage(c.columns, p.before, o.value.before) && RenamedImage(c.columns, p.after, o.value.after)
  {
    if c.columns == map[] {
      NothingRenamed(p.before);
      NothingRenamed(p.after);
    }
  }

  ghost predicate RenamedImage(names: map<string, string>, image: Data, renamed: Data) {
    if !image.Fields? then renamed == image
    else
      && renamed.Fields?
      && (forall k | k in image.m :: Renamed(names, k) in renamed.m)
      && forall n | n in renamed.m :: exists k :: k in image.m && Renamed(names, k) == n && renamed.m[n] == image.m[k]
  }

  lemma NothingRenamed(image: Data)
    ensures RenamedImage(map[], image, image)
  {
    if image.Fields? {
      forall n | n in image.m
        ensures exists k :: k in image.m && Renamed(map[], k) == n && image.m[n] == image.m[k]
      {
        assert Renamed(map[], n) == n;
      }
    }
  }

  /** A schema field is renamed with its column, its display name too if it has one. */
  lemma FieldRenamed(pat: Patterns, c: ReplaceConfig, fs: seq<SchemaField>, i: nat)
    requires ValidReplace(pat, c) && i < |fs|
    ensures var after := StepFields(pat, Replace(c), fs);
            && |after| == |fs|
            && after[i].field == Renamed(c.columns, fs[i].field)
            && after[i].name == if fs[i].name != "" && fs[i].field in c.columns then c.columns[fs[i].field] else fs[i].name
  {
  }
}
