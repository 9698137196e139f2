/** Rendering filters as SQL (pkg/rest/filter.go): the text as tokens, numbered from the bind
    parameters already present, and the bind parameters it adds. `ArgList` and the methods over
    it follow the source; the functions say what they produce. */
module FilterSql {
  import opened Options
  import opened Text
  import opened FilterGrammar
  import opened ArrayLiteral
  import opened Sql
  import FilterParsing

  /** composite: the type is a composite; arrayOfComposite: its elements are. */
  datatype Column = Column(
    name: string, dataType: string, composite: bool, arrayOfComposite: bool, udtSchema: string, udtName: string)

  datatype Table = Table(schemaName: string, name: string, columns: seq<Column>)

  /** findColumn: the first column of that name. */
  function FindColumn(columns: seq<Column>, name: string): (r: Option<Column>)
    ensures r.Some? ==> r.value in columns && r.value.name == name
    ensures r.None? ==> forall c | c in columns :: c.name != name
  {
    if columns == [] then None
    else if columns[0].name == name then Some(columns[0])
    else FindColumn(columns[1..], name)
  }

  datatype SqlError =
    | BadFilter(error: FilterError)
    | NoColumn(name: string)
    | BadOrder(column: string)
    | NoColumns
    | BadValue(column: string)

  datatype Rendered<+T> = Sql(sql: T) | Error(error: SqlError)

  function PrependTo<T>(xs: seq<T>, r: Rendered<seq<T>>): Rendered<seq<T>> {
    match r
    case Error(e) => Error(e)
    case Sql(ys) => Rendered.Sql(xs + ys)
  }

  lemma PrependToLaws<T>(xs: seq<T>, x: T, r: Rendered<seq<T>>)
    ensures PrependTo(xs, PrependTo([x], r)) == PrependTo(xs + [x], r)
    ensures PrependTo([], r) == r && PrependTo(xs, Rendered.Sql([])) == Rendered.Sql(xs)
  {
    assert xs + [] == xs;
    if r.Sql? {
      assert [] + r.sql == r.sql;
      assert xs + ([x] + r.sql) == xs + [x] + r.sql;
    }
  }

  // ---- Fields ----

  function StepSql(step: Step, n: nat): seq<Token> {
    [Op(if step.textual then "->>" else "->"), Param(n), CastT(if step.IndexStep? then "int" else "text")]
  }

  function StepArg(step: Step): Value {
    match step
    case KeyStep(_, key) => Text(key)
    case IndexStep(_, index) => Int(index)
  }

  function PathSql(path: seq<Step>, k: nat): seq<Token> {
    if path == [] then [] else StepSql(path[0], k + 1) + PathSql(path[1..], k + 1)
  }

  function PathArgs(path: seq<Step>): (r: seq<Value>)
    ensures |r| == |path|
  {
    seq(|path|, i requires 0 <= i < |path| => StepArg(path[i]))
  }

  predicate IsJson(dataType: string) { dataType == "json" || dataType == "jsonb" }

  function FieldBase(col: Column): seq<Token> {
    if IsJson(col.dataType) then [Ident(col.name)] else [Word("to_jsonb"), LP, Ident(col.name), RP]
  }

  /** The field of a condition, after k bind parameters. */
  function FieldSql(path: seq<Step>, col: Column, k: nat): seq<Token> {
    if path == [] then [Ident(col.name)] else [LP] + FieldBase(col) + PathSql(path, k) + [RP]
  }

  // ---- Conditions ----

  function IsTestSql(value: string): seq<Token> {
    if value == "null" then [Word("NULL")]
    else if value == "not_null" then [NotT, Word("NULL")]
    else if value == "true" then [Word("TRUE")]
    else if value == "false" then [Word("FALSE")]
    else [Word("UNKNOWN")]
  }

  /** strings.ReplaceAll(s, "*", "%") */
  function StarsToPercents(s: string): (r: string)
    ensures |r| == |s|
    ensures forall i | 0 <= i < |s| :: r[i] == if s[i] == '*' then '%' else s[i]
  {
    seq(|s|, i requires 0 <= i < |s| => if s[i] == '*' then '%' else s[i])
  }

  const LITERAL_STARTS: set<char> := {'{', '[', '(', '"'}

  /** The operand as it is bound: wildcards for like and ilike, the older array shorthand for
      cs and cd. */
  function BoundOperand(op: Operation, col: Column): string {
    if op.operator == "like" || op.operator == "ilike" then StarsToPercents(op.value)
    else if (op.operator == "cs" || op.operator == "cd")
            && col.dataType == "ARRAY" && op.value != "" && op.value[0] !in LITERAL_STARTS
    then Convert(op.value)
    else op.value
  }

  function LangSql(lang: string, n: nat): seq<Token> {
    if lang == "" then [] else [Param(n), CastT("regconfig"), Comma]
  }

  predicate ConvertsToTsvector(field: Field, col: Column) {
    col.dataType != "tsvector" || field.path != []
  }

  function FtsSql(field: Field, op: Operation, col: Column, k: nat): seq<Token>
    requires op.operator in FTS_FUNCTIONS
  {
    var lhs := FieldSql(field.path, col, k);
    var k1 := k + |field.path|;
    var k2 := if op.lang == "" then k1 else k1 + 1;
    (if ConvertsToTsvector(field, col) then [Word("to_tsvector"), LP] + LangSql(op.lang, k1 + 1) + lhs + [RP] else lhs)
    + [Op("@@"), Word(FTS_FUNCTIONS[op.operator]), LP] + LangSql(op.lang, k1 + 1) + [Param(k2 + 1), RP]
  }

  function ConditionSql(field: Field, op: Operation, col: Column, k: nat): seq<Token> {
    var lhs := FieldSql(field.path, col, k);
    var n := k + |field.path| + 1;
    if op.operator == "in" then lhs + [Op("="), Word("ANY"), LP, Param(n), RP]
    else if op.operator == "is" then lhs + [Word("IS")] + IsTestSql(op.value)
    else if op.operator == "isdistinct" then lhs + [Word("IS"), Word("DISTINCT"), Word("FROM"), Param(n)]
    else if op.operator in FTS_FUNCTIONS then FtsSql(field, op, col, k)
    else
      var symbol := if op.operator in SQL_OPERATORS then SQL_OPERATORS[op.operator] else "";
      match op.quant
      case NoQuant => lhs + [Op(symbol), Param(n)]
      case ANY => lhs + [Op(symbol), Word("ANY"), LP, Param(n), RP]
      case ALL => lhs + [Op(symbol), Word("ALL"), LP, Param(n), RP]
  }

  /** The bind parameters of a condition, in the order they are added. */
  function ConditionArgs(field: Field, op: Operation, col: Column): seq<Value> {
    PathArgs(field.path)
    + if op.operator == "in" then [Text(Encode(op.list))]
      else if op.operator == "is" then []
      else if op.operator in FTS_FUNCTIONS then (if op.lang == "" then [] else [Text(op.lang)]) + [Text(op.value)]
      else if op.operator == "isdistinct" then [Text(op.value)]
      else [Text(BoundOperand(op, col))]
  }

  // ---- Nodes ----

  /** Every column a node names exists. */
  function MissingColumn(node: FilterNode, table: Table): Option<string>
    decreases node, 1
  {
    match node
    case Group(_, _, children) => MissingColumns(children, table)
    case Condition(field, _) =>
      if FindColumn(table.columns, field.column).Some? then None else Some(field.column)
  }

  function MissingColumns(nodes: seq<FilterNode>, table: Table): Option<string>
    decreases nodes, 0
  {
    if nodes == [] then None
    else if MissingColumn(nodes[0], table).Some? then MissingColumn(nodes[0], table)
    else MissingColumns(nodes[1..], table)
  }

  function ColumnOf(field: Field, table: Table): Column
    requires FindColumn(table.columns, field.column).Some?
  {
    FindColumn(table.columns, field.column).value
  }

  function NodeArgs(node: FilterNode, table: Table): seq<Value>
    requires MissingColumn(node, table).None?
    decreases node, 1
  {
    match node
    case Group(_, _, children) => NodesArgs(children, table)
    case Condition(field, op) => ConditionArgs(field, op, ColumnOf(field, table))
  }

  function NodesArgs(nodes: seq<FilterNode>, table: Table): seq<Value>
    requires MissingColumns(nodes, table).None?
    decreases nodes, 0
  {
    if nodes == [] then [] else NodeArgs(nodes[0], table) + NodesArgs(nodes[1..], table)
  }

  function LogicToken(logic: Logic): Token { if logic == AND then AndT else OrT }

  /** Groups are parenthesized; a negated condition becomes NOT (...). */
  function NodeSql(node: FilterNode, table: Table, k: nat): seq<Token>
    requires MissingColumn(node, table).None?
    decreases node, 1
  {
    match node
    case Group(negate, logic, children) =>
      var group := [LP] + NodesSql(children, LogicToken(logic), table, k) + [RP];
      if negate then [NotT] + group else group
    case Condition(field, op) =>
      var cond := ConditionSql(field, op, ColumnOf(field, table), k);
      if op.negate then [NotT] + ([LP] + cond + [RP]) else cond
  }

  /** The nodes joined with a separator. */
  function NodesSql(nodes: seq<FilterNode>, sep: Token, table: Table, k: nat): seq<Token>
    requires MissingColumns(nodes, table).None?
    decreases nodes, 0
  {
    if nodes == [] then []
    else
      NodeSql(nodes[0], table, k) + MoreSql(nodes[1..], sep, table, k + |NodeArgs(nodes[0], table)|)
  }

  /** Nodes after the first, each behind a separator. */
  function MoreSql(nodes: seq<FilterNode>, sep: Token, table: Table, k: nat): seq<Token>
    requires MissingColumns(nodes, table).None?
    decreases nodes, 1
  {
    if nodes == [] then [] else [sep] + NodesSql(nodes, sep, table, k)
  }

  // ---- Whole filter lists ----

  datatype RawFilter = RawFilter(key: string, value: string)

  /** The parsed filters, or the first error: a filter that does not parse or names no column. */
  function ParseFilters(table: Table, filters: seq<RawFilter>): Rendered<seq<FilterNode>> {
    if filters == [] then Rendered.Sql([])
    else
      match ParseFilter(filters[0].key, filters[0].value)
      case Err(e) => Error(BadFilter(e))
      case Ok(node) =>
        match MissingColumn(node, table)
        case Some(name) => Error(NoColumn(name))
        case None => PrependTo([node], ParseFilters(table, filters[1..]))
  }

  lemma {:induction false} ParsedFiltersHaveColumns(table: Table, filters: seq<RawFilter>)
    requires ParseFilters(table, filters).Sql?
    ensures MissingColumns(ParseFilters(table, filters).sql, table).None?
    ensures |ParseFilters(table, filters).sql| == |filters|
    decreases |filters|
  {
    if filters != [] {
      ParsedFiltersHaveColumns(table, filters[1..]);
      var nodes := ParseFilters(table, filters).sql;
      assert nodes[1..] == ParseFilters(table, filters[1..]).sql;
    }
  }

  // ---- The source's methods ----

  class ArgList {
    var items: seq<Value>

    constructor ()
      ensures items == []
    {
      items := [];
    }

    /** Appends v and returns its placeholder. */
    method Add(v: Value) returns (placeholder: Token)
      modifies this
      ensures items == old(items) + [v] && placeholder == Param(|items|)
    {
      items := items + [v];
      placeholder := Param(|items|);
    }
  }

  lemma {:induction false} PathSqlSnoc(path: seq<Step>, step: Step, k: nat)
    ensures PathSql(path + [step], k) == PathSql(path, k) + StepSql(step, k + |path| + 1)
    decreases |path|
  {
    hide StepSql;
    if path == [] {
      assert path + [step] == [step];
    } else {
      PathSqlSnoc(path[1..], step, k + 1);
      assert (path + [step])[0] == path[0] && (path + [step])[1..] == path[1..] + [step];
      Associative(StepSql(path[0], k + 1), PathSql(path[1..], k + 1), StepSql(step, k + |path| + 1));
    }
  }

  method RenderField(field: Field, col: Column, args: ArgList) returns (sql: seq<Token>)
    modifies args
    ensures sql == FieldSql(field.path, col, |old(args.items)|)
    ensures args.items == old(args.items) + PathArgs(field.path)
  {
    sql := [Ident(col.name)];
    if field.path == [] {
      assert old(args.items) + PathArgs(field.path) == args.items;
      return;
    }
    if !IsJson(col.dataType) { sql := [Word("to_jsonb"), LP] + sql + [RP]; }
    assert sql == FieldBase(col);
    var steps := RenderPath(field.path, args);
    sql := [LP] + sql + steps + [RP];
  }

  method RenderPath(path: seq<Step>, args: ArgList) returns (b: seq<Token>)
    modifies args
    ensures b == PathSql(path, |old(args.items)|)
    ensures args.items == old(args.items) + PathArgs(path)
  {
    b := [];
    for i := 0 to |path|
      invariant b == PathSql(path[..i], |old(args.items)|)
      invariant args.items == old(args.items) + PathArgs(path[..i])
    {
      PathSqlSnoc(path[..i], path[i], |old(args.items)|);
      assert path[..i] + [path[i]] == path[..i + 1];
      assert PathArgs(path[..i + 1]) == PathArgs(path[..i]) + [StepArg(path[i])];
      var step := RenderStep(path[i], args);
      b := b + step;
    }
    assert path[..|path|] == path;
  }

  method RenderStep(step: Step, args: ArgList) returns (b: seq<Token>)
    modifies args
    ensures b == StepSql(step, |old(args.items)| + 1)
    ensures args.items == old(args.items) + [StepArg(step)]
  {
    b := [Op(if step.textual then "->>" else "->")];
    if step.IndexStep? {
      var p := args.Add(Int(step.index));
      b := b + [p, CastT("int")];
    } else {
      var p := args.Add(Text(step.key));
      b := b + [p, CastT("text")];
    }
  }

  method RenderFts(field: Field, op: Operation, col: Column, lhs: seq<Token>, args: ArgList, ghost k: nat)
    returns (sql: seq<Token>)
    requires op.operator in FTS_FUNCTIONS
    requires lhs == FieldSql(field.path, col, k) && |args.items| == k + |field.path|
    modifies args
    ensures sql == FtsSql(field, op, col, k)
    ensures args.items == old(args.items) + (if op.lang == "" then [] else [Text(op.lang)]) + [Text(op.value)]
  {
    hide FieldSql, FTS_FUNCTIONS;
    var lang: seq<Token> := [];
    if op.lang != "" {
      var p := args.Add(Text(op.lang));
      lang := [p, CastT("regconfig"), Comma];
    }
    var vector := lhs;
    if col.dataType != "tsvector" || field.path != [] {
      vector := [Word("to_tsvector"), LP] + lang + lhs + [RP];
    }
    var p := args.Add(Text(op.value));
    sql := vector + [Op("@@"), Word(FTS_FUNCTIONS[op.operator]), LP] + lang + [p, RP];
  }

  method RenderCondition(field: Field, op: Operation, table: Table, args: ArgList)
    returns (r: Rendered<seq<Token>>)
    modifies args
    ensures r == match FindColumn(table.columns, field.column)
                 case None => Error(NoColumn(field.column))
                 case Some(col) => Rendered.Sql(ConditionSql(field, op, col, |old(args.items)|))
    ensures r.Sql? ==> args.items == old(args.items) + ConditionArgs(field, op, ColumnOf(field, table))
  {
    hide FieldSql, FtsSql, PathArgs, Encode, Convert, StarsToPercents, IsTestSql, FindColumn;
    var found := FindColumn(table.columns, field.column);
    if found.None? { return Error(NoColumn(field.column)); }
    var col := found.value;
    var lhs := RenderField(field, col, args);
    if op.operator == "in" {
      var literal := PgArrayLiteral(op.list);
      var p := args.Add(Text(literal));
      return Rendered.Sql(lhs + [Op("="), Word("ANY"), LP, p, RP]);
    } else if op.operator == "is" {
      return Rendered.Sql(lhs + [Word("IS")] + IsTestSql(op.value));
    } else if op.operator == "isdistinct" {
      var p := args.Add(Text(op.value));
      return Rendered.Sql(lhs + [Word("IS"), Word("DISTINCT"), Word("FROM"), p]);
    }
    if op.operator in FTS_FUNCTIONS {
      var sql := RenderFts(field, op, col, lhs, args, |old(args.items)|);
      return Rendered.Sql(sql);
    }
    var value := op.value;
    if op.operator == "like" || op.operator == "ilike" {
      value := StarsToPercents(value);
    } else if op.operator == "cs" || op.operator == "cd" {
      if col.dataType == "ARRAY" && value != "" && value[0] !in LITERAL_STARTS {
        value := ConvertToPostgresArrayOrJSON(value);
      }
    }
    var symbol := if op.operator in SQL_OPERATORS then SQL_OPERATORS[op.operator] else "";
    var p := args.Add(Text(value));
    match op.quant
    case NoQuant => return Rendered.Sql(lhs + [Op(symbol), p]);
    case ANY => return Rendered.Sql(lhs + [Op(symbol), Word("ANY"), LP, p, RP]);
    case ALL => return Rendered.Sql(lhs + [Op(symbol), Word("ALL"), LP, p, RP]);
  }

  lemma {:induction false} ArgsSnoc(nodes: seq<FilterNode>, node: FilterNode, table: Table)
    requires MissingColumns(nodes, table).None? && MissingColumn(node, table).None?
    ensures MissingColumns(nodes + [node], table).None?
    ensures NodesArgs(nodes + [node], table) == NodesArgs(nodes, table) + NodeArgs(node, table)
    decreases |nodes|
  {
    hide NodeArgs, MissingColumn;
    if nodes == [] {
      assert nodes + [node] == [node];
    } else {
      assert (nodes + [node])[1..] == nodes[1..] + [node];
      ArgsSnoc(nodes[1..], node, table);
      Associative(NodeArgs(nodes[0], table), NodesArgs(nodes[1..], table), NodeArgs(node, table));
    }
  }

  lemma {:induction false} MoreSnoc(nodes: seq<FilterNode>, node: FilterNode, sep: Token, table: Table, k: nat)
    requires MissingColumns(nodes, table).None? && MissingColumn(node, table).None?
    requires MissingColumns(nodes + [node], table).None?
    ensures MoreSql(nodes + [node], sep, table, k)
            == MoreSql(nodes, sep, table, k) + ([sep] + NodeSql(node, table, k + |NodesArgs(nodes, table)|))
    decreases |nodes|
  {
    hide NodeArgs, NodeSql, MissingColumn;
    if nodes == [] {
      assert nodes + [node] == [node] && [node][1..] == [];
      var last := NodeSql(node, table, k);
      assert MoreSql([node], sep, table, k) == [sep] + (last + []);
      assert last + [] == last && [] + ([sep] + last) == [sep] + last;
    } else {
      assert (nodes + [node])[0] == nodes[0] && (nodes + [node])[1..] == nodes[1..] + [node];
      var k1 := k + |NodeArgs(nodes[0], table)|;
      MoreSnoc(nodes[1..], node, sep, table, k1);
      var first, more, last := NodeSql(nodes[0], table, k), MoreSql(nodes[1..], sep, table, k1),
                               [sep] + NodeSql(node, table, k + |NodesArgs(nodes, table)|);
      Associative(first, more, last);
      Associative([sep], first + more, last);
      assert NodesSql(nodes + [node], sep, table, k) == first + (more + last);
    }
  }

  lemma NodesSnoc(nodes: seq<FilterNode>, node: FilterNode, sep: Token, table: Table, k: nat)
    requires MissingColumns(nodes, table).None? && MissingColumn(node, table).None?
    ensures MissingColumns(nodes + [node], table).None?
    ensures NodesArgs(nodes + [node], table) == NodesArgs(nodes, table) + NodeArgs(node, table)
    ensures NodesSql(nodes + [node], sep, table, k)
            == NodesSql(nodes, sep, table, k) + (if nodes == [] then [] else [sep])
               + NodeSql(node, table, k + |NodesArgs(nodes, table)|)
  {
    hide NodeArgs, NodeSql, MissingColumn;
    ArgsSnoc(nodes, node, table);
    var last := NodeSql(node, table, k + |NodesArgs(nodes, table)|);
    if nodes == [] {
      assert nodes + [node] == [node] && [node][1..] == [];
      assert last + [] == last && [] + [] + last == last;
    } else {
      MoreSnoc(nodes, node, sep, table, k);
      assert MoreSql(nodes + [node], sep, table, k) == [sep] + NodesSql(nodes + [node], sep, table, k);
      Associative([sep], NodesSql(nodes, sep, table, k), [sep] + last);
      Associative(NodesSql(nodes, sep, table, k), [sep], last);
      var all, parts := NodesSql(nodes + [node], sep, table, k), NodesSql(nodes, sep, table, k) + ([sep] + last);
      assert ([sep] + all)[1..] == all && ([sep] + parts)[1..] == parts;
    }
  }

  lemma {:induction false} MissingPrefix(nodes: seq<FilterNode>, table: Table, i: nat)
    requires i < |nodes|
    requires MissingColumns(nodes[..i], table).None? && MissingColumn(nodes[i], table).Some?
    ensures MissingColumns(nodes, table) == MissingColumn(nodes[i], table)
    decreases i
  {
    if i > 0 {
      assert nodes[..i][0] == nodes[0] && nodes[..i][1..] == nodes[1..][..i - 1];
      MissingPrefix(nodes[1..], table, i - 1);
    }
  }

  /** toSQL */
  method RenderNode(node: FilterNode, table: Table, args: ArgList) returns (r: Rendered<seq<Token>>)
    modifies args
    ensures r == match MissingColumn(node, table)
                 case Some(name) => Error(NoColumn(name))
                 case None => Rendered.Sql(NodeSql(node, table, |old(args.items)|))
    ensures r.Sql? ==> args.items == old(args.items) + NodeArgs(node, table)
    decreases node, 1
  {
    hide ConditionSql, ConditionArgs, FindColumn;
    match node
    case Group(negate, logic, children) =>
      var joined := RenderChildren(children, LogicToken(logic), table, args);
      if joined.Error? { return joined; }
      var sql := [LP] + joined.sql + [RP];
      if negate { sql := [NotT] + sql; }
      return Rendered.Sql(sql);
    case Condition(field, op) =>
      var cond := RenderCondition(field, op, table, args);
      if cond.Error? { return cond; }
      var sql := cond.sql;
      if op.negate { sql := [NotT] + ([LP] + sql + [RP]); }
      return Rendered.Sql(sql);
  }

  /** The children of a group, in order, joined by its operator. */
  method RenderChildren(children: seq<FilterNode>, sep: Token, table: Table, args: ArgList)
    returns (r: Rendered<seq<Token>>)
    modifies args
    ensures r == match MissingColumns(children, table)
                 case Some(name) => Error(NoColumn(name))
                 case None => Rendered.Sql(NodesSql(children, sep, table, |old(args.items)|))
    ensures r.Sql? ==> args.items == old(args.items) + NodesArgs(children, table)
    decreases children, 0
  {
    hide NodeSql, NodeArgs, MissingColumn;
    var joined: seq<Token> := [];
    for i := 0 to |children|
      invariant MissingColumns(children[..i], table).None?
      invariant joined == NodesSql(children[..i], sep, table, |old(args.items)|)
      invariant args.items == old(args.items) + NodesArgs(children[..i], table)
    {
      var part := RenderNode(children[i], table, args);
      if part.Error? {
        MissingPrefix(children, table, i);
        return part;
      }
      NodesSnoc(children[..i], children[i], sep, table, |old(args.items)|);
      assert children[..i] + [children[i]] == children[..i + 1];
      if i > 0 { joined := joined + [sep]; }
      joined := joined + part.sql;
    }
    assert children[..|children|] == children;
    return Rendered.Sql(joined);
  }

  /** buildWhereClause: the conjunction of all filters, or nothing when there are none. */
  method BuildWhereClause(table: Table, filters: seq<RawFilter>, args: ArgList)
    returns (r: Rendered<seq<Token>>)
    modifies args
    ensures r == WhereSql(table, filters, |old(args.items)|)
    ensures r.Sql? ==> args.items == old(args.items) + WhereArgs(table, filters)
  {
    hide ParseFilter, NodeSql, NodeArgs, MissingColumn;
    var conds: seq<Token> := [];
    ghost var nodes: seq<FilterNode> := [];
    assert conds == NodesSql(nodes, AndT, table, |args.items|) && args.items == args.items + NodesArgs(nodes, table);
    hide NodesSql, NodesArgs, MissingColumns;
    ghost var any := Group(false, AND, []);
    PrependToLaws(nodes, any, ParseFilters(table, filters));
    for i := 0 to |filters|
      invariant |nodes| == i
      invariant ParseFilters(table, filters) == PrependTo(nodes, ParseFilters(table, filters[i..]))
      invariant MissingColumns(nodes, table).None?
      invariant conds == NodesSql(nodes, AndT, table, |old(args.items)|)
      invariant args.items == old(args.items) + NodesArgs(nodes, table)
    {
      assert filters[i..][1..] == filters[i + 1..];
      var node := FilterParsing.ParseRawFilter(filters[i].key, filters[i].value);
      if node.Err? { return Error(BadFilter(node.error)); }
      var cond := RenderNode(node.value, table, args);
      if cond.Error? { return cond; }
      NodesSnoc(nodes, node.value, AndT, table, |old(args.items)|);
      if i > 0 { conds := conds + [AndT]; }
      conds := conds + cond.sql;
      PrependToLaws(nodes, node.value, ParseFilters(table, filters[i + 1..]));
      nodes := nodes + [node.value];
    }
    PrependToLaws(nodes, any, ParseFilters(table, []));
    return Rendered.Sql(conds);
  }

  /** The WHERE text after k earlier bind parameters. */
  function WhereSql(table: Table, filters: seq<RawFilter>, k: nat): Rendered<seq<Token>> {
    match ParseFilters(table, filters)
    case Error(e) => Error(e)
    case Sql(nodes) =>
      ParsedFiltersHaveColumns(table, filters);
      Rendered.Sql(NodesSql(nodes, AndT, table, k))
  }

  function WhereArgs(table: Table, filters: seq<RawFilter>): seq<Value>
    requires ParseFilters(table, filters).Sql?
  {
    ParsedFiltersHaveColumns(table, filters);
    NodesArgs(ParseFilters(table, filters).sql, table)
  }
}
