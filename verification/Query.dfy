/** The statements of pkg/rest/query.go. All four number their bind parameters through one
    shared list, and SELECT, UPDATE and DELETE share the WHERE clause. */
module Query {
  import opened Options
  import opened Text
  import opened FilterGrammar
  import opened ArrayLiteral
  import opened Sql
  import opened FilterSql
  import opened FilterMeaning
  import opened Placeholders

  // ---- Collecting the filters of a request ----

  const RESERVED: set<string> := {"select", "order", "limit", "offset", "columns", "on_conflict"}

  function WithKey(key: string, values: seq<string>): (r: seq<RawFilter>)
    ensures |r| == |values|
  {
    seq(|values|, i requires 0 <= i < |values| => RawFilter(key, values[i]))
  }

  /** The filters of a request whose query keys, in the order visited, are keys. */
  function CollectFilters(keys: seq<string>, query: map<string, seq<string>>): seq<RawFilter>
    requires forall k | k in keys :: k in query
  {
    if keys == [] then []
    else (if keys[0] in RESERVED then [] else WithKey(keys[0], query[keys[0]])) + CollectFilters(keys[1..], query)
  }

  lemma {:induction false} CollectSnoc(keys: seq<string>, key: string, query: map<string, seq<string>>)
    requires key in query && forall k | k in keys :: k in query
    ensures CollectFilters(keys + [key], query)
            == CollectFilters(keys, query) + (if key in RESERVED then [] else WithKey(key, query[key]))
    decreases |keys|
  {
    hide RESERVED;
    if keys == [] {
      assert keys + [key] == [key];
    } else {
      CollectSnoc(keys[1..], key, query);
      assert (keys + [key])[1..] == keys[1..] + [key];
    }
  }

  /** The last loop of parseQueryParams; keys are the query keys in sorted order. */
  method ParseQueryFilters(keys: seq<string>, query: map<string, seq<string>>) returns (filters: seq<RawFilter>)
    requires forall k | k in keys :: k in query
    ensures filters == CollectFilters(keys, query)
  {
    hide RESERVED;
    filters := [];
    for i := 0 to |keys|
      invariant filters == CollectFilters(keys[..i], query)
    {
      CollectSnoc(keys[..i], keys[i], query);
      assert keys[..i] + [keys[i]] == keys[..i + 1];
      if keys[i] in RESERVED { continue; }
      var values := query[keys[i]];
      ghost var before := filters;
      for j := 0 to |values|
        invariant filters == before + WithKey(keys[i], values)[..j]
      {
        filters := filters + [RawFilter(keys[i], values[j])];
      }
      assert WithKey(keys[i], values)[..|values|] == WithKey(keys[i], values);
    }
    assert keys[..|keys|] == keys;
  }

  /** No filter is dropped or invented: the collected filters are exactly the values of the
      keys that are not reserved. */
  lemma {:induction false} NoFilterDropped(keys: seq<string>, query: map<string, seq<string>>, f: RawFilter)
    requires forall k | k in keys :: k in query
    ensures f in CollectFilters(keys, query)
            <==> && f.key in keys && f.value in query[f.key]
                 && f.key !in {"select", "order", "limit", "offset", "columns", "on_conflict"}
    decreases |keys|
  {
    assert RESERVED == {"select", "order", "limit", "offset", "columns", "on_conflict"};
    hide RESERVED;
    if keys != [] {
      NoFilterDropped(keys[1..], query, f);
      var own := WithKey(keys[0], query[keys[0]]);
      assert f in own <==> f.key == keys[0] && f.value in query[keys[0]] by {
        if f.key == keys[0] && f.value in query[keys[0]] {
          var i :| 0 <= i < |query[keys[0]]| && query[keys[0]][i] == f.value;
          assert own[i] == f;
        }
      }
    }
  }

  // ---- Column lists ----

  function CastColumn(col: Column): seq<Token> {
    if col.composite || col.arrayOfComposite then
      [Word("to_jsonb"), LP, Ident(col.name), RP, Word("AS"), Ident(col.name)]
    else if col.dataType in {"uuid", "date", "time without time zone"} then
      [Ident(col.name), CastT("TEXT"), Word("AS"), Ident(col.name)]
    else [Ident(col.name)]
  }

  /** Token lists joined with commas. */
  function JoinComma(parts: seq<seq<Token>>): seq<Token> {
    if parts == [] then []
    else if |parts| == 1 then parts[0]
    else parts[0] + [Comma] + JoinComma(parts[1..])
  }

  function CastColumns(columns: seq<Column>): (r: seq<seq<Token>>)
    ensures |r| == |columns|
  {
    seq(|columns|, i requires 0 <= i < |columns| => CastColumn(columns[i]))
  }

  /** "*" expands to every column and unknown names are skipped. */
  function SelectedColumns(columns: seq<Column>, selected: seq<string>): seq<Column> {
    if selected == [] then []
    else
      (if selected[0] == "*" then columns
       else match FindColumn(columns, selected[0])
            case None => []
            case Some(col) => [col])
      + SelectedColumns(columns, selected[1..])
  }

  function SelectList(table: Table, selected: seq<string>): seq<Token> {
    if selected == [] && table.columns == [] then [Op("*")]
    else JoinComma(CastColumns(SelectedColumns(table.columns, if selected == [] then ["*"] else selected)))
  }

  function ReturningSql(table: Table, returning: bool): seq<Token> {
    if returning then [Word("RETURNING")] + JoinComma(CastColumns(table.columns)) else []
  }

  // ---- ORDER BY ----

  datatype OrderParam = OrderParam(column: string, direction: string, nulls: string, similarity: string)

  function OrderWords(o: OrderParam): Option<seq<Token>> {
    var direction, nulls := ToLower(o.direction), ToLower(o.nulls);
    if direction !in {"asc", "desc"} || nulls !in {"first", "last"} then None
    else Some([Word(if direction == "asc" then "ASC" else "DESC"),
               Word("NULLS"), Word(if nulls == "first" then "FIRST" else "LAST")])
  }

  function OrderTerm(o: OrderParam, col: Column, words: seq<Token>, k: nat): seq<Token> {
    (if o.similarity == "" then [Ident(col.name)]
     else [Word("similarity"), LP, Ident(col.name), Comma, Param(k + 1), RP]) + words
  }

  function OrderArg(o: OrderParam): seq<Value> { if o.similarity == "" then [] else [Text(o.similarity)] }

  /** Unknown columns and directions are errors. */
  function OrderSql(table: Table, order: seq<OrderParam>, k: nat): Rendered<seq<seq<Token>>> {
    if order == [] then Rendered.Sql([])
    else
      var o := order[0];
      match FindColumn(table.columns, o.column)
      case None => Error(NoColumn(o.column))
      case Some(col) =>
        match OrderWords(o)
        case None => Error(BadOrder(o.column))
        case Some(words) =>
          PrependTo([OrderTerm(o, col, words, k)], OrderSql(table, order[1..], k + |OrderArg(o)|))
  }

  function OrderArgs(order: seq<OrderParam>): seq<Value> {
    if order == [] then [] else OrderArg(order[0]) + OrderArgs(order[1..])
  }

  // ---- Values of INSERT and UPDATE ----

  /** json.Marshal of an object; None when it fails. */
  type Encoder = Value -> Option<string>

  /** The bound value, and the tokens around its placeholder. A composite column takes an object
      as jsonb, and a string untouched. */
  function BoundValue(col: Column, v: Value, encode: Encoder): Option<Value> {
    if v == Null || !col.composite || v.Text? then Some(v)
    else match encode(v)
      case None => None
      case Some(s) => Some(Text(s))
  }

  function ValueSql(col: Column, v: Value, n: nat): seq<Token> {
    if v == Null || !col.composite || v.Text? then [Param(n)]
    else [Word("jsonb_populate_record"), LP, Word("NULL"), Op("::"), Qualified(col.udtSchema, col.udtName), Comma,
          Param(n), CastT("jsonb"), RP]
  }

  /** What an assignment binds and how the statement uses it: null, text, and values of columns that are
      no composites as they are; anything else encoded, as a record of the column's own type. */
  ghost predicate Carries(col: Column, v: Value, encode: Encoder, n: nat, text: seq<Token>, arg: Value) {
    if v == Null || v.Text? || !col.composite then arg == v && text == [Param(n)]
    else
      && encode(v).Some? && arg == Value.Text(encode(v).value)
      && text == [Word("jsonb_populate_record"), LP, Word("NULL"), Op("::"), Qualified(col.udtSchema, col.udtName), Comma,
                  Param(n), CastT("jsonb"), RP]
  }

  lemma ValueCarried(col: Column, v: Value, encode: Encoder, n: nat)
    ensures BoundValue(col, v, encode).Some? <==> v == Null || v.Text? || !col.composite || encode(v).Some?
    ensures BoundValue(col, v, encode).Some? ==> Carries(col, v, encode, n, ValueSql(col, v, n), BoundValue(col, v, encode).value)
  {
  }

  /** Column, value text and bound value for each key, or the first error. */
  datatype Assignment = Assignment(col: Column, sql: seq<Token>, arg: Value)

  function Assignments(
    table: Table, keys: seq<string>, data: map<string, Value>, encode: Encoder, k: nat): Rendered<seq<Assignment>>
    requires forall key | key in keys :: key in data
  {
    if keys == [] then Rendered.Sql([])
    else
      match FindColumn(table.columns, keys[0])
      case None => Error(NoColumn(keys[0]))
      case Some(col) =>
        match BoundValue(col, data[keys[0]], encode)
        case None => Error(BadValue(col.name))
        case Some(arg) =>
          PrependTo([Assignment(col, ValueSql(col, data[keys[0]], k + 1), arg)],
                  Assignments(table, keys[1..], data, encode, k + 1))
  }

  function AssignmentArgs(a: seq<Assignment>): (r: seq<Value>)
    ensures |r| == |a|
  {
    seq(|a|, i requires 0 <= i < |a| => a[i].arg)
  }

  function ColumnList(a: seq<Assignment>): seq<seq<Token>> {
    seq(|a|, i requires 0 <= i < |a| => [Ident(a[i].col.name)])
  }

  function ValueList(a: seq<Assignment>): seq<seq<Token>> {
    seq(|a|, i requires 0 <= i < |a| => a[i].sql)
  }

  function SetList(a: seq<Assignment>): seq<seq<Token>> {
    seq(|a|, i requires 0 <= i < |a| => [Ident(a[i].col.name), Op("=")] + a[i].sql)
  }

  // ---- Statements ----

  /** A statement around its WHERE clause, and its bind parameters. */
  datatype Statement = Statement(head: seq<Token>, where: seq<Token>, tail: seq<Token>, args: seq<Value>) {
    function Text(): seq<Token> {
      head + (if where == [] then [] else [Word("WHERE")] + where) + tail
    }
  }

  function TableToken(table: Table): Token { Qualified(table.schemaName, table.name) }

  datatype Page = Page(select: seq<string>, order: seq<OrderParam>, limit: int, offset: int)

  function LimitSql(word: string, n: int, k: nat): seq<Token> {
    if n > 0 then [Word(word), Param(k + 1)] else []
  }

  function LimitArg(n: int): seq<Value> { if n > 0 then [Int(n)] else [] }

  function OrderClause(terms: seq<seq<Token>>): seq<Token> {
    if terms == [] then [] else [Word("ORDER BY")] + JoinComma(terms)
  }

  /** ORDER BY, LIMIT and OFFSET after k parameters. */
  function PageSql(table: Table, page: Page, k: nat): Rendered<seq<Token>> {
    match OrderSql(table, page.order, k)
    case Error(e) => Error(e)
    case Sql(terms) =>
      var k1 := k + |OrderArgs(page.order)|;
      var k2 := k1 + |LimitArg(page.limit)|;
      Rendered.Sql(OrderClause(terms) + LimitSql("LIMIT", page.limit, k1) + LimitSql("OFFSET", page.offset, k2))
  }

  function PageArgs(page: Page): seq<Value> {
    OrderArgs(page.order) + LimitArg(page.limit) + LimitArg(page.offset)
  }

  function SelectHead(table: Table, selected: seq<string>): seq<Token> {
    [Word("SELECT")] + SelectList(table, selected) + [Word("FROM"), TableToken(table)]
  }

  function SelectStatement(table: Table, page: Page, filters: seq<RawFilter>): Rendered<Statement> {
    match WhereSql(table, filters, 0)
    case Error(e) => Error(e)
    case Sql(where) =>
      match PageSql(table, page, |WhereArgs(table, filters)|)
      case Error(e) => Error(e)
      case Sql(tail) =>
        Rendered.Sql(Statement(SelectHead(table, page.select), where, tail, WhereArgs(table, filters) + PageArgs(page)))
  }

  function UpdateStatement(
    table: Table, keys: seq<string>, data: map<string, Value>, encode: Encoder,
    filters: seq<RawFilter>, returning: bool): Rendered<Statement>
    requires forall key | key in keys :: key in data
  {
    match Assignments(table, keys, data, encode, 0)
    case Error(e) => Error(e)
    case Sql(a) =>
      if a == [] then Error(NoColumns)
      else
        match WhereSql(table, filters, |a|)
        case Error(e) => Error(e)
        case Sql(where) =>
          Rendered.Sql(Statement(
            [Word("UPDATE"), TableToken(table), Word("SET")] + JoinComma(SetList(a)),
            where, ReturningSql(table, returning), AssignmentArgs(a) + WhereArgs(table, filters)))
  }

  function DeleteStatement(table: Table, filters: seq<RawFilter>, returning: bool): Rendered<Statement> {
    match WhereSql(table, filters, 0)
    case Error(e) => Error(e)
    case Sql(where) =>
      Rendered.Sql(Statement(
        [Word("DELETE"), Word("FROM"), TableToken(table)], where, ReturningSql(table, returning),
        WhereArgs(table, filters)))
  }

  function InsertStatement(
    table: Table, keys: seq<string>, data: map<string, Value>, encode: Encoder, returning: bool): Rendered<Statement>
    requires forall key | key in keys :: key in data
  {
    match Assignments(table, keys, data, encode, 0)
    case Error(e) => Error(e)
    case Sql(a) =>
      if a == [] then Error(NoColumns)
      else
        Rendered.Sql(Statement(
          [Word("INSERT"), Word("INTO"), TableToken(table), LP] + JoinComma(ColumnList(a))
          + [RP, Word("VALUES"), LP] + JoinComma(ValueList(a)) + [RP],
          [], ReturningSql(table, returning), AssignmentArgs(a)))
  }

  // ---- The source's builders ----

  method RenderOrder(table: Table, order: seq<OrderParam>, args: ArgList) returns (r: Rendered<seq<seq<Token>>>)
    modifies args
    ensures r == OrderSql(table, order, |old(args.items)|)
    ensures r.Sql? ==> args.items == old(args.items) + OrderArgs(order)
  {
    hide OrderTerm, OrderWords, FindColumn, OrderArg;
    var terms: seq<seq<Token>> := [];
    PrependToLaws(terms, [], OrderSql(table, order, |args.items|));
    for i := 0 to |order|
      invariant OrderSql(table, order, |old(args.items)|) == PrependTo(terms, OrderSql(table, order[i..], |args.items|))
      invariant old(args.items) + OrderArgs(order) == args.items + OrderArgs(order[i..])
    {
      var o := order[i];
      assert order[i..][1..] == order[i + 1..];
      var found := FindColumn(table.columns, o.column);
      if found.None? { return Error(NoColumn(o.column)); }
      var words := OrderWords(o);
      if words.None? { return Error(BadOrder(o.column)); }
      ghost var k := |args.items|;
      var term := RenderTerm(o, found.value, words.value, args);
      PrependToLaws(terms, term, OrderSql(table, order[i + 1..], |args.items|));
      terms := terms + [term];
    }
    PrependToLaws(terms, [], OrderSql(table, [], 0));
    return Rendered.Sql(terms);
  }

  method RenderTerm(o: OrderParam, col: Column, words: seq<Token>, args: ArgList) returns (term: seq<Token>)
    modifies args
    ensures term == OrderTerm(o, col, words, |old(args.items)|)
    ensures args.items == old(args.items) + OrderArg(o)
  {
    var expr := [Ident(col.name)];
    if o.similarity != "" {
      var p := args.Add(Value.Text(o.similarity));
      expr := [Word("similarity"), LP] + expr + [Comma, p, RP];
    }
    term := expr + words;
  }

  /** The loops over sorted keys in buildInsertQuery and buildUpdateQuery. */
  method RenderAssignments(
    table: Table, keys: seq<string>, data: map<string, Value>, encode: Encoder, args: ArgList)
    returns (r: Rendered<seq<Assignment>>)
    requires forall key | key in keys :: key in data
    modifies args
    ensures r == Assignments(table, keys, data, encode, |old(args.items)|)
    ensures r.Sql? ==> args.items == old(args.items) + AssignmentArgs(r.sql)
  {
    hide FindColumn, ValueSql, BoundValue;
    var done: seq<Assignment> := [];
    ghost var any := Assignment(Column("", "", false, false, "", ""), [], Null);
    PrependToLaws(done, any, Assignments(table, keys, data, encode, |args.items|));
    for i := 0 to |keys|
      invariant Assignments(table, keys, data, encode, |old(args.items)|)
                == PrependTo(done, Assignments(table, keys[i..], data, encode, |args.items|))
      invariant args.items == old(args.items) + AssignmentArgs(done)
    {
      assert keys[i..][1..] == keys[i + 1..];
      var found := FindColumn(table.columns, keys[i]);
      if found.None? { return Error(NoColumn(keys[i])); }
      var bound := BoundValue(found.value, data[keys[i]], encode);
      if bound.None? { return Error(BadValue(found.value.name)); }
      var p := args.Add(bound.value);
      var next := Assignment(found.value, ValueSql(found.value, data[keys[i]], p.n), bound.value);
      PrependToLaws(done, next, Assignments(table, keys[i + 1..], data, encode, |args.items|));
      assert AssignmentArgs(done + [next]) == AssignmentArgs(done) + [bound.value];
      done := done + [next];
    }
    PrependToLaws(done, any, Assignments(table, [], data, encode, 0));
    return Rendered.Sql(done);
  }

  method BuildSelect(table: Table, page: Page, filters: seq<RawFilter>) returns (r: Rendered<Statement>)
    ensures r == SelectStatement(table, page, filters)
  {
    hide SelectHead, WhereSql, WhereArgs, PageSql, PageArgs;
    WhereParses(table, filters);
    var args := new ArgList();
    var where := BuildWhereClause(table, filters, args);
    if where.Error? { return Error(where.error); }
    assert args.items == WhereArgs(table, filters);
    var tail := RenderPage(table, page, args);
    if tail.Error? { return Error(tail.error); }
    return Rendered.Sql(Statement(SelectHead(table, page.select), where.sql, tail.sql, args.items));
  }

  method RenderPage(table: Table, page: Page, args: ArgList) returns (r: Rendered<seq<Token>>)
    modifies args
    ensures r == PageSql(table, page, |old(args.items)|)
    ensures r.Sql? ==> args.items == old(args.items) + PageArgs(page)
  {
    hide OrderSql, OrderArgs, OrderClause, LimitSql, LimitArg;
    var terms := RenderOrder(table, page.order, args);
    if terms.Error? { return Error(terms.error); }
    var limit := RenderLimit("LIMIT", page.limit, args);
    var offset := RenderLimit("OFFSET", page.offset, args);
    return Rendered.Sql(OrderClause(terms.sql) + limit + offset);
  }

  method RenderLimit(word: string, n: int, args: ArgList) returns (ts: seq<Token>)
    modifies args
    ensures ts == LimitSql(word, n, |old(args.items)|) && args.items == old(args.items) + LimitArg(n)
  {
    ts := [];
    if n > 0 {
      var p := args.Add(Int(n));
      ts := [Word(word), p];
    }
  }

  method BuildUpdate(
    table: Table, keys: seq<string>, data: map<string, Value>, encode: Encoder,
    filters: seq<RawFilter>, returning: bool) returns (r: Rendered<Statement>)
    requires forall key | key in keys :: key in data
    ensures r == UpdateStatement(table, keys, data, encode, filters, returning)
  {
    hide WhereSql, WhereArgs, JoinComma, Assignments, ReturningSql;
    var args := new ArgList();
    var a := RenderAssignments(table, keys, data, encode, args);
    if a.Error? { return Error(a.error); }
    if a.sql == [] { return Error(NoColumns); }
    assert args.items == AssignmentArgs(a.sql);
    var where := BuildWhereClause(table, filters, args);
    if where.Error? { return Error(where.error); }
    return Rendered.Sql(Statement(
      [Word("UPDATE"), TableToken(table), Word("SET")] + JoinComma(SetList(a.sql)),
      where.sql, ReturningSql(table, returning), args.items));
  }

  method BuildDelete(table: Table, filters: seq<RawFilter>, returning: bool) returns (r: Rendered<Statement>)
    ensures r == DeleteStatement(table, filters, returning)
  {
    hide WhereSql, WhereArgs, ReturningSql;
    WhereParses(table, filters);
    var args := new ArgList();
    var where := BuildWhereClause(table, filters, args);
    if where.Error? { return Error(where.error); }
    assert args.items == WhereArgs(table, filters);
    return Rendered.Sql(Statement(
      [Word("DELETE"), Word("FROM"), TableToken(table)], where.sql, ReturningSql(table, returning), args.items));
  }

  method BuildInsert(
    table: Table, keys: seq<string>, data: map<string, Value>, encode: Encoder, returning: bool)
    returns (r: Rendered<Statement>)
    requires forall key | key in keys :: key in data
    ensures r == InsertStatement(table, keys, data, encode, returning)
  {
    hide JoinComma, Assignments, ReturningSql;
    var args := new ArgList();
    var a := RenderAssignments(table, keys, data, encode, args);
    if a.Error? { return Error(a.error); }
    if a.sql == [] { return Error(NoColumns); }
    assert args.items == AssignmentArgs(a.sql);
    return Rendered.Sql(Statement(
      [Word("INSERT"), Word("INTO"), TableToken(table), LP] + JoinComma(ColumnList(a.sql))
      + [RP, Word("VALUES"), LP] + JoinComma(ValueList(a.sql)) + [RP],
      [], ReturningSql(table, returning), args.items));
  }

  // ---- Every statement mentions exactly the parameters it binds ----

  predicate Plain(ts: seq<Token>) { forall t | t in ts :: !t.Param? }

  lemma PlainMentions(ts: seq<Token>, k: nat)
    requires Plain(ts)
    ensures Mentions(ts, k, 0)
  {
    PlainPlaced(ts, k, 0);
  }

  lemma {:induction false} PlainJoin(parts: seq<seq<Token>>)
    requires forall p | p in parts :: Plain(p)
    ensures Plain(JoinComma(parts))
    decreases |parts|
  {
    if parts != [] {
      assert parts[0] in parts;
      PlainJoin(parts[1..]);
    }
  }

  lemma PlainColumns(columns: seq<Column>)
    ensures Plain(JoinComma(CastColumns(columns)))
  {
    forall p | p in CastColumns(columns)
      ensures Plain(p)
    {
      var i :| 0 <= i < |columns| && CastColumns(columns)[i] == p;
      assert p == CastColumn(columns[i]);
    }
    PlainJoin(CastColumns(columns));
  }

  lemma ReturningMentions(table: Table, returning: bool, k: nat)
    ensures Mentions(ReturningSql(table, returning), k, 0)
  {
    PlainColumns(table.columns);
    PlainMentions(ReturningSql(table, returning), k);
  }

  /** A part and the parts after it, joined with a comma, mention what both mention. */
  lemma JoinMentions(part: seq<Token>, parts: seq<seq<Token>>, k: nat, m: nat, n: nat)
    requires Mentions(part, k, m) && Mentions(JoinComma(parts), k + m, n)
    ensures Mentions(JoinComma([part] + parts), k, m + n)
  {
    hide Mentions;
    assert ([part] + parts)[1..] == parts;
    PlainMentions([Comma], k + m);
    MentionsConcat(part, [Comma], k, m, 0);
    MentionsConcat(part + [Comma], JoinComma(parts), k, m, n);
    if parts == [] {
      assert part + [Comma] + [] == part + [Comma];
      NothingMentioned(k + m, n);
    }
  }

  lemma NothingMentioned(k: nat, n: nat)
    requires Mentions([], k, n)
    ensures n == 0
  {
    var none: seq<Token> := [];
    assert Param(k + 1) !in none;
  }

  lemma TermMentions(o: OrderParam, col: Column, words: seq<Token>, k: nat)
    requires Plain(words)
    ensures Mentions(OrderTerm(o, col, words, k), k, |OrderArg(o)|)
  {
    if o.similarity == "" {
      PlainMentions([Ident(col.name)] + words, k);
    } else {
      var before, after := [Word("similarity"), LP, Ident(col.name), Comma], [RP] + words;
      OneParamPlaced(before, after, k, 0);
      assert OrderTerm(o, col, words, k) == before + [Param(k + 1)] + after;
    }
  }

  lemma {:induction false} OrderMentions(table: Table, order: seq<OrderParam>, k: nat)
    requires OrderSql(table, order, k).Sql?
    ensures Mentions(JoinComma(OrderSql(table, order, k).sql), k, |OrderArgs(order)|)
    ensures OrderSql(table, order, k).sql == [] ==> order == []
    decreases |order|
  {
    hide Mentions, OrderTerm, OrderArg, OrderWords, FindColumn;
    if order == [] {
      PlainMentions([], k);
    } else {
      var o := order[0];
      var col, words := FindColumn(table.columns, o.column).value, OrderWords(o).value;
      var k1 := k + |OrderArg(o)|;
      OrderMentions(table, order[1..], k1);
      WordsArePlain(o);
      TermMentions(o, col, words, k);
      JoinMentions(OrderTerm(o, col, words, k), OrderSql(table, order[1..], k1).sql, k, |OrderArg(o)|, |OrderArgs(order[1..])|);
    }
  }

  lemma WordsArePlain(o: OrderParam)
    ensures OrderWords(o).Some? ==> Plain(OrderWords(o).value)
  {
  }

  lemma ValueMentions(col: Column, v: Value, k: nat)
    ensures Mentions(ValueSql(col, v, k + 1), k, 1)
    ensures Mentions([Ident(col.name), Op("=")] + ValueSql(col, v, k + 1), k, 1)
  {
    var ts := ValueSql(col, v, k + 1);
    var i := if |ts| == 1 then 0 else 6;
    OneParamPlaced(ts[..i], ts[i + 1..], k, 0);
    assert ts == ts[..i] + [Param(k + 1)] + ts[i + 1..];
    var head := [Ident(col.name), Op("=")];
    PlainMentions(head, k);
    MentionsConcat(head, ts, k, 0, 1);
  }

  lemma {:induction false} AssignmentMentions(
    table: Table, keys: seq<string>, data: map<string, Value>, encode: Encoder, k: nat)
    requires forall key | key in keys :: key in data
    requires Assignments(table, keys, data, encode, k).Sql?
    ensures var a := Assignments(table, keys, data, encode, k).sql;
            |a| == |keys| && Mentions(JoinComma(SetList(a)), k, |a|) && Mentions(JoinComma(ValueList(a)), k, |a|)
    decreases |keys|
  {
    hide Mentions, ValueSql, BoundValue, FindColumn;
    var a := Assignments(table, keys, data, encode, k).sql;
    if keys == [] {
      PlainMentions([], k);
      assert SetList(a) == [] && ValueList(a) == [];
    } else {
      var rest := Assignments(table, keys[1..], data, encode, k + 1).sql;
      AssignmentMentions(table, keys[1..], data, encode, k + 1);
      ValueMentions(a[0].col, data[keys[0]], k);
      assert a == [a[0]] + rest;
      assert SetList(a) == [[Ident(a[0].col.name), Op("=")] + a[0].sql] + SetList(rest);
      assert ValueList(a) == [a[0].sql] + ValueList(rest);
      JoinMentions([Ident(a[0].col.name), Op("=")] + a[0].sql, SetList(rest), k, 1, |rest|);
      JoinMentions(a[0].sql, ValueList(rest), k, 1, |rest|);
    }
  }

  /** Around a WHERE clause: the parts' placeholders follow one another. */
  lemma StatementMentions(s: Statement, h: nat, w: nat, t: nat)
    requires Mentions(s.head, 0, h) && Mentions(s.where, h, w) && Mentions(s.tail, h + w, t)
    ensures Mentions(s.Text(), 0, h + w + t)
  {
    hide Mentions;
    var where := if s.where == [] then [] else [Word("WHERE")] + s.where;
    PlainMentions([Word("WHERE")], h);
    if s.where != [] { MentionsConcat([Word("WHERE")], s.where, h, 0, w); }
    MentionsConcat(s.head, where, 0, h, w);
    MentionsConcat(s.head + where, s.tail, 0, h + w, t);
  }

  /** The placeholders of a statement are exactly $1 to $n for its n bound values. */
  ghost predicate ParametersMatch(s: Statement) { Mentions(s.Text(), 0, |s.args|) }

  lemma LimitMentions(word: string, n: int, k: nat)
    ensures Mentions(LimitSql(word, n, k), k, |LimitArg(n)|)
  {
    if n > 0 {
      OneParamPlaced([Word(word)], [], k, 0);
      assert [Word(word)] + [Param(k + 1)] + [] == LimitSql(word, n, k);
    } else {
      PlainMentions([], k);
    }
  }

  lemma SelectListPlain(table: Table, selected: seq<string>)
    ensures Plain(SelectList(table, selected))
  {
    if selected != [] || table.columns != [] {
      PlainColumns(SelectedColumns(table.columns, if selected == [] then ["*"] else selected));
    }
  }

  lemma SelectParameters(table: Table, page: Page, filters: seq<RawFilter>)
    requires SelectStatement(table, page, filters).Sql?
    ensures ParametersMatch(SelectStatement(table, page, filters).sql)
  {
    hide Mentions, SelectHead, WhereSql, WhereArgs, PageSql, PageArgs, Plain, ParseFilters, Statement.Text;
    WhereParses(table, filters);
    var s := SelectStatement(table, page, filters).sql;
    var k := |WhereArgs(table, filters)|;
    WhereMentions(table, filters, 0);
    HeadPlain(table, page.select);
    PlainMentions(s.head, 0);
    PageMentions(table, page, k);
    StatementMentions(s, 0, k, |PageArgs(page)|);
  }

  lemma HeadPlain(table: Table, selected: seq<string>)
    ensures Plain(SelectHead(table, selected))
  {
    SelectListPlain(table, selected);
  }

  lemma PageMentions(table: Table, page: Page, k: nat)
    requires PageSql(table, page, k).Sql?
    ensures Mentions(PageSql(table, page, k).sql, k, |PageArgs(page)|)
  {
    hide Mentions, OrderSql, OrderArgs, OrderClause, LimitSql, LimitArg;
    var n, l := |OrderArgs(page.order)|, |LimitArg(page.limit)|;
    var order := OrderClause(OrderSql(table, page.order, k).sql);
    OrderClauseMentions(table, page.order, k);
    LimitMentions("LIMIT", page.limit, k + n);
    LimitMentions("OFFSET", page.offset, k + n + l);
    MentionsConcat(order, LimitSql("LIMIT", page.limit, k + n), k, n, l);
    MentionsConcat(order + LimitSql("LIMIT", page.limit, k + n), LimitSql("OFFSET", page.offset, k + n + l),
                   k, n + l, |LimitArg(page.offset)|);
  }

  lemma OrderClauseMentions(table: Table, order: seq<OrderParam>, k: nat)
    requires OrderSql(table, order, k).Sql?
    ensures Mentions(OrderClause(OrderSql(table, order, k).sql), k, |OrderArgs(order)|)
  {
    hide Mentions;
    OrderMentions(table, order, k);
    var terms := OrderSql(table, order, k).sql;
    PlainMentions([Word("ORDER BY")], k);
    MentionsConcat([Word("ORDER BY")], JoinComma(terms), k, 0, |OrderArgs(order)|);
  }

  lemma WhereParses(table: Table, filters: seq<RawFilter>)
    ensures forall k: nat :: WhereSql(table, filters, k).Sql? <==> ParseFilters(table, filters).Sql?
  {
  }

  lemma WhereMentions(table: Table, filters: seq<RawFilter>, k: nat)
    requires ParseFilters(table, filters).Sql?
    ensures Mentions(WhereSql(table, filters, k).sql, k, |WhereArgs(table, filters)|)
  {
    WherePlaced(table, filters, k, 0);
  }

  lemma UpdateParameters(
    table: Table, keys: seq<string>, data: map<string, Value>, encode: Encoder,
    filters: seq<RawFilter>, returning: bool)
    requires forall key | key in keys :: key in data
    requires UpdateStatement(table, keys, data, encode, filters, returning).Sql?
    ensures ParametersMatch(UpdateStatement(table, keys, data, encode, filters, returning).sql)
  {
    hide Mentions, WhereSql, WhereArgs, JoinComma, Assignments, ReturningSql, ParseFilters, Statement.Text;
    var s := UpdateStatement(table, keys, data, encode, filters, returning).sql;
    var a := Assignments(table, keys, data, encode, 0).sql;
    WhereParses(table, filters);
    WhereMentions(table, filters, |a|);
    AssignmentMentions(table, keys, data, encode, 0);
    var head := [Word("UPDATE"), TableToken(table), Word("SET")];
    PlainMentions(head, 0);
    MentionsConcat(head, JoinComma(SetList(a)), 0, 0, |a|);
    ReturningMentions(table, returning, |a| + |WhereArgs(table, filters)|);
    StatementMentions(s, |a|, |WhereArgs(table, filters)|, 0);
  }

  lemma DeleteParameters(table: Table, filters: seq<RawFilter>, returning: bool)
    requires DeleteStatement(table, filters, returning).Sql?
    ensures ParametersMatch(DeleteStatement(table, filters, returning).sql)
  {
    hide Mentions, WhereSql, WhereArgs, ReturningSql, ParseFilters, Statement.Text;
    var s := DeleteStatement(table, filters, returning).sql;
    WhereParses(table, filters);
    WhereMentions(table, filters, 0);
    PlainMentions(s.head, 0);
    ReturningMentions(table, returning, |WhereArgs(table, filters)|);
    StatementMentions(s, 0, |WhereArgs(table, filters)|, 0);
  }

  lemma InsertParameters(
    table: Table, keys: seq<string>, data: map<string, Value>, encode: Encoder, returning: bool)
    requires forall key | key in keys :: key in data
    requires InsertStatement(table, keys, data, encode, returning).Sql?
    ensures ParametersMatch(InsertStatement(table, keys, data, encode, returning).sql)
  {
    hide Mentions, JoinComma, Assignments, ReturningSql;
    var s := InsertStatement(table, keys, data, encode, returning).sql;
    var a := Assignments(table, keys, data, encode, 0).sql;
    AssignmentMentions(table, keys, data, encode, 0);
    forall p | p in ColumnList(a)
      ensures Plain(p)
    {
    }
    PlainJoin(ColumnList(a));
    var head := [Word("INSERT"), Word("INTO"), TableToken(table), LP] + JoinComma(ColumnList(a)) + [RP, Word("VALUES"), LP];
    PlainMentions(head, 0);
    MentionsConcat(head, JoinComma(ValueList(a)), 0, 0, |a|);
    PlainMentions([RP], |a|);
    MentionsConcat(head + JoinComma(ValueList(a)), [RP], 0, |a|, 0);
    PlainMentions([], |a|);
    ReturningMentions(table, returning, |a|);
    StatementMentions(s, |a|, 0, 0);
  }

  // ---- Every placeholder stands for its own value ----

  /** Each key has its column, its bound value, and its own placeholder. */
  lemma {:induction false} AssignmentsAt(
    table: Table, keys: seq<string>, data: map<string, Value>, encode: Encoder, k: nat, i: nat)
    requires forall key | key in keys :: key in data
    requires i < |keys| && Assignments(table, keys, data, encode, k).Sql?
    ensures var a := Assignments(table, keys, data, encode, k).sql;
            && |a| == |keys|
            && FindColumn(table.columns, keys[i]) == Some(a[i].col)
            && BoundValue(a[i].col, data[keys[i]], encode) == Some(a[i].arg)
            && a[i].sql == ValueSql(a[i].col, data[keys[i]], k + i + 1)
    decreases |keys|
  {
    hide FindColumn, BoundValue, ValueSql;
    AssignmentMentions(table, keys, data, encode, k);
    var a := Assignments(table, keys, data, encode, k).sql;
    assert a[1..] == Assignments(table, keys[1..], data, encode, k + 1).sql;
    if i > 0 {
      AssignmentsAt(table, keys[1..], data, encode, k + 1, i - 1);
      assert a[i] == a[1..][i - 1] && keys[i] == keys[1..][i - 1];
    }
  }

  /** The columns named by the keys, and the value texts with the placeholders $1, $2, ... */
  function KeyColumns(keys: seq<string>): seq<seq<Token>> {
    seq(|keys|, i requires 0 <= i < |keys| => [Ident(keys[i])])
  }

  ghost predicate ValuesFor(
    table: Table, keys: seq<string>, data: map<string, Value>, encode: Encoder, texts: seq<seq<Token>>,
    args: seq<Value>)
    requires forall key | key in keys :: key in data
  {
    && |texts| == |keys| <= |args|
    && forall i | 0 <= i < |keys| ::
         var col := FindColumn(table.columns, keys[i]);
         col.Some? && Carries(col.value, data[keys[i]], encode, i + 1, texts[i], args[i])
  }

  /** An INSERT lists the keys' columns and, in the same order, their values. */
  lemma InsertPairs(table: Table, keys: seq<string>, data: map<string, Value>, encode: Encoder, returning: bool)
    requires forall key | key in keys :: key in data
    requires InsertStatement(table, keys, data, encode, returning).Sql?
    ensures var s := InsertStatement(table, keys, data, encode, returning).sql;
            exists texts :: ValuesFor(table, keys, data, encode, texts, s.args) && |s.args| == |keys|
              && s.head == [Word("INSERT"), Word("INTO"), TableToken(table), LP] + JoinComma(KeyColumns(keys))
                           + [RP, Word("VALUES"), LP] + JoinComma(texts) + [RP]
  {
    hide JoinComma, FindColumn, BoundValue, ValueSql, ReturningSql, Carries;
    AssignmentsFor(table, keys, data, encode, []);
    var a := Assignments(table, keys, data, encode, 0).sql;
    assert ColumnList(a) == KeyColumns(keys);
    assert AssignmentArgs(a) + [] == AssignmentArgs(a);
    assert ValuesFor(table, keys, data, encode, ValueList(a), AssignmentArgs(a));
  }

  /** An UPDATE sets each key's column to its value, whatever the WHERE clause binds after. */
  lemma UpdatePairs(
    table: Table, keys: seq<string>, data: map<string, Value>, encode: Encoder,
    filters: seq<RawFilter>, returning: bool)
    requires forall key | key in keys :: key in data
    requires UpdateStatement(table, keys, data, encode, filters, returning).Sql?
    ensures var s := UpdateStatement(table, keys, data, encode, filters, returning).sql;
            exists texts :: ValuesFor(table, keys, data, encode, texts, s.args)
              && s.head == [Word("UPDATE"), TableToken(table), Word("SET")] + JoinComma(Sets(keys, texts))
  {
    hide JoinComma, FindColumn, BoundValue, ValueSql, ReturningSql, WhereSql, WhereArgs, Carries;
    var a := Assignments(table, keys, data, encode, 0).sql;
    var s := UpdateStatement(table, keys, data, encode, filters, returning).sql;
    var rest := s.args[|a|..];
    assert s.args == AssignmentArgs(a) + rest;
    AssignmentsFor(table, keys, data, encode, rest);
    assert SetList(a) == Sets(keys, ValueList(a));
  }

  function Sets(keys: seq<string>, texts: seq<seq<Token>>): seq<seq<Token>>
    requires |texts| == |keys|
  {
    seq(|keys|, i requires 0 <= i < |keys| => [Ident(keys[i]), Op("=")] + texts[i])
  }

  lemma AssignmentsFor(table: Table, keys: seq<string>, data: map<string, Value>, encode: Encoder, rest: seq<Value>)
    requires forall key | key in keys :: key in data
    requires Assignments(table, keys, data, encode, 0).Sql?
    ensures var a := Assignments(table, keys, data, encode, 0).sql;
            && ValuesFor(table, keys, data, encode, ValueList(a), AssignmentArgs(a) + rest)
            && |a| == |keys| && forall i | 0 <= i < |a| :: a[i].col.name == keys[i]
  {
    hide BoundValue, ValueSql, Assignments, Carries;
    var a := Assignments(table, keys, data, encode, 0).sql;
    AssignmentMentions(table, keys, data, encode, 0);
    forall i | 0 <= i < |keys|
      ensures FindColumn(table.columns, keys[i]) == Some(a[i].col)
              && Carries(a[i].col, data[keys[i]], encode, i + 1, a[i].sql, a[i].arg)
    {
      AssignmentsAt(table, keys, data, encode, 0, i);
      ValueCarried(a[i].col, data[keys[i]], encode, i + 1);
    }
  }

  /** The keyword is followed by the placeholder of the value. */
  ghost predicate AsksFor(text: seq<Token>, args: seq<Value>, word: string, v: Value) {
    exists i | 0 <= i < |text| - 1 :: text[i] == Word(word) && IsPlaceholderOf(args, text[i + 1], v)
  }

  predicate IsPlaceholderOf(args: seq<Value>, t: Token, v: Value) {
    t.Param? && 1 <= t.n <= |args| && args[t.n - 1] == v
  }

  lemma LimitAsked(before: seq<Token>, after: seq<Token>, word: string, n: int, bound: seq<Value>, more: seq<Value>)
    requires n > 0
    ensures AsksFor(before + LimitSql(word, n, |bound|) + after, bound + LimitArg(n) + more, word, Int(n))
  {
    var text, args := before + LimitSql(word, n, |bound|) + after, bound + LimitArg(n) + more;
    assert text[|before|] == Word(word);
    assert IsPlaceholderOf(args, text[|before| + 1], Int(n));
  }

  lemma TailAsked(table: Table, page: Page, before: seq<Value>)
    requires PageSql(table, page, |before|).Sql?
    ensures var tail, args := PageSql(table, page, |before|).sql, before + PageArgs(page);
            && (page.limit > 0 ==> AsksFor(tail, args, "LIMIT", Int(page.limit)))
            && (page.offset > 0 ==> AsksFor(tail, args, "OFFSET", Int(page.offset)))
  {
    hide OrderSql, OrderArgs, OrderClause, LimitSql, LimitArg, AsksFor;
    var tail, args := PageSql(table, page, |before|).sql, before + PageArgs(page);
    var terms := OrderClause(OrderSql(table, page.order, |before|).sql);
    var bound := before + OrderArgs(page.order);
    var bound1 := bound + LimitArg(page.limit);
    var limit, offset := LimitSql("LIMIT", page.limit, |bound|), LimitSql("OFFSET", page.offset, |bound1|);
    assert tail == terms + limit + offset;
    assert args == bound1 + LimitArg(page.offset);
    if page.limit > 0 { LimitAsked(terms, offset, "LIMIT", page.limit, bound, LimitArg(page.offset)); }
    if page.offset > 0 {
      LimitAsked(terms + limit, [], "OFFSET", page.offset, bound1, []);
      assert tail + [] == tail && args + [] == args;
    }
  }

  /** LIMIT and OFFSET get the requested numbers. */
  lemma PageAsked(table: Table, page: Page, filters: seq<RawFilter>)
    requires SelectStatement(table, page, filters).Sql?
    ensures var s := SelectStatement(table, page, filters).sql;
            && (page.limit > 0 ==> AsksFor(s.tail, s.args, "LIMIT", Int(page.limit)))
            && (page.offset > 0 ==> AsksFor(s.tail, s.args, "OFFSET", Int(page.offset)))
  {
    hide PageSql, PageArgs, WhereSql, WhereArgs, SelectHead, AsksFor;
    WhereParses(table, filters);
    TailAsked(table, page, WhereArgs(table, filters));
  }

  /** The term mentions the placeholder of its own search text, or none. */
  ghost predicate TermAsks(o: OrderParam, term: seq<Token>, args: seq<Value>) {
    if o.similarity == "" then Plain(term) else exists t | t in term :: IsPlaceholderOf(args, t, Text(o.similarity))
  }

  lemma FirstTermAsks(o: OrderParam, col: Column, words: seq<Token>, before: seq<Value>, after: seq<Value>)
    requires Plain(words)
    ensures TermAsks(o, OrderTerm(o, col, words, |before|), before + OrderArg(o) + after)
  {
    var term, args := OrderTerm(o, col, words, |before|), before + OrderArg(o) + after;
    if o.similarity != "" {
      assert term[4] == Param(|before| + 1) && args[|before|] == Text(o.similarity);
      assert IsPlaceholderOf(args, term[4], Text(o.similarity));
    }
  }

  /** Each order term asks for its own search text. */
  lemma {:induction false} OrderAsked(table: Table, order: seq<OrderParam>, before: seq<Value>, after: seq<Value>)
    requires OrderSql(table, order, |before|).Sql?
    ensures var terms := OrderSql(table, order, |before|).sql;
            && |terms| == |order|
            && forall i | 0 <= i < |order| :: TermAsks(order[i], terms[i], before + OrderArgs(order) + after)
    decreases |order|
  {
    hide FindColumn, OrderWords, OrderTerm, OrderArg, TermAsks;
    if order != [] {
      var o := order[0];
      var words := OrderWords(o).value;
      var rest := OrderArgs(order[1..]);
      WordsArePlain(o);
      FirstTermAsks(o, FindColumn(table.columns, o.column).value, words, before, rest + after);
      OrderAsked(table, order[1..], before + OrderArg(o), after);
      Associative(before + OrderArg(o), rest, after);
      Associative(before, OrderArg(o), rest);
      var terms := OrderSql(table, order, |before|).sql;
      assert terms[1..] == OrderSql(table, order[1..], |before + OrderArg(o)|).sql;
      assert forall i | 0 < i < |order| :: order[i] == order[1..][i - 1] && terms[i] == terms[1..][i - 1];
    }
  }

  // ---- SELECT, UPDATE and DELETE act on the same rows ----

  ghost predicate Affects(sem: Semantics, s: Statement, row: Row) {
    WhereTruth(sem, s.where, row, s.args) == True
  }

  /** With the same filters, SELECT (before LIMIT and OFFSET), UPDATE and DELETE pick exactly the
      rows on which every filter holds, whatever other parameters each statement binds. */
  lemma SameRows(
    sem: Semantics, table: Table, page: Page, keys: seq<string>, data: map<string, Value>,
    encode: Encoder, filters: seq<RawFilter>, returning: bool, row: Row)
    requires forall key | key in keys :: key in data
    requires SelectStatement(table, page, filters).Sql?
    requires UpdateStatement(table, keys, data, encode, filters, returning).Sql?
    ensures ParseFilters(table, filters).Sql? && DeleteStatement(table, filters, returning).Sql?
    ensures var holds := FiltersMeaning(sem, table, filters, row) == True;
            && Affects(sem, SelectStatement(table, page, filters).sql, row) == holds
            && Affects(sem, UpdateStatement(table, keys, data, encode, filters, returning).sql, row) == holds
            && Affects(sem, DeleteStatement(table, filters, returning).sql, row) == holds
  {
    hide SelectHead, WhereSql, WhereArgs, PageSql, PageArgs, Assignments,
      ReturningSql, WhereTruth, FiltersMeaning, ParseFilters;
    WhereParses(table, filters);
    var select := SelectStatement(table, page, filters).sql;
    var update := UpdateStatement(table, keys, data, encode, filters, returning).sql;
    var delete := DeleteStatement(table, filters, returning).sql;
    var a := Assignments(table, keys, data, encode, 0).sql;
    var w := WhereArgs(table, filters);
    assert select.args[0..|w|] == w && delete.args[0..|w|] == w;
    assert update.args[|a|..|a| + |w|] == w;
    MeaningPreserved(sem, table, filters, 0, row, select.args);
    MeaningPreserved(sem, table, filters, |a|, row, update.args);
    MeaningPreserved(sem, table, filters, 0, row, delete.args);
  }
}
