/** Reading the text of the generated statements back, clause by clause, and what each statement then
    asks for: its table, its columns and their values, the rows it applies to, their order, and what
    it returns. */
module Statements {
  import opened Options
  import opened Text
  import opened FilterGrammar
  import opened FilterPrinting
  import opened Sql
  import opened FilterSql
  import opened FilterMeaning
  import opened Query

  // ---- A reader of statements ----

  type Items = seq<seq<Token>>

  datatype Command =
    | SelectFrom(
        list: Items, table: Token, where: Option<Expr>, order: Items, limit: Option<Token>, offset: Option<Token>)
    | InsertInto(table: Token, columns: Items, values: Items, returning: Option<Items>)
    | UpdateSet(table: Token, sets: Items, where: Option<Expr>, returning: Option<Items>)
    | DeleteFrom(table: Token, where: Option<Expr>, returning: Option<Items>)

  function Deeper(depth: int, t: Token): int {
    if t == LP then depth + 1 else if t == RP then depth - 1 else depth
  }

  /** The length of what comes before the first of the stops outside parentheses. */
  function Until(depth: int, ts: seq<Token>, stops: set<Token>): (n: nat)
    ensures n <= |ts|
    decreases |ts|
  {
    if ts == [] || (depth == 0 && ts[0] in stops) then 0 else 1 + Until(Deeper(depth, ts[0]), ts[1..], stops)
  }

  /** The pieces between the commas outside parentheses; at least one. */
  function Pieces(depth: int, ts: seq<Token>): (r: Items)
    ensures |r| > 0
    decreases |ts|
  {
    if ts == [] then [[]]
    else if ts[0] == Comma && depth == 0 then [[]] + Pieces(0, ts[1..])
    else Onto([ts[0]], Pieces(Deeper(depth, ts[0]), ts[1..]))
  }

  function Onto(start: seq<Token>, pieces: Items): (r: Items)
    requires |pieces| > 0
    ensures |r| == |pieces| && r[0] == start + pieces[0] && r[1..] == pieces[1..]
  {
    [start + pieces[0]] + pieces[1..]
  }

  function ListOf(ts: seq<Token>): Items { if ts == [] then [] else Pieces(0, ts) }

  /** An optional WHERE clause and what follows it; None when the clause does not read. */
  function ReadWhere(ts: seq<Token>): Option<(Option<Expr>, seq<Token>)> {
    if !Starts(ts, Word("WHERE")) then Some((None, ts))
    else
      match ReadOr(ts[1..])
      case Stuck => None
      case Got(e, rest) => Some((Some(e), rest))
  }

  /** An optional list after a keyword, up to the stops, and what follows it. */
  function ReadList(word: string, ts: seq<Token>, stops: set<Token>): (Option<Items>, seq<Token>) {
    if !Starts(ts, Word(word)) then (None, ts)
    else
      var n := Until(0, ts[1..], stops);
      (Some(ListOf(ts[1..][..n])), ts[1..][n..])
  }

  /** An optional placeholder after a keyword, and what follows it. */
  function ReadParam(word: string, ts: seq<Token>): (Option<Token>, seq<Token>) {
    if Starts(ts, Word(word)) && |ts| > 1 && ts[1].Param? then (Some(ts[1]), ts[2..]) else (None, ts)
  }

  /** The last clause, if any, is RETURNING. */
  function ReadReturning(ts: seq<Token>): Option<Option<Items>> {
    var (list, rest) := ReadList("RETURNING", ts, {});
    if rest == [] then Some(list) else None
  }

  function ReadSelect(ts: seq<Token>): Option<Command> {
    var n := Until(0, ts, {Word("FROM")});
    var rest := ts[n..];
    if |rest| < 2 then None
    else
      match ReadWhere(rest[2..])
      case None => None
      case Some((where, r)) =>
        var (order, r1) := ReadList("ORDER BY", r, {Word("LIMIT"), Word("OFFSET")});
        var (limit, r2) := ReadParam("LIMIT", r1);
        var (offset, r3) := ReadParam("OFFSET", r2);
        if r3 != [] then None
        else Some(SelectFrom(ListOf(ts[..n]), rest[1], where, if order.Some? then order.value else [], limit, offset))
  }

  function ReadInsert(ts: seq<Token>): Option<Command> {
    if |ts| < 2 || ts[1] != LP then None
    else
      var columns := ts[2..];
      var n := Until(0, columns, {RP});
      ReadValues(ts[0], ListOf(columns[..n]), columns[n..])
  }

  /** From the parenthesis that closes the columns. */
  function ReadValues(table: Token, columns: Items, ts: seq<Token>): Option<Command> {
    if |ts| < 3 || ts[1] != Word("VALUES") || ts[2] != LP then None
    else
      var values := ts[3..];
      var m := Until(0, values, {RP});
      if m == |values| then None
      else
        match ReadReturning(values[m + 1..])
        case None => None
        case Some(returning) => Some(InsertInto(table, columns, ListOf(values[..m]), returning))
  }

  function ReadUpdate(ts: seq<Token>): Option<Command> {
    if ts == [] then None
    else
      var (sets, rest) := ReadList("SET", ts[1..], {Word("WHERE"), Word("RETURNING")});
      if sets.None? then None
      else
        match ReadWhere(rest)
        case None => None
        case Some((where, r)) =>
          match ReadReturning(r)
          case None => None
          case Some(returning) => Some(UpdateSet(ts[0], sets.value, where, returning))
  }

  function ReadDelete(ts: seq<Token>): Option<Command> {
    if ts == [] then None
    else
      match ReadWhere(ts[1..])
      case None => None
      case Some((where, r)) =>
        match ReadReturning(r)
        case None => None
        case Some(returning) => Some(DeleteFrom(ts[0], where, returning))
  }

  function ReadCommand(ts: seq<Token>): Option<Command> {
    if Starts(ts, Word("SELECT")) then ReadSelect(ts[1..])
    else if Starts(ts, Word("INSERT")) && Starts(ts[1..], Word("INTO")) then ReadInsert(ts[2..])
    else if Starts(ts, Word("UPDATE")) then ReadUpdate(ts[1..])
    else if Starts(ts, Word("DELETE")) && Starts(ts[1..], Word("FROM")) then ReadDelete(ts[2..])
    else None
  }

  // ---- Lists read back ----

  /** A list item: not empty, with its parentheses closed, and with neither a comma nor a keyword outside
      them. */
  const KEYWORDS: set<Token> := {
    Comma, RP, Word("FROM"), Word("WHERE"), Word("RETURNING"), Word("ORDER BY"), Word("LIMIT"), Word("OFFSET")}

  predicate Whole(depth: int, ts: seq<Token>)
    decreases |ts|
  {
    if ts == [] then depth == 0 else (depth == 0 ==> ts[0] !in KEYWORDS) && Whole(Deeper(depth, ts[0]), ts[1..])
  }

  predicate IsItem(ts: seq<Token>) { ts != [] && Whole(0, ts) }

  lemma OntoOnto(a: seq<Token>, b: seq<Token>, pieces: Items)
    requires |pieces| > 0
    ensures Onto(a, Onto(b, pieces)) == Onto(a + b, pieces)
    ensures Onto([], pieces) == pieces
  {
    Associative(a, b, pieces[0]);
    assert [] + pieces[0] == pieces[0];
  }

  lemma {:induction false} PiecesOfItem(depth: int, item: seq<Token>, rest: seq<Token>)
    requires Whole(depth, item)
    ensures Pieces(depth, item + rest) == Onto(item, Pieces(0, rest))
    decreases |item|
  {
    hide KEYWORDS;
    if item == [] {
      assert item + rest == rest;
      OntoOnto([], [], Pieces(0, rest));
    } else {
      CommaIsKeyword();
      PiecesOfItem(Deeper(depth, item[0]), item[1..], rest);
      assert (item + rest)[1..] == item[1..] + rest;
      OntoOnto([item[0]], item[1..], Pieces(0, rest));
      assert [item[0]] + item[1..] == item;
    }
  }

  lemma CommaIsKeyword()
    ensures Comma in KEYWORDS
  {
  }

  lemma {:induction false} UntilOfItem(depth: int, item: seq<Token>, rest: seq<Token>, stops: set<Token>)
    requires Whole(depth, item) && stops <= KEYWORDS
    ensures Until(depth, item + rest, stops) == |item| + Until(0, rest, stops)
    decreases |item|
  {
    hide KEYWORDS;
    if item == [] {
      assert item + rest == rest;
    } else {
      UntilOfItem(Deeper(depth, item[0]), item[1..], rest, stops);
      assert (item + rest)[1..] == item[1..] + rest;
    }
  }

  /** Items joined with commas are read back, up to what stops the list. */
  lemma {:induction false} ListReads(items: Items, rest: seq<Token>, stops: set<Token>)
    requires forall item | item in items :: IsItem(item)
    requires stops <= KEYWORDS - {Comma} && (rest == [] || rest[0] in stops)
    ensures ListOf(JoinComma(items)) == items
    ensures Until(0, JoinComma(items) + rest, stops) == |JoinComma(items)|
    decreases |items|
  {
    hide KEYWORDS;
    if items == [] {
      assert JoinComma(items) + rest == rest;
    } else if |items| == 1 {
      assert items[0] in items;
      PiecesOfItem(0, items[0], []);
      UntilOfItem(0, items[0], rest, stops);
      assert items[0] + [] == items[0] && items == [items[0]];
    } else {
      assert items[0] in items && items[1] in items && items[1] == items[1..][0];
      assert forall item | item in items[1..] :: item in items;
      ListReads(items[1..], rest, stops);
      MoreItems(items, rest, stops);
    }
  }

  lemma MoreItems(items: Items, rest: seq<Token>, stops: set<Token>)
    requires |items| > 1 && IsItem(items[0]) && IsItem(items[1])
    requires stops <= KEYWORDS - {Comma}
    requires ListOf(JoinComma(items[1..])) == items[1..]
    requires Until(0, JoinComma(items[1..]) + rest, stops) == |JoinComma(items[1..])|
    ensures ListOf(JoinComma(items)) == items
    ensures Until(0, JoinComma(items) + rest, stops) == |JoinComma(items)|
  {
    hide KEYWORDS, Whole;
    var more := JoinComma(items[1..]);
    var tail := [Comma] + more;
    assert tail[1..] == more && more != [];
    Associative(items[0], [Comma], more);
    PiecesOfItem(0, items[0], tail);
    assert items[0] + [] == items[0] && items == [items[0]] + items[1..];
    UntilOfItem(0, items[0], tail + rest, stops);
    Associative(items[0], tail, rest);
    assert (tail + rest)[1..] == more + rest;
  }

  // ---- The items of the generated lists ----

  lemma {:induction false} WholeConcat(depth: int, a: seq<Token>, b: seq<Token>)
    requires Whole(depth, a) && Whole(0, b)
    ensures Whole(depth, a + b)
    decreases |a|
  {
    hide KEYWORDS;
    if a == [] {
      assert a + b == b;
    } else {
      WholeConcat(Deeper(depth, a[0]), a[1..], b);
      assert (a + b)[1..] == a[1..] + b;
    }
  }

  lemma {:induction false} WholeFlat(ts: seq<Token>)
    requires forall t | t in ts :: t !in KEYWORDS && t != LP && t != RP
    ensures Whole(0, ts)
  {
    hide KEYWORDS;
    if ts != [] {
      assert ts[0] in ts && forall t | t in ts[1..] :: t in ts;
      WholeFlat(ts[1..]);
    }
  }

  /** Anything without parentheses between parentheses. */
  lemma WholeCall(inner: seq<Token>)
    requires LP !in inner && RP !in inner
    ensures Whole(0, [LP] + inner + [RP])
  {
    WholeInner(inner);
    LpIsNoKeyword();
    hide KEYWORDS;
    var ts := [LP] + inner + [RP];
    assert ts[0] == LP && ts[1..] == inner + [RP];
  }

  lemma LpIsNoKeyword()
    ensures LP !in KEYWORDS
  {
  }

  lemma {:induction false} WholeInner(inner: seq<Token>)
    requires LP !in inner && RP !in inner
    ensures Whole(1, inner + [RP])
    decreases |inner|
  {
    hide KEYWORDS;
    if inner == [] {
      assert (inner + [RP])[0] == RP && (inner + [RP])[1..] == [];
    } else {
      WholeInner(inner[1..]);
      assert inner[0] in inner && forall t | t in inner[1..] :: t in inner;
      assert (inner + [RP])[1..] == inner[1..] + [RP];
    }
  }

  /** A function call in a list, and what follows it. */
  lemma CallIsItem(f: string, inner: seq<Token>, after: seq<Token>)
    requires Word(f) !in KEYWORDS && LP !in inner && RP !in inner
    requires forall t | t in after :: t !in KEYWORDS && t != LP && t != RP
    ensures IsItem([Word(f)] + ([LP] + inner + [RP]) + after)
  {
    hide KEYWORDS, Whole;
    WholeFlat([Word(f)]);
    WholeCall(inner);
    WholeFlat(after);
    WholeConcat(0, [Word(f)], [LP] + inner + [RP]);
    WholeConcat(0, [Word(f)] + ([LP] + inner + [RP]), after);
  }

  lemma FlatIsItem(ts: seq<Token>)
    requires ts != [] && forall t | t in ts :: t !in KEYWORDS && t != LP && t != RP
    ensures IsItem(ts)
  {
    WholeFlat(ts);
  }

  /** A column as SELECT and RETURNING list it: composites as JSON and some types as text, under the
      column's own name. */
  lemma ColumnTokens(col: Column)
    ensures CastColumn(col)
            == if col.composite || col.arrayOfComposite
               then [Word("to_jsonb"), LP, Ident(col.name), RP, Word("AS"), Ident(col.name)]
               else if col.dataType == "uuid" || col.dataType == "date" || col.dataType == "time without time zone"
               then [Ident(col.name), CastT("TEXT"), Word("AS"), Ident(col.name)]
               else [Ident(col.name)]
    ensures IsItem(CastColumn(col))
  {
    var id := Ident(col.name);
    CallIsItem("to_jsonb", [id], [Word("AS"), id]);
    FlatIsItem([id, CastT("TEXT"), Word("AS"), id]);
    FlatIsItem([id]);
    assert [Word("to_jsonb"), LP, id, RP, Word("AS"), id] == [Word("to_jsonb")] + ([LP] + [id] + [RP]) + [Word("AS"), id];
  }

  lemma ColumnsAreItems(columns: seq<Column>)
    ensures forall item | item in CastColumns(columns) :: IsItem(item)
  {
    hide CastColumn, IsItem;
    forall item | item in CastColumns(columns)
      ensures IsItem(item)
    {
      var i :| 0 <= i < |columns| && CastColumns(columns)[i] == item;
      ColumnTokens(columns[i]);
    }
  }

  /** A term orders by the column, or by its similarity to the search text, in the direction and with the
      nulls position asked for, in any letter case. */
  lemma OrderTokens(o: OrderParam, col: Column, words: seq<Token>, k: nat)
    requires OrderWords(o) == Some(words)
    ensures var basis := if o.similarity == "" then [Ident(col.name)]
                      else [Word("similarity"), LP, Ident(col.name), Comma, Param(k + 1), RP];
            OrderTerm(o, col, words, k) == basis + words
    ensures words == [Word(if ToLower(o.direction) == "asc" then "ASC" else "DESC"), Word("NULLS"),
                      Word(if ToLower(o.nulls) == "first" then "FIRST" else "LAST")]
    ensures ToLower(o.direction) in {"asc", "desc"} && ToLower(o.nulls) in {"first", "last"}
    ensures IsItem(OrderTerm(o, col, words, k))
  {
    hide ToLower;
    var id := Ident(col.name);
    CallIsItem("similarity", [id, Comma, Param(k + 1)], words);
    FlatIsItem([id] + words);
    assert [Word("similarity"), LP, id, Comma, Param(k + 1), RP] == [Word("similarity")] + ([LP] + [id, Comma, Param(k + 1)] + [RP]);
  }

  /** Other directions and nulls positions are errors. */
  lemma OrderWordsRead(o: OrderParam)
    ensures OrderWords(o).Some? <==> ToLower(o.direction) in {"asc", "desc"} && ToLower(o.nulls) in {"first", "last"}
  {
    hide ToLower;
  }

  lemma ValueIsItem(col: Column, v: Value, n: nat)
    ensures IsItem(ValueSql(col, v, n)) && IsItem([Ident(col.name), Op("=")] + ValueSql(col, v, n))
  {
    var inner := [Word("NULL"), Op("::"), Qualified(col.udtSchema, col.udtName), Comma, Param(n), CastT("jsonb")];
    var call := [Word("jsonb_populate_record")] + ([LP] + inner + [RP]) + [];
    CallIsItem("jsonb_populate_record", inner, []);
    FlatIsItem([Param(n)]);
    FlatIsItem([Ident(col.name), Op("=")]);
    hide Whole, KEYWORDS;
    assert call == [Word("jsonb_populate_record"), LP, Word("NULL"), Op("::"), Qualified(col.udtSchema, col.udtName), Comma,
                    Param(n), CastT("jsonb"), RP];
    WholeConcat(0, [Ident(col.name), Op("=")], ValueSql(col, v, n));
  }

  // ---- Clauses read back ----

  /** The condition of a filter list after k parameters. */
  function WhereExpr(table: Table, filters: seq<RawFilter>, k: nat): Option<Expr>
    requires ParseFilters(table, filters).Sql?
  {
    ParsedFiltersHaveColumns(table, filters);
    var es := NodesExprs(ParseFilters(table, filters).sql, table, k);
    if es == [] then None else Some(FoldExpr(AND, es[0], es[1..]))
  }

  /** The rows a statement with this WHERE clause applies to; without one, all. */
  function Applies(sem: Semantics, where: Option<Expr>, row: Row, args: seq<Value>): Truth {
    match where
    case None => True
    case Some(e) => ToTruth(Eval(e, row, args, sem))
  }

  function WhereClause(where: seq<Token>): seq<Token> { if where == [] then [] else [Word("WHERE")] + where }

  lemma WhereReads(table: Table, filters: seq<RawFilter>, k: nat, rest: seq<Token>)
    requires ParseFilters(table, filters).Sql? && EndsClause(rest)
    ensures ReadWhere(WhereClause(WhereSql(table, filters, k).sql) + rest) == Some((WhereExpr(table, filters, k), rest))
  {
    ParsedFiltersHaveColumns(table, filters);
    ParsedAreWellFormed(table, filters);
    var nodes := ParseFilters(table, filters).sql;
    hide ParseFilters, ReadOr, WellFormed, FoldExpr;
    if nodes != [] {
      var where := NodesSql(nodes, AndT, table, k);
      GroupReads(AND, nodes, table, k, 1, rest);
      WhereNotEmpty(nodes, table, k);
      Associative([Word("WHERE")], where, rest);
      assert ([Word("WHERE")] + (where + rest))[1..] == where + rest;
    } else {
      assert WhereSql(table, filters, k).sql == [] && [] + rest == rest;
    }
  }

  lemma WhereSelects(sem: Semantics, table: Table, filters: seq<RawFilter>, k: nat, row: Row, args: seq<Value>)
    requires ParseFilters(table, filters).Sql? && Bound(args, k, WhereArgs(table, filters))
    ensures Applies(sem, WhereExpr(table, filters, k), row, args) == FiltersMeaning(sem, table, filters, row)
    ensures WhereExpr(table, filters, k).None? <==> filters == []
  {
    ParsedFiltersHaveColumns(table, filters);
    ParsedAreWellFormed(table, filters);
    var nodes := ParseFilters(table, filters).sql;
    hide ParseFilters, WellFormed, FoldExpr, Eval;
    if nodes != [] { GroupValue(sem, AND, nodes, table, k, 1, row, args); }
  }

  function Returned(table: Table, returning: bool): Option<Items> {
    if returning then Some(CastColumns(table.columns)) else None
  }

  lemma ReturningReads(table: Table, returning: bool)
    ensures ReadReturning(ReturningSql(table, returning)) == Some(Returned(table, returning))
    ensures var ts := ReturningSql(table, returning); EndsClause(ts) && (ts == [] || ts[0] == Word("RETURNING"))
  {
    hide ListOf, Until, JoinComma, CastColumns;
    if returning {
      var items := CastColumns(table.columns);
      ColumnsAreItems(table.columns);
      ListReads(items, [], {});
      var ts := JoinComma(items);
      assert ([Word("RETURNING")] + ts)[1..] == ts && ts + [] == ts;
      assert ts[..|ts|] == ts && ts[|ts|..] == [];
    }
  }

  // ---- The reader on the shape of each statement ----

  lemma DeleteText(t: Token, where: seq<Token>, tail: seq<Token>, e: Option<Expr>, returning: Option<Items>)
    requires ReadWhere(where + tail) == Some((e, tail)) && ReadReturning(tail) == Some(returning)
    ensures ReadCommand([Word("DELETE"), Word("FROM"), t] + where + tail) == Some(DeleteFrom(t, e, returning))
  {
    hide ReadWhere, ReadReturning;
    var text := [Word("DELETE"), Word("FROM"), t] + where + tail;
    assert text[1..][0] == Word("FROM") && text[2..][0] == t && text[2..][1..] == where + tail;
  }

  lemma UpdateText(
    t: Token, sets: Items, where: seq<Token>, tail: seq<Token>, e: Option<Expr>, returning: Option<Items>)
    requires forall item | item in sets :: IsItem(item)
    requires where + tail == [] || (where + tail)[0] in {Word("WHERE"), Word("RETURNING")}
    requires ReadWhere(where + tail) == Some((e, tail)) && ReadReturning(tail) == Some(returning)
    ensures ReadCommand([Word("UPDATE"), t, Word("SET")] + JoinComma(sets) + where + tail)
            == Some(UpdateSet(t, sets, e, returning))
  {
    hide ReadWhere, ReadReturning, JoinComma, ListOf, Until, IsItem;
    var list, rest := JoinComma(sets), where + tail;
    var head := [Word("UPDATE"), t, Word("SET")];
    ListReads(sets, rest, {Word("WHERE"), Word("RETURNING")});
    var text := head + list + where + tail;
    Associative(head + list, where, tail);
    Associative(head, list, rest);
    var ts := text[1..];
    Halves([Word("UPDATE"), t, Word("SET")], list + rest);
    assert ts[0] == t && ts[1..][0] == Word("SET") && ts[1..][1..] == text[3..];
    Halves(list, rest);
  }

  lemma InsertText(t: Token, columns: Items, values: Items, tail: seq<Token>, returning: Option<Items>)
    requires forall item | item in columns :: IsItem(item)
    requires forall item | item in values :: IsItem(item)
    requires ReadReturning(tail) == Some(returning)
    ensures ReadCommand([Word("INSERT"), Word("INTO"), t, LP] + JoinComma(columns) + [RP, Word("VALUES"), LP]
                        + JoinComma(values) + [RP] + tail)
            == Some(InsertInto(t, columns, values, returning))
  {
    hide ReadReturning, JoinComma, ListOf, Until, IsItem, ReadInsert, ReadValues, ReadCommand;
    var a, b := JoinComma(columns), JoinComma(values);
    var head, middle, close := [Word("INSERT"), Word("INTO"), t, LP], [RP, Word("VALUES"), LP], [RP] + tail;
    Associative(head + a + middle + b, [RP], tail);
    Associative(head + a + middle, b, close);
    Associative(head + a, middle, b + close);
    Associative(head, a, middle + (b + close));
    ValuesRead(t, columns, values, tail, returning);
    ColumnsRead(t, columns, middle + (b + close));
    InsertOpens(t, a + (middle + (b + close)));
  }

  lemma InsertOpens(t: Token, rest: seq<Token>)
    ensures ReadCommand([Word("INSERT"), Word("INTO"), t, LP] + rest) == ReadInsert([t, LP] + rest)
  {
    hide ReadInsert;
    var text := [Word("INSERT"), Word("INTO"), t, LP] + rest;
    assert text[1..][0] == Word("INTO") && text[2..] == [t, LP] + rest;
  }

  lemma ColumnsRead(t: Token, columns: Items, rest: seq<Token>)
    requires (forall item | item in columns :: IsItem(item)) && rest != [] && rest[0] == RP
    ensures ReadInsert([t, LP] + (JoinComma(columns) + rest)) == ReadValues(t, columns, rest)
  {
    hide JoinComma, ListOf, Until, IsItem, ReadValues;
    var a := JoinComma(columns);
    ListReads(columns, rest, {RP});
    assert ([t, LP] + (a + rest))[2..] == a + rest && (a + rest)[..|a|] == a && (a + rest)[|a|..] == rest;
  }

  lemma ValuesRead(t: Token, columns: Items, values: Items, tail: seq<Token>, returning: Option<Items>)
    requires (forall item | item in values :: IsItem(item)) && ReadReturning(tail) == Some(returning)
    ensures ReadValues(t, columns, [RP, Word("VALUES"), LP] + (JoinComma(values) + ([RP] + tail)))
            == Some(InsertInto(t, columns, values, returning))
  {
    hide JoinComma, ListOf, Until, IsItem, ReadReturning;
    var b, close := JoinComma(values), [RP] + tail;
    ListReads(values, close, {RP});
    assert ([RP, Word("VALUES"), LP] + (b + close))[3..] == b + close;
    assert (b + close)[..|b|] == b && (b + close)[|b| + 1..] == tail;
  }

  lemma SelectText(
    list: Items, t: Token, where: seq<Token>, order: Items, limit: Option<Token>, offset: Option<Token>, e: Option<Expr>)
    requires forall item | item in list :: IsItem(item)
    requires forall item | item in order :: IsItem(item)
    requires (limit.Some? ==> limit.value.Param?) && (offset.Some? ==> offset.value.Param?)
    requires var tail := PageText(order, limit, offset); ReadWhere(where + tail) == Some((e, tail))
    ensures ReadCommand([Word("SELECT")] + JoinComma(list) + [Word("FROM"), t] + where + PageText(order, limit, offset))
            == Some(SelectFrom(list, t, e, order, limit, offset))
  {
    hide ReadWhere, JoinComma, ListOf, Until, IsItem, PageText;
    var a, tail := JoinComma(list), PageText(order, limit, offset);
    var text := [Word("SELECT")] + a + [Word("FROM"), t] + where + tail;
    var from := [Word("FROM"), t] + (where + tail);
    Associative([Word("SELECT")] + a + [Word("FROM"), t], where, tail);
    Associative([Word("SELECT")] + a, [Word("FROM"), t], where + tail);
    Associative([Word("SELECT")], a, from);
    ListReads(list, from, {Word("FROM")});
    var ts := text[1..];
    assert ts == a + from && ts[..|a|] == a && ts[|a|..] == from && from[2..] == where + tail;
    PageReads(order, limit, offset);
  }

  /** ORDER BY, LIMIT and OFFSET. */
  function PageText(order: Items, limit: Option<Token>, offset: Option<Token>): seq<Token> {
    OrderClause(order) + ParamClause("LIMIT", limit) + ParamClause("OFFSET", offset)
  }

  function ParamClause(word: string, p: Option<Token>): seq<Token> {
    if p.Some? then [Word(word), p.value] else []
  }

  lemma PageReads(order: Items, limit: Option<Token>, offset: Option<Token>)
    requires forall item | item in order :: IsItem(item)
    requires (limit.Some? ==> limit.value.Param?) && (offset.Some? ==> offset.value.Param?)
    ensures var (terms, r1) := ReadList("ORDER BY", PageText(order, limit, offset), {Word("LIMIT"), Word("OFFSET")});
            var (l, r2) := ReadParam("LIMIT", r1);
            var (o, r3) := ReadParam("OFFSET", r2);
            (if terms.Some? then terms.value else []) == order && l == limit && o == offset && r3 == []
  {
    hide JoinComma, ListOf, Until, IsItem;
    var last := ParamClause("OFFSET", offset);
    var rest := ParamClause("LIMIT", limit) + last;
    Associative(OrderClause(order), ParamClause("LIMIT", limit), last);
    LimitsFollow(limit, offset);
    OrderReadsBack(order, rest);
    ParamReads("LIMIT", limit, last);
    ParamReads("OFFSET", offset, []);
    assert last + [] == last;
    hide ReadList, ReadParam, ParamClause, OrderClause;
  }

  lemma LimitsFollow(limit: Option<Token>, offset: Option<Token>)
    ensures var rest := ParamClause("LIMIT", limit) + ParamClause("OFFSET", offset);
            rest == [] || rest[0] in {Word("LIMIT"), Word("OFFSET")}
    ensures !Starts(ParamClause("OFFSET", offset), Word("LIMIT"))
  {
  }

  lemma OrderReadsBack(order: Items, rest: seq<Token>)
    requires forall item | item in order :: IsItem(item)
    requires rest == [] || rest[0] in {Word("LIMIT"), Word("OFFSET")}
    ensures ReadList("ORDER BY", OrderClause(order) + rest, {Word("LIMIT"), Word("OFFSET")})
            == (if order == [] then None else Some(order), rest)
  {
    hide JoinComma, ListOf, Until, IsItem;
    if order != [] {
      var a := JoinComma(order);
      ListReads(order, rest, {Word("LIMIT"), Word("OFFSET")});
      Associative([Word("ORDER BY")], a, rest);
      assert ([Word("ORDER BY")] + (a + rest))[1..] == a + rest;
      Halves(a, rest);
    } else {
      assert [] + rest == rest;
    }
  }

  lemma ParamReads(word: string, p: Option<Token>, rest: seq<Token>)
    requires (p.Some? ==> p.value.Param?) && !Starts(rest, Word(word))
    ensures ReadParam(word, ParamClause(word, p) + rest) == (p, rest)
  {
    if p.Some? {
      var ts := [Word(word), p.value] + rest;
      assert ts[2..] == rest;
    } else {
      assert [] + rest == rest;
    }
  }

  // ---- Statements read back ----

  function TableOf(table: Table): Token { Qualified(table.schemaName, table.name) }

  /** A DELETE reads as the removal of rows of its table under the filters' condition, returning the
      columns if asked to. */
  lemma DeleteReads(table: Table, filters: seq<RawFilter>, returning: bool)
    requires DeleteStatement(table, filters, returning).Sql?
    ensures ParseFilters(table, filters).Sql?
    ensures ReadCommand(DeleteStatement(table, filters, returning).sql.Text())
            == Some(DeleteFrom(TableOf(table), WhereExpr(table, filters, 0), Returned(table, returning)))
    ensures DeleteStatement(table, filters, returning).sql.args == WhereArgs(table, filters)
  {
    hide ReadWhere, ReadReturning, WhereSql, WhereExpr, WhereArgs, ReturningSql, Returned, EndsClause, ParseFilters, ReadCommand;
    WhereParses(table, filters);
    var where, tail := WhereSql(table, filters, 0).sql, ReturningSql(table, returning);
    ReturningReads(table, returning);
    WhereReads(table, filters, 0, tail);
    DeleteText(TableOf(table), WhereClause(where), tail, WhereExpr(table, filters, 0), Returned(table, returning));
  }

  lemma AssignmentsCarried(
    table: Table, keys: seq<string>, data: map<string, Value>, encode: Encoder, rest: seq<Value>)
    requires forall key | key in keys :: key in data
    requires Assignments(table, keys, data, encode, 0).Sql?
    ensures var a := Assignments(table, keys, data, encode, 0).sql;
            && ValuesFor(table, keys, data, encode, ValueList(a), AssignmentArgs(a) + rest)
            && ColumnList(a) == KeyColumns(keys) && SetList(a) == Sets(keys, ValueList(a))
            && (forall item | item in ColumnList(a) :: IsItem(item))
            && (forall item | item in ValueList(a) :: IsItem(item))
            && (forall item | item in SetList(a) :: IsItem(item))
  {
    hide Carries, BoundValue, ValueSql, Assignments, FindColumn, IsItem;
    AssignmentsFor(table, keys, data, encode, rest);
    var a := Assignments(table, keys, data, encode, 0).sql;
    assert ColumnList(a) == KeyColumns(keys) && SetList(a) == Sets(keys, ValueList(a));
    forall i | 0 <= i < |keys|
      ensures IsItem(a[i].sql) && IsItem([Ident(a[i].col.name), Op("=")] + a[i].sql) && IsItem([Ident(a[i].col.name)])
    {
      AssignmentsAt(table, keys, data, encode, 0, i);
      ValueIsItem(a[i].col, data[keys[i]], i + 1);
      FlatIsItem([Ident(a[i].col.name)]);
    }
  }

  /** An INSERT reads as one row for its table: the keys' columns and, in the same order, the values
      carried. It binds one value for each key and no more. */
  lemma InsertReads(table: Table, keys: seq<string>, data: map<string, Value>, encode: Encoder, returning: bool)
    returns (texts: Items)
    requires forall key | key in keys :: key in data
    requires InsertStatement(table, keys, data, encode, returning).Sql?
    ensures var s := InsertStatement(table, keys, data, encode, returning).sql;
            && ReadCommand(s.Text()) == Some(InsertInto(TableOf(table), KeyColumns(keys), texts, Returned(table, returning)))
            && |s.args| == |keys| && ValuesFor(table, keys, data, encode, texts, s.args)
  {
    hide ReadReturning, ReturningSql, Returned, EndsClause, ReadCommand, Assignments, JoinComma, ValuesFor, IsItem;
    var a := Assignments(table, keys, data, encode, 0).sql;
    texts := ValueList(a);
    AssignmentsCarried(table, keys, data, encode, []);
    ReturningReads(table, returning);
    assert AssignmentArgs(a) + [] == AssignmentArgs(a);
    AssignmentMentions(table, keys, data, encode, 0);
    InsertText(TableOf(table), ColumnList(a), texts, ReturningSql(table, returning), Returned(table, returning));
    var head := [Word("INSERT"), Word("INTO"), TableOf(table), LP] + JoinComma(ColumnList(a))
                + [RP, Word("VALUES"), LP] + JoinComma(ValueList(a)) + [RP];
    assert head + [] == head;
  }

  /** An UPDATE reads as setting each key's column to the value carried, on the rows of its table under
      the filters' condition. */
  lemma UpdateReads(
    table: Table, keys: seq<string>, data: map<string, Value>, encode: Encoder, filters: seq<RawFilter>, returning: bool)
    returns (texts: Items)
    requires forall key | key in keys :: key in data
    requires UpdateStatement(table, keys, data, encode, filters, returning).Sql?
    ensures ParseFilters(table, filters).Sql? && |texts| == |keys|
    ensures var s := UpdateStatement(table, keys, data, encode, filters, returning).sql;
            && ReadCommand(s.Text())
               == Some(UpdateSet(TableOf(table), Sets(keys, texts), WhereExpr(table, filters, |keys|), Returned(table, returning)))
            && ValuesFor(table, keys, data, encode, texts, s.args) && s.args[|keys|..] == WhereArgs(table, filters)
  {
    hide ReadWhere, ReadReturning, WhereSql, WhereExpr, WhereArgs, ReturningSql, Returned, EndsClause, ParseFilters, ReadCommand,
      Assignments, JoinComma, Carries, IsItem;
    var a := Assignments(table, keys, data, encode, 0).sql;
    texts := ValueList(a);
    WhereParses(table, filters);
    AssignmentsCarried(table, keys, data, encode, WhereArgs(table, filters));
    AssignmentMentions(table, keys, data, encode, 0);
    var where, tail := WhereSql(table, filters, |a|).sql, ReturningSql(table, returning);
    ReturningReads(table, returning);
    WhereReads(table, filters, |a|, tail);
    UpdateText(TableOf(table), SetList(a), WhereClause(where), tail, WhereExpr(table, filters, |a|), Returned(table, returning));
  }

  /** The columns of a SELECT list, or * for a table without columns. */
  function Listed(table: Table, selected: seq<string>): Items {
    if selected == [] && table.columns == [] then [[Op("*")]]
    else CastColumns(SelectedColumns(table.columns, if selected == [] then ["*"] else selected))
  }

  /** The placeholder of a limit that is asked for, bound to its number. */
  predicate LimitRead(n: int, p: Option<Token>, args: seq<Value>) {
    if n > 0 then p.Some? && IsPlaceholderOf(args, p.value, Int(n)) else p.None?
  }

  /** A SELECT reads as its list of columns, the rows of its table under the filters' condition, its order
      terms, and its limits with the numbers asked for. */
  lemma SelectReads(table: Table, page: Page, filters: seq<RawFilter>) returns (limit: Option<Token>, offset: Option<Token>)
    requires SelectStatement(table, page, filters).Sql?
    ensures ParseFilters(table, filters).Sql?
    ensures OrderSql(table, page.order, |WhereArgs(table, filters)|).Sql?
    ensures var s, k := SelectStatement(table, page, filters).sql, |WhereArgs(table, filters)|;
            && ReadCommand(s.Text())
               == Some(SelectFrom(Listed(table, page.select), TableOf(table), WhereExpr(table, filters, 0),
                                  OrderSql(table, page.order, k).sql, limit, offset))
            && s.args == WhereArgs(table, filters) + PageArgs(page)
            && LimitRead(page.limit, limit, s.args) && LimitRead(page.offset, offset, s.args)
  {
    hide ReadWhere, WhereSql, WhereExpr, WhereArgs, ParseFilters, ReadCommand, JoinComma, IsItem, OrderSql, SelectHead, OrderArgs;
    WhereParses(table, filters);
    var w, where := WhereArgs(table, filters), WhereSql(table, filters, 0).sql;
    var order := OrderSql(table, page.order, |w|).sql;
    var k1 := |w| + |OrderArgs(page.order)|;
    limit := if page.limit > 0 then Some(Param(k1 + 1)) else None;
    offset := if page.offset > 0 then Some(Param(k1 + |LimitArg(page.limit)| + 1)) else None;
    assert PageSql(table, page, |w|).sql == PageText(order, limit, offset);
    SelectHeadText(table, page.select);
    OrderIsItems(table, page.order, |w|);
    PageEnds(order, limit, offset);
    hide PageSql, PageText, EndsClause;
    WhereReads(table, filters, 0, PageText(order, limit, offset));
    SelectText(Listed(table, page.select), TableOf(table), WhereClause(where), order, limit, offset, WhereExpr(table, filters, 0));
  }

  lemma PageEnds(order: Items, limit: Option<Token>, offset: Option<Token>)
    ensures EndsClause(PageText(order, limit, offset))
  {
  }

  lemma SelectHeadText(table: Table, selected: seq<string>)
    ensures SelectHead(table, selected) == [Word("SELECT")] + JoinComma(Listed(table, selected)) + [Word("FROM"), TableOf(table)]
    ensures forall item | item in Listed(table, selected) :: IsItem(item)
  {
    hide IsItem;
    FlatIsItem([Op("*")]);
    if selected != [] || table.columns != [] {
      ColumnsAreItems(SelectedColumns(table.columns, if selected == [] then ["*"] else selected));
    }
  }

  lemma {:induction false} OrderIsItems(table: Table, order: seq<OrderParam>, k: nat)
    requires OrderSql(table, order, k).Sql?
    ensures |OrderSql(table, order, k).sql| == |order|
    ensures forall item | item in OrderSql(table, order, k).sql :: IsItem(item)
    decreases |order|
  {
    hide FindColumn, OrderWords, OrderTerm, OrderArg, IsItem;
    if order != [] {
      var o := order[0];
      OrderIsItems(table, order[1..], k + |OrderArg(o)|);
      OrderTokens(o, FindColumn(table.columns, o.column).value, OrderWords(o).value, k);
    }
  }

  /** An order term as the request asks for it: the column, or its similarity to the search text. */
  ghost predicate TermRead(o: OrderParam, term: seq<Token>, args: seq<Value>) {
    var words := [Word(if ToLower(o.direction) == "asc" then "ASC" else "DESC"), Word("NULLS"),
                  Word(if ToLower(o.nulls) == "first" then "FIRST" else "LAST")];
    if o.similarity == "" then term == [Ident(o.column)] + words
    else exists p :: IsPlaceholderOf(args, p, Value.Text(o.similarity))
                     && term == [Word("similarity"), LP, Ident(o.column), Comma, p, RP] + words
  }

  lemma FirstTermRead(o: OrderParam, col: Column, words: seq<Token>, before: seq<Value>, after: seq<Value>)
    requires OrderWords(o) == Some(words) && col.name == o.column
    ensures TermRead(o, OrderTerm(o, col, words, |before|), before + OrderArg(o) + after)
  {
    OrderTokens(o, col, words, |before|);
    hide ToLower, IsItem, OrderTerm, OrderWords;
    if o.similarity != "" {
      assert IsPlaceholderOf(before + OrderArg(o) + after, Param(|before| + 1), Value.Text(o.similarity));
    }
  }

  /** Each term of ORDER BY is the one asked for, in order, with the placeholder of its own search
      text; unknown columns, directions and nulls positions are refused. */
  lemma {:induction false} OrderReads(table: Table, order: seq<OrderParam>, before: seq<Value>, after: seq<Value>)
    ensures OrderSql(table, order, |before|).Sql?
            <==> forall o | o in order :: FindColumn(table.columns, o.column).Some? && OrderWords(o).Some?
    ensures OrderSql(table, order, |before|).Sql? ==>
              var terms := OrderSql(table, order, |before|).sql;
              && |terms| == |order|
              && forall i | 0 <= i < |order| :: TermRead(order[i], terms[i], before + OrderArgs(order) + after)
    decreases |order|
  {
    hide FindColumn, OrderWords, OrderTerm, OrderArg, TermRead;
    if order != [] {
      var o := order[0];
      var rest := OrderArgs(order[1..]);
      OrderReads(table, order[1..], before + OrderArg(o), after);
      Associative(before + OrderArg(o), rest, after);
      Associative(before, OrderArg(o), rest);
      assert forall x :: x in order <==> x == o || x in order[1..];
      if OrderSql(table, order, |before|).Sql? {
        FirstTermRead(o, FindColumn(table.columns, o.column).value, OrderWords(o).value, before, rest + after);
        var terms := OrderSql(table, order, |before|).sql;
        assert terms[1..] == OrderSql(table, order[1..], |before + OrderArg(o)|).sql;
        assert forall i | 0 < i < |order| :: order[i] == order[1..][i - 1] && terms[i] == terms[1..][i - 1];
      }
    }
  }

  // ---- What is accepted, returned and selected ----

  /** Assignments are accepted exactly when every key is a column and every object for a composite
      encodes. */
  lemma {:induction false} AssignmentsAccepted(
    table: Table, keys: seq<string>, data: map<string, Value>, encode: Encoder, k: nat)
    requires forall key | key in keys :: key in data
    ensures Assignments(table, keys, data, encode, k).Sql?
            <==> forall key | key in keys ::
                   var col := FindColumn(table.columns, key);
                   col.Some?
                   && (data[key] == Null || data[key].Text? || !col.value.composite || encode(data[key]).Some?)
    decreases |keys|
  {
    hide FindColumn, ValueSql;
    if keys != [] {
      AssignmentsAccepted(table, keys[1..], data, encode, k + 1);
      assert forall x :: x in keys <==> x == keys[0] || x in keys[1..];
    }
  }

  /** An INSERT is built exactly for one or more such keys, and an UPDATE also needs filters that are
      accepted. */
  lemma WritesAccepted(
    table: Table, keys: seq<string>, data: map<string, Value>, encode: Encoder, filters: seq<RawFilter>, returning: bool)
    requires forall key | key in keys :: key in data
    ensures InsertStatement(table, keys, data, encode, returning).Sql?
            <==> keys != [] && Assignments(table, keys, data, encode, 0).Sql?
    ensures UpdateStatement(table, keys, data, encode, filters, returning).Sql?
            <==> keys != [] && Assignments(table, keys, data, encode, 0).Sql? && ParseFilters(table, filters).Sql?
  {
    hide Assignments, ParseFilters, ReturningSql, JoinComma, WhereArgs;
    WhereParses(table, filters);
    if Assignments(table, keys, data, encode, 0).Sql? { AssignmentMentions(table, keys, data, encode, 0); }
  }

  /** RETURNING lists what a SELECT of everything lists, in the same way. */
  lemma ReturningIsSelectAll(table: Table)
    requires table.columns != []
    ensures Returned(table, true) == Some(Listed(table, [])) && Listed(table, []) == Listed(table, ["*"])
  {
    assert SelectedColumns(table.columns, ["*"]) == table.columns + [] by { assert ["*"][1..] == []; }
    assert table.columns + [] == table.columns;
  }

  /** A SELECT list is made name by name, in order: * is every column, and unknown names are left out. */
  lemma {:induction false} SelectionByName(columns: seq<Column>, a: seq<string>, b: seq<string>, name: string)
    ensures SelectedColumns(columns, a + b) == SelectedColumns(columns, a) + SelectedColumns(columns, b)
    ensures SelectedColumns(columns, [name])
            == if name == "*" then columns
               else match FindColumn(columns, name)
                    case None => []
                    case Some(col) => [col]
    decreases |a|
  {
    OneSelected(columns, name);
    if a == [] {
      assert a + b == b;
    } else {
      SelectionByName(columns, a[1..], b, name);
      assert (a + b)[0] == a[0] && (a + b)[1..] == a[1..] + b;
      hide FindColumn;
      Associative(FirstSelected(columns, a[0]), SelectedColumns(columns, a[1..]), SelectedColumns(columns, b));
    }
  }

  function FirstSelected(columns: seq<Column>, name: string): seq<Column> {
    if name == "*" then columns
    else match FindColumn(columns, name)
         case None => []
         case Some(col) => [col]
  }

  lemma OneSelected(columns: seq<Column>, name: string)
    ensures SelectedColumns(columns, [name]) == FirstSelected(columns, name)
  {
    hide FindColumn;
    assert [name][1..] == [];
    var first := FirstSelected(columns, name);
    assert first + [] == first;
  }

  /** The text reads as a SELECT, UPDATE or DELETE of the table that applies to the row with this truth. */
  ghost predicate AppliesWith(sem: Semantics, table: Table, s: Statement, row: Row, t: Truth) {
    match ReadCommand(s.Text())
    case None => false
    case Some(InsertInto(_, _, _, _)) => false
    case Some(SelectFrom(_, from, where, _, _, _)) => from == TableOf(table) && Applies(sem, where, row, s.args) == t
    case Some(UpdateSet(updated, _, where, _)) => updated == TableOf(table) && Applies(sem, where, row, s.args) == t
    case Some(DeleteFrom(from, where, _)) => from == TableOf(table) && Applies(sem, where, row, s.args) == t
  }

  lemma SelectApplies(sem: Semantics, table: Table, page: Page, filters: seq<RawFilter>, row: Row)
    requires SelectStatement(table, page, filters).Sql?
    ensures ParseFilters(table, filters).Sql?
    ensures AppliesWith(sem, table, SelectStatement(table, page, filters).sql, row, FiltersMeaning(sem, table, filters, row))
  {
    hide SelectStatement, ReadCommand, FiltersMeaning, WhereExpr, Applies, ParseFilters, WhereArgs;
    var limit, offset := SelectReads(table, page, filters);
    var w, select := WhereArgs(table, filters), SelectStatement(table, page, filters).sql;
    assert select.args[0..|w|] == w;
    WhereSelects(sem, table, filters, 0, row, select.args);
  }

  lemma UpdateApplies(
    sem: Semantics, table: Table, keys: seq<string>, data: map<string, Value>, encode: Encoder, filters: seq<RawFilter>,
    returning: bool, row: Row)
    requires forall key | key in keys :: key in data
    requires UpdateStatement(table, keys, data, encode, filters, returning).Sql?
    ensures ParseFilters(table, filters).Sql?
    ensures AppliesWith(sem, table, UpdateStatement(table, keys, data, encode, filters, returning).sql, row,
                        FiltersMeaning(sem, table, filters, row))
  {
    hide UpdateStatement, ReadCommand, FiltersMeaning, WhereExpr, Applies, ParseFilters, WhereArgs, ValuesFor;
    var texts := UpdateReads(table, keys, data, encode, filters, returning);
    var w, args, n := WhereArgs(table, filters), UpdateStatement(table, keys, data, encode, filters, returning).sql.args, |keys|;
    UpdateLength(table, keys, data, encode, texts, args);
    assert args[n..n + |w|] == args[n..][..|w|] == w;
    WhereSelects(sem, table, filters, n, row, args);
  }

  lemma UpdateLength(
    table: Table, keys: seq<string>, data: map<string, Value>, encode: Encoder, texts: Items, args: seq<Value>)
    requires (forall key | key in keys :: key in data) && ValuesFor(table, keys, data, encode, texts, args)
    ensures |keys| <= |args|
  {
  }

  lemma DeleteApplies(sem: Semantics, table: Table, filters: seq<RawFilter>, returning: bool, row: Row)
    requires DeleteStatement(table, filters, returning).Sql?
    ensures ParseFilters(table, filters).Sql?
    ensures AppliesWith(sem, table, DeleteStatement(table, filters, returning).sql, row,
                        FiltersMeaning(sem, table, filters, row))
  {
    hide DeleteStatement, ReadCommand, FiltersMeaning, WhereExpr, Applies, ParseFilters, WhereArgs;
    DeleteReads(table, filters, returning);
    var w := WhereArgs(table, filters);
    assert w[0..|w|] == w;
    WhereSelects(sem, table, filters, 0, row, w);
  }

  /** Read back from their texts, with the same filters SELECT, UPDATE and DELETE apply to exactly the
      rows of the table on which all filters hold; without filters, to all. */
  lemma TextsSelect(
    sem: Semantics, table: Table, page: Page, keys: seq<string>, data: map<string, Value>, encode: Encoder,
    filters: seq<RawFilter>, returning: bool, row: Row)
    requires forall key | key in keys :: key in data
    requires SelectStatement(table, page, filters).Sql?
    requires UpdateStatement(table, keys, data, encode, filters, returning).Sql?
    ensures ParseFilters(table, filters).Sql? && DeleteStatement(table, filters, returning).Sql?
    ensures var holds := FiltersMeaning(sem, table, filters, row);
            && (filters == [] ==> holds == True)
            && AppliesWith(sem, table, SelectStatement(table, page, filters).sql, row, holds)
            && AppliesWith(sem, table, UpdateStatement(table, keys, data, encode, filters, returning).sql, row, holds)
            && AppliesWith(sem, table, DeleteStatement(table, filters, returning).sql, row, holds)
  {
    DeleteAccepted(table, filters, returning);
    hide SelectStatement, UpdateStatement, DeleteStatement, FiltersMeaning, AppliesWith, ParseFilters;
    SelectApplies(sem, table, page, filters, row);
    UpdateApplies(sem, table, keys, data, encode, filters, returning, row);
    DeleteApplies(sem, table, filters, returning, row);
    if filters == [] { NoFilters(sem, table, row); }
  }

  lemma DeleteAccepted(table: Table, filters: seq<RawFilter>, returning: bool)
    ensures DeleteStatement(table, filters, returning).Sql? <==> ParseFilters(table, filters).Sql?
  {
    hide ParseFilters, ReturningSql;
    WhereParses(table, filters);
  }

  lemma NoFilters(sem: Semantics, table: Table, row: Row)
    ensures FiltersMeaning(sem, table, [], row) == True
  {
  }
}
