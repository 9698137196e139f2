/** What filters mean, and the theorem that the generated SQL means the same: read back with
    SQL operator precedence and evaluated in three-valued logic under the bound parameters, it
    gives on every row the conjunction of the filters' meanings. */
module FilterMeaning {
  import opened Options
  import opened Text
  import opened FilterGrammar
  import opened FilterPrinting
  import opened ArrayLiteral
  import opened Sql
  import opened FilterSql

  // ---- The meaning of a filter, on the syntax tree ----

  function ColumnValue(col: Column, row: Row): Value {
    if col.name in row then row[col.name] else Null
  }

  function FollowStep(sem: Semantics, v: Value, step: Step): Value {
    match step
    case KeyStep(textual, key) => sem.binary(if textual then "->>" else "->", v, sem.cast("text", Text(key)))
    case IndexStep(textual, index) => sem.binary(if textual then "->>" else "->", v, sem.cast("int", Int(index)))
  }

  function FollowPath(sem: Semantics, v: Value, path: seq<Step>): Value
    decreases |path|
  {
    if path == [] then v else FollowPath(sem, FollowStep(sem, v, path[0]), path[1..])
  }

  /** The value a field selects; columns that are not json go through to_jsonb first. */
  function FieldValue(sem: Semantics, path: seq<Step>, col: Column, row: Row): Value {
    var v := ColumnValue(col, row);
    if path == [] then v
    else FollowPath(sem, if col.dataType in {"json", "jsonb"} then v else sem.call("to_jsonb", [v]), path)
  }

  /** Some comparison holds: unknown when none is true but not all are false. */
  function SomeHolds(truths: seq<Truth>): Truth {
    if exists i | 0 <= i < |truths| :: truths[i] == True then True
    else if forall i | 0 <= i < |truths| :: truths[i] == False then False
    else Unknown
  }

  /** Every comparison holds: unknown when none is false but not all are true. */
  function EachHolds(truths: seq<Truth>): Truth {
    if exists i | 0 <= i < |truths| :: truths[i] == False then False
    else if forall i | 0 <= i < |truths| :: truths[i] == True then True
    else Unknown
  }

  /** v compared with each item; None stands for null. */
  function Compared(sem: Semantics, symbol: string, v: Value, items: seq<Option<string>>): (r: seq<Truth>)
    ensures |r| == |items|
  {
    seq(|items|, i requires 0 <= i < |items| =>
      ToTruth(sem.binary(symbol, v, if items[i].Some? then Text(items[i].value) else Null)))
  }

  /** x in (a, b, ...): equal to one of them. */
  function InMeaning(sem: Semantics, v: Value, list: seq<string>): Truth {
    SomeHolds(Compared(sem, "=", v, Plain(list)))
  }

  /** A comparison with some or every element of an array literal. */
  function QuantMeaning(sem: Semantics, symbol: string, all: bool, v: Value, literal: string): Truth {
    match ReadArray(literal)
    case None => ToTruth(sem.malformed(symbol, v, Text(literal)))
    case Some(items) =>
      var truths := Compared(sem, symbol, v, items);
      if all then EachHolds(truths) else SomeHolds(truths)
  }

  /** What the operators ask for. */
  function SymbolMeant(op: string): string {
    if op == "eq" then "=" else if op == "neq" then "<>"
    else if op == "gt" then ">" else if op == "gte" then ">="
    else if op == "lt" then "<" else if op == "lte" then "<="
    else if op == "like" then "LIKE" else if op == "ilike" then "ILIKE"
    else if op == "match" then "~" else if op == "imatch" then "~*"
    else if op == "cs" then "@>" else if op == "cd" then "<@" else if op == "ov" then "&&"
    else if op == "sl" then "<<" else if op == "sr" then ">>"
    else if op == "nxr" then "&<" else if op == "nxl" then "&>" else if op == "adj" then "-|-"
    else ""
  }

  /** The constructors of full-text queries. */
  function QueryMeant(op: string): string {
    if op == "fts" then "to_tsquery" else if op == "plfts" then "plainto_tsquery"
    else if op == "phfts" then "phraseto_tsquery" else if op == "wfts" then "websearch_to_tsquery"
    else ""
  }

  lemma SymbolsAgree(op: string)
    ensures SymbolMeant(op) == if op in SQL_OPERATORS then SQL_OPERATORS[op] else ""
    ensures QueryMeant(op) == if op in FTS_FUNCTIONS then FTS_FUNCTIONS[op] else ""
    ensures op in FTS_FUNCTIONS <==> op in {"fts", "plfts", "phfts", "wfts"}
  {
  }

  /** The operand a pattern or containment filter means: * is a URL's wildcard, and a,b is short for
      an array of text. */
  function OperandMeant(op: Operation, col: Column): string {
    if op.operator in {"like", "ilike"} then
      seq(|op.value|, i requires 0 <= i < |op.value| => if op.value[i] == '*' then '%' else op.value[i])
    else if op.operator in {"cs", "cd"} && col.dataType == "ARRAY"
            && op.value != "" && op.value[0] !in {'{', '[', '(', '"'} then Convert(op.value)
    else op.value
  }

  lemma OperandsAgree(op: Operation, col: Column)
    ensures OperandMeant(op, col) == BoundOperand(op, col)
  {
  }

  function IsMeaning(value: string, v: Value): bool {
    match ToTruth(v)
    case True => value == "true" || value == "not_null"
    case False => value == "false" || value == "not_null"
    case Unknown => value == "unknown" || (value == "null" && v == Null) || (value == "not_null" && v != Null)
  }

  function LangValues(sem: Semantics, lang: string): seq<Value> {
    if lang == "" then [] else [sem.cast("regconfig", Text(lang))]
  }

  function FtsMeaning(sem: Semantics, field: Field, op: Operation, col: Column, v: Value): Truth
  {
    var lang := LangValues(sem, op.lang);
    var vector := if col.dataType == "tsvector" && field.path == [] then v else sem.call("to_tsvector", lang + [v]);
    ToTruth(sem.binary("@@", vector, sem.call(QueryMeant(op.operator), lang + [Text(op.value)])))
  }

  function ConditionMeaning(sem: Semantics, field: Field, op: Operation, col: Column, row: Row): Truth {
    var v := FieldValue(sem, field.path, col, row);
    if op.operator == "in" then InMeaning(sem, v, op.list)
    else if op.operator == "is" then (if IsMeaning(op.value, v) then True else False)
    else if op.operator == "isdistinct" then
      (if v != Null && ToTruth(sem.binary("=", v, Text(op.value))) == True then False else True)
    else if op.operator in {"fts", "plfts", "phfts", "wfts"} then FtsMeaning(sem, field, op, col, v)
    else
      var symbol, operand := SymbolMeant(op.operator), OperandMeant(op, col);
      match op.quant
      case NoQuant => ToTruth(sem.binary(symbol, v, Text(operand)))
      case ANY => QuantMeaning(sem, symbol, false, v, operand)
      case ALL => QuantMeaning(sem, symbol, true, v, operand)
  }

  function Negated(negate: bool, t: Truth): Truth { if negate then Not3(t) else t }

  function NodeMeaning(sem: Semantics, node: FilterNode, table: Table, row: Row): Truth
    requires MissingColumn(node, table).None?
    decreases node, 1
  {
    match node
    case Group(negate, logic, children) =>
      var truths := NodesMeaning(sem, children, table, row);
      Negated(negate, if logic == AND then All3(truths) else Any3(truths))
    case Condition(field, op) =>
      Negated(op.negate, ConditionMeaning(sem, field, op, ColumnOf(field, table), row))
  }

  function NodesMeaning(sem: Semantics, nodes: seq<FilterNode>, table: Table, row: Row): (r: seq<Truth>)
    requires MissingColumns(nodes, table).None?
    ensures |r| == |nodes|
    decreases nodes, 0
  {
    if nodes == [] then []
    else [NodeMeaning(sem, nodes[0], table, row)] + NodesMeaning(sem, nodes[1..], table, row)
  }

  // ---- The expression a filter's SQL reads as ----

  function PathExpr(e: Expr, path: seq<Step>, k: nat): Expr
    decreases |path|
  {
    if path == [] then e
    else
      var arrow := if path[0].textual then "->>" else "->";
      var key := Cast(Par(k + 1), if path[0].IndexStep? then "int" else "text");
      PathExpr(Binary(arrow, e, key), path[1..], k + 1)
  }

  function BaseExpr(col: Column): Expr {
    if IsJson(col.dataType) then Col(col.name) else Call("to_jsonb", [Col(col.name)])
  }

  function FieldExpr(path: seq<Step>, col: Column, k: nat): Expr {
    if path == [] then Col(col.name) else PathExpr(BaseExpr(col), path, k)
  }

  function IsWords(value: string): string {
    if value == "null" then "NULL"
    else if value == "not_null" then "NOT NULL"
    else if value == "true" then "TRUE"
    else if value == "false" then "FALSE"
    else "UNKNOWN"
  }

  function LangExprs(lang: string, n: nat): seq<Expr> {
    if lang == "" then [] else [Cast(Par(n), "regconfig")]
  }

  function FtsExpr(field: Field, op: Operation, col: Column, k: nat): Expr
    requires op.operator in FTS_FUNCTIONS
  {
    var lhs := FieldExpr(field.path, col, k);
    var k1 := k + |field.path|;
    var k2 := if op.lang == "" then k1 else k1 + 1;
    var lang := LangExprs(op.lang, k1 + 1);
    var vector := if ConvertsToTsvector(field, col) then Call("to_tsvector", lang + [lhs]) else lhs;
    Binary("@@", vector, Call(FTS_FUNCTIONS[op.operator], lang + [Par(k2 + 1)]))
  }

  function ConditionExpr(field: Field, op: Operation, col: Column, k: nat): Expr {
    var lhs := FieldExpr(field.path, col, k);
    var n := k + |field.path| + 1;
    if op.operator == "in" then Quantified("=", false, lhs, Par(n))
    else if op.operator == "is" then Is(lhs, IsWords(op.value))
    else if op.operator == "isdistinct" then Distinct(lhs, Par(n))
    else if op.operator in FTS_FUNCTIONS then FtsExpr(field, op, col, k)
    else
      var symbol := if op.operator in SQL_OPERATORS then SQL_OPERATORS[op.operator] else "";
      match op.quant
      case NoQuant => Binary(symbol, lhs, Par(n))
      case ANY => Quantified(symbol, false, lhs, Par(n))
      case ALL => Quantified(symbol, true, lhs, Par(n))
  }

  function Combine(logic: Logic, e: Expr, f: Expr): Expr { if logic == AND then And(e, f) else Or(e, f) }

  /** e combined with each of es, from the left. */
  function FoldExpr(logic: Logic, e: Expr, es: seq<Expr>): Expr
    decreases |es|
  {
    if es == [] then e else FoldExpr(logic, Combine(logic, e, es[0]), es[1..])
  }

  function NodeExpr(node: FilterNode, table: Table, k: nat): Expr
    requires MissingColumn(node, table).None?
    decreases node, 1
  {
    match node
    case Group(negate, logic, children) =>
      var es := NodesExprs(children, table, k);
      var e := if es == [] then Par(0) else FoldExpr(logic, es[0], es[1..]);
      if negate then Not(e) else e
    case Condition(field, op) =>
      var e := ConditionExpr(field, op, ColumnOf(field, table), k);
      if op.negate then Not(e) else e
  }

  function NodesExprs(nodes: seq<FilterNode>, table: Table, k: nat): (r: seq<Expr>)
    requires MissingColumns(nodes, table).None?
    ensures |r| == |nodes|
    decreases nodes, 0
  {
    if nodes == [] then []
    else [NodeExpr(nodes[0], table, k)] + NodesExprs(nodes[1..], table, k + |NodeArgs(nodes[0], table)|)
  }

  // ---- Reading the SQL back ----

  /** What may follow a whole condition: a closing parenthesis or the next clause. */
  predicate EndsClause(rest: seq<Token>) {
    rest == [] || rest[0] == RP || rest[0] in {Word("ORDER BY"), Word("LIMIT"), Word("OFFSET"), Word("RETURNING")}
  }

  /** What may follow a condition. */
  predicate Closing(rest: seq<Token>) { EndsClause(rest) || rest[0] in {AndT, OrT, Comma} }

  lemma CastLevel(ts: seq<Token>, e: Expr, rest: seq<Token>)
    requires ReadPrimary(ts) == Got(e, rest)
    requires rest == [] || !rest[0].CastT?
    ensures ReadCast(ts) == Got(e, rest)
  {
  }

  lemma OtherLevel(ts: seq<Token>, e: Expr, rest: seq<Token>)
    requires ReadPrimary(ts) == Got(e, rest)
    requires rest == [] || !rest[0].CastT?
    requires !StartsOp(rest, IsOther)
    ensures ReadOther(ts) == Got(e, rest)
  {
    CastLevel(ts, e, rest);
  }

  lemma LikeLevel(ts: seq<Token>, e: Expr, rest: seq<Token>)
    requires ReadPrimary(ts) == Got(e, rest)
    requires rest == [] || !rest[0].CastT?
    requires !StartsOp(rest, IsOther) && !StartsOp(rest, IsLike)
    ensures ReadLike(ts) == Got(e, rest)
  {
    OtherLevel(ts, e, rest);
  }

  lemma ComparisonLevel(ts: seq<Token>, e: Expr, rest: seq<Token>)
    requires ReadPrimary(ts) == Got(e, rest)
    requires rest == [] || (!rest[0].CastT? && !rest[0].Op?)
    ensures ReadComparison(ts) == Got(e, rest)
  {
    LikeLevel(ts, e, rest);
  }

  lemma IsLevel(ts: seq<Token>, e: Expr, rest: seq<Token>)
    requires ReadComparison(ts) == Got(e, rest) && Closing(rest)
    ensures ReadIs(ts) == Got(e, rest)
  {
  }

  lemma AndLevel(ts: seq<Token>, e: Expr, rest: seq<Token>)
    requires ReadNot(ts) == Got(e, rest)
    requires !Starts(rest, AndT)
    ensures ReadAnd(ts) == Got(e, rest)
  {
  }

  lemma OrLevel(ts: seq<Token>, e: Expr, rest: seq<Token>)
    requires ReadNot(ts) == Got(e, rest)
    requires rest == [] || rest[0] in {RP, Comma}
    ensures ReadOr(ts) == Got(e, rest)
  {
    AndLevel(ts, e, rest);
  }

  /** A parameter on its own, where a whole expression is expected. */
  lemma ParamReads(n: nat, rest: seq<Token>)
    requires rest != [] && rest[0] in {RP, Comma}
    ensures ReadOr([Param(n)] + rest) == Got(Par(n), rest)
  {
    var ts := [Param(n)] + rest;
    assert ts[1..] == rest;
    ComparisonLevel(ts, Par(n), rest);
    IsLevel(ts, Par(n), rest);
    OrLevel(ts, Par(n), rest);
  }

  /** A binary operator between two primaries, whatever its precedence. */
  lemma BinaryReads(ts: seq<Token>, e: Expr, symbol: string, after: seq<Token>, f: Expr, rest: seq<Token>)
    requires ReadPrimary(ts) == Got(e, [Op(symbol)] + after)
    requires ReadPrimary(after) == Got(f, rest)
    requires !StartsQuantifier(after) && Closing(rest)
    ensures ReadIs(ts) == Got(Binary(symbol, e, f), rest)
  {
    hide ReadPrimary;
    var rest1 := [Op(symbol)] + after;
    assert rest1[1..] == after;
    if IsOther(symbol) {
      CastLevel(ts, e, rest1);
      CastLevel(after, f, rest);
      assert ReadOtherTail(Binary(symbol, e, f), rest) == Got(Binary(symbol, e, f), rest);
      assert ReadOtherTail(e, rest1) == Got(Binary(symbol, e, f), rest);
      assert ReadOther(ts) == Got(Binary(symbol, e, f), rest);
    } else if IsLike(symbol) {
      OtherLevel(ts, e, rest1);
      OtherLevel(after, f, rest);
      assert ReadLike(ts) == Got(Binary(symbol, e, f), rest);
    } else {
      LikeLevel(ts, e, rest1);
      LikeLevel(after, f, rest);
    }
    IsLevel(ts, Binary(symbol, e, f), rest);
  }

  function QuantWord(all: bool): Token { if all then Word("ALL") else Word("ANY") }

  /** op ANY ($n), op ALL ($n) */
  lemma QuantifiedReads(ts: seq<Token>, e: Expr, symbol: string, all: bool, n: nat, rest: seq<Token>)
    requires ReadPrimary(ts) == Got(e, [Op(symbol), QuantWord(all), LP, Param(n), RP] + rest)
    requires Closing(rest)
    ensures ReadIs(ts) == Got(Quantified(symbol, all, e, Par(n)), rest)
  {
    hide ReadPrimary, ReadOr;
    var after := [QuantWord(all), LP, Param(n), RP] + rest;
    var rest1 := [Op(symbol), QuantWord(all), LP, Param(n), RP] + rest;
    assert rest1[1..] == after;
    assert after[2..] == [Param(n)] + ([RP] + rest);
    assert ([RP] + rest)[1..] == rest;
    ParamReads(n, [RP] + rest);
    QuantWordsDiffer();
    assert ReadQuantified(symbol, e, after) == Got(Quantified(symbol, all, e, Par(n)), rest);
    if IsOther(symbol) {
      CastLevel(ts, e, rest1);
      var q := Quantified(symbol, all, e, Par(n));
      assert ReadOtherTail(q, rest) == Got(q, rest);
      assert ReadOtherTail(e, rest1) == Got(q, rest);
      assert ReadOther(ts) == Got(Quantified(symbol, all, e, Par(n)), rest);
    } else if IsLike(symbol) {
      OtherLevel(ts, e, rest1);
      assert ReadLike(ts) == Got(Quantified(symbol, all, e, Par(n)), rest);
    } else {
      LikeLevel(ts, e, rest1);
    }
    IsLevel(ts, Quantified(symbol, all, e, Par(n)), rest);
  }

  lemma QuantWordsDiffer()
    ensures Word("ALL") != Word("ANY")
  {
    assert "ALL"[1] != "ANY"[1];
  }

  lemma CastParamReads(n: nat, ty: string, tail: seq<Token>)
    requires tail == [] || !tail[0].CastT?
    ensures ReadCast([Param(n), CastT(ty)] + tail) == Got(Cast(Par(n), ty), tail)
  {
    var ts := [Param(n), CastT(ty)] + tail;
    assert ts[1..] == [CastT(ty)] + tail && ([CastT(ty)] + tail)[1..] == tail;
    assert ReadCastTail(Cast(Par(n), ty), tail) == Got(Cast(Par(n), ty), tail);
    assert ReadCastTail(Par(n), [CastT(ty)] + tail) == Got(Cast(Par(n), ty), tail);
  }

  lemma OtherTailStep(e: Expr, symbol: string, after: seq<Token>, f: Expr, tail: seq<Token>)
    requires IsOther(symbol) && !StartsQuantifier(after) && ReadCast(after) == Got(f, tail)
    ensures ReadOtherTail(e, [Op(symbol)] + after) == ReadOtherTail(Binary(symbol, e, f), tail)
  {
    assert ([Op(symbol)] + after)[1..] == after;
  }

  lemma {:induction false} PathReads(e: Expr, path: seq<Step>, k: nat, rest: seq<Token>)
    ensures ReadOtherTail(e, PathSql(path, k) + ([RP] + rest)) == Got(PathExpr(e, path, k), [RP] + rest)
    decreases |path|
  {
    var ts := PathSql(path, k) + ([RP] + rest);
    if path == [] {
      assert ts == [RP] + rest;
    } else {
      hide ReadCast, ReadOtherTail, IsOther;
      var tail := PathSql(path[1..], k + 1) + ([RP] + rest);
      var ty := if path[0].IndexStep? then "int" else "text";
      var key := [Param(k + 1), CastT(ty)] + tail;
      var arrow := if path[0].textual then "->>" else "->";
      assert ts == [Op(arrow)] + key;
      PathTailStart(path[1..], k + 1, rest);
      CastParamReads(k + 1, ty, tail);
      ArrowsAreOther();
      OtherTailStep(e, arrow, key, Cast(Par(k + 1), ty), tail);
      PathReads(Binary(arrow, e, Cast(Par(k + 1), ty)), path[1..], k + 1, rest);
    }
  }

  lemma PathTailStart(path: seq<Step>, k: nat, rest: seq<Token>)
    ensures var ts := PathSql(path, k) + ([RP] + rest); ts != [] && !ts[0].CastT?
  {
  }

  lemma ArrowsAreOther()
    ensures IsOther("->") && IsOther("->>") && IsOther("@@")
  {
  }

  /** A function call with a single argument. */
  lemma CallReads(f: string, arg: seq<Token>, e: Expr, rest: seq<Token>)
    requires ReadOr(arg + ([RP] + rest)) == Got(e, [RP] + rest)
    ensures ReadPrimary([Word(f), LP] + arg + [RP] + rest) == Got(Call(f, [e]), rest)
  {
    hide ReadOr;
    var ts := [Word(f), LP] + arg + [RP] + rest;
    assert ts[1..][1..] == arg + ([RP] + rest) && ts[2..] == arg + ([RP] + rest);
    assert ([RP] + rest)[1..] == rest;
    assert [] + [e] == [e];
  }

  lemma BaseReads(col: Column, rest: seq<Token>)
    ensures ReadPrimary(FieldBase(col) + rest) == Got(BaseExpr(col), rest)
  {
    var ident := [Ident(col.name)];
    if IsJson(col.dataType) {
      assert (ident + rest)[1..] == rest;
    } else {
      var ts := ident + ([RP] + rest);
      assert ts[1..] == [RP] + rest;
      ComparisonLevel(ts, Col(col.name), [RP] + rest);
      IsLevel(ts, Col(col.name), [RP] + rest);
      OrLevel(ts, Col(col.name), [RP] + rest);
      CallReads("to_jsonb", ident, Col(col.name), rest);
      assert FieldBase(col) + rest == [Word("to_jsonb"), LP] + ident + [RP] + rest;
    }
  }

  /** A field reads as a primary expression. */
  lemma FieldReads(path: seq<Step>, col: Column, k: nat, rest: seq<Token>)
    ensures ReadPrimary(FieldSql(path, col, k) + rest) == Got(FieldExpr(path, col, k), rest)
  {
    hide ReadOtherTail, ReadOr, FieldBase, PathSql, PathExpr, BaseExpr;
    if path == [] {
      assert (FieldSql(path, col, k) + rest)[1..] == rest;
    } else {
      hide ReadPrimary;
      var base, steps, close := FieldBase(col), PathSql(path, k), [RP] + rest;
      Associative([LP] + base + steps, [RP], rest);
      Associative([LP] + base, steps, close);
      Associative([LP], base, steps + close);
      InnerFieldReads(path, col, k, rest);
      ParenthesizedReads(base + (steps + close), FieldExpr(path, col, k), rest);
    }
  }

  lemma ParenthesizedReads(inner: seq<Token>, e: Expr, rest: seq<Token>)
    requires ReadOr(inner) == Got(e, [RP] + rest)
    ensures ReadPrimary([LP] + inner) == Got(e, rest)
  {
    hide ReadOr;
    assert ([LP] + inner)[1..] == inner && ([RP] + rest)[1..] == rest;
  }

  lemma InnerFieldReads(path: seq<Step>, col: Column, k: nat, rest: seq<Token>)
    ensures ReadOr(FieldBase(col) + (PathSql(path, k) + ([RP] + rest)))
            == Got(PathExpr(BaseExpr(col), path, k), [RP] + rest)
  {
    hide ReadPrimary, ReadOtherTail;
    var tail := PathSql(path, k) + ([RP] + rest);
    var inner := FieldBase(col) + tail;
    BaseReads(col, tail);
    PathTailStart(path, k, rest);
    CastLevel(inner, BaseExpr(col), tail);
    PathReads(BaseExpr(col), path, k, rest);
    var e := PathExpr(BaseExpr(col), path, k);
    assert ReadOther(inner) == Got(e, [RP] + rest);
    assert ReadComparison(inner) == Got(e, [RP] + rest);
    IsLevel(inner, e, [RP] + rest);
    assert inner[0] != NotT;
    OrLevel(inner, e, [RP] + rest);
  }

  /** The optional configuration and a last argument of a full-text function. */
  lemma FtsCallReads(f: string, lang: string, n: nat, arg: seq<Token>, e: Expr, rest: seq<Token>)
    requires ReadOr(arg + ([RP] + rest)) == Got(e, [RP] + rest)
    ensures ReadPrimary([Word(f), LP] + LangSql(lang, n) + arg + [RP] + rest)
            == Got(Call(f, LangExprs(lang, n) + [e]), rest)
  {
    if lang == "" {
      assert [Word(f), LP] + LangSql(lang, n) + arg + [RP] + rest == [Word(f), LP] + arg + [RP] + rest;
      CallReads(f, arg, e, rest);
      assert LangExprs(lang, n) + [e] == [e];
    } else {
      TwoArgumentsRead(f, n, arg, e, rest);
      assert LangExprs(lang, n) + [e] == [Cast(Par(n), "regconfig"), e];
    }
  }

  lemma TwoArgumentsRead(f: string, n: nat, arg: seq<Token>, e: Expr, rest: seq<Token>)
    requires ReadOr(arg + ([RP] + rest)) == Got(e, [RP] + rest)
    ensures ReadPrimary([Word(f), LP] + [Param(n), CastT("regconfig"), Comma] + arg + [RP] + rest)
            == Got(Call(f, [Cast(Par(n), "regconfig"), e]), rest)
  {
    hide ReadOr;
    var last := arg + ([RP] + rest);
    var inner := [Param(n), CastT("regconfig"), Comma] + last;
    var ts := [Word(f), LP] + [Param(n), CastT("regconfig"), Comma] + arg + [RP] + rest;
    assert ts[1..][0] == LP && ts[2..] == inner;
    assert ([Comma] + last)[1..] == last && ([RP] + rest)[1..] == rest;
    var lang := Cast(Par(n), "regconfig");
    LangReads(n, last);
    assert [] + [lang] == [lang];
    assert [lang] + [e] == [lang, e];
    assert ReadCall(f, [lang], last) == Got(Call(f, [lang] + [e]), rest);
    assert ReadCall(f, [], inner) == Got(Call(f, [lang] + [e]), rest);
  }

  lemma LangReads(n: nat, last: seq<Token>)
    ensures ReadOr([Param(n), CastT("regconfig"), Comma] + last)
            == Got(Cast(Par(n), "regconfig"), [Comma] + last)
  {
    hide ReadCast;
    var inner := [Param(n), CastT("regconfig"), Comma] + last;
    var e := Cast(Par(n), "regconfig");
    assert inner == [Param(n), CastT("regconfig")] + ([Comma] + last);
    CastParamReads(n, "regconfig", [Comma] + last);
    assert ReadOtherTail(e, [Comma] + last) == Got(e, [Comma] + last);
    assert ReadOther(inner) == Got(e, [Comma] + last);
    assert ReadLike(inner) == Got(e, [Comma] + last);
    assert ReadComparison(inner) == Got(e, [Comma] + last);
    IsLevel(inner, e, [Comma] + last);
    OrLevel(inner, e, [Comma] + last);
  }

  lemma PrimaryAsArgument(ts: seq<Token>, e: Expr, rest: seq<Token>)
    requires ReadPrimary(ts) == Got(e, rest) && rest != [] && rest[0] in {RP, Comma}
    ensures ReadOr(ts) == Got(e, rest)
  {
    ComparisonLevel(ts, e, rest);
    IsLevel(ts, e, rest);
    assert ts[0] != NotT;
    OrLevel(ts, e, rest);
  }

  lemma FtsReads(field: Field, op: Operation, col: Column, k: nat, rest: seq<Token>)
    requires op.operator in FTS_FUNCTIONS && Closing(rest)
    ensures ReadIs(FtsSql(field, op, col, k) + rest) == Got(FtsExpr(field, op, col, k), rest)
  {
    hide FieldSql, FieldExpr, FTS_FUNCTIONS, LangSql, LangExprs, ReadPrimary, ReadOr, ReadIs;
    var lhs := FieldSql(field.path, col, k);
    var k1 := k + |field.path|;
    var k2 := if op.lang == "" then k1 else k1 + 1;
    var f := FTS_FUNCTIONS[op.operator];
    var after := [Word(f), LP] + LangSql(op.lang, k1 + 1) + [Param(k2 + 1)] + [RP] + rest;
    var tail := [Op("@@")] + after;
    ParamReads(k2 + 1, [RP] + rest);
    FtsCallReads(f, op.lang, k1 + 1, [Param(k2 + 1)], Par(k2 + 1), rest);
    var fe := FtsExpr(field, op, col, k);
    var ts := FtsSql(field, op, col, k) + rest;
    if ConvertsToTsvector(field, col) {
      FieldReads(field.path, col, k, [RP] + tail);
      PrimaryAsArgument(lhs + ([RP] + tail), FieldExpr(field.path, col, k), [RP] + tail);
      FtsCallReads("to_tsvector", op.lang, k1 + 1, lhs, FieldExpr(field.path, col, k), tail);
      assert ts == [Word("to_tsvector"), LP] + LangSql(op.lang, k1 + 1) + lhs + [RP] + tail;
    } else {
      FieldReads(field.path, col, k, tail);
      assert ts == lhs + tail;
    }
    assert !StartsQuantifier(after) by { FtsNamesAreNotQuantifiers(op.operator); }
    BinaryReads(ts, fe.l, "@@", after, fe.r, rest);
  }

  lemma FtsNamesAreNotQuantifiers(name: string)
    requires name in FTS_FUNCTIONS
    ensures FTS_FUNCTIONS[name] != "ANY" && FTS_FUNCTIONS[name] != "ALL"
  {
    assert |FTS_FUNCTIONS[name]| > 3;
  }

  lemma IsReads(ts: seq<Token>, e: Expr, value: string, rest: seq<Token>)
    requires value in IS_VALUES
    requires ReadPrimary(ts) == Got(e, [Word("IS")] + (IsTestSql(value) + rest))
    ensures ReadIs(ts) == Got(Is(e, IsWords(value)), rest)
  {
    hide ReadPrimary;
    var after := IsTestSql(value) + rest;
    ComparisonLevel(ts, e, [Word("IS")] + after);
    assert ([Word("IS")] + after)[1..] == after;
    IsTestReads(e, value, rest);
  }

  lemma IsTestReads(e: Expr, value: string, rest: seq<Token>)
    requires value in IS_VALUES
    ensures ReadIsTest(e, IsTestSql(value) + rest) == Got(Is(e, IsWords(value)), rest)
  {
    var after := IsTestSql(value) + rest;
    assert "DISTINCT"[0] == 'D' && "NULL"[0] == 'N' && "TRUE"[0] == 'T' && "FALSE"[0] == 'F' && "UNKNOWN"[0] == 'U';
    if value == "not_null" {
      assert after[1..] == [Word("NULL")] + rest && after[2..] == rest;
    } else {
      assert after[1..] == rest;
    }
  }

  lemma DistinctReads(ts: seq<Token>, e: Expr, n: nat, rest: seq<Token>)
    requires ReadPrimary(ts) == Got(e, [Word("IS"), Word("DISTINCT"), Word("FROM"), Param(n)] + rest)
    requires Closing(rest)
    ensures ReadIs(ts) == Got(Distinct(e, Par(n)), rest)
  {
    hide ReadPrimary;
    var rest1 := [Word("IS"), Word("DISTINCT"), Word("FROM"), Param(n)] + rest;
    var after := [Word("DISTINCT"), Word("FROM"), Param(n)] + rest;
    ComparisonLevel(ts, e, rest1);
    assert rest1[1..] == after;
    assert after[1..][0] == Word("FROM") && after[2..] == [Param(n)] + rest;
    ParamIsPrimary(n, rest);
    ComparisonLevel([Param(n)] + rest, Par(n), rest);
  }

  lemma ParamIsPrimary(n: nat, rest: seq<Token>)
    ensures ReadPrimary([Param(n)] + rest) == Got(Par(n), rest)
  {
    assert ([Param(n)] + rest)[1..] == rest;
  }

  /** Every condition reads, unparenthesized, as the expression meant. */
  lemma ConditionReads(field: Field, op: Operation, col: Column, k: nat, rest: seq<Token>)
    requires WellFormedOperation(op) && Closing(rest)
    ensures ReadIs(ConditionSql(field, op, col, k) + rest) == Got(ConditionExpr(field, op, col, k), rest)
  {
    IsDistinctIsNotFts();
    hide FieldSql, FieldExpr, FtsSql, FtsExpr, FTS_FUNCTIONS, SQL_OPERATORS, IsTestSql, IsWords,
      ReadPrimary, ReadIs, IS_VALUES, QUANTIFIABLE;
    if op.operator in {"in", "is", "isdistinct"} {
      TestReads(field, op, col, k, rest);
    } else if op.operator in FTS_FUNCTIONS {
      FtsReads(field, op, col, k, rest);
    } else {
      OperatorReads(field, op, col, k, rest);
    }
  }

  /** IN, IS and IS DISTINCT FROM. */
  lemma TestReads(field: Field, op: Operation, col: Column, k: nat, rest: seq<Token>)
    requires WellFormedOperation(op) && Closing(rest) && op.operator in {"in", "is", "isdistinct"}
    ensures ReadIs(ConditionSql(field, op, col, k) + rest) == Got(ConditionExpr(field, op, col, k), rest)
  {
    hide FieldSql, FieldExpr, FtsSql, FtsExpr, FTS_FUNCTIONS, SQL_OPERATORS, IsTestSql, IsWords,
      ReadPrimary, ReadIs, IS_VALUES, QUANTIFIABLE;
    var lhs, e := FieldSql(field.path, col, k), FieldExpr(field.path, col, k);
    var n := k + |field.path| + 1;
    var test := if op.operator == "in" then [Op("="), QuantWord(false), LP, Param(n), RP]
                else if op.operator == "is" then [Word("IS")] + IsTestSql(op.value)
                else [Word("IS"), Word("DISTINCT"), Word("FROM"), Param(n)];
    Associative(lhs, [Word("IS")], IsTestSql(op.value));
    Associative(lhs, test, rest);
    FieldReads(field.path, col, k, test + rest);
    var ts := ConditionSql(field, op, col, k) + rest;
    if op.operator == "in" {
      QuantifiedReads(ts, e, "=", false, n, rest);
    } else if op.operator == "is" {
      Associative([Word("IS")], IsTestSql(op.value), rest);
      IsReads(ts, e, op.value, rest);
    } else {
      DistinctReads(ts, e, n, rest);
    }
  }

  /** A comparison, plain or quantified. */
  lemma OperatorReads(field: Field, op: Operation, col: Column, k: nat, rest: seq<Token>)
    requires WellFormedOperation(op) && Closing(rest)
    requires op.operator !in {"in", "is", "isdistinct"} && op.operator !in FTS_FUNCTIONS
    ensures ReadIs(ConditionSql(field, op, col, k) + rest) == Got(ConditionExpr(field, op, col, k), rest)
  {
    hide FieldSql, FieldExpr, FtsSql, FtsExpr, FTS_FUNCTIONS, SQL_OPERATORS, IsTestSql, IsWords,
      ReadPrimary, ReadIs, IS_VALUES, QUANTIFIABLE;
    var lhs, e := FieldSql(field.path, col, k), FieldExpr(field.path, col, k);
    var n, symbol := k + |field.path| + 1, SQL_OPERATORS[op.operator];
    var ts := ConditionSql(field, op, col, k) + rest;
    if op.quant == NoQuant {
      Associative(lhs, [Op(symbol), Param(n)], rest);
      Associative([Op(symbol)], [Param(n)], rest);
      FieldReads(field.path, col, k, [Op(symbol), Param(n)] + rest);
      ParamIsPrimary(n, rest);
      BinaryReads(ts, e, symbol, [Param(n)] + rest, Par(n), rest);
    } else {
      var quantified := [Op(symbol), QuantWord(op.quant == ALL), LP, Param(n), RP];
      Associative(lhs, quantified, rest);
      FieldReads(field.path, col, k, quantified + rest);
      QuantifiedReads(ts, e, symbol, op.quant == ALL, n, rest);
    }
  }

  lemma ConditionStart(field: Field, op: Operation, col: Column, k: nat)
    ensures ConditionSql(field, op, col, k) != [] && ConditionSql(field, op, col, k)[0] != NotT
  {
  }

  /** A parenthesized expression is a primary, and so reads the same at every level. */
  lemma ParenthesesRead(inner: seq<Token>, e: Expr, rest: seq<Token>)
    requires ReadOr(inner + ([RP] + rest)) == Got(e, [RP] + rest)
    requires Closing(rest)
    ensures ReadNot([LP] + inner + [RP] + rest) == Got(e, rest)
    ensures ReadNot([NotT] + ([LP] + inner + [RP] + rest)) == Got(Not(e), rest)
  {
    hide ReadOr;
    var ts := [LP] + inner + [RP] + rest;
    assert ts[1..] == inner + ([RP] + rest) && ([RP] + rest)[1..] == rest;
    assert ReadPrimary(ts) == Got(e, rest);
    ComparisonLevel(ts, e, rest);
    IsLevel(ts, e, rest);
    assert ([NotT] + ts)[1..] == ts;
  }

  lemma {:induction false} NodeReads(node: FilterNode, table: Table, k: nat, depth: nat, rest: seq<Token>)
    requires WellFormed(node, depth) && MissingColumn(node, table).None? && Closing(rest)
    ensures ReadNot(NodeSql(node, table, k) + rest) == Got(NodeExpr(node, table, k), rest)
    decreases node, 1
  {
    hide ReadNot, ReadOr, ConditionSql, ConditionExpr, NodesSql, FoldExpr, FindColumn;
    match node
    case Group(negate, logic, children) =>
      var inner := NodesSql(children, LogicToken(logic), table, k);
      GroupReads(logic, children, table, k, depth + 1, [RP] + rest);
      var es := NodesExprs(children, table, k);
      ParenthesesRead(inner, FoldExpr(logic, es[0], es[1..]), rest);
      assert [NotT] + ([LP] + inner + [RP]) + rest == [NotT] + ([LP] + inner + [RP] + rest);
    case Condition(field, op) =>
      var col := ColumnOf(field, table);
      var cond := ConditionSql(field, op, col, k);
      if op.negate {
        ConditionReads(field, op, col, k, [RP] + rest);
        ConditionIsNot(field, op, col, k, [RP] + rest);
        OrLevel(cond + ([RP] + rest), ConditionExpr(field, op, col, k), [RP] + rest);
        ParenthesesRead(cond, ConditionExpr(field, op, col, k), rest);
        assert [NotT] + ([LP] + cond + [RP]) + rest == [NotT] + ([LP] + cond + [RP] + rest);
      } else {
        ConditionReads(field, op, col, k, rest);
        ConditionIsNot(field, op, col, k, rest);
      }
  }

  /** A condition does not start with NOT, so the NOT level passes it on. */
  lemma ConditionIsNot(field: Field, op: Operation, col: Column, k: nat, rest: seq<Token>)
    ensures ReadNot(ConditionSql(field, op, col, k) + rest) == ReadIs(ConditionSql(field, op, col, k) + rest)
  {
    ConditionStart(field, op, col, k);
  }

  /** The members of a group, joined by AND or OR, read as their left-nested combination. */
  lemma {:induction false} GroupReads(
    logic: Logic, nodes: seq<FilterNode>, table: Table, k: nat, depth: nat, rest: seq<Token>)
    requires nodes != [] && MissingColumns(nodes, table).None?
    requires forall i | 0 <= i < |nodes| :: WellFormed(nodes[i], depth)
    requires EndsClause(rest)
    ensures var es := NodesExprs(nodes, table, k);
            ReadOr(NodesSql(nodes, LogicToken(logic), table, k) + rest) == Got(FoldExpr(logic, es[0], es[1..]), rest)
    decreases nodes, 0
  {
    hide ReadNot, NodeSql, NodeExpr, NodeArgs, MissingColumn, WellFormed;
    var sep := LogicToken(logic);
    var k1 := k + |NodeArgs(nodes[0], table)|;
    assert NodesSql(nodes, sep, table, k) == NodeSql(nodes[0], table, k) + MoreSql(nodes[1..], sep, table, k1);
    hide NodesSql;
    var tail := MoreSql(nodes[1..], sep, table, k1) + rest;
    var ts := NodesSql(nodes, sep, table, k) + rest;
    assert ts == NodeSql(nodes[0], table, k) + tail;
    NodeReads(nodes[0], table, k, depth, tail);
    var e := NodeExpr(nodes[0], table, k);
    var es := NodesExprs(nodes, table, k);
    assert es[1..] == NodesExprs(nodes[1..], table, k1);
    TailReads(logic, e, nodes[1..], table, k1, depth, rest);
    var whole := FoldExpr(logic, e, es[1..]);
    if logic == AND {
      assert ReadAnd(ts) == Got(whole, rest);
      assert ReadOrTail(whole, rest) == Got(whole, rest);
    } else {
      AndLevel(ts, e, tail);
    }
  }

  lemma TailStep(logic: Logic, e: Expr, ts: seq<Token>, f: Expr, tail: seq<Token>)
    requires Starts(ts, LogicToken(logic))
    requires if logic == AND then ReadNot(ts[1..]) == Got(f, tail) else ReadAnd(ts[1..]) == Got(f, tail)
    ensures if logic == AND then ReadAndTail(e, ts) == ReadAndTail(And(e, f), tail)
            else ReadOrTail(e, ts) == ReadOrTail(Or(e, f), tail)
  {
  }

  lemma {:induction false} TailReads(
    logic: Logic, e: Expr, nodes: seq<FilterNode>, table: Table, k: nat, depth: nat, rest: seq<Token>)
    requires MissingColumns(nodes, table).None?
    requires forall i | 0 <= i < |nodes| :: WellFormed(nodes[i], depth)
    requires EndsClause(rest)
    ensures var r := Got(FoldExpr(logic, e, NodesExprs(nodes, table, k)), rest);
            var ts := MoreSql(nodes, LogicToken(logic), table, k) + rest;
            (if logic == AND then ReadAndTail(e, ts) else ReadOrTail(e, ts)) == r
    decreases nodes, 0
  {
    hide ReadNot, NodeSql, NodeExpr, NodeArgs, MissingColumn, WellFormed;
    var sep := LogicToken(logic);
    var ts := MoreSql(nodes, sep, table, k) + rest;
    if nodes == [] {
      assert ts == rest;
    } else {
      var k1 := k + |NodeArgs(nodes[0], table)|;
      assert NodesSql(nodes, sep, table, k) == NodeSql(nodes[0], table, k) + MoreSql(nodes[1..], sep, table, k1);
      hide NodesSql;
      var tail := MoreSql(nodes[1..], sep, table, k1) + rest;
      assert ts[1..] == NodeSql(nodes[0], table, k) + tail;
      NodeReads(nodes[0], table, k, depth, tail);
      var f := NodeExpr(nodes[0], table, k);
      if logic == OR { AndLevel(ts[1..], f, tail); }
      TailStep(logic, e, ts, f, tail);
      TailReads(logic, Combine(logic, e, f), nodes[1..], table, k1, depth, rest);
      assert NodesExprs(nodes, table, k)[1..] == NodesExprs(nodes[1..], table, k1);
    }
  }

  // ---- Evaluating what was read ----

  /** args holds the parameters new from position k on. */
  predicate Bound(args: seq<Value>, k: nat, new_: seq<Value>) {
    k + |new_| <= |args| && args[k..k + |new_|] == new_
  }

  lemma BoundParts(args: seq<Value>, k: nat, a: seq<Value>, b: seq<Value>)
    requires Bound(args, k, a + b)
    ensures Bound(args, k, a) && Bound(args, k + |a|, b)
  {
    assert args[k..k + |a|] == args[k..k + |a + b|][..|a|];
    assert args[k + |a|..k + |a + b|] == args[k..k + |a + b|][|a|..];
  }

  lemma BoundAt(args: seq<Value>, k: nat, new_: seq<Value>, i: nat)
    requires Bound(args, k, new_) && i < |new_|
    ensures k + i < |args| && args[k + i] == new_[i]
  {
    assert args[k + i] == args[k..k + |new_|][i];
  }

  lemma {:induction false} PathValue(
    sem: Semantics, e: Expr, path: seq<Step>, k: nat, row: Row, args: seq<Value>)
    requires Bound(args, k, PathArgs(path))
    ensures Eval(PathExpr(e, path, k), row, args, sem) == FollowPath(sem, Eval(e, row, args, sem), path)
    decreases |path|
  {
    if path != [] {
      BoundAt(args, k, PathArgs(path), 0);
      assert PathArgs(path) == [StepArg(path[0])] + PathArgs(path[1..]);
      BoundParts(args, k, [StepArg(path[0])], PathArgs(path[1..]));
      var arrow := if path[0].textual then "->>" else "->";
      var key := Cast(Par(k + 1), if path[0].IndexStep? then "int" else "text");
      assert Eval(Par(k + 1), row, args, sem) == StepArg(path[0]);
      assert Eval(Binary(arrow, e, key), row, args, sem) == FollowStep(sem, Eval(e, row, args, sem), path[0]);
      PathValue(sem, Binary(arrow, e, key), path[1..], k + 1, row, args);
    }
  }

  lemma FieldExprValue(sem: Semantics, path: seq<Step>, col: Column, k: nat, row: Row, args: seq<Value>)
    requires Bound(args, k, PathArgs(path))
    ensures Eval(FieldExpr(path, col, k), row, args, sem) == FieldValue(sem, path, col, row)
  {
    var v := ColumnValue(col, row);
    assert Eval(Col(col.name), row, args, sem) == v;
    assert EvalAll([Col(col.name)], row, args, sem) == [v];
    if path != [] { PathValue(sem, BaseExpr(col), path, k, row, args); }
  }

  /** ANY and ALL over the elements of a literal are what quantified comparisons mean. */
  lemma QuantValue(sem: Semantics, symbol: string, all: bool, v: Value, literal: string)
    ensures ToTruth(Quantify(sem, symbol, all, v, Text(literal))) == QuantMeaning(sem, symbol, all, v, literal)
  {
    hide ReadArray, All3, Any3;
    if ReadArray(literal).Some? {
      var items := ReadArray(literal).value;
      var truths := Compare(sem, symbol, v, ElementValues(items));
      assert truths == Compared(sem, symbol, v, items);
      hide Compare, Compared;
      All3Is(truths);
      Any3Is(truths);
      AndOrLaws(if all then All3(truths) else Any3(truths), True, True);
    }
  }

  /** = ANY of the encoded list is membership in the list. */
  lemma InValue(sem: Semantics, v: Value, list: seq<string>)
    ensures ToTruth(Quantify(sem, "=", false, v, Text(Encode(list)))) == InMeaning(sem, v, list)
  {
    hide Quantify, ReadArray, Encode;
    ReadUndoesEncode(list);
    QuantValue(sem, "=", false, v, Encode(list));
  }

  lemma IsValue(value: string, v: Value)
    requires value in IS_VALUES
    ensures IsTest(IsWords(value), v) == IsMeaning(value, v)
  {
    assert |"NULL"| == 4 && |"NOT NULL"| == 8 && |"TRUE"| == 4 && |"FALSE"| == 5 && |"UNKNOWN"| == 7;
    assert "NULL"[0] != "TRUE"[0];
    assert |"null"| == 4 && |"not_null"| == 8 && |"true"| == 4 && |"false"| == 5 && |"unknown"| == 7;
    assert "null"[0] != "true"[0];
  }

  lemma FtsValue(
    sem: Semantics, field: Field, op: Operation, col: Column, k: nat, row: Row, args: seq<Value>)
    requires op.operator in FTS_FUNCTIONS
    requires Bound(args, k, PathArgs(field.path))
    requires Bound(args, k + |field.path|, (if op.lang == "" then [] else [Text(op.lang)]) + [Text(op.value)])
    ensures ToTruth(Eval(FtsExpr(field, op, col, k), row, args, sem))
            == FtsMeaning(sem, field, op, col, FieldValue(sem, field.path, col, row))
  {
    SymbolsAgree(op.operator);
    hide FTS_FUNCTIONS, QueryMeant, FieldExpr, FieldValue, PathArgs, Bound, LangExprs, LangValues, EvalAll;
    var k1 := k + |field.path|;
    var m := if op.lang == "" then 1 else 2;
    FieldExprValue(sem, field.path, col, k, row, args);
    FtsBound(op, k1, args);
    CallValue(sem, "to_tsvector", op.lang, k1 + 1, FieldExpr(field.path, col, k), row, args);
    CallValue(sem, FTS_FUNCTIONS[op.operator], op.lang, k1 + 1, Par(k1 + m), row, args);
    ParamValue(sem, k1 + m, Text(op.value), row, args);
    var fe := FtsExpr(field, op, col, k);
    assert fe.r == Call(FTS_FUNCTIONS[op.operator], LangExprs(op.lang, k1 + 1) + [Par(k1 + m)]);
    assert Eval(fe, row, args, sem) == sem.binary("@@", Eval(fe.l, row, args, sem), Eval(fe.r, row, args, sem));
    hide Eval;
  }

  /** Where the configuration and the query text are bound. */
  lemma FtsBound(op: Operation, k: nat, args: seq<Value>)
    requires Bound(args, k, (if op.lang == "" then [] else [Text(op.lang)]) + [Text(op.value)])
    ensures op.lang != "" ==> k < |args| && args[k] == Text(op.lang)
    ensures var n := if op.lang == "" then k else k + 1; n < |args| && args[n] == Text(op.value)
  {
    var bound := (if op.lang == "" then [] else [Text(op.lang)]) + [Text(op.value)];
    BoundAt(args, k, bound, 0);
    BoundAt(args, k, bound, |bound| - 1);
  }

  /** A function call with the optional configuration before its argument. */
  lemma CallValue(
    sem: Semantics, f: string, lang: string, n: nat, arg: Expr, row: Row, args: seq<Value>)
    requires lang != "" ==> 1 <= n <= |args| && args[n - 1] == Text(lang)
    ensures Eval(Call(f, LangExprs(lang, n) + [arg]), row, args, sem)
            == sem.call(f, LangValues(sem, lang) + [Eval(arg, row, args, sem)])
  {
    LangExprsValue(sem, lang, n, row, args);
    EvalAllSnoc(LangExprs(lang, n), arg, row, args, sem);
  }

  lemma LangExprsValue(sem: Semantics, lang: string, n: nat, row: Row, args: seq<Value>)
    requires lang != "" ==> 1 <= n <= |args| && args[n - 1] == Text(lang)
    ensures EvalAll(LangExprs(lang, n), row, args, sem) == LangValues(sem, lang)
  {
    if lang != "" {
      assert Eval(Par(n), row, args, sem) == Text(lang);
      assert EvalAll([], row, args, sem) == [];
      assert [Cast(Par(n), "regconfig")][1..] == [];
    }
  }

  lemma EvalAllSnoc(es: seq<Expr>, e: Expr, row: Row, args: seq<Value>, sem: Semantics)
    requires |es| <= 1
    ensures EvalAll(es + [e], row, args, sem) == EvalAll(es, row, args, sem) + [Eval(e, row, args, sem)]
  {
    hide Eval;
    assert [e][1..] == [] && EvalAll([], row, args, sem) == [];
    assert EvalAll([e], row, args, sem) == [Eval(e, row, args, sem)];
    if es == [] {
      assert es + [e] == [e];
    } else {
      assert (es + [e])[1..] == [e] && es[1..] == [];
      assert EvalAll(es, row, args, sem) == [Eval(es[0], row, args, sem)];
    }
  }

  lemma ConditionValue(
    sem: Semantics, field: Field, op: Operation, col: Column, k: nat, row: Row, args: seq<Value>)
    requires WellFormedOperation(op)
    requires Bound(args, k, ConditionArgs(field, op, col))
    ensures ToTruth(Eval(ConditionExpr(field, op, col, k), row, args, sem))
            == ConditionMeaning(sem, field, op, col, row)
  {
    SymbolsAgree(op.operator);
    OperandsAgree(op, col);
    hide FTS_FUNCTIONS, SQL_OPERATORS, IS_VALUES, FieldExpr, FieldValue, FtsExpr, FtsMeaning, Quantify, QuantMeaning,
      InMeaning, IsTest, IsMeaning, IsWords, BoundOperand, OperandMeant, SymbolMeant, QueryMeant, DistinctTest, Encode,
      Bound, PathArgs;
    var path := PathArgs(field.path);
    var own := ConditionArgs(field, op, col)[|path|..];
    assert ConditionArgs(field, op, col) == path + own;
    BoundParts(args, k, path, own);
    FieldExprValue(sem, field.path, col, k, row, args);
    var v := FieldValue(sem, field.path, col, row);
    IsDistinctIsNotFts();
    if op.operator == "is" {
      IsValue(op.value, v);
    } else if op.operator in FTS_FUNCTIONS && op.operator != "in" {
      FtsValue(sem, field, op, col, k, row, args);
    } else {
      assert own == [own[0]];
      BoundAt(args, k + |path|, own, 0);
      ParamValue(sem, k + |path| + 1, own[0], row, args);
      if op.operator == "in" {
        InValue(sem, v, op.list);
      } else if op.operator == "isdistinct" {
        DistinctValue(sem, v, op.value);
      } else if op.quant != NoQuant {
        QuantValue(sem, SymbolMeant(op.operator), op.quant == ALL, v, BoundOperand(op, col));
      }
    }
  }

  lemma DistinctValue(sem: Semantics, v: Value, text: string)
    ensures DistinctTest(sem, v, Text(text)) <==> !(v != Null && ToTruth(sem.binary("=", v, Text(text))) == True)
  {
  }

  lemma ParamValue(sem: Semantics, n: nat, v: Value, row: Row, args: seq<Value>)
    requires 1 <= n <= |args| && args[n - 1] == v
    ensures Eval(Par(n), row, args, sem) == v
  {
  }

  lemma IsDistinctIsNotFts()
    ensures "isdistinct" !in FTS_FUNCTIONS
  {
  }

  /** Each expression has the corresponding truth value. */
  predicate EvaluateTo(sem: Semantics, es: seq<Expr>, truths: seq<Truth>, row: Row, args: seq<Value>) {
    && |es| == |truths|
    && forall i | 0 <= i < |es| :: ToTruth(Eval(es[i], row, args, sem)) == truths[i]
  }

  lemma {:induction false} FoldValue(
    sem: Semantics, logic: Logic, e: Expr, es: seq<Expr>, truths: seq<Truth>, row: Row, args: seq<Value>)
    requires EvaluateTo(sem, es, truths, row, args)
    ensures var t := ToTruth(Eval(e, row, args, sem));
            ToTruth(Eval(FoldExpr(logic, e, es), row, args, sem))
            == if logic == AND then And3(t, All3(truths)) else Or3(t, Any3(truths))
    decreases |es|
  {
    var t := ToTruth(Eval(e, row, args, sem));
    if es == [] {
      AndOrLaws(t, t, t);
    } else {
      FoldValue(sem, logic, Combine(logic, e, es[0]), es[1..], truths[1..], row, args);
      AndOrLaws(t, truths[0], if logic == AND then All3(truths[1..]) else Any3(truths[1..]));
      AndOrLaws(And3(t, truths[0]), t, t);
      AndOrLaws(Or3(t, truths[0]), t, t);
    }
  }

  lemma FoldAllValue(
    sem: Semantics, logic: Logic, es: seq<Expr>, truths: seq<Truth>, row: Row, args: seq<Value>)
    requires es != [] && EvaluateTo(sem, es, truths, row, args)
    ensures ToTruth(Eval(FoldExpr(logic, es[0], es[1..]), row, args, sem))
            == if logic == AND then All3(truths) else Any3(truths)
  {
    hide Eval, FoldExpr;
    assert forall i | 0 <= i < |es| - 1 :: es[1..][i] == es[i + 1] && truths[1..][i] == truths[i + 1];
    FoldValue(sem, logic, es[0], es[1..], truths[1..], row, args);
  }

  lemma {:induction false} NodeValue(
    sem: Semantics, node: FilterNode, table: Table, k: nat, depth: nat, row: Row, args: seq<Value>)
    requires WellFormed(node, depth) && MissingColumn(node, table).None?
    requires Bound(args, k, NodeArgs(node, table))
    ensures ToTruth(Eval(NodeExpr(node, table, k), row, args, sem)) == NodeMeaning(sem, node, table, row)
    decreases node, 1
  {
    hide ConditionExpr, ConditionMeaning, ConditionArgs, FindColumn, FoldExpr, All3, Any3, NodesMeaning, NodesExprs;
    match node
    case Group(negate, logic, children) =>
      var truths := NodesMeaning(sem, children, table, row);
      GroupValue(sem, logic, children, table, k, depth + 1, row, args);
      AndOrLaws(Not3(if logic == AND then All3(truths) else Any3(truths)), True, True);
    case Condition(field, op) =>
      var col := ColumnOf(field, table);
      ConditionValue(sem, field, op, col, k, row, args);
      AndOrLaws(Not3(ConditionMeaning(sem, field, op, col, row)), True, True);
  }

  lemma {:induction false} GroupValue(
    sem: Semantics, logic: Logic, nodes: seq<FilterNode>, table: Table, k: nat, depth: nat, row: Row, args: seq<Value>)
    requires nodes != [] && forall i | 0 <= i < |nodes| :: WellFormed(nodes[i], depth)
    requires MissingColumns(nodes, table).None?
    requires Bound(args, k, NodesArgs(nodes, table))
    ensures var es, truths := NodesExprs(nodes, table, k), NodesMeaning(sem, nodes, table, row);
            ToTruth(Eval(FoldExpr(logic, es[0], es[1..]), row, args, sem))
            == if logic == AND then All3(truths) else Any3(truths)
    decreases nodes, 1
  {
    hide Eval, FoldExpr, All3, Any3, WellFormed, EvaluateTo, NodeExpr, NodeMeaning;
    NodesValue(sem, nodes, table, k, depth, row, args);
    FoldAllValue(sem, logic, NodesExprs(nodes, table, k), NodesMeaning(sem, nodes, table, row), row, args);
  }

  lemma {:induction false} NodesValue(
    sem: Semantics, nodes: seq<FilterNode>, table: Table, k: nat, depth: nat, row: Row, args: seq<Value>)
    requires forall i | 0 <= i < |nodes| :: WellFormed(nodes[i], depth)
    requires MissingColumns(nodes, table).None?
    requires Bound(args, k, NodesArgs(nodes, table))
    ensures EvaluateTo(sem, NodesExprs(nodes, table, k), NodesMeaning(sem, nodes, table, row), row, args)
    decreases nodes, 0
  {
    hide NodeExpr, NodeMeaning, NodeArgs, MissingColumn, WellFormed, Eval;
    if nodes != [] {
      var first := NodeArgs(nodes[0], table);
      BoundParts(args, k, first, NodesArgs(nodes[1..], table));
      NodeValue(sem, nodes[0], table, k, depth, row, args);
      NodesValue(sem, nodes[1..], table, k + |first|, depth, row, args);
      var es, truths := NodesExprs(nodes, table, k), NodesMeaning(sem, nodes, table, row);
      forall i | 0 <= i < |nodes|
        ensures ToTruth(Eval(es[i], row, args, sem)) == truths[i]
      {
        if i > 0 {
          assert es[i] == NodesExprs(nodes[1..], table, k + |first|)[i - 1];
          assert truths[i] == NodesMeaning(sem, nodes[1..], table, row)[i - 1];
        }
      }
    }
  }

  // ---- The theorem ----

  lemma {:induction false} ParsedAreWellFormed(table: Table, filters: seq<RawFilter>)
    requires ParseFilters(table, filters).Sql?
    ensures forall i | 0 <= i < |ParseFilters(table, filters).sql| ::
              WellFormed(ParseFilters(table, filters).sql[i], 1)
    decreases |filters|
  {
    hide ParseFilter, WellFormed, MissingColumn;
    if filters != [] {
      AcceptedIsWellFormed(filters[0].key, filters[0].value);
      ParsedAreWellFormed(table, filters[1..]);
    }
  }

  /** The meaning of a filter list: the conjunction over its parsed filters. */
  function FiltersMeaning(sem: Semantics, table: Table, filters: seq<RawFilter>, row: Row): Truth
    requires ParseFilters(table, filters).Sql?
  {
    ParsedFiltersHaveColumns(table, filters);
    All3(NodesMeaning(sem, ParseFilters(table, filters).sql, table, row))
  }

  /** The truth of a WHERE clause on a row; without a clause every row qualifies. */
  function WhereTruth(sem: Semantics, where: seq<Token>, row: Row, args: seq<Value>): Truth {
    if where == [] then True
    else
      match ReadExpr(where)
      case None => Unknown
      case Some(e) => ToTruth(Eval(e, row, args, sem))
  }

  /** For every accepted filter list, every row, and whatever the database's operators do: the
      clause rendered after k parameters reads as an expression, and its truth is the
      conjunction of the filters' meanings, whatever parameters precede or follow its own. */
  lemma MeaningPreserved(
    sem: Semantics, table: Table, filters: seq<RawFilter>, k: nat, row: Row, args: seq<Value>)
    requires ParseFilters(table, filters).Sql?
    requires Bound(args, k, WhereArgs(table, filters))
    ensures var where := WhereSql(table, filters, k).sql;
            (where == [] <==> filters == []) && (where != [] ==> ReadExpr(where).Some?)
            && WhereTruth(sem, where, row, args) == FiltersMeaning(sem, table, filters, row)
  {
    hide NodeExpr, NodeMeaning, NodeArgs, MissingColumn, WellFormed, Eval, ParseFilter, NodeSql, ReadOr;
    ParsedFiltersHaveColumns(table, filters);
    ParsedAreWellFormed(table, filters);
    var nodes := ParseFilters(table, filters).sql;
    if nodes != [] {
      var where := NodesSql(nodes, AndT, table, k);
      var es := NodesExprs(nodes, table, k);
      var truths := NodesMeaning(sem, nodes, table, row);
      GroupReads(AND, nodes, table, k, 1, []);
      assert where + [] == where;
      GroupValue(sem, AND, nodes, table, k, 1, row, args);
      WhereNotEmpty(nodes, table, k);
    }
  }

  lemma WhereNotEmpty(nodes: seq<FilterNode>, table: Table, k: nat)
    requires nodes != [] && MissingColumns(nodes, table).None?
    ensures NodesSql(nodes, AndT, table, k) != []
  {
    match nodes[0]
    case Group(_, _, _) =>
    case Condition(field, op) => ConditionStart(field, op, ColumnOf(field, table), k);
  }

  /** Filter trees as query parameters. */
  function Written(plain: bool, nodes: seq<FilterNode>): seq<RawFilter> {
    seq(|nodes|, i requires 0 <= i < |nodes| => RawFilter(PrintKey(plain, nodes[i]), PrintValue(plain, nodes[i])))
  }

  lemma {:induction false} WrittenParses(plain: bool, table: Table, nodes: seq<FilterNode>)
    requires forall i | 0 <= i < |nodes| :: WellFormed(nodes[i], 1)
    requires MissingColumns(nodes, table).None?
    ensures ParseFilters(table, Written(plain, nodes)) == Rendered.Sql(nodes)
    decreases |nodes|
  {
    hide ParseFilter, PrintKey, PrintValue, MissingColumn, WellFormed;
    if nodes != [] {
      WrittenParses(plain, table, nodes[1..]);
      ParseUndoesPrint(plain, nodes[0]);
      assert Written(plain, nodes)[1..] == Written(plain, nodes[1..]);
      assert [nodes[0]] + nodes[1..] == nodes;
    }
  }

  /** From trees to truth: every list of well-formed trees over the table's columns, written as
      query parameters, is accepted, and its clause means the conjunction of the trees. */
  lemma TreesCompile(
    sem: Semantics, table: Table, plain: bool, nodes: seq<FilterNode>, k: nat, row: Row, args: seq<Value>)
    requires forall i | 0 <= i < |nodes| :: WellFormed(nodes[i], 1)
    requires MissingColumns(nodes, table).None?
    requires Bound(args, k, NodesArgs(nodes, table))
    ensures var where := WhereSql(table, Written(plain, nodes), k);
            where.Sql? && WhereTruth(sem, where.sql, row, args) == All3(NodesMeaning(sem, nodes, table, row))
  {
    hide ParseFilters, NodesMeaning, NodesArgs, NodesSql, Written, WellFormed, MissingColumns, Eval, ReadExpr;
    WrittenParses(plain, table, nodes);
    MeaningPreserved(sem, table, Written(plain, nodes), k, row, args);
  }
}
