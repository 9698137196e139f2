/** What single filters select, stated on the texts a client sends: comparisons under operators
    that do compare, and for every operator the tokens and parameters of its condition. */
module Comparisons {
  import opened Options
  import opened Text
  import opened FilterGrammar
  import opened FilterPrinting
  import opened Spellings
  import opened ArrayLiteral
  import opened Sql
  import opened FilterSql
  import opened FilterMeaning

  // ---- One filter ----

  /** A single filter that spells a tree is compiled, binds the tree's parameters, and means the tree. */
  lemma OneFilter(
    sem: Semantics, table: Table, key: string, value: string, node: FilterNode, k: nat, row: Row, args: seq<Value>)
    requires FilterSpells(true, key, value, node) && NestedWithin(node, 32) && MissingColumn(node, table).None?
    requires Bound(args, k, NodeArgs(node, table))
    ensures var filters := [RawFilter(key, value)];
            && ParseFilters(table, filters) == Rendered.Sql([node]) && WhereArgs(table, filters) == NodeArgs(node, table)
            && WhereSql(table, filters, k) == Rendered.Sql(NodeSql(node, table, k))
            && WhereTruth(sem, NodeSql(node, table, k), row, args) == NodeMeaning(sem, node, table, row)
  {
    SpelledIsAccepted(key, value, node);
    OneParsed(table, RawFilter(key, value), node);
    OneNode(sem, node, table, k, row);
    hide *;
    hide FilterSpells, NestedWithin;
    OneMeans(sem, table, [RawFilter(key, value)], node, k, row, args);
  }

  lemma OneParsed(table: Table, f: RawFilter, node: FilterNode)
    requires ParseFilter(f.key, f.value) == Ok(node) && MissingColumn(node, table).None?
    ensures ParseFilters(table, [f]) == Rendered.Sql([node])
  {
    hide ParseFilter, MissingColumn;
    assert [f][1..] == [] && [node] + [] == [node];
  }

  lemma OneNode(sem: Semantics, node: FilterNode, table: Table, k: nat, row: Row)
    requires MissingColumn(node, table).None?
    ensures MissingColumns([node], table).None?
    ensures NodesArgs([node], table) == NodeArgs(node, table) && NodesSql([node], AndT, table, k) == NodeSql(node, table, k)
    ensures All3(NodesMeaning(sem, [node], table, row)) == NodeMeaning(sem, node, table, row)
  {
    hide NodeArgs, NodeSql, NodeMeaning, MissingColumn;
    assert [node][1..] == [];
    assert NodeArgs(node, table) + [] == NodeArgs(node, table);
    assert NodeSql(node, table, k) + [] == NodeSql(node, table, k);
    var truths := [NodeMeaning(sem, node, table, row)];
    assert NodesMeaning(sem, [node], table, row) == truths && truths[1..] == [];
    AndOrLaws(truths[0], True, True);
  }

  lemma OneMeans(
    sem: Semantics, table: Table, filters: seq<RawFilter>, node: FilterNode, k: nat, row: Row, args: seq<Value>)
    requires MissingColumns([node], table).None? && MissingColumn(node, table).None?
    requires ParseFilters(table, filters) == Rendered.Sql([node])
    requires NodesArgs([node], table) == NodeArgs(node, table) && Bound(args, k, NodeArgs(node, table))
    requires NodesSql([node], AndT, table, k) == NodeSql(node, table, k)
    requires All3(NodesMeaning(sem, [node], table, row)) == NodeMeaning(sem, node, table, row)
    ensures WhereArgs(table, filters) == NodeArgs(node, table)
    ensures WhereSql(table, filters, k) == Rendered.Sql(NodeSql(node, table, k))
    ensures WhereTruth(sem, NodeSql(node, table, k), row, args) == NodeMeaning(sem, node, table, row)
  {
    hide ParseFilters, NodesArgs, NodeArgs, NodesSql, NodeSql, NodesMeaning, NodeMeaning, MissingColumns, MissingColumn,
      WhereTruth, Bound, All3;
    MeaningPreserved(sem, table, filters, k, row, args);
  }

  /** A column filter on a column of the table, written as client text. */
  ghost predicate Asks(table: Table, key: string, column: string) {
    FieldSpells(true, key, Field(column, [])) && key !in {"and", "or"} && FindColumn(table.columns, column).Some?
  }

  /** A filter on a column means its condition, negated or not. */
  lemma ColumnClause(
    sem: Semantics, table: Table, key: string, column: string, op: Operation, value: string, k: nat, row: Row,
    args: seq<Value>)
    requires Asks(table, key, column) && OperationSpells(true, false, value, op)
    requires Bound(args, k, ConditionArgs(Field(column, []), op, FindColumn(table.columns, column).value))
    ensures var filters, col := [RawFilter(key, value)], FindColumn(table.columns, column).value;
            var t := ConditionMeaning(sem, Field(column, []), op, col, row);
            && WhereSql(table, filters, k).Sql? && WhereArgs(table, filters) == ConditionArgs(Field(column, []), op, col)
            && WhereTruth(sem, WhereSql(table, filters, k).sql, row, args) == if op.negate then Not3(t) else t
  {
    hide FieldSpells, OperationSpells, WhereTruth, FindColumn, ConditionArgs, ConditionMeaning, WhereArgs, WhereSql,
      NodeSql, ParseFilters;
    OneFilter(sem, table, key, value, Condition(Field(column, []), op), k, row, args);
  }

  lemma FirstArgument(args: seq<Value>, k: nat, v: Value)
    requires k < |args| && args[k] == v
    ensures Bound(args, k, [v])
  {
    assert args[k..k + 1] == [v];
  }

  function ColumnIn(column: string, row: Row): Value { if column in row then row[column] else Null }

  lemma AsksColumn(table: Table, key: string, column: string)
    requires Asks(table, key, column)
    ensures FindColumn(table.columns, column).Some?
  {
  }

  // ---- Comparisons ----

  /** How a value that is not null compares with the text of an operand: below, equal, above. */
  type Order = (Value, string) -> int

  /** The operators compare by the order, and nothing compares with null. */
  ghost predicate Compares(sem: Semantics, order: Order) {
    && (forall v, t | v != Null ::
          && sem.binary("=", v, Text(t)) == Bool(order(v, t) == 0)
          && sem.binary("<>", v, Text(t)) == Bool(order(v, t) != 0)
          && sem.binary("<", v, Text(t)) == Bool(order(v, t) < 0)
          && sem.binary("<=", v, Text(t)) == Bool(order(v, t) <= 0)
          && sem.binary(">", v, Text(t)) == Bool(order(v, t) > 0)
          && sem.binary(">=", v, Text(t)) == Bool(order(v, t) >= 0))
    && forall symbol, t | symbol in {"=", "<>", "<", "<=", ">", ">="} :: sem.binary(symbol, Null, Text(t)) == Null
  }

  predicate Stands(op: string, c: int) {
    || (op == "eq" && c == 0) || (op == "neq" && c != 0)
    || (op == "gt" && c > 0) || (op == "gte" && c >= 0)
    || (op == "lt" && c < 0) || (op == "lte" && c <= 0)
  }

  function Truth2(holds: bool): Truth { if holds then True else False }

  lemma ComparisonMeans(sem: Semantics, order: Order, op: string, v: Value, t: string)
    requires Compares(sem, order) && op in {"eq", "neq", "gt", "gte", "lt", "lte"}
    ensures ToTruth(sem.binary(SymbolMeant(op), v, Text(t)))
            == if v == Null then Unknown else Truth2(Stands(op, order(v, t)))
  {
  }

  /** The condition of a comparison on a column. */
  lemma ComparisonCondition(sem: Semantics, order: Order, op: Operation, col: Column, row: Row)
    requires Compares(sem, order) && op.operator in {"eq", "neq", "gt", "gte", "lt", "lte"} && op.quant == NoQuant
    ensures ConditionArgs(Field(col.name, []), op, col) == [Text(op.value)]
    ensures var v := ColumnIn(col.name, row);
            ConditionMeaning(sem, Field(col.name, []), op, col, row)
            == if v == Null then Unknown else Truth2(Stands(op.operator, order(v, op.value)))
  {
    ComparisonMeans(sem, order, op.operator, ColumnIn(col.name, row), op.value);
    hide *;
    PlainCondition(sem, op, col, row);
  }

  lemma PlainCondition(sem: Semantics, op: Operation, col: Column, row: Row)
    requires op.operator in {"eq", "neq", "gt", "gte", "lt", "lte"} && op.quant == NoQuant
    ensures ConditionArgs(Field(col.name, []), op, col) == [Text(op.value)]
    ensures ConditionMeaning(sem, Field(col.name, []), op, col, row)
            == ToTruth(sem.binary(SymbolMeant(op.operator), ColumnIn(col.name, row), Text(op.value)))
  {
    OperatorsNamed(op.operator);
    hide SymbolMeant, SQL_OPERATORS, FTS_FUNCTIONS;
    assert PathArgs([]) == [];
  }

  lemma SpelledOperation(negate: bool, op: string, t: string)
    requires IsComparing(op) || op == "isdistinct"
    ensures OperationSpells(true, false, PrintNot(negate) + (op + ("." + t)), Operation(negate, op, NoQuant, "", t, []))
  {
    assert "" + ("." + t) == "." + t;
    var operation := Operation(negate, op, NoQuant, "", t, []);
    assert ModifierSpells("", operation) && ValueSpells(true, false, t, operation);
  }

  /** column=op.t and column=not.op.t: the clause holds on exactly the rows whose value compares, or
      does not compare, that way; on null it is unknown. */
  lemma ComparisonHolds(
    sem: Semantics, order: Order, table: Table, key: string, column: string, negate: bool, op: string, t: string,
    k: nat, row: Row, args: seq<Value>)
    requires Compares(sem, order) && Asks(table, key, column) && op in {"eq", "neq", "gt", "gte", "lt", "lte"}
    requires k < |args| && args[k] == Text(t)
    ensures var filters := [RawFilter(key, PrintNot(negate) + (op + ("." + t)))];
            && WhereSql(table, filters, k).Sql? && WhereArgs(table, filters) == [Text(t)]
            && var v := ColumnIn(column, row);
               WhereTruth(sem, WhereSql(table, filters, k).sql, row, args)
               == if v == Null then Unknown else Truth2(Stands(op, order(v, t)) != negate)
  {
    hide OperationSpells, WhereTruth, FindColumn, ConditionArgs, ConditionMeaning, WhereArgs, WhereSql, Bound, Asks,
      ParseFilters, Compares, Stands;
    var operation := Operation(negate, op, NoQuant, "", t, []);
    SpelledOperation(negate, op, t);
    AsksColumn(table, key, column);
    var col := FindColumn(table.columns, column).value;
    ComparisonCondition(sem, order, operation, col, row);
    FirstArgument(args, k, Text(t));
    ColumnClause(sem, table, key, column, operation, PrintNot(negate) + (op + ("." + t)), k, row, args);
  }

  // ---- Lists and quantified comparisons ----

  /** Some, or every, item of a list compares that way with the value. */
  predicate SomeStands(op: string, order: Order, v: Value, list: seq<string>) {
    exists i | 0 <= i < |list| :: Stands(op, order(v, list[i]))
  }

  predicate EachStands(op: string, order: Order, v: Value, list: seq<string>) {
    forall i | 0 <= i < |list| :: Stands(op, order(v, list[i]))
  }

  lemma ComparedIs(sem: Semantics, order: Order, op: string, v: Value, list: seq<string>)
    requires Compares(sem, order) && op in {"eq", "neq", "gt", "gte", "lt", "lte"}
    ensures var truths := Compared(sem, SymbolMeant(op), v, Plain(list));
            if v == Null then SomeHolds(truths) == if list == [] then False else Unknown
            else SomeHolds(truths) == Truth2(SomeStands(op, order, v, list))
                 && EachHolds(truths) == Truth2(EachStands(op, order, v, list))
  {
    var truths := Compared(sem, SymbolMeant(op), v, Plain(list));
    forall i | 0 <= i < |list|
      ensures truths[i] == if v == Null then Unknown else Truth2(Stands(op, order(v, list[i])))
    {
      ComparisonMeans(sem, order, op, v, list[i]);
    }
    hide Compared, SymbolMeant, Compares, Stands;
    if v == Null { assert list != [] ==> truths[0] == Unknown; }
  }

  /** column=in.(...), in any spelling of the list: on exactly the rows whose value equals an item. */
  lemma MembershipHolds(
    sem: Semantics, order: Order, table: Table, key: string, column: string, negate: bool, s: string, list: seq<string>,
    k: nat, row: Row, args: seq<Value>)
    requires Compares(sem, order) && Asks(table, key, column) && ListSpells(true, false, s, list)
    requires k < |args| && args[k] == Text(Encode(list))
    ensures var filters := [RawFilter(key, PrintNot(negate) + ("in" + ("." + s)))];
            && WhereSql(table, filters, k).Sql? && WhereArgs(table, filters) == [Text(Encode(list))]
            && var v := ColumnIn(column, row);
               WhereTruth(sem, WhereSql(table, filters, k).sql, row, args)
               == if v == Null && list != [] then Unknown else Truth2((v != Null && SomeStands("eq", order, v, list)) != negate)
  {
    hide OperationSpells, WhereTruth, FindColumn, ConditionArgs, ConditionMeaning, WhereArgs, WhereSql, Bound, Asks,
      ParseFilters, Compares, ListSpells, SomeHolds, EachHolds, Compared, Encode, SomeStands;
    var op := Operation(negate, "in", NoQuant, "", "", list);
    var value := PrintNot(negate) + ("in" + ("." + s));
    MembershipSpelled(negate, s, list);
    AsksColumn(table, key, column);
    var col := FindColumn(table.columns, column).value;
    MembershipMeans(sem, op, col, row);
    ComparedIs(sem, order, "eq", ColumnIn(column, row), list);
    FirstArgument(args, k, Text(Encode(list)));
    ColumnClause(sem, table, key, column, op, value, k, row, args);
  }

  lemma MembershipSpelled(negate: bool, s: string, list: seq<string>)
    requires ListSpells(true, false, s, list)
    ensures OperationSpells(true, false, PrintNot(negate) + ("in" + ("." + s)), Operation(negate, "in", NoQuant, "", "", list))
  {
    hide ListSpells;
    var op := Operation(negate, "in", NoQuant, "", "", list);
    assert "" + ("." + s) == "." + s;
    assert ModifierSpells("", op) && ValueSpells(true, false, s, op);
  }

  lemma MembershipMeans(sem: Semantics, op: Operation, col: Column, row: Row)
    requires op.operator == "in"
    ensures ConditionArgs(Field(col.name, []), op, col) == [Text(Encode(op.list))]
    ensures ConditionMeaning(sem, Field(col.name, []), op, col, row)
            == SomeHolds(Compared(sem, SymbolMeant("eq"), ColumnIn(col.name, row), Plain(op.list)))
  {
    hide SomeHolds, Compared;
    assert PathArgs([]) == [];
  }

  /** column=op(any).literal and column=op(all).literal: on exactly the rows whose value compares that
      way with some, or every, element of the array. */
  lemma QuantifiedHolds(
    sem: Semantics, order: Order, table: Table, key: string, column: string, negate: bool, op: string, all: bool,
    literal: string, list: seq<string>, k: nat, row: Row, args: seq<Value>)
    requires Compares(sem, order) && Asks(table, key, column) && op in {"eq", "gt", "gte", "lt", "lte"}
    requires ReadArray(literal) == Some(Plain(list)) && k < |args| && args[k] == Text(literal)
    ensures var modifier := if all then "(all)" else "(any)";
            var filters := [RawFilter(key, PrintNot(negate) + (op + (modifier + ("." + literal))))];
            && WhereSql(table, filters, k).Sql? && WhereArgs(table, filters) == [Text(literal)]
            && var v := ColumnIn(column, row);
               v != Null ==>
                 WhereTruth(sem, WhereSql(table, filters, k).sql, row, args)
                 == Truth2((if all then EachStands(op, order, v, list) else SomeStands(op, order, v, list)) != negate)
  {
    hide OperationSpells, WhereTruth, FindColumn, ConditionArgs, ConditionMeaning, WhereArgs, WhereSql, Bound, Asks,
      ParseFilters, Compares, SomeHolds, EachHolds, Compared, SymbolMeant, SomeStands, EachStands, ReadArray;
    var operation := Operation(negate, op, if all then ALL else ANY, "", literal, []);
    var modifier := if all then "(all)" else "(any)";
    var value := PrintNot(negate) + (op + (modifier + ("." + literal)));
    QuantifiedSpelled(negate, op, all, literal);
    AsksColumn(table, key, column);
    var col := FindColumn(table.columns, column).value;
    QuantifiedMeans(sem, operation, col, row, list);
    ComparedIs(sem, order, op, ColumnIn(column, row), list);
    FirstArgument(args, k, Text(literal));
    ColumnClause(sem, table, key, column, operation, value, k, row, args);
  }

  lemma QuantifiedSpelled(negate: bool, op: string, all: bool, literal: string)
    requires TakesQuantifier(op)
    ensures OperationSpells(true, false, PrintNot(negate) + (op + ((if all then "(all)" else "(any)") + ("." + literal))),
                            Operation(negate, op, if all then ALL else ANY, "", literal, []))
  {
    var operation := Operation(negate, op, if all then ALL else ANY, "", literal, []);
    assert ModifierSpells(if all then "(all)" else "(any)", operation) && ValueSpells(true, false, literal, operation);
  }

  lemma QuantifiedMeans(sem: Semantics, op: Operation, col: Column, row: Row, list: seq<string>)
    requires op.operator in {"eq", "gt", "gte", "lt", "lte"} && op.quant != NoQuant
    requires ReadArray(op.value) == Some(Plain(list))
    ensures ConditionArgs(Field(col.name, []), op, col) == [Text(op.value)]
    ensures var truths := Compared(sem, SymbolMeant(op.operator), ColumnIn(col.name, row), Plain(list));
            ConditionMeaning(sem, Field(col.name, []), op, col, row)
            == if op.quant == ALL then EachHolds(truths) else SomeHolds(truths)
  {
    OperatorsNamed(op.operator);
    hide SomeHolds, EachHolds, Compared, SymbolMeant, ReadArray, SQL_OPERATORS, FTS_FUNCTIONS;
    assert PathArgs([]) == [];
  }

  // ---- The tokens and parameters of every operator ----

  /** A comparison in SQL: the field, the operator, and the operand, plain or quantified. */
  predicate IsComparison3(ts: seq<Token>, lhs: seq<Token>, symbol: string, quant: Quant, n: nat) {
    ts == lhs + [Op(symbol)]
          + match quant
            case NoQuant => [Param(n)]
            case ANY => [Word("ANY"), LP, Param(n), RP]
            case ALL => [Word("ALL"), LP, Param(n), RP]
  }

  lemma OperatorTokens(field: Field, op: Operation, col: Column, k: nat)
    requires IsComparing(op.operator)
    ensures var ts, lhs, n := ConditionSql(field, op, col, k), FieldSql(field.path, col, k), k + |field.path| + 1;
            && (op.operator == "eq" ==> IsComparison3(ts, lhs, "=", op.quant, n))
            && (op.operator == "neq" ==> IsComparison3(ts, lhs, "<>", op.quant, n))
            && (op.operator == "gt" ==> IsComparison3(ts, lhs, ">", op.quant, n))
            && (op.operator == "gte" ==> IsComparison3(ts, lhs, ">=", op.quant, n))
            && (op.operator == "lt" ==> IsComparison3(ts, lhs, "<", op.quant, n))
            && (op.operator == "lte" ==> IsComparison3(ts, lhs, "<=", op.quant, n))
            && (op.operator == "like" ==> IsComparison3(ts, lhs, "LIKE", op.quant, n))
            && (op.operator == "ilike" ==> IsComparison3(ts, lhs, "ILIKE", op.quant, n))
            && (op.operator == "match" ==> IsComparison3(ts, lhs, "~", op.quant, n))
            && (op.operator == "imatch" ==> IsComparison3(ts, lhs, "~*", op.quant, n))
            && (op.operator == "cs" ==> IsComparison3(ts, lhs, "@>", op.quant, n))
            && (op.operator == "cd" ==> IsComparison3(ts, lhs, "<@", op.quant, n))
            && (op.operator == "ov" ==> IsComparison3(ts, lhs, "&&", op.quant, n))
            && (op.operator == "sl" ==> IsComparison3(ts, lhs, "<<", op.quant, n))
            && (op.operator == "sr" ==> IsComparison3(ts, lhs, ">>", op.quant, n))
            && (op.operator == "nxr" ==> IsComparison3(ts, lhs, "&<", op.quant, n))
            && (op.operator == "nxl" ==> IsComparison3(ts, lhs, "&>", op.quant, n))
            && (op.operator == "adj" ==> IsComparison3(ts, lhs, "-|-", op.quant, n))
  {
    hide FieldSql;
    OperatorsNamed(op.operator);
    SymbolsAgree(op.operator);
    hide SQL_OPERATORS, FTS_FUNCTIONS, QueryMeant;
    var lhs, n := FieldSql(field.path, col, k), k + |field.path| + 1;
    var symbol := SymbolMeant(op.operator);
    Associative(lhs, [Op(symbol)], match op.quant
                                   case NoQuant => [Param(n)]
                                   case ANY => [Word("ANY"), LP, Param(n), RP]
                                   case ALL => [Word("ALL"), LP, Param(n), RP]);
  }

  /** like and ilike bind their pattern with every * as %; other operands are bound as they are, but
      for cs and cd on array columns. */
  lemma OperandBound(field: Field, op: Operation, col: Column)
    requires IsComparing(op.operator)
    requires op.operator in {"cs", "cd"} ==>
               col.dataType != "ARRAY" || op.value == "" || op.value[0] in {'{', '[', '(', '"'}
    ensures var own := ConditionArgs(field, op, col)[|field.path|..];
            && |own| == 1 && own[0].Text? && |own[0].s| == |op.value|
            && forall i | 0 <= i < |op.value| ::
                 own[0].s[i] == if op.operator in {"like", "ilike"} && op.value[i] == '*' then '%' else op.value[i]
  {
    OperatorsNamed(op.operator);
    hide SQL_OPERATORS, FTS_FUNCTIONS;
    assert PathArgs(field.path) + [Text(BoundOperand(op, col))]
           == ConditionArgs(field, op, col);
  }

  /** cs.a,b and cd.a,b on an array column bind a literal that reads back as the parts. */
  lemma ShorthandBound(field: Field, op: Operation, col: Column, list: seq<string>)
    requires op.operator in {"cs", "cd"} && col.dataType == "ARRAY"
    requires list != [] && ArePlainParts(list) && op.value == Join(list, ',')
    requires op.value != "" && op.value[0] !in {'[', '('}
    ensures var own := ConditionArgs(field, op, col)[|field.path|..];
            |own| == 1 && own[0].Text? && ReadArray(own[0].s) == Some(Plain(list))
  {
    JoinedParts(list);
    NoPrefix(op.value, "[", 0);
    ShorthandReads(list);
    hide ReadArray, Convert, Join, ArePlainParts, Plain;
    ShorthandOperand(field, op, col);
  }

  lemma ShorthandOperand(field: Field, op: Operation, col: Column)
    requires op.operator in {"cs", "cd"} && col.dataType == "ARRAY"
    requires op.value != "" && op.value[0] !in {'[', '(', '{', '"'}
    ensures ConditionArgs(field, op, col)[|field.path|..] == [Text(Convert(op.value))]
  {
    OperatorsNamed(op.operator);
    hide SQL_OPERATORS, FTS_FUNCTIONS, Convert;
    assert PathArgs(field.path) + [Text(BoundOperand(op, col))]
           == ConditionArgs(field, op, col);
  }

  /** A full-text filter calls its query constructor on the operand, and to_tsvector on anything that is
      not a tsvector column itself, both under the configuration if there is one. */
  lemma TextSearchTokens(field: Field, op: Operation, col: Column, k: nat)
    requires IsTextSearch(op.operator)
    ensures var lhs, n := FieldSql(field.path, col, k), k + |field.path| + 1;
            var config := if op.lang == "" then [] else [Param(n), CastT("regconfig"), Comma];
            var last := if op.lang == "" then n else n + 1;
            var query := if op.operator == "fts" then "to_tsquery" else if op.operator == "plfts" then "plainto_tsquery"
                         else if op.operator == "phfts" then "phraseto_tsquery" else "websearch_to_tsquery";
            var vector := if col.dataType == "tsvector" && field.path == [] then lhs
                          else [Word("to_tsvector"), LP] + config + lhs + [RP];
            && ConditionSql(field, op, col, k) == vector + [Op("@@"), Word(query), LP] + config + [Param(last), RP]
            && ConditionArgs(field, op, col)
               == PathArgs(field.path) + ((if op.lang == "" then [] else [Text(op.lang)]) + [Text(op.value)])
  {
    OperatorsNamed(op.operator);
    hide FieldSql, SQL_OPERATORS, FTS_FUNCTIONS, PathArgs, FtsSql;
    SearchTokens(field, op, col, k);
  }

  lemma SearchTokens(field: Field, op: Operation, col: Column, k: nat)
    requires op.operator in FTS_FUNCTIONS
    ensures var lhs, n := FieldSql(field.path, col, k), k + |field.path| + 1;
            var config := if op.lang == "" then [] else [Param(n), CastT("regconfig"), Comma];
            var last := if op.lang == "" then n else n + 1;
            var query := if op.operator == "fts" then "to_tsquery" else if op.operator == "plfts" then "plainto_tsquery"
                         else if op.operator == "phfts" then "phraseto_tsquery" else "websearch_to_tsquery";
            var vector := if col.dataType == "tsvector" && field.path == [] then lhs
                          else [Word("to_tsvector"), LP] + config + lhs + [RP];
            FtsSql(field, op, col, k) == vector + [Op("@@"), Word(query), LP] + config + [Param(last), RP]
  {
    SymbolsAgree(op.operator);
    hide FieldSql, FTS_FUNCTIONS, SQL_OPERATORS;
  }

  /** The remaining tests, and the steps of a path: keys as text and indices as int, through to_jsonb
      unless the column is JSON. */
  lemma TestTokens(field: Field, op: Operation, col: Column, k: nat)
    ensures var ts, lhs, n := ConditionSql(field, op, col, k), FieldSql(field.path, col, k), k + |field.path| + 1;
            && (op.operator == "in" ==> ts == lhs + [Op("="), Word("ANY"), LP, Param(n), RP])
            && (op.operator == "isdistinct" ==> ts == lhs + [Word("IS"), Word("DISTINCT"), Word("FROM"), Param(n)])
            && (op.operator == "is" && op.value == "null" ==> ts == lhs + [Word("IS"), Word("NULL")])
            && (op.operator == "is" && op.value == "not_null" ==> ts == lhs + [Word("IS"), NotT, Word("NULL")])
            && (op.operator == "is" && op.value == "true" ==> ts == lhs + [Word("IS"), Word("TRUE")])
            && (op.operator == "is" && op.value == "false" ==> ts == lhs + [Word("IS"), Word("FALSE")])
            && (op.operator == "is" && op.value == "unknown" ==> ts == lhs + [Word("IS"), Word("UNKNOWN")])
  {
    hide FieldSql;
  }

  lemma PathTokens(column: Column, step: Step, k: nat)
    ensures var base := if column.dataType in {"json", "jsonb"} then [Ident(column.name)]
                        else [Word("to_jsonb"), LP, Ident(column.name), RP];
            && FieldSql([], column, k) == [Ident(column.name)]
            && FieldSql([step], column, k)
               == [LP] + base + [Op(if step.textual then "->>" else "->"), Param(k + 1),
                                 CastT(if step.IndexStep? then "int" else "text")] + [RP]
            && PathArgs([step]) == [if step.IndexStep? then Int(step.index) else Text(step.key)]
  {
    assert [step][1..] == [] && PathSql([], k + 1) == [];
  }
}
