/** Placeholder numbering of rendered filters: a clause mentions exactly the parameters it
    binds, and is the same clause, renumbered, wherever it is placed. */
module Placeholders {
  import opened Options
  import opened Text
  import opened FilterGrammar
  import opened ArrayLiteral
  import opened Sql
  import opened FilterSql
  import opened FilterMeaning

  // ---- Placeholders ----

  /** The placeholders in the text are exactly $k+1 to $k+n. */
  ghost predicate Mentions(ts: seq<Token>, k: nat, n: nat) {
    forall m: nat :: Param(m) in ts <==> k < m <= k + n
  }

  function ShiftToken(t: Token, j: nat): Token { if t.Param? then Param(t.n + j) else t }

  /** The same text with every placeholder number raised by j. */
  function Shift(ts: seq<Token>, j: nat): (r: seq<Token>)
    ensures |r| == |ts|
  {
    seq(|ts|, i requires 0 <= i < |ts| => ShiftToken(ts[i], j))
  }

  lemma ShiftConcat(a: seq<Token>, b: seq<Token>, j: nat)
    ensures Shift(a + b, j) == Shift(a, j) + Shift(b, j)
  {
  }

  lemma MentionsConcat(a: seq<Token>, b: seq<Token>, k: nat, m: nat, n: nat)
    requires Mentions(a, k, m) && Mentions(b, k + m, n)
    ensures Mentions(a + b, k, m + n)
  {
    forall i: nat
      ensures Param(i) in a + b <==> k < i <= k + m + n
    {
      assert Param(i) in a + b <==> Param(i) in a || Param(i) in b;
    }
  }

  /** The text rendered after k parameters mentions exactly its own n, and after k + j
      parameters it is the same text with the numbers raised by j. */
  ghost predicate Placed(here: seq<Token>, there: seq<Token>, k: nat, j: nat, n: nat) {
    Mentions(here, k, n) && there == Shift(here, j)
  }

  lemma PlacedConcat(
    a: seq<Token>, a1: seq<Token>, b: seq<Token>, b1: seq<Token>, k: nat, j: nat, m: nat, n: nat)
    requires Placed(a, a1, k, j, m) && Placed(b, b1, k + m, j, n)
    ensures Placed(a + b, a1 + b1, k, j, m + n)
  {
    MentionsConcat(a, b, k, m, n);
    ShiftConcat(a, b, j);
  }

  lemma {:induction false} PathPlaced(path: seq<Step>, k: nat, j: nat)
    ensures Placed(PathSql(path, k), PathSql(path, k + j), k, j, |path|)
    decreases |path|
  {
    if path != [] {
      PathPlaced(path[1..], k + 1, j);
      var step := StepSql(path[0], k + 1);
      assert step[1] == Param(k + 1);
      assert StepSql(path[0], k + 1 + j) == Shift(step, j);
      PlacedConcat(step, StepSql(path[0], k + 1 + j), PathSql(path[1..], k + 1), PathSql(path[1..], k + 1 + j),
                   k, j, 1, |path| - 1);
    }
  }

  /** Text without placeholders. */
  lemma PlainPlaced(ts: seq<Token>, k: nat, j: nat)
    requires forall t | t in ts :: !t.Param?
    ensures Placed(ts, ts, k, j, 0)
  {
    forall i: nat
      ensures Param(i) !in ts
    {
      assert Param(i).Param?;
    }
    assert Shift(ts, j) == ts;
  }

  lemma FieldPlaced(path: seq<Step>, col: Column, k: nat, j: nat)
    ensures Placed(FieldSql(path, col, k), FieldSql(path, col, k + j), k, j, |path|)
  {
    if path == [] {
      PlainPlaced([Ident(col.name)], k, j);
    } else {
      var head := [LP] + FieldBase(col);
      PlainPlaced(head, k, j);
      PathPlaced(path, k, j);
      PlacedConcat(head, head, PathSql(path, k), PathSql(path, k + j), k, j, 0, |path|);
      PlainPlaced([RP], k + |path|, j);
      PlacedConcat(head + PathSql(path, k), head + PathSql(path, k + j), [RP], [RP], k, j, |path|, 0);
    }
  }

  lemma OneParamPlaced(before: seq<Token>, after: seq<Token>, n: nat, j: nat)
    requires forall t | t in before + after :: !t.Param?
    ensures Placed(before + [Param(n + 1)] + after, before + [Param(n + 1 + j)] + after, n, j, 1)
  {
    PlainPlaced(before, n, j);
    PlainPlaced(after, n + 1, j);
    var p, p1 := [Param(n + 1)], [Param(n + 1 + j)];
    assert p1 == Shift(p, j);
    PlacedConcat(before, before, p, p1, n, j, 0, 1);
    PlacedConcat(before + p, before + p1, after, after, n, j, 1, 0);
  }

  lemma LangPlaced(lang: string, n: nat, j: nat)
    ensures Placed(LangSql(lang, n + 1), LangSql(lang, n + 1 + j), n, j, if lang == "" then 0 else 1)
  {
    if lang == "" {
      PlainPlaced([], n, j);
    } else {
      OneParamPlaced([], [CastT("regconfig"), Comma], n, j);
      assert forall i: nat :: [] + [Param(i)] + [CastT("regconfig"), Comma] == [Param(i), CastT("regconfig"), Comma];
    }
  }

  /** A function call around an optional configuration and one more argument. */
  function CallSql(f: string, lang: seq<Token>, arg: seq<Token>): seq<Token> {
    [Word(f), LP] + lang + arg + [RP]
  }

  lemma CallShift(f: string, lang: seq<Token>, arg: seq<Token>, j: nat)
    ensures Shift(CallSql(f, lang, arg), j) == CallSql(f, Shift(lang, j), Shift(arg, j))
    ensures forall i: nat :: Param(i) in CallSql(f, lang, arg) <==> Param(i) in lang || Param(i) in arg
  {
    var head := [Word(f), LP];
    assert Shift(head, j) == head && Shift([RP], j) == [RP];
    ShiftConcat(head, lang, j);
    ShiftConcat(head + lang, arg, j);
    ShiftConcat(head + lang + arg, [RP], j);
  }

  /** The configuration is bound once and mentioned up to twice. */
  lemma FtsPlaced(field: Field, op: Operation, col: Column, k: nat, j: nat)
    requires op.operator in FTS_FUNCTIONS
    ensures Placed(FtsSql(field, op, col, k), FtsSql(field, op, col, k + j), k, j,
                   |field.path| + (if op.lang == "" then 1 else 2))
  {
    hide FTS_FUNCTIONS, FieldSql, CallSql, LangSql, FtsSql;
    var k1, m := k + |field.path|, if op.lang == "" then 0 else 1;
    FieldPlaced(field.path, col, k, j);
    LangPlaced(op.lang, k1, j);
    var lhs, lang := FieldSql(field.path, col, k), LangSql(op.lang, k1 + 1);
    var p := [Param(k1 + m + 1)];
    var f := FTS_FUNCTIONS[op.operator];
    var vector := if ConvertsToTsvector(field, col) then CallSql("to_tsvector", lang, lhs) else lhs;
    CallShift("to_tsvector", lang, lhs, j);
    CallShift(f, lang, p, j);
    FtsAsCalls(field, op, col, k);
    FtsAsCalls(field, op, col, k + j);
    assert Shift(p, j) == [Param(k1 + m + 1 + j)];
    assert Shift([Op("@@")], j) == [Op("@@")];
    ShiftConcat(vector, [Op("@@")], j);
    ShiftConcat(vector + [Op("@@")], CallSql(f, lang, p), j);
    assert forall i: nat :: Param(i) in p <==> i == k1 + m + 1;
    assert forall i: nat :: Param(i) in vector + [Op("@@")] + CallSql(f, lang, p)
                            <==> Param(i) in vector || Param(i) in CallSql(f, lang, p);
  }

  lemma FtsAsCalls(field: Field, op: Operation, col: Column, k: nat)
    requires op.operator in FTS_FUNCTIONS
    ensures var k1, m := k + |field.path|, if op.lang == "" then 0 else 1;
            var lhs, lang := FieldSql(field.path, col, k), LangSql(op.lang, k1 + 1);
            FtsSql(field, op, col, k)
            == (if ConvertsToTsvector(field, col) then CallSql("to_tsvector", lang, lhs) else lhs)
               + [Op("@@")] + CallSql(FTS_FUNCTIONS[op.operator], lang, [Param(k1 + m + 1)])
  {
    hide FTS_FUNCTIONS, FieldSql, LangSql;
  }

  lemma ConditionPlaced(field: Field, op: Operation, col: Column, k: nat, j: nat)
    ensures Placed(ConditionSql(field, op, col, k), ConditionSql(field, op, col, k + j), k, j,
                   |ConditionArgs(field, op, col)|)
  {
    hide FTS_FUNCTIONS, SQL_OPERATORS, FieldSql, FtsSql, IsTestSql, BoundOperand;
    var lhs, lhs1 := FieldSql(field.path, col, k), FieldSql(field.path, col, k + j);
    var n := k + |field.path|;
    FieldPlaced(field.path, col, k, j);
    IsDistinctIsNotFts();
    if op.operator != "in" && op.operator != "is" && op.operator in FTS_FUNCTIONS {
      FtsPlaced(field, op, col, k, j);
    } else if op.operator == "is" {
      IsTestPlain(op.value);
      PlainPlaced([Word("IS")] + IsTestSql(op.value), n, j);
      PlacedConcat(lhs, lhs1, [Word("IS")] + IsTestSql(op.value), [Word("IS")] + IsTestSql(op.value), k, j, |field.path|, 0);
      assert lhs + [Word("IS")] + IsTestSql(op.value) == lhs + ([Word("IS")] + IsTestSql(op.value));
      assert lhs1 + [Word("IS")] + IsTestSql(op.value) == lhs1 + ([Word("IS")] + IsTestSql(op.value));
    } else {
      var rest, rest1 := RestSql(op, n + 1), RestSql(op, n + 1 + j);
      RestPlaced(op, n, j);
      PlacedConcat(lhs, lhs1, rest, rest1, k, j, |field.path|, 1);
      assert lhs + rest == ConditionSql(field, op, col, k) && lhs1 + rest1 == ConditionSql(field, op, col, k + j);
    }
  }

  /** The part after the field of a condition that binds just its operand. */
  function RestSql(op: Operation, n: nat): seq<Token> {
    if op.operator == "isdistinct" then [Word("IS"), Word("DISTINCT"), Word("FROM"), Param(n)]
    else
      var symbol := if op.operator == "in" then "=" else if op.operator in SQL_OPERATORS then SQL_OPERATORS[op.operator] else "";
      if op.operator != "in" && op.quant == NoQuant then [Op(symbol), Param(n)]
      else [Op(symbol), Word(if op.operator == "in" || op.quant == ANY then "ANY" else "ALL"), LP, Param(n), RP]
  }

  lemma RestPlaced(op: Operation, n: nat, j: nat)
    ensures Placed(RestSql(op, n + 1), RestSql(op, n + 1 + j), n, j, 1)
  {
    hide SQL_OPERATORS;
    var ts, ts1 := RestSql(op, n + 1), RestSql(op, n + 1 + j);
    var i := if |ts| == 2 then 1 else 3;
    OneParamPlaced(ts[..i], ts[i + 1..], n, j);
    assert ts == ts[..i] + [Param(n + 1)] + ts[i + 1..];
    assert ts1 == ts[..i] + [Param(n + 1 + j)] + ts[i + 1..];
  }

  lemma IsTestPlain(value: string)
    ensures forall t | t in IsTestSql(value) :: !t.Param?
  {
  }

  /** Wrapping in NOT and parentheses changes no placeholder. */
  lemma WrapPlaced(before: seq<Token>, a: seq<Token>, a1: seq<Token>, k: nat, j: nat, n: nat)
    requires Placed(a, a1, k, j, n)
    requires forall t | t in before :: !t.Param?
    ensures Placed(before + a, before + a1, k, j, n)
    ensures Placed(a + [RP], a1 + [RP], k, j, n)
  {
    PlainPlaced(before, k, j);
    PlacedConcat(before, before, a, a1, k, j, 0, n);
    PlainPlaced([RP], k + n, j);
    PlacedConcat(a, a1, [RP], [RP], k, j, n, 0);
  }

  lemma {:induction false} NodePlaced(node: FilterNode, table: Table, k: nat, j: nat)
    requires MissingColumn(node, table).None?
    ensures Placed(NodeSql(node, table, k), NodeSql(node, table, k + j), k, j, |NodeArgs(node, table)|)
    decreases node, 1
  {
    hide ConditionSql, ConditionArgs, FindColumn, NodesSql, NodesArgs, Placed;
    var n := |NodeArgs(node, table)|;
    match node
    case Group(negate, logic, children) =>
      var a, a1 := NodesSql(children, LogicToken(logic), table, k), NodesSql(children, LogicToken(logic), table, k + j);
      NodesPlaced(children, LogicToken(logic), table, k, j);
      WrapPlaced([LP], a, a1, k, j, n);
      WrapPlaced([], [LP] + a, [LP] + a1, k, j, n);
      WrapPlaced([NotT], [LP] + a + [RP], [LP] + a1 + [RP], k, j, n);
    case Condition(field, op) =>
      var col := ColumnOf(field, table);
      var a, a1 := ConditionSql(field, op, col, k), ConditionSql(field, op, col, k + j);
      ConditionPlaced(field, op, col, k, j);
      WrapPlaced([LP], a, a1, k, j, n);
      WrapPlaced([], [LP] + a, [LP] + a1, k, j, n);
      WrapPlaced([NotT], [LP] + a + [RP], [LP] + a1 + [RP], k, j, n);
  }

  lemma {:induction false} NodesPlaced(nodes: seq<FilterNode>, sep: Token, table: Table, k: nat, j: nat)
    requires MissingColumns(nodes, table).None? && !sep.Param?
    ensures Placed(NodesSql(nodes, sep, table, k), NodesSql(nodes, sep, table, k + j), k, j, |NodesArgs(nodes, table)|)
    decreases nodes, 0
  {
    hide NodeSql, NodeArgs, MissingColumn, Placed;
    if nodes == [] {
      PlainPlaced([], k, j);
    } else {
      var n := |NodeArgs(nodes[0], table)|;
      var m := |NodesArgs(nodes[1..], table)|;
      var a, a1 := NodeSql(nodes[0], table, k), NodeSql(nodes[0], table, k + j);
      NodePlaced(nodes[0], table, k, j);
      if |nodes| == 1 {
        PlainPlaced([], k + n, j);
        PlacedConcat(a, a1, [], [], k, j, n, 0);
      } else {
        var b, b1 := NodesSql(nodes[1..], sep, table, k + n), NodesSql(nodes[1..], sep, table, k + n + j);
        NodesPlaced(nodes[1..], sep, table, k + n, j);
        WrapPlaced([sep], b, b1, k + n, j, m);
        PlacedConcat(a, a1, [sep] + b, [sep] + b1, k, j, n, m);
      }
    }
  }

  /** The clause mentions exactly the parameters it binds, and moves as a whole with the number
      of parameters before it. */
  lemma WherePlaced(table: Table, filters: seq<RawFilter>, k: nat, j: nat)
    requires ParseFilters(table, filters).Sql?
    ensures Placed(WhereSql(table, filters, k).sql, WhereSql(table, filters, k + j).sql, k, j, |WhereArgs(table, filters)|)
  {
    ParsedFiltersHaveColumns(table, filters);
    NodesPlaced(ParseFilters(table, filters).sql, AndT, table, k, j);
  }
}
