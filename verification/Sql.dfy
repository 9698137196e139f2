/** Just enough SQL to read the generated conditions back: tokens, a reader that follows the
    operator precedence of section 4.1.6 of the PostgreSQL manual, and an evaluator over
    three-valued logic. The meaning of the individual operators, casts and functions is a
    parameter. */
module Sql {
  import opened Options
  import opened Text
  import opened ArrayLiteral

  // ---- Three-valued logic ----

  datatype Truth = True | False | Unknown

  function Not3(a: Truth): Truth {
    match a
    case True => False
    case False => True
    case Unknown => Unknown
  }

  function And3(a: Truth, b: Truth): Truth {
    if a == False || b == False then False else if a == True && b == True then True else Unknown
  }

  function Or3(a: Truth, b: Truth): Truth {
    if a == True || b == True then True else if a == False && b == False then False else Unknown
  }

  function All3(ts: seq<Truth>): Truth {
    if ts == [] then True else And3(ts[0], All3(ts[1..]))
  }

  function Any3(ts: seq<Truth>): Truth {
    if ts == [] then False else Or3(ts[0], Any3(ts[1..]))
  }

  // ---- Tokens and expressions ----

  datatype Token =
    | LP | RP | Comma
    | OrT | AndT | NotT
    | Ident(name: string)   // a quoted identifier
    | Qualified(schemaName: string, name: string)
    | Param(n: nat)         // $n
    | Op(symbol: string)
    | CastT(ty: string)     // ::ty
    | Word(word: string)    // any other keyword or a function name

  datatype Expr =
    | Col(name: string)
    | Par(n: nat)
    | Cast(e: Expr, ty: string)
    | Binary(op: string, l: Expr, r: Expr)
    | Quantified(op: string, all: bool, l: Expr, r: Expr)
    | Is(e: Expr, what: string)
    | Distinct(l: Expr, r: Expr)
    | Call(f: string, params: seq<Expr>)
    | Not(e: Expr)
    | And(l: Expr, r: Expr)
    | Or(l: Expr, r: Expr)

  predicate Starts(ts: seq<Token>, t: Token) { ts != [] && ts[0] == t }

  predicate IsComparison(symbol: string) { symbol in {"=", "<>", "<", ">", "<=", ">="} }

  predicate IsLike(symbol: string) { symbol in {"LIKE", "ILIKE"} }

  predicate IsOther(symbol: string) { !IsComparison(symbol) && !IsLike(symbol) }

  predicate StartsOp(ts: seq<Token>, level: string -> bool) {
    ts != [] && ts[0].Op? && level(ts[0].symbol)
  }

  // ---- The reader, one function per precedence level ----

  datatype Read = Got(e: Expr, rest: seq<Token>) | Stuck {
    predicate IsFailure() { Stuck? }
    function PropagateFailure(): Read
      requires Stuck?
    {
      Stuck
    }
    function Extract(): (Expr, seq<Token>)
      requires Got?
    {
      (e, rest)
    }
  }

  function ReadOr(ts: seq<Token>): (r: Read)
    ensures r.Got? ==> |r.rest| < |ts|
    decreases |ts|, 8
  {
    var (e, rest) :- ReadAnd(ts);
    ReadOrTail(e, rest)
  }

  function ReadOrTail(e: Expr, ts: seq<Token>): (r: Read)
    ensures r.Got? ==> |r.rest| <= |ts|
    decreases |ts|, 0
  {
    if Starts(ts, OrT) then
      var (f, rest) :- ReadAnd(ts[1..]);
      ReadOrTail(Or(e, f), rest)
    else Got(e, ts)
  }

  function ReadAnd(ts: seq<Token>): (r: Read)
    ensures r.Got? ==> |r.rest| < |ts|
    decreases |ts|, 7
  {
    var (e, rest) :- ReadNot(ts);
    ReadAndTail(e, rest)
  }

  function ReadAndTail(e: Expr, ts: seq<Token>): (r: Read)
    ensures r.Got? ==> |r.rest| <= |ts|
    decreases |ts|, 0
  {
    if Starts(ts, AndT) then
      var (f, rest) :- ReadNot(ts[1..]);
      ReadAndTail(And(e, f), rest)
    else Got(e, ts)
  }

  function ReadNot(ts: seq<Token>): (r: Read)
    ensures r.Got? ==> |r.rest| < |ts|
    decreases |ts|, 6
  {
    if Starts(ts, NotT) then
      var (e, rest) :- ReadNot(ts[1..]);
      Got(Not(e), rest)
    else ReadIs(ts)
  }

  /** IS tests */
  function ReadIs(ts: seq<Token>): (r: Read)
    ensures r.Got? ==> |r.rest| < |ts|
    decreases |ts|, 5
  {
    var (e, rest) :- ReadComparison(ts);
    if Starts(rest, Word("IS")) then ReadIsTest(e, rest[1..]) else Got(e, rest)
  }

  function ReadIsTest(e: Expr, ts: seq<Token>): (r: Read)
    ensures r.Got? ==> |r.rest| < |ts|
    decreases |ts|, 0
  {
    if Starts(ts, NotT) then
      if Starts(ts[1..], Word("NULL")) then Got(Is(e, "NOT NULL"), ts[2..]) else Stuck
    else if Starts(ts, Word("DISTINCT")) then
      if Starts(ts[1..], Word("FROM")) then
        var (f, rest) :- ReadComparison(ts[2..]);
        Got(Distinct(e, f), rest)
      else Stuck
    else if ts != [] && ts[0].Word? && ts[0].word in {"NULL", "TRUE", "FALSE", "UNKNOWN"} then
      Got(Is(e, ts[0].word), ts[1..])
    else Stuck
  }

  /** = <> < > <= >=, non-associative */
  function ReadComparison(ts: seq<Token>): (r: Read)
    ensures r.Got? ==> |r.rest| < |ts|
    decreases |ts|, 4
  {
    var (e, rest) :- ReadLike(ts);
    if !StartsOp(rest, IsComparison) then Got(e, rest)
    else if StartsQuantifier(rest[1..]) then ReadQuantified(rest[0].symbol, e, rest[1..])
    else
      var (f, rest1) :- ReadLike(rest[1..]);
      Got(Binary(rest[0].symbol, e, f), rest1)
  }

  /** LIKE, ILIKE, non-associative */
  function ReadLike(ts: seq<Token>): (r: Read)
    ensures r.Got? ==> |r.rest| < |ts|
    decreases |ts|, 3
  {
    var (e, rest) :- ReadOther(ts);
    if !StartsOp(rest, IsLike) then Got(e, rest)
    else if StartsQuantifier(rest[1..]) then ReadQuantified(rest[0].symbol, e, rest[1..])
    else
      var (f, rest1) :- ReadOther(rest[1..]);
      Got(Binary(rest[0].symbol, e, f), rest1)
  }

  /** Every other operator, left-associative */
  function ReadOther(ts: seq<Token>): (r: Read)
    ensures r.Got? ==> |r.rest| < |ts|
    decreases |ts|, 2
  {
    var (e, rest) :- ReadCast(ts);
    ReadOtherTail(e, rest)
  }

  function ReadOtherTail(e: Expr, ts: seq<Token>): (r: Read)
    ensures r.Got? ==> |r.rest| <= |ts|
    decreases |ts|, 0
  {
    if !StartsOp(ts, IsOther) then Got(e, ts)
    else if StartsQuantifier(ts[1..]) then
      var (q, rest) :- ReadQuantified(ts[0].symbol, e, ts[1..]);
      ReadOtherTail(q, rest)
    else
      var (f, rest) :- ReadCast(ts[1..]);
      ReadOtherTail(Binary(ts[0].symbol, e, f), rest)
  }

  predicate StartsQuantifier(ts: seq<Token>) { Starts(ts, Word("ANY")) || Starts(ts, Word("ALL")) }

  /** ANY (e) or ALL (e) after an operator */
  function ReadQuantified(symbol: string, e: Expr, ts: seq<Token>): (r: Read)
    requires StartsQuantifier(ts)
    ensures r.Got? ==> |r.rest| < |ts|
    decreases |ts|, 0
  {
    if !Starts(ts[1..], LP) then Stuck
    else
      var (f, rest) :- ReadOr(ts[2..]);
      if Starts(rest, RP) then Got(Quantified(symbol, ts[0] == Word("ALL"), e, f), rest[1..]) else Stuck
  }

  function ReadCast(ts: seq<Token>): (r: Read)
    ensures r.Got? ==> |r.rest| < |ts|
    decreases |ts|, 1
  {
    var (e, rest) :- ReadPrimary(ts);
    ReadCastTail(e, rest)
  }

  function ReadCastTail(e: Expr, ts: seq<Token>): (r: Read)
    ensures r.Got? ==> |r.rest| <= |ts|
    decreases |ts|, 0
  {
    if ts != [] && ts[0].CastT? then ReadCastTail(Cast(e, ts[0].ty), ts[1..]) else Got(e, ts)
  }

  function ReadPrimary(ts: seq<Token>): (r: Read)
    ensures r.Got? ==> |r.rest| < |ts|
    decreases |ts|, 0
  {
    if ts == [] then Stuck
    else match ts[0]
      case Ident(name) => Got(Col(name), ts[1..])
      case Param(n) => Got(Par(n), ts[1..])
      case LP =>
        var (e, rest) :- ReadOr(ts[1..]);
        if Starts(rest, RP) then Got(e, rest[1..]) else Stuck
      case Word(f) =>
        if Starts(ts[1..], LP) then ReadCall(f, [], ts[2..]) else Stuck
      case _ => Stuck
  }

  /** One or more arguments and the closing parenthesis. */
  function ReadCall(f: string, done: seq<Expr>, ts: seq<Token>): (r: Read)
    ensures r.Got? ==> |r.rest| < |ts|
    decreases |ts|, 9
  {
    var (e, rest) :- ReadOr(ts);
    if Starts(rest, Comma) then ReadCall(f, done + [e], rest[1..])
    else if Starts(rest, RP) then Got(Call(f, done + [e]), rest[1..])
    else Stuck
  }

  // ---- Evaluation ----

  datatype Value =
    | Null
    | Bool(b: bool)
    | Int(i: int)
    | Text(s: string)
    | Other(id: nat)   // any other SQL value

  type Row = map<string, Value>

  /** What the operators, casts and functions of the database do. `elements` lists the elements
      of an array value, and `malformed` is the outcome when there is no such list. */
  datatype Semantics = Semantics(
    binary: (string, Value, Value) -> Value,
    cast: (string, Value) -> Value,
    call: (string, seq<Value>) -> Value,
    elements: Value -> Option<seq<Value>>,
    malformed: (string, Value, Value) -> Value)

  function ToTruth(v: Value): Truth {
    if v == Bool(true) then True else if v == Bool(false) then False else Unknown
  }

  function FromTruth(t: Truth): Value {
    match t
    case True => Bool(true)
    case False => Bool(false)
    case Unknown => Null
  }

  /** The elements of an array operand; a text parameter is read as an array literal. */
  function Elements(sem: Semantics, v: Value): Option<seq<Value>> {
    if v.Text? then
      match ReadArray(v.s)
      case None => None
      case Some(items) => Some(ElementValues(items))
    else sem.elements(v)
  }

  function ElementValues(items: seq<Option<string>>): seq<Value> {
    seq(|items|, i requires 0 <= i < |items| =>
      match items[i]
      case None => Null
      case Some(s) => Text(s))
  }

  /** op ANY (array), op ALL (array): the disjunction or conjunction over the elements. */
  function Quantify(sem: Semantics, op: string, all: bool, l: Value, r: Value): Value {
    if r == Null then Null
    else
      match Elements(sem, r)
      case None => sem.malformed(op, l, r)
      case Some(items) =>
        var truths := Compare(sem, op, l, items);
        FromTruth(if all then All3(truths) else Any3(truths))
  }

  function Compare(sem: Semantics, op: string, l: Value, items: seq<Value>): seq<Truth> {
    seq(|items|, i requires 0 <= i < |items| => ToTruth(sem.binary(op, l, items[i])))
  }

  function IsTest(what: string, v: Value): bool {
    if what == "NULL" then v == Null
    else if what == "NOT NULL" then v != Null
    else if what == "TRUE" then ToTruth(v) == True
    else if what == "FALSE" then ToTruth(v) == False
    else ToTruth(v) == Unknown
  }

  /** IS DISTINCT FROM is never unknown: two nulls are not distinct, and a null is distinct from
      anything else. */
  predicate DistinctTest(sem: Semantics, l: Value, r: Value) {
    if l == Null || r == Null then l != r
    else ToTruth(sem.binary("=", l, r)) != True
  }

  function Eval(e: Expr, row: Row, args: seq<Value>, sem: Semantics): Value {
    match e
    case Col(name) => if name in row then row[name] else Null
    case Par(n) => if 1 <= n <= |args| then args[n - 1] else Null
    case Cast(a, ty) => sem.cast(ty, Eval(a, row, args, sem))
    case Binary(op, l, r) => sem.binary(op, Eval(l, row, args, sem), Eval(r, row, args, sem))
    case Quantified(op, all, l, r) =>
      Quantify(sem, op, all, Eval(l, row, args, sem), Eval(r, row, args, sem))
    case Is(a, what) => Bool(IsTest(what, Eval(a, row, args, sem)))
    case Distinct(l, r) => Bool(DistinctTest(sem, Eval(l, row, args, sem), Eval(r, row, args, sem)))
    case Call(f, params) => sem.call(f, EvalAll(params, row, args, sem))
    case Not(a) => FromTruth(Not3(ToTruth(Eval(a, row, args, sem))))
    case And(l, r) =>
      FromTruth(And3(ToTruth(Eval(l, row, args, sem)), ToTruth(Eval(r, row, args, sem))))
    case Or(l, r) =>
      FromTruth(Or3(ToTruth(Eval(l, row, args, sem)), ToTruth(Eval(r, row, args, sem))))
  }

  function EvalAll(es: seq<Expr>, row: Row, args: seq<Value>, sem: Semantics): seq<Value> {
    if es == [] then [] else [Eval(es[0], row, args, sem)] + EvalAll(es[1..], row, args, sem)
  }

  /** Reading a whole boolean expression. */
  function ReadExpr(ts: seq<Token>): Option<Expr> {
    var r := ReadOr(ts);
    if r.Got? && r.rest == [] then Some(r.e) else None
  }

  // ---- Laws of three-valued logic ----

  /** A conjunction is false if a member is, true if all are, and otherwise unknown. */
  lemma {:induction false} All3Is(ts: seq<Truth>)
    ensures All3(ts) == (if exists i | 0 <= i < |ts| :: ts[i] == False then False
                         else if forall i | 0 <= i < |ts| :: ts[i] == True then True else Unknown)
  {
    if ts != [] {
      All3Is(ts[1..]);
      assert forall i | 0 < i < |ts| :: ts[i] == ts[1..][i - 1];
      assert forall i | 0 <= i < |ts| - 1 :: ts[1..][i] == ts[i + 1];
    }
  }

  /** A disjunction is true if a member is, false if all are, and otherwise unknown. */
  lemma {:induction false} Any3Is(ts: seq<Truth>)
    ensures Any3(ts) == (if exists i | 0 <= i < |ts| :: ts[i] == True then True
                         else if forall i | 0 <= i < |ts| :: ts[i] == False then False else Unknown)
  {
    if ts != [] {
      Any3Is(ts[1..]);
      assert forall i | 0 < i < |ts| :: ts[i] == ts[1..][i - 1];
      assert forall i | 0 <= i < |ts| - 1 :: ts[1..][i] == ts[i + 1];
    }
  }

  lemma AndOrLaws(a: Truth, b: Truth, c: Truth)
    ensures And3(a, And3(b, c)) == And3(And3(a, b), c) && And3(a, True) == a && And3(True, a) == a
    ensures Or3(a, Or3(b, c)) == Or3(Or3(a, b), c) && Or3(a, False) == a && Or3(False, a) == a
    ensures ToTruth(FromTruth(a)) == a
  {
  }
}
