/** The filter language of pkg/rest/filter.go: its syntax trees, its operator tables, and a
    recursive-descent reading of it in which every rule maps the rest of the input to a value
    and what is left. `FilterParsing` proves the cursor-based parser against these rules. */
module FilterGrammar {
  import opened Text

  datatype Logic = AND | OR

  datatype Quant = NoQuant | ANY | ALL

  /** One ->key, ->>key, ->0 or ->>0 step; textual says whether the arrow is ->>. */
  datatype Step =
    | KeyStep(textual: bool, key: string)
    | IndexStep(textual: bool, index: int)

  datatype Field = Field(column: string, path: seq<Step>)

  datatype Operation = Operation(
    negate: bool, operator: string, quant: Quant, lang: string, value: string, list: seq<string>)

  /** A logical group, or one condition on a field. */
  datatype FilterNode =
    | Group(negate: bool, logic: Logic, children: seq<FilterNode>)
    | Condition(field: Field, op: Operation)

  const SQL_OPERATORS: map<string, string> := map[
    "eq" := "=", "neq" := "<>", "gt" := ">", "gte" := ">=", "lt" := "<", "lte" := "<=",
    "like" := "LIKE", "ilike" := "ILIKE", "match" := "~", "imatch" := "~*",
    "cs" := "@>", "cd" := "<@", "ov" := "&&", "sl" := "<<", "sr" := ">>",
    "nxr" := "&<", "nxl" := "&>", "adj" := "-|-"]

  const QUANTIFIABLE: set<string> :=
    {"eq", "gt", "gte", "lt", "lte", "like", "ilike", "match", "imatch"}

  const FTS_FUNCTIONS: map<string, string> := map[
    "fts" := "to_tsquery", "plfts" := "plainto_tsquery",
    "phfts" := "phraseto_tsquery", "wfts" := "websearch_to_tsquery"]

  /** Operands of `is`; the SQL they stand for is IsTestOf in `FilterSql`. */
  const IS_VALUES: set<string> := {"null", "not_null", "true", "false", "unknown"}

  const MAX_FILTER_DEPTH: nat := 32

  /** The letters outside ASCII. Which characters these are is left open, so that every
      theorem holds whatever the Unicode tables say. */
  const OTHER_LETTERS: set<char>

  predicate IsNameRune(c: char) {
    || IsAsciiLetter(c)
    || (c as int >= 128 && c in OTHER_LETTERS)
    || IsDigit(c) || c == '_' || c == '$' || c == ' '
  }

  predicate IsSpace(c: char) { c == ' ' || c == '\t' || c == '\r' || c == '\n' }

  predicate IsLangChar(c: char) { IsAsciiLetter(c) || IsDigit(c) || c == '_' }

  predicate IsIsChar(c: char) { IsAsciiLetter(c) || c == '_' }

  function ToLowerChar(c: char): char {
    if 'A' <= c <= 'Z' then (c as int + 32) as char else c
  }

  function ToLower(s: string): (r: string)
    ensures |r| == |s|
  {
    seq(|s|, i requires 0 <= i < |s| => ToLowerChar(s[i]))
  }

  /** `left` is the number of characters not yet read where the error was found. */
  datatype FilterError =
    | Expected(what: string, left: nat)
    | Rejected(what: string)
    | TooDeep
    | EmbeddedResource

  datatype Result<+T> = Ok(value: T) | Err(error: FilterError)

  /** What a rule makes of the rest of the input. */
  datatype Parsed<+T> = Done(value: T, rest: string) | Fail(error: FilterError) {
    predicate IsFailure() { Fail? }
    function PropagateFailure<U>(): Parsed<U>
      requires Fail?
    {
      Fail(error)
    }
    function Extract(): (T, string)
      requires Done?
    {
      (value, rest)
    }
  }

  function Prepend<T>(xs: seq<T>, p: Parsed<seq<T>>): Parsed<seq<T>> {
    var (ys, rest) :- p;
    Done(xs + ys, rest)
  }

  lemma PrependLaws<T>(xs: seq<T>, x: T, p: Parsed<seq<T>>)
    ensures Prepend([], p) == p
    ensures Prepend(xs, Prepend([x], p)) == Prepend(xs + [x], p)
  {
    if p.Done? {
      assert [] + p.value == p.value;
      assert xs + ([x] + p.value) == xs + [x] + p.value;
    }
  }

  predicate NameRuneAt(s: string, i: nat) { i < |s| && IsNameRune(s[i]) }

  function Expect(token: string, s: string): Parsed<()> {
    if HasPrefix(s, token) then Done((), s[|token|..]) else Fail(Expected(token, |s|))
  }

  function SkipSpaces(s: string): (r: string)
    ensures |r| <= |s| && r == s[|s| - |r|..]
    ensures r == "" || !IsSpace(r[0])
  {
    s[Span(s, IsSpace)..]
  }

  /** Body of a double-quoted string, after the opening quote. */
  function QuotedBody(s: string): Parsed<string> {
    if s == "" then Fail(Expected("\"", 0))
    else if s[0] == '"' then Done("", s[1..])
    else if s[0] == '\\' then
      if |s| == 1 then Fail(Expected("\"", 0)) else Prepend([s[1]], QuotedBody(s[2..]))
    else Prepend([s[0]], QuotedBody(s[1..]))
  }

  function Quoted(s: string): Parsed<string> {
    if HasPrefix(s, "\"") then QuotedBody(s[1..]) else Fail(Expected("\"", |s|))
  }

  /** A quoted string directly followed by a comma, a closing parenthesis or the end. */
  function QuotedElement(s: string): Parsed<string> {
    var (text, rest) :- Quoted(s);
    if rest == "" || rest[0] == ',' || rest[0] == ')' then Done(text, rest)
    else Fail(Expected(",", |rest|))
  }

  /** Length of the unquoted name at the start of s; `inner` says that a character of the
      name has already been read, so that a '-' may follow. */
  function NameSpan(s: string, inner: bool): (n: nat)
    ensures n <= |s|
  {
    if s == "" then 0
    else if IsNameRune(s[0]) || (s[0] == '-' && inner && NameRuneAt(s, 1)) then 1 + NameSpan(s[1..], true)
    else 0
  }

  function Name(s: string): Parsed<string> {
    if HasPrefix(s, "\"") then
      var quoted := Quoted(s);
      if quoted.Done? then quoted else Fail(Expected("closing quote", |s|))
    else
      var n := NameSpan(s, false);
      if n == 0 then Fail(Expected("column name", |s|)) else Done(s[..n], s[n..])
  }

  /** strconv.ParseInt(s, 10, 32) on an optional '-' and digits. */
  function ParseInt32(s: string): Parsed<int>
    requires s != "" && s != "-"
    requires forall i | 0 <= i < |s| :: IsDigit(s[i]) || (i == 0 && s[0] == '-')
  {
    var n := if s[0] == '-' then -(DigitsValue(s[1..]) as int) else DigitsValue(s);
    if IsInt32(n) then Done(n, "") else Fail(Rejected("out of range"))
  }

  predicate IsInt32(n: int) { -0x8000_0000 <= n < 0x8000_0000 }

  /** Length of the JSON array index at the start of s, or 0 when there is none. It must be a
      whole token, so that 2fa is a key. */
  function IndexLength(s: string): (n: nat)
    ensures n <= |s|
    ensures n > 0 ==> s[..n] != "-"
    ensures forall i | 0 <= i < n :: IsDigit(s[i]) || (i == 0 && s[0] == '-')
  {
    var sign := if HasPrefix(s, "-") then 1 else 0;
    var digits := Span(s[sign..], IsDigit);
    var n := sign + digits;
    assert forall k | sign <= k < n :: s[k] == s[sign..][k - sign];
    if digits == 0 || NameRuneAt(s, n) || (n < |s| && s[n] == '-' && NameRuneAt(s, n + 1)) then 0 else n
  }

  function ArrayIndex(s: string): Parsed<int> {
    var n := IndexLength(s);
    if n == 0 then Fail(Expected("index", |s|))
    else
      var (index, _) :- ParseInt32(s[..n]);
      Done(index, s[n..])
  }

  function StepAfterArrow(textual: bool, s: string): Parsed<Step> {
    var index := ArrayIndex(s);
    if index.Done? then Done(IndexStep(textual, index.value), index.rest)
    else
      var (key, rest) :- Name(s);
      Done(KeyStep(textual, key), rest)
  }

  /** Zero or more JSON path steps. */
  function JsonPath(s: string): Parsed<seq<Step>>
    decreases |s|
  {
    if HasPrefix(s, "->") then
      var textual := HasPrefix(s, "->>");
      var s1 := if textual then s[3..] else s[2..];
      StepConsumes(textual, s1);
      var (step, rest) :- StepAfterArrow(textual, s1);
      Prepend([step], JsonPath(rest))
    else Done([], s)
  }

  function Until(s: string, stops: set<char>): (string, string) {
    var n := Span(s, Outside(stops));
    (s[..n], s[n..])
  }

  const ELEMENT_STOPS: set<char> := {',', ')'}

  /** Operand of every operator but `in` and `is`. */
  function Operand(inTree: bool, s: string): (string, string) {
    if !inTree then (s, "")
    else
      var quoted := QuotedElement(s);
      if quoted.Done? then (quoted.value, quoted.rest)
      else if HasPrefix(s, "{") && BraceLiteral(s) > 0 then (s[..BraceLiteral(s)], s[BraceLiteral(s)..])
      else Until(s, ELEMENT_STOPS)
  }

  /** Length of the {...} literal at the start of s, or 0 when the first brace after the
      opening one does not close it. */
  function BraceLiteral(s: string): (n: nat)
    requires HasPrefix(s, "{")
    ensures n <= |s|
  {
    var end := Span(s[1..], Outside({'{', '}'}));
    if end + 1 < |s| && s[end + 1] == '}' then end + 2 else 0
  }

  function ListItem(s: string): (string, string) {
    var quoted := QuotedElement(s);
    if quoted.Done? then (quoted.value, quoted.rest) else Until(s, ELEMENT_STOPS)
  }

  /** One or more list items. */
  function ListItems(s: string): (r: Parsed<seq<string>>)
    ensures r.Done?
    decreases |s|
  {
    var (item, rest) := ListItem(s);
    ListItemConsumes(s);
    if HasPrefix(rest, ",") then Prepend([item], ListItems(rest[1..])) else Done([item], rest)
  }

  /** Operand of `in`. */
  function List(inTree: bool, s: string): Parsed<seq<string>> {
    if !HasPrefix(s, "(") then
      if inTree || s == "" then Fail(Expected("(", |s|)) else Done(Split(s, ','), "")
    else
      var s1 := SkipSpaces(s[1..]);
      var (items, s2) :- if HasPrefix(s1, ")") then Done([], s1) else ListItems(s1);
      var (_, s3) :- Expect(")", s2);
      Done(items, SkipSpaces(s3))
  }

  /** The configuration in fts(english), or "" when there is none. */
  function FtsModifier(s: string): (r: Parsed<string>)
    ensures r.Done? ==> |r.rest| <= |s|
  {
    if !HasPrefix(s, "(") then Done("", s)
    else
      var s1 := s[1..];
      var n := Span(s1, IsLangChar);
      if n == 0 then Fail(Expected("text search configuration", |s1|))
      else
        var (_, rest) :- Expect(")", s1[n..]);
        Done(s1[..n], rest)
  }

  /** The quantifier in eq(any), like(all). */
  function QuantModifier(op: string, s: string): (r: Parsed<Quant>)
    ensures r.Done? ==> |r.rest| <= |s|
  {
    if !HasPrefix(s, "(") then Done(NoQuant, s)
    else if op !in QUANTIFIABLE then Fail(Rejected("modifier"))
    else
      var s1 := s[1..];
      if HasPrefix(s1, "any)") then Done(ANY, s1[4..])
      else if HasPrefix(s1, "all)") then Done(ALL, s1[4..])
      else Fail(Expected("any) or all)", |s1|))
  }

  /** Operand of `is`. */
  function IsOperand(s: string): Parsed<string> {
    var n := Span(s, IsIsChar);
    var value := ToLower(s[..n]);
    if value in IS_VALUES then Done(value, s[n..]) else Fail(Rejected("is value"))
  }

  /** [not.]<op>[(modifier)].<operand> */
  function ParseOperation(inTree: bool, s: string): Parsed<Operation> {
    var negate := HasPrefix(s, "not.");
    var s0 := if negate then s[4..] else s;
    var n := Span(s0, IsAsciiLetter);
    if n == 0 then Fail(Expected("operator", |s0|)) else AfterOperator(inTree, negate, s0[..n], s0[n..])
  }

  function AfterOperator(inTree: bool, negate: bool, op: string, s: string): Parsed<Operation> {
    if op == "in" then
      var (_, s1) :- Expect(".", s);
      var (list, s2) :- List(inTree, s1);
      Done(Operation(negate, op, NoQuant, "", "", list), s2)
    else if op == "is" then
      var (_, s1) :- Expect(".", s);
      var (value, s2) :- IsOperand(s1);
      Done(Operation(negate, op, NoQuant, "", value, []), s2)
    else if op == "isdistinct" then FinishOperation(inTree, negate, op, NoQuant, "", s)
    else if op in FTS_FUNCTIONS then
      var (lang, s1) :- FtsModifier(s);
      FinishOperation(inTree, negate, op, NoQuant, lang, s1)
    else if op in SQL_OPERATORS then
      var (quant, s1) :- QuantModifier(op, s);
      FinishOperation(inTree, negate, op, quant, "", s1)
    else Fail(Rejected("operator"))
  }

  function FinishOperation(
    inTree: bool, negate: bool, op: string, quant: Quant, lang: string, s: string): Parsed<Operation>
  {
    var (_, s1) :- Expect(".", s);
    var (value, rest) := Operand(inTree, s1);
    Done(Operation(negate, op, quant, lang, value, []), rest)
  }

  /** <field>.[not.]<op>.<value> inside a logic tree. */
  function ParseLeaf(s: string): Parsed<FilterNode> {
    var (column, s1) :- Name(s);
    var (path, s2) :- JsonPath(s1);
    var (_, s3) :- Expect(".", s2);
    var (op, rest) :- ParseOperation(true, s3);
    Done(Condition(Field(column, path), op), rest)
  }

  /** "(cond,cond,...)" after the name of the logic operator. */
  function ParseGroup(logic: Logic, negate: bool, depth: nat, s: string): (r: Parsed<FilterNode>)
    ensures r.Done? ==> |r.rest| < |s|
    decreases |s|, 0
  {
    if depth > MAX_FILTER_DEPTH then Fail(TooDeep)
    else
      var (_, s1) :- Expect("(", s);
      var (children, s2) :- ParseMembers(depth, SkipSpaces(s1));
      if HasPrefix(s2, ")") then Done(Group(negate, logic, children), SkipSpaces(s2[1..]))
      else Fail(Expected(", or )", |s2|))
  }

  function ParseMembers(depth: nat, s: string): (r: Parsed<seq<FilterNode>>)
    ensures r.Done? ==> |r.rest| < |s|
    decreases |s|, 2
  {
    var (child, s1) :- ParseCondition(depth, s);
    if HasPrefix(s1, ",") then
      Prepend([child], ParseMembers(depth, SkipSpaces(s1[1..])))
    else Done([child], s1)
  }

  function ParseCondition(depth: nat, s: string): (r: Parsed<FilterNode>)
    ensures r.Done? ==> |r.rest| < |s|
    decreases |s|, 1
  {
    if HasPrefix(s, "and(") then ParseGroup(AND, false, depth + 1, s[3..])
    else if HasPrefix(s, "or(") then ParseGroup(OR, false, depth + 1, s[2..])
    else if HasPrefix(s, "not.and(") then ParseGroup(AND, true, depth + 1, s[7..])
    else if HasPrefix(s, "not.or(") then ParseGroup(OR, true, depth + 1, s[6..])
    else
      LeafConsumes(s);
      ParseLeaf(s)
  }

  /** expectEOF after a rule */
  function ParseWhole<T>(p: Parsed<T>): Result<T> {
    match p
    case Fail(e) => Err(e)
    case Done(value, rest) => if rest == "" then Ok(value) else Err(Expected("end", |rest|))
  }

  /** The key of a column filter. */
  function ParseKey(key: string): Result<Field> {
    var name := Name(key);
    if name.Fail? then Err(name.error)
    else if HasPrefix(name.rest, ".") then Err(EmbeddedResource)
    else
      match ParseWhole(JsonPath(name.rest))
      case Err(e) => Err(e)
      case Ok(path) => Ok(Field(name.value, path))
  }

  /** One filter query parameter: a logic tree when the last dot-separated segment of the key
      is "and" or "or", a column filter otherwise. */
  function ParseFilter(key: string, value: string): Result<FilterNode> {
    var segments := Split(key, '.');
    var last := segments[|segments| - 1];
    if last == "and" || last == "or" then
      var prefix := segments[..|segments| - 1];
      var negate := |prefix| > 0 && prefix[|prefix| - 1] == "not";
      if |prefix| > (if negate then 1 else 0) then Err(EmbeddedResource)
      else ParseWhole(ParseGroup(if last == "and" then AND else OR, negate, 1, value))
    else
      match ParseKey(key)
      case Err(e) => Err(e)
      case Ok(field) =>
        match ParseWhole(ParseOperation(false, value))
        case Err(e) => Err(e)
        case Ok(op) => Ok(Condition(field, op))
  }

  // Progress: every rule leaves no more than it was given.

  lemma {:induction false} QuotedBodyConsumes(s: string)
    ensures QuotedBody(s).Done? ==> |QuotedBody(s).rest| < |s|
    decreases |s|
  {
    if s == "" || s[0] == '"' {
    } else if s[0] == '\\' {
      if |s| > 1 { QuotedBodyConsumes(s[2..]); }
    } else {
      QuotedBodyConsumes(s[1..]);
    }
  }

  lemma NameConsumes(s: string)
    ensures Name(s).Done? ==> |Name(s).rest| < |s|
  {
    if HasPrefix(s, "\"") { QuotedBodyConsumes(s[1..]); }
  }

  lemma StepConsumes(textual: bool, s: string)
    ensures var r := StepAfterArrow(textual, s); r.Done? ==> |r.rest| < |s|
  {
    NameConsumes(s);
  }

  lemma {:induction false} JsonPathConsumes(s: string)
    ensures JsonPath(s).Done? ==> |JsonPath(s).rest| <= |s|
    decreases |s|
  {
    if HasPrefix(s, "->") {
      var textual := HasPrefix(s, "->>");
      var s1 := if textual then s[3..] else s[2..];
      StepConsumes(textual, s1);
      var step := StepAfterArrow(textual, s1);
      if step.Done? { JsonPathConsumes(step.rest); }
    }
  }

  lemma ElementConsumes(s: string)
    ensures QuotedElement(s).Done? ==> |QuotedElement(s).rest| < |s|
  {
    if HasPrefix(s, "\"") { QuotedBodyConsumes(s[1..]); }
  }

  lemma OperandConsumes(inTree: bool, s: string)
    ensures |Operand(inTree, s).1| <= |s|
  {
    ElementConsumes(s);
  }

  lemma ListItemConsumes(s: string)
    ensures |ListItem(s).1| <= |s|
  {
    ElementConsumes(s);
  }

  lemma {:induction false} ListItemsConsumes(s: string)
    ensures |ListItems(s).rest| <= |s|
    decreases |s|
  {
    ListItemConsumes(s);
    var rest := ListItem(s).1;
    if HasPrefix(rest, ",") { ListItemsConsumes(rest[1..]); }
  }

  lemma ListConsumes(inTree: bool, s: string)
    ensures List(inTree, s).Done? ==> |List(inTree, s).rest| <= |s|
  {
    if HasPrefix(s, "(") { ListItemsConsumes(SkipSpaces(s[1..])); }
  }

  lemma FinishConsumes(
    inTree: bool, negate: bool, op: string, quant: Quant, lang: string, s: string)
    ensures var r := FinishOperation(inTree, negate, op, quant, lang, s); r.Done? ==> |r.rest| <= |s|
  {
    if HasPrefix(s, ".") { OperandConsumes(inTree, s[1..]); }
  }

  lemma AfterOperatorConsumes(inTree: bool, negate: bool, op: string, s: string)
    ensures var r := AfterOperator(inTree, negate, op, s); r.Done? ==> |r.rest| <= |s|
  {
    if op == "in" {
      if HasPrefix(s, ".") { ListConsumes(inTree, s[1..]); }
    } else if op == "is" {
    } else if op == "isdistinct" {
      FinishConsumes(inTree, negate, op, NoQuant, "", s);
    } else if op in FTS_FUNCTIONS {
      var lang := FtsModifier(s);
      if lang.Done? { FinishConsumes(inTree, negate, op, NoQuant, lang.value, lang.rest); }
    } else if op in SQL_OPERATORS {
      var quant := QuantModifier(op, s);
      if quant.Done? { FinishConsumes(inTree, negate, op, quant.value, "", quant.rest); }
    }
  }

  lemma OperationConsumes(inTree: bool, s: string)
    ensures var r := ParseOperation(inTree, s); r.Done? ==> |r.rest| < |s|
  {
    var negate := HasPrefix(s, "not.");
    var s0 := if negate then s[4..] else s;
    var n := Span(s0, IsAsciiLetter);
    AfterOperatorConsumes(inTree, negate, s0[..n], s0[n..]);
  }

  lemma LeafConsumes(s: string)
    ensures ParseLeaf(s).Done? ==> |ParseLeaf(s).rest| < |s|
  {
    NameConsumes(s);
    var name := Name(s);
    if name.Done? {
      JsonPathConsumes(name.rest);
      var path := JsonPath(name.rest);
      if path.Done? && HasPrefix(path.rest, ".") {
        OperationConsumes(true, path.rest[1..]);
      }
    }
  }
}
