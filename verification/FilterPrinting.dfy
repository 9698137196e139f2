/** Printing a filter tree, either with everything quoted or, in the plain style of the
    documentation, with quotes only where they are needed; and the theorem that parsing undoes
    printing on every tree the parser can produce. */
module FilterPrinting {
  import opened Text
  import opened FilterGrammar

  // ---- Printing ----

  /** A name that needs no quotes: name characters and inner dashes, not starting with a space,
      and neither the key of a logic tree nor an index. */
  predicate IsBareName(s: string) {
    && s != "" && s[0] != ' ' && s[0] != '-'
    && (forall i | 0 <= i < |s| :: IsNameRune(s[i]) || (s[i] == '-' && NameRuneAt(s, i + 1)))
    && s != "and" && s != "or"
    && Span(s, IsDigit) < |s|
  }

  /** A list item or operand that needs no quotes. */
  predicate IsBareItem(s: string) {
    s != "" && ',' !in s && ')' !in s && s[0] != '"' && s[0] != '{' && !IsSpace(s[0])
  }

  /** A {...} literal without inner braces. */
  predicate IsBraced(s: string) {
    |s| > 1 && s[0] == '{' && s[|s| - 1] == '}' && forall i | 0 < i < |s| - 1 :: s[i] != '{' && s[i] != '}'
  }

  function PrintName(plain: bool, s: string): string { if plain && IsBareName(s) then s else Quote(s) }

  function PrintItem(plain: bool, s: string): string { if plain && IsBareItem(s) then s else Quote(s) }

  function PrintStep(plain: bool, step: Step): string {
    (if step.textual then "->>" else "->")
    + match step
      case KeyStep(_, key) => PrintName(plain, key)
      case IndexStep(_, index) => IntToString(index)
  }

  function PrintPath(plain: bool, path: seq<Step>): string {
    if path == [] then "" else PrintStep(plain, path[0]) + PrintPath(plain, path[1..])
  }

  function PrintField(plain: bool, field: Field): string { PrintName(plain, field.column) + PrintPath(plain, field.path) }

  function PrintItems(plain: bool, list: seq<string>): string
    requires list != []
  {
    if |list| == 1 then PrintItem(plain, list[0]) else PrintItem(plain, list[0]) + "," + PrintItems(plain, list[1..])
  }

  function PrintList(plain: bool, list: seq<string>): string {
    if list == [] then "()" else "(" + PrintItems(plain, list) + ")"
  }

  function PrintModifier(op: Operation): string {
    if op.lang != "" then "(" + op.lang + ")"
    else match op.quant
      case NoQuant => ""
      case ANY => "(any)"
      case ALL => "(all)"
  }

  /** The operand: verbatim in a column filter, quoted where needed in a logic tree. */
  function PrintOperand(plain: bool, inTree: bool, op: Operation): string {
    if op.operator == "in" then PrintList(plain, op.list)
    else if op.operator == "is" || !inTree then op.value
    else if plain && (IsBareItem(op.value) || IsBraced(op.value)) then op.value
    else Quote(op.value)
  }

  function PrintNot(negate: bool): string { if negate then "not." else "" }

  function PrintOperation(plain: bool, inTree: bool, op: Operation): string {
    PrintNot(op.negate) + op.operator + PrintModifier(op) + "." + PrintOperand(plain, inTree, op)
  }

  function LogicName(logic: Logic): string { if logic == AND then "and" else "or" }

  function PrintMember(plain: bool, node: FilterNode): string
    decreases node, 1
  {
    match node
    case Group(negate, logic, children) =>
      PrintNot(negate) + LogicName(logic) + PrintGroup(plain, children)
    case Condition(field, op) => PrintField(plain, field) + "." + PrintOperation(plain, true, op)
  }

  function PrintGroup(plain: bool, children: seq<FilterNode>): string
    decreases children, 1
  {
    "(" + PrintMembers(plain, children) + ")"
  }

  function PrintMembers(plain: bool, children: seq<FilterNode>): string
    decreases children, 0
  {
    if children == [] then ""
    else if |children| == 1 then PrintMember(plain, children[0])
    else PrintMember(plain, children[0]) + "," + PrintMembers(plain, children[1..])
  }

  /** A filter as a query parameter. */
  function PrintKey(plain: bool, node: FilterNode): string {
    match node
    case Group(negate, logic, _) => PrintNot(negate) + LogicName(logic)
    case Condition(field, _) => PrintField(plain, field)
  }

  function PrintValue(plain: bool, node: FilterNode): string {
    match node
    case Group(_, _, children) => PrintGroup(plain, children)
    case Condition(_, op) => PrintOperation(plain, false, op)
  }

  // ---- The trees the parser produces ----

  predicate WellFormedStep(step: Step) { step.IndexStep? ==> IsInt32(step.index) }

  predicate WellFormedField(field: Field) {
    forall i | 0 <= i < |field.path| :: WellFormedStep(field.path[i])
  }

  /** An operation uses exactly the parts its operator has. */
  predicate WellFormedOperation(op: Operation) {
    if op.operator == "in" then op.quant == NoQuant && op.lang == "" && op.value == ""
    else
      && op.list == []
      && if op.operator == "is" then op.quant == NoQuant && op.lang == "" && op.value in IS_VALUES
         else if op.operator == "isdistinct" then op.quant == NoQuant && op.lang == ""
         else if op.operator in FTS_FUNCTIONS then
           op.quant == NoQuant && forall i | 0 <= i < |op.lang| :: IsLangChar(op.lang[i])
         else
           && op.operator in SQL_OPERATORS && op.lang == ""
           && (op.quant != NoQuant ==> op.operator in QUANTIFIABLE)
  }

  /** Groups are non-empty and nested at most MAX_FILTER_DEPTH deep; the first level is 1. */
  predicate WellFormed(node: FilterNode, depth: nat)
    decreases node
  {
    match node
    case Group(_, _, children) =>
      && depth <= MAX_FILTER_DEPTH && children != []
      && forall i | 0 <= i < |children| :: WellFormed(children[i], depth + 1)
    case Condition(field, op) => WellFormedField(field) && WellFormedOperation(op)
  }

  // ---- Parsing undoes printing, rule by rule; rest is what follows in the input ----

  lemma {:induction false} QuotedBodyUndoesEscape(s: string, rest: string)
    ensures QuotedBody(Escape(s) + "\"" + rest) == Done(s, rest)
    decreases |s|
  {
    var text := Escape(s) + "\"" + rest;
    if s == "" {
      assert text == "\"" + rest && text[1..] == rest;
    } else {
      var head := if s[0] == '"' || s[0] == '\\' then ['\\', s[0]] else [s[0]];
      var tail := Escape(s[1..]) + "\"" + rest;
      QuotedBodyUndoesEscape(s[1..], rest);
      assert [s[0]] + s[1..] == s;
      Associative(head, Escape(s[1..]), "\"");
      Associative(head, Escape(s[1..]) + "\"", rest);
      assert text == head + tail && text[|head|..] == tail;
      hide Escape;
    }
  }

  lemma QuotedUndoesQuote(s: string, rest: string)
    ensures HasPrefix(Quote(s) + rest, "\"")
    ensures Quoted(Quote(s) + rest) == Done(s, rest)
    ensures Name(Quote(s) + rest) == Done(s, rest)
    ensures rest == "" || rest[0] == ',' || rest[0] == ')'
            ==> QuotedElement(Quote(s) + rest) == Done(s, rest)
  {
    QuotedBodyUndoesEscape(s, rest);
    var text := Quote(s) + rest;
    assert text == "\"" + (Escape(s) + "\"" + rest);
    PrefixOfConcat("\"", Escape(s) + "\"" + rest);
  }

  /** What may follow a field or an index: not a name character, and no '-' but that of an arrow. */
  predicate EndsName(rest: string) {
    rest != "" ==> !IsNameRune(rest[0]) && (rest[0] == '-' ==> |rest| > 1 && rest[1] == '>')
  }

  lemma IndexUndoesPrint(index: int, rest: string)
    requires IsInt32(index) && EndsName(rest)
    ensures ArrayIndex(IntToString(index) + rest) == Done(index, rest)
  {
    var n := if index < 0 then -index else index;
    var digits := NatToString(n);
    DigitsOfNat(n);
    IndexLengthOfPrint(index < 0, digits, rest);
    var text := IntToString(index) + rest;
    assert text[..|IntToString(index)|] == IntToString(index) && text[|IntToString(index)|..] == rest;
    assert index < 0 ==> IntToString(index)[1..] == digits;
  }

  lemma IndexLengthOfPrint(negative: bool, digits: string, rest: string)
    requires digits != "" && forall i | 0 <= i < |digits| :: IsDigit(digits[i])
    requires EndsName(rest)
    ensures var text := (if negative then "-" + digits else digits) + rest;
            IndexLength(text) == |text| - |rest|
  {
    var sign := if negative then 1 else 0;
    var text := (if negative then "-" + digits else digits) + rest;
    PrefixChar(text, '-');
    assert text[sign..] == digits + rest;
    SpanOfRun(digits, rest, IsDigit);
    var n := sign + |digits|;
    assert text[n..] == rest;
    assert rest != "" ==> text[n] == rest[0];
    assert |rest| > 1 ==> text[n + 1] == rest[1];
  }

  lemma {:induction false} BareNameSpan(s: string, inner: bool, rest: string)
    requires forall i | 0 <= i < |s| :: IsNameRune(s[i]) || (s[i] == '-' && NameRuneAt(s, i + 1))
    requires s == "" || inner || s[0] != '-'
    requires EndsName(rest)
    ensures NameSpan(s + rest, inner) == |s|
    decreases |s|
  {
    var text := s + rest;
    if s == "" {
      assert text == rest;
    } else {
      assert text[1..] == s[1..] + rest;
      assert forall k: nat :: NameRuneAt(s[1..], k) == NameRuneAt(s, k + 1);
      assert |s| > 1 ==> NameRuneAt(text, 1) == NameRuneAt(s, 1);
      BareNameSpan(s[1..], true, rest);
    }
  }

  lemma NameUndoesPrint(plain: bool, s: string, rest: string)
    requires EndsName(rest)
    ensures Name(PrintName(plain, s) + rest) == Done(s, rest)
    ensures var text := PrintName(plain, s);
            text != "" && (if plain && IsBareName(s) then text == s && IsNameRune(s[0]) && s[0] != ' ' else text[0] == '"')
  {
    if plain && IsBareName(s) {
      BareNameSpan(s, false, rest);
      var text := s + rest;
      NoPrefix(text, "\"", 0);
      assert text[..|s|] == s && text[|s|..] == rest;
    } else {
      QuotedUndoesQuote(s, rest);
    }
  }

  /** A printed key is never taken for an array index. */
  lemma NameIsNoIndex(plain: bool, s: string, rest: string)
    ensures ArrayIndex(PrintName(plain, s) + rest).Fail?
  {
    var text := PrintName(plain, s) + rest;
    NoPrefix(text, "-", 0);
    assert text[0..] == text;
    if plain && IsBareName(s) {
      var n := Span(s, IsDigit);
      assert forall i | 0 <= i < |s| :: text[i] == s[i];
      SpanIs(text, IsDigit, n);
      assert NameRuneAt(text, n) || (text[n] == '-' && NameRuneAt(text, n + 1));
    } else {
      SpanIs(text, IsDigit, 0);
    }
  }

  lemma StepUndoesPrint(plain: bool, step: Step, rest: string)
    requires WellFormedStep(step) && EndsName(rest)
    ensures var arrow := if step.textual then "->>" else "->";
            |PrintStep(plain, step)| > |arrow| && PrintStep(plain, step) == arrow + PrintStep(plain, step)[|arrow|..]
            && StepAfterArrow(step.textual, PrintStep(plain, step)[|arrow|..] + rest) == Done(step, rest)
            && PrintStep(plain, step)[|arrow|] != '>'
  {
    match step
    case KeyStep(_, key) =>
      NameUndoesPrint(plain, key, rest);
      NameIsNoIndex(plain, key, rest);
    case IndexStep(_, index) => IndexUndoesPrint(index, rest);
  }

  lemma {:induction false} PathUndoesPrint(plain: bool, path: seq<Step>, rest: string)
    requires forall i | 0 <= i < |path| :: WellFormedStep(path[i])
    requires rest == "" || rest[0] == '.'
    ensures EndsName(PrintPath(plain, path) + rest)
    ensures JsonPath(PrintPath(plain, path) + rest) == Done(path, rest)
    decreases |path|
  {
    hide JsonPath, HasPrefix, StepAfterArrow, PrintStep, WellFormedStep;
    if path == [] {
      assert PrintPath(plain, path) + rest == rest;
      NoPath(rest);
    } else {
      PathUndoesPrint(plain, path[1..], rest);
      Associative(PrintStep(plain, path[0]), PrintPath(plain, path[1..]), rest);
      FirstStepUndoesPrint(plain, path[0], PrintPath(plain, path[1..]) + rest);
      assert [path[0]] + path[1..] == path;
    }
  }

  lemma NoPath(rest: string)
    requires rest == "" || rest[0] == '.'
    ensures JsonPath(rest) == Done([], rest)
  {
    if rest != "" { NoPrefix(rest, "->", 0); }
  }

  lemma FirstStepUndoesPrint(plain: bool, step: Step, tail: string)
    requires WellFormedStep(step) && EndsName(tail)
    ensures EndsName(PrintStep(plain, step) + tail)
    ensures JsonPath(PrintStep(plain, step) + tail) == Prepend([step], JsonPath(tail))
  {
    hide JsonPath, HasPrefix, StepAfterArrow, PrintStep, WellFormedStep;
    StepUndoesPrint(plain, step, tail);
    var arrow := if step.textual then "->>" else "->";
    var after := PrintStep(plain, step)[|arrow|..] + tail;
    assert PrintStep(plain, step) + tail == arrow + after;
    ArrowTold(step.textual, after);
    PathStep(arrow + after, step.textual, step, tail);
  }

  lemma ArrowTold(textual: bool, after: string)
    requires after != "" && after[0] != '>'
    ensures var s := (if textual then "->>" else "->") + after;
            HasPrefix(s, "->") && HasPrefix(s, "->>") == textual
            && (if textual then s[3..] else s[2..]) == after && EndsName(s)
  {
    if textual {
      PrefixOfConcat("->>", after);
      PrefixOfConcat("->", ">" + after);
      assert "->>" + after == "->" + (">" + after);
    } else {
      PrefixOfConcat("->", after);
      NoPrefix("->" + after, "->>", 2);
    }
  }

  /** One turn of JsonPath. */
  lemma PathStep(s: string, textual: bool, step: Step, rest: string)
    requires HasPrefix(s, "->") && HasPrefix(s, "->>") == textual
    requires StepAfterArrow(textual, if textual then s[3..] else s[2..]) == Done(step, rest)
    ensures JsonPath(s) == Prepend([step], JsonPath(rest))
  {
  }

  lemma KeyUndoesPrint(plain: bool, field: Field)
    requires WellFormedField(field)
    ensures ParseKey(PrintField(plain, field)) == Ok(field)
  {
    PathUndoesPrint(plain, field.path, "");
    assert PrintPath(plain, field.path) + "" == PrintPath(plain, field.path);
    NameUndoesPrint(plain, field.column, PrintPath(plain, field.path));
    PrefixChar(PrintPath(plain, field.path), '.');
  }

  /** What may follow a member of a group or a whole value. */
  predicate EndsValue(rest: string) { rest == "" || rest[0] == ',' || rest[0] == ')' }

  predicate OpensItems(c: char) { c != ')' && !IsSpace(c) }

  /** Unquoted text up to the end of a value. */
  lemma BareUntil(s: string, rest: string)
    requires ',' !in s && ')' !in s && EndsValue(rest)
    ensures Until(s + rest, ELEMENT_STOPS) == (s, rest)
  {
    assert forall i | 0 <= i < |s| :: s[i] in s;
    SpanOfRun(s, rest, Outside(ELEMENT_STOPS));
  }

  lemma NoQuotedElement(s: string)
    requires s != "" && s[0] != '"'
    ensures QuotedElement(s).Fail?
  {
    NoPrefix(s, "\"", 0);
  }

  lemma ItemUndoesPrint(plain: bool, s: string, rest: string)
    requires EndsValue(rest)
    ensures ListItem(PrintItem(plain, s) + rest) == (s, rest)
    ensures PrintItem(plain, s) != "" && OpensItems(PrintItem(plain, s)[0])
  {
    hide QuotedElement, Until;
    if plain && IsBareItem(s) {
      NoQuotedElement(s + rest);
      BareUntil(s, rest);
      assert s[0] in s;
    } else {
      QuotedUndoesQuote(s, rest);
    }
  }

  lemma {:induction false} ItemsUndoPrint(plain: bool, list: seq<string>, rest: string)
    requires list != []
    requires rest != "" && rest[0] == ')'
    ensures PrintItems(plain, list) != "" && OpensItems(PrintItems(plain, list)[0])
    ensures ListItems(PrintItems(plain, list) + rest) == Done(list, rest)
    decreases |list|
  {
    hide ListItem, HasPrefix, Span, PrintItem;
    if |list| == 1 {
      ItemUndoesPrint(plain, list[0], rest);
      NoPrefix(rest, ",", 0);
      assert list == [list[0]];
    } else {
      ItemsUndoPrint(plain, list[1..], rest);
      var tail := "," + (PrintItems(plain, list[1..]) + rest);
      ItemUndoesPrint(plain, list[0], tail);
      assert PrintItems(plain, list) + rest == PrintItem(plain, list[0]) + tail;
      PrefixOfConcat(",", PrintItems(plain, list[1..]) + rest);
      assert [list[0]] + list[1..] == list;
    }
  }

  lemma NoSpaceToSkip(s: string)
    requires s == "" || !IsSpace(s[0])
    ensures SkipSpaces(s) == s
  {
  }

  lemma PrintListOpens(plain: bool, list: seq<string>, rest: string)
    ensures PrintList(plain, list) + rest == "(" + (if list == [] then ")" + rest else PrintItems(plain, list) + (")" + rest))
  {
    hide PrintItems;
  }

  lemma ListUndoesPrint(plain: bool, inTree: bool, list: seq<string>, rest: string)
    requires EndsValue(rest)
    ensures List(inTree, PrintList(plain, list) + rest) == Done(list, rest)
  {
    hide List, HasPrefix, ListItems, PrintItems, PrintList, SkipSpaces;
    PrintListOpens(plain, list, rest);
    if list == [] {
      PrefixOfConcat(")", rest);
      NoSpaceToSkip(")" + rest);
      ListStep(inTree, ")" + rest, list, rest);
    } else {
      ItemsUndoPrint(plain, list, ")" + rest);
      ItemsOpen(PrintItems(plain, list), ")" + rest);
      ListStep(inTree, PrintItems(plain, list) + (")" + rest), list, rest);
    }
  }

  lemma ItemsOpen(items: string, rest: string)
    requires items != "" && OpensItems(items[0])
    ensures !HasPrefix(items + rest, ")") && SkipSpaces(items + rest) == items + rest
  {
    NoPrefix(items + rest, ")", 0);
    NoSpaceToSkip(items + rest);
  }

  /** A parenthesised list. */
  lemma ListStep(inTree: bool, items: string, list: seq<string>, rest: string)
    requires SkipSpaces(items) == items && EndsValue(rest)
    requires Done(list, ")" + rest) == if HasPrefix(items, ")") then Done([], items) else ListItems(items)
    ensures List(inTree, "(" + items) == Done(list, rest)
  {
    hide HasPrefix, ListItems, SkipSpaces;
    PrefixOfConcat("(", items);
    PrefixOfConcat(")", rest);
    NoSpaceToSkip(rest);
  }

  lemma IsValuesAreLowerCase(value: string)
    requires value in IS_VALUES
    ensures forall i | 0 <= i < |value| :: IsIsChar(value[i]) && ToLowerChar(value[i]) == value[i]
  {
  }

  lemma IsUndoesPrint(value: string, rest: string)
    requires value in IS_VALUES
    requires EndsValue(rest)
    ensures IsOperand(value + rest) == Done(value, rest)
  {
    IsValuesAreLowerCase(value);
    SpanOfRun(value, rest, IsIsChar);
    assert ToLower(value) == value;
  }

  lemma BracedReads(s: string, rest: string)
    requires IsBraced(s)
    ensures var text := s + rest;
            HasPrefix(text, "{") && BraceLiteral(text) == |s| && text[..|s|] == s && text[|s|..] == rest
  {
    var text := s + rest;
    var inner := s[1..|s| - 1];
    var tail := "}" + rest;
    assert text == "{" + (inner + tail);
    PrefixOfConcat("{", inner + tail);
    SpanOfRun(inner, tail, Outside({'{', '}'}));
  }

  lemma OperandUndoesPrint(plain: bool, inTree: bool, op: Operation, rest: string)
    requires op.operator != "in" && op.operator != "is"
    requires if inTree then EndsValue(rest) else rest == ""
    ensures Operand(inTree, PrintOperand(plain, inTree, op) + rest) == (op.value, rest)
  {
    hide QuotedElement, Until, BraceLiteral;
    if inTree {
      if plain && IsBraced(op.value) {
        BracedReads(op.value, rest);
        NoQuotedElement(op.value + rest);
      } else if plain && IsBareItem(op.value) {
        NoQuotedElement(op.value + rest);
        NoPrefix(op.value + rest, "{", 0);
        BareUntil(op.value, rest);
      } else {
        QuotedUndoesQuote(op.value, rest);
      }
    } else {
      assert op.value + "" == op.value;
    }
  }

  lemma FinishUndoesPrint(plain: bool, inTree: bool, op: Operation, rest: string)
    requires op.operator != "in" && op.operator != "is" && op.list == []
    requires if inTree then EndsValue(rest) else rest == ""
    ensures FinishOperation(inTree, op.negate, op.operator, op.quant, op.lang,
                            "." + PrintOperand(plain, inTree, op) + rest) == Done(op, rest)
  {
    OperandUndoesPrint(plain, inTree, op, rest);
    assert "." + PrintOperand(plain, inTree, op) + rest == "." + (PrintOperand(plain, inTree, op) + rest);
    PrefixOfConcat(".", PrintOperand(plain, inTree, op) + rest);
  }

  lemma LangUndoesPrint(lang: string, rest: string)
    requires forall i | 0 <= i < |lang| :: IsLangChar(lang[i])
    requires rest != "" && rest[0] == '.'
    ensures FtsModifier((if lang != "" then "(" + lang + ")" else "") + rest) == Done(lang, rest)
  {
    if lang == "" {
      assert "" + rest == rest;
      NoPrefix(rest, "(", 0);
    } else {
      var close := ")" + rest;
      assert "(" + lang + ")" + rest == "(" + (lang + close);
      PrefixOfConcat("(", lang + close);
      SpanOfRun(lang, close, IsLangChar);
      PrefixOfConcat(")", rest);
    }
  }

  lemma QuantUndoesPrint(op: Operation, rest: string)
    requires op.lang == "" && (op.quant != NoQuant ==> op.operator in QUANTIFIABLE)
    requires rest != "" && rest[0] == '.'
    ensures QuantModifier(op.operator, PrintModifier(op) + rest) == Done(op.quant, rest)
  {
    match op.quant
    case NoQuant =>
      assert "" + rest == rest;
      NoPrefix(rest, "(", 0);
    case ANY =>
      assert "(any)" + rest == "(" + ("any)" + rest);
      PrefixOfConcat("(", "any)" + rest);
      PrefixOfConcat("any)", rest);
    case ALL =>
      assert "(all)" + rest == "(" + ("all)" + rest);
      PrefixOfConcat("(", "all)" + rest);
      PrefixOfConcat("all)", rest);
      NoPrefix("all)" + rest, "any)", 1);
  }

  lemma AfterOperatorUndoesPrint(plain: bool, inTree: bool, op: Operation, rest: string)
    requires WellFormedOperation(op)
    requires if inTree then EndsValue(rest) else rest == ""
    ensures AfterOperator(inTree, op.negate, op.operator, AfterName(plain, inTree, op, rest)) == Done(op, rest)
  {
    hide AfterOperator, AfterName, List, IsOperand, SQL_OPERATORS, FTS_FUNCTIONS, IS_VALUES, QUANTIFIABLE;
    if op.operator == "in" || op.operator == "is" {
      ListedUndoesPrint(plain, inTree, op, rest);
    } else {
      ModifiedUndoesPrint(plain, inTree, op, rest);
    }
  }

  /** What a printed operation has after the name of its operator. */
  function AfterName(plain: bool, inTree: bool, op: Operation, rest: string): string {
    PrintModifier(op) + ("." + (PrintOperand(plain, inTree, op) + rest))
  }

  lemma ListedUndoesPrint(plain: bool, inTree: bool, op: Operation, rest: string)
    requires WellFormedOperation(op) && op.operator in {"in", "is"}
    requires if inTree then EndsValue(rest) else rest == ""
    ensures AfterOperator(inTree, op.negate, op.operator, AfterName(plain, inTree, op, rest)) == Done(op, rest)
  {
    hide List, HasPrefix, IsOperand, FinishOperation, PrintList, Escape, SQL_OPERATORS, FTS_FUNCTIONS, IS_VALUES, QUANTIFIABLE;
    var operand := PrintOperand(plain, inTree, op) + rest;
    assert PrintModifier(op) + ("." + operand) == "." + operand;
    PrefixOfConcat(".", operand);
    if op.operator == "in" {
      ListUndoesPrint(plain, inTree, op.list, rest);
    } else {
      IsUndoesPrint(op.value, rest);
    }
  }

  lemma ModifiedUndoesPrint(plain: bool, inTree: bool, op: Operation, rest: string)
    requires WellFormedOperation(op) && op.operator !in {"in", "is"}
    requires if inTree then EndsValue(rest) else rest == ""
    ensures AfterOperator(inTree, op.negate, op.operator, AfterName(plain, inTree, op, rest)) == Done(op, rest)
  {
    hide List, HasPrefix, FtsModifier, QuantModifier, IsOperand, FinishOperation, PrintOperand,
      SQL_OPERATORS, FTS_FUNCTIONS, IS_VALUES, QUANTIFIABLE;
    var operand := PrintOperand(plain, inTree, op);
    var tail := "." + (operand + rest);
    Associative(".", operand, rest);
    FinishUndoesPrint(plain, inTree, op, rest);
    if op.operator == "isdistinct" {
      assert PrintModifier(op) + tail == tail;
    } else if op.operator in FTS_FUNCTIONS {
      LangUndoesPrint(op.lang, tail);
    } else {
      QuantUndoesPrint(op, tail);
    }
  }

  lemma SqlOperatorsAreLetters(op: string)
    requires op in SQL_OPERATORS
    ensures |op| > 1 && (op[0] != 'n' || op[1] != 'o') && NotLogic(op[0], op[1])
    ensures forall i | 0 <= i < |op| :: IsAsciiLetter(op[i])
  {
  }

  lemma OperatorsAreLetters(op: string)
    requires op in {"in", "is", "isdistinct"} || op in FTS_FUNCTIONS || op in SQL_OPERATORS
    ensures |op| > 1 && (op[0] != 'n' || op[1] != 'o') && NotLogic(op[0], op[1])
    ensures forall i | 0 <= i < |op| :: IsAsciiLetter(op[i])
  {
    if op in SQL_OPERATORS { SqlOperatorsAreLetters(op); }
  }

  lemma OperationUndoesPrint(plain: bool, inTree: bool, op: Operation, rest: string)
    requires WellFormedOperation(op)
    requires if inTree then EndsValue(rest) else rest == ""
    ensures ParseOperation(inTree, PrintOperation(plain, inTree, op) + rest) == Done(op, rest)
  {
    hide AfterOperator, AfterName, ParseOperation, PrintOperation, WellFormedOperation, SQL_OPERATORS, FTS_FUNCTIONS;
    AfterOperatorUndoesPrint(plain, inTree, op, rest);
    OperatorIsKnown(op);
    AfterNameStart(plain, inTree, op, rest);
    NamedOperation(inTree, op.negate, op.operator, AfterName(plain, inTree, op, rest));
  }

  lemma AfterNameStart(plain: bool, inTree: bool, op: Operation, rest: string)
    ensures var after := AfterName(plain, inTree, op, rest); after != "" && !IsAsciiLetter(after[0])
    ensures PrintOperation(plain, inTree, op) + rest
            == PrintNot(op.negate) + (op.operator + AfterName(plain, inTree, op, rest))
  {
    hide PrintOperand, PrintModifier, PrintNot;
    var not, name, modifier := PrintNot(op.negate), op.operator, PrintModifier(op);
    var operand := PrintOperand(plain, inTree, op);
    ModifierStart(op, "." + (operand + rest));
    Associative(not + name + modifier + ".", operand, rest);
    Associative(not + name + modifier, ".", operand + rest);
    Associative(not + name, modifier, "." + (operand + rest));
    Associative(not, name, modifier + ("." + (operand + rest)));
  }

  lemma ModifierStart(op: Operation, tail: string)
    requires tail != "" && tail[0] == '.'
    ensures var after := PrintModifier(op) + tail; after != "" && !IsAsciiLetter(after[0])
  {
  }

  lemma OperatorIsKnown(op: Operation)
    requires WellFormedOperation(op)
    ensures op.operator in {"in", "is", "isdistinct"} || op.operator in FTS_FUNCTIONS || op.operator in SQL_OPERATORS
  {
  }

  lemma NamedOperation(inTree: bool, negate: bool, name: string, after: string)
    requires name in {"in", "is", "isdistinct"} || name in FTS_FUNCTIONS || name in SQL_OPERATORS
    requires after != "" && !IsAsciiLetter(after[0])
    ensures ParseOperation(inTree, PrintNot(negate) + (name + after)) == AfterOperator(inTree, negate, name, after)
  {
    hide AfterOperator, ParseOperation, HasPrefix;
    var text := PrintNot(negate) + (name + after);
    OperatorsAreLetters(name);
    if negate {
      PrefixOfConcat("not.", name + after);
    } else {
      assert text == name + after;
      NoPrefix(text, "not.", if text[0] != 'n' then 0 else 1);
    }
    SpanOfRun(name, after, IsAsciiLetter);
    OperationStep(inTree, negate, name, after, text);
  }

  lemma OperationStep(inTree: bool, negate: bool, name: string, after: string, s: string)
    requires name != "" && HasPrefix(s, "not.") == negate
    requires (if negate then s[4..] else s) == name + after
    requires Span(name + after, IsAsciiLetter) == |name|
    ensures ParseOperation(inTree, s) == AfterOperator(inTree, negate, name, after)
  {
    assert (name + after)[..|name|] == name && (name + after)[|name|..] == after;
  }

  lemma LeafUndoesPrint(plain: bool, field: Field, op: Operation, rest: string)
    requires WellFormedField(field) && WellFormedOperation(op) && EndsValue(rest)
    ensures var text := PrintMember(plain, Condition(field, op)) + rest;
            ParseLeaf(text) == Done(Condition(field, op), rest)
  {
    hide ParseOperation, JsonPath, Name, HasPrefix, PrintPath, PrintOperation, EndsName, WellFormedOperation, PrintName;
    var after := PrintOperation(plain, true, op) + rest;
    var dotted := "." + after;
    var text := PrintMember(plain, Condition(field, op)) + rest;
    assert text == PrintName(plain, field.column) + (PrintPath(plain, field.path) + dotted);
    PathUndoesPrint(plain, field.path, dotted);
    NameUndoesPrint(plain, field.column, PrintPath(plain, field.path) + dotted);
    PrefixOfConcat(".", after);
    OperationUndoesPrint(plain, true, op, rest);
  }

  /** A bare column followed by a path or an operation does not start like a nested group. */
  lemma BareStartsLeaf(name: string, tail: string, depth: nat)
    requires forall i | 0 <= i < |name| :: IsNameRune(name[i]) || name[i] == '-'
    requires tail != "" && (tail[0] == '-' || (tail[0] == '.' && |tail| > 2 && NotLogic(tail[1], tail[2])))
    ensures ParseCondition(depth, name + tail) == ParseLeaf(name + tail)
  {
    hide ParseLeaf, ParseGroup, HasPrefix, NameRuneAt;
    var s := name + tail;
    assert forall i | 0 <= i < |name| :: s[i] == name[i] && s[i] != '.' && s[i] != '(';
    assert s[|name|] == tail[0];
    NoPrefix(s, "and(", if |name| < 3 then |name| else 3);
    NoPrefix(s, "or(", if |name| < 2 then |name| else 2);
    if |name| == 3 && tail[0] == '.' {
      assert s[4] == tail[1] && s[5] == tail[2];
      NoPrefix(s, "not.and(", if tail[1] != 'a' then 4 else 5);
      NoPrefix(s, "not.or(", if tail[1] != 'o' then 4 else 5);
    } else {
      NoPrefix(s, "not.and(", if |name| < 3 then |name| else 3);
      NoPrefix(s, "not.or(", if |name| < 3 then |name| else 3);
    }
  }

  /** Neither "an..." nor "or...". */
  predicate NotLogic(a: char, b: char) { (a != 'a' || b != 'n') && (a != 'o' || b != 'r') }

  lemma OperationStart(plain: bool, op: Operation)
    requires WellFormedOperation(op)
    ensures var text := PrintOperation(plain, true, op); |text| > 1 && NotLogic(text[0], text[1])
  {
    hide PrintOperand, PrintModifier, WellFormedOperation;
    OperatorIsKnown(op);
    OperatorsAreLetters(op.operator);
    var text, tail := PrintOperation(plain, true, op), PrintModifier(op) + "." + PrintOperand(plain, true, op);
    assert text == PrintNot(op.negate) + (op.operator + tail);
  }

  lemma PathStart(plain: bool, path: seq<Step>)
    ensures path != [] ==> PrintPath(plain, path) != "" && PrintPath(plain, path)[0] == '-'
  {
  }

  lemma MemberStartsLeaf(plain: bool, field: Field, op: Operation, depth: nat, rest: string)
    requires WellFormedOperation(op)
    ensures var text := PrintMember(plain, Condition(field, op)) + rest;
            text != "" && !IsSpace(text[0]) && ParseCondition(depth, text) == ParseLeaf(text)
    ensures PrintMember(plain, Condition(field, op)) != ""
  {
    hide ParseLeaf, ParseCondition, PrintOperation, PrintPath, PrintName, WellFormedOperation, IsBareName;
    var text := PrintMember(plain, Condition(field, op)) + rest;
    var dotted := "." + PrintOperation(plain, true, op) + rest;
    var tail := PrintPath(plain, field.path) + dotted;
    assert text == PrintName(plain, field.column) + tail;
    NameUndoesPrint(plain, field.column, "");
    PathStart(plain, field.path);
    OperationStart(plain, op);
    if plain && IsBareName(field.column) {
      if field.path == [] { PrintPathEmpty(plain); }
      BareCharacters(field.column);
      BareStartsLeaf(field.column, tail, depth);
    } else {
      QuoteStartsLeaf(depth, text);
    }
  }

  lemma BareCharacters(s: string)
    requires IsBareName(s)
    ensures forall i | 0 <= i < |s| :: IsNameRune(s[i]) || s[i] == '-'
  {
  }

  lemma PrintPathEmpty(plain: bool)
    ensures PrintPath(plain, []) == ""
  {
  }

  /** The four ways a nested group can start, told apart by their first characters. */
  lemma GroupPrefix(negate: bool, logic: Logic, depth: nat, group: string)
    requires group != "" && group[0] == '('
    ensures ParseCondition(depth, PrintNot(negate) + LogicName(logic) + group)
            == ParseGroup(logic, negate, depth + 1, group)
  {
    hide ParseGroup, HasPrefix, ParseLeaf;
    var name := PrintNot(negate) + LogicName(logic);
    var text := PrintNot(negate) + LogicName(logic) + group;
    var inner := group[1..];
    assert group == "(" + inner;
    assert text == (name + "(") + inner;
    PrefixOfConcat(name + "(", inner);
    assert text[|name|..] == group;
    if !negate && logic == AND {
      assert name + "(" == "and(";
    } else {
      assert text[0] == name[0];
      NoPrefix(text, "and(", 0);
      if !negate {
        assert name + "(" == "or(";
      } else {
        NoPrefix(text, "or(", 0);
        if logic == AND {
          assert name + "(" == "not.and(";
        } else {
          assert name + "(" == "not.or(";
          NoPrefix(text, "not.and(", 4);
        }
      }
    }
  }

  lemma {:induction false} MemberUndoesPrint(plain: bool, node: FilterNode, depth: nat, rest: string)
    requires WellFormed(node, depth + 1) && EndsValue(rest)
    ensures PrintMember(plain, node) != "" && !IsSpace(PrintMember(plain, node)[0])
    ensures ParseCondition(depth, PrintMember(plain, node) + rest) == Done(node, rest)
    decreases node, 1
  {
    hide ParseCondition, ParseGroup, HasPrefix, PrintMembers, ParseLeaf, WellFormedField,
      WellFormedOperation, PrintField, PrintOperation;
    var text := PrintMember(plain, node) + rest;
    match node
    case Group(negate, logic, children) =>
      var group := PrintGroup(plain, children) + rest;
      assert text == PrintNot(negate) + LogicName(logic) + group;
      GroupPrefix(negate, logic, depth, group);
      GroupUndoesPrint(plain, negate, logic, children, depth + 1, rest);
    case Condition(field, op) =>
      LeafUndoesPrint(plain, field, op, rest);
      MemberStartsLeaf(plain, field, op, depth, rest);
      MemberStartsLeaf(plain, field, op, depth, "");
      assert PrintMember(plain, node) + "" == PrintMember(plain, node);
  }

  lemma QuoteStartsLeaf(depth: nat, s: string)
    requires s != "" && s[0] == '"'
    ensures ParseCondition(depth, s) == ParseLeaf(s)
  {
    NoPrefix(s, "and(", 0);
    NoPrefix(s, "or(", 0);
    NoPrefix(s, "not.and(", 0);
    NoPrefix(s, "not.or(", 0);
  }

  lemma GroupStep(
    logic: Logic, negate: bool, depth: nat, s: string, children: seq<FilterNode>, rest: string)
    requires depth <= MAX_FILTER_DEPTH && HasPrefix(s, "(") && HasPrefix(rest, ")")
    requires ParseMembers(depth, SkipSpaces(s[1..])) == Done(children, rest)
    ensures ParseGroup(logic, negate, depth, s) == Done(Group(negate, logic, children), SkipSpaces(rest[1..]))
  {
  }

  lemma LastMember(depth: nat, s: string, child: FilterNode, rest: string)
    requires ParseCondition(depth, s) == Done(child, rest) && !HasPrefix(rest, ",")
    ensures ParseMembers(depth, s) == Done([child], rest)
  {
  }

  lemma NextMember(depth: nat, s: string, child: FilterNode, rest: string)
    requires ParseCondition(depth, s) == Done(child, rest) && HasPrefix(rest, ",")
    ensures ParseMembers(depth, s) == Prepend([child], ParseMembers(depth, SkipSpaces(rest[1..])))
  {
  }

  lemma {:induction false} GroupUndoesPrint(
    plain: bool, negate: bool, logic: Logic, children: seq<FilterNode>, depth: nat, rest: string)
    requires depth <= MAX_FILTER_DEPTH && children != [] && EndsValue(rest)
    requires forall i | 0 <= i < |children| :: WellFormed(children[i], depth + 1)
    ensures ParseGroup(logic, negate, depth, PrintGroup(plain, children) + rest)
            == Done(Group(negate, logic, children), rest)
    decreases children, 1
  {
    hide ParseMembers, ParseGroup, HasPrefix, SkipSpaces, PrintMembers;
    var close := ")" + rest;
    assert PrintGroup(plain, children) + rest == "(" + (PrintMembers(plain, children) + close);
    PrefixOfConcat("(", PrintMembers(plain, children) + close);
    MembersUndoPrint(plain, children, depth, close);
    NoSpaceToSkip(PrintMembers(plain, children) + close);
    PrefixOfConcat(")", rest);
    NoSpaceToSkip(rest);
    GroupStep(logic, negate, depth, PrintGroup(plain, children) + rest, children, close);
  }

  lemma {:induction false} MembersUndoPrint(plain: bool, children: seq<FilterNode>, depth: nat, rest: string)
    requires children != [] && rest != "" && rest[0] == ')'
    requires forall i | 0 <= i < |children| :: WellFormed(children[i], depth + 1)
    ensures PrintMembers(plain, children) != "" && !IsSpace(PrintMembers(plain, children)[0])
    ensures ParseMembers(depth, PrintMembers(plain, children) + rest) == Done(children, rest)
    decreases children, 0
  {
    hide ParseCondition, ParseMembers, HasPrefix, SkipSpaces, PrintMember, WellFormed;
    if |children| == 1 {
      MemberUndoesPrint(plain, children[0], depth, rest);
      NoPrefix(rest, ",", 0);
      LastMember(depth, PrintMembers(plain, children) + rest, children[0], rest);
      assert [children[0]] == children;
    } else {
      var tail := PrintMembers(plain, children[1..]) + rest;
      MembersUndoPrint(plain, children[1..], depth, rest);
      MemberUndoesPrint(plain, children[0], depth, "," + tail);
      assert PrintMembers(plain, children) + rest == PrintMember(plain, children[0]) + ("," + tail);
      PrefixOfConcat(",", tail);
      NoSpaceToSkip(tail);
      NextMember(depth, PrintMembers(plain, children) + rest, children[0], "," + tail);
      assert [children[0]] + children[1..] == children;
    }
  }

  // ---- Round trip ----

  predicate EndsClosed(s: string) { s != "" && (s[|s| - 1] == '"' || IsDigit(s[|s| - 1])) }

  lemma ClosedIsNotLogic(key: string)
    requires EndsClosed(key)
    ensures LastSegment(key) != "and" && LastSegment(key) != "or"
  {
    SplitLastChar(key, '.');
    assert "and"[2] == 'd' && "or"[1] == 'r';
  }

  function LastSegment(key: string): string {
    var segments := Split(key, '.');
    segments[|segments| - 1]
  }

  /** A path ends with the print of its last step. */
  lemma {:induction false} PathEnding(plain: bool, path: seq<Step>) returns (front: string)
    requires path != []
    ensures PrintPath(plain, path) == front + PrintStep(plain, path[|path| - 1])
    decreases |path|
  {
    hide PrintStep;
    if |path| == 1 {
      front := "";
      assert path[1..] == [] && PrintStep(plain, path[0]) + "" == PrintStep(plain, path[0]);
      PrintPathEmpty(plain);
    } else {
      var inner := PathEnding(plain, path[1..]);
      front := PrintStep(plain, path[0]) + inner;
      assert front + PrintStep(plain, path[|path| - 1]) == PrintStep(plain, path[0]) + (inner + PrintStep(plain, path[|path| - 1]));
    }
  }

  lemma StepEnding(plain: bool, step: Step)
    ensures var text := PrintStep(plain, step); text != "" && text[0] == '-' && (EndsClosed(text) || '.' !in text)
  {
    match step
    case IndexStep(_, index) =>
      var digits := NatToString(if index < 0 then -index else index);
      assert EndsClosed(IntToString(index)) by { assert IntToString(index)[|IntToString(index)| - 1] == digits[|digits| - 1]; }
    case KeyStep(_, key) =>
      if plain && IsBareName(key) {
        BareHasNoDot(key);
        assert '.' !in (if step.textual then "->>" else "->");
      }
  }

  lemma BareHasNoDot(s: string)
    requires IsBareName(s)
    ensures '.' !in s
  {
  }

  /** A printed field is never taken for the key of a logic tree. */
  lemma FieldKeyIsNotLogic(plain: bool, field: Field)
    ensures LastSegment(PrintField(plain, field)) != "and" && LastSegment(PrintField(plain, field)) != "or"
  {
    hide PrintPath, PrintStep, IsBareName;
    var key, column := PrintField(plain, field), PrintName(plain, field.column);
    NameUndoesPrint(plain, field.column, "");
    if field.path == [] {
      PrintPathEmpty(plain);
      assert key == column;
      if plain && IsBareName(field.column) {
        BareHasNoDot(field.column);
        SplitOne(key, "", '.');
        assert key + "" == key;
        BareIsNotLogic(key);
      } else {
        ClosedIsNotLogic(key);
      }
    } else {
      var last := PrintStep(plain, field.path[|field.path| - 1]);
      StepEnding(plain, field.path[|field.path| - 1]);
      var front := PathEnding(plain, field.path);
      assert key == (column + front) + last;
      if EndsClosed(last) {
        ClosedIsNotLogic(key);
      } else {
        SplitLastSuffix(column + front, last, '.');
        assert last[0] in last && last[0] in LastSegment(key);
      }
    }
  }

  lemma BareIsNotLogic(s: string)
    requires IsBareName(s)
    ensures s != "and" && s != "or"
  {
  }

  lemma LogicKey(negate: bool, logic: Logic)
    ensures Split(PrintNot(negate) + LogicName(logic), '.')
            == (if negate then ["not"] else []) + [LogicName(logic)]
  {
    var name := LogicName(logic);
    assert name + "" == name;
    SplitOne(name, "", '.');
    if negate {
      assert "not." + name == "not" + ("." + name);
      SplitOne("not", "." + name, '.');
      assert ("." + name)[1..] == name;
    } else {
      assert "" + name == name;
    }
  }

  /** Parsing the printed form of a well-formed filter gives the filter back. */
  lemma ParseUndoesPrint(plain: bool, node: FilterNode)
    requires WellFormed(node, 1)
    ensures ParseFilter(PrintKey(plain, node), PrintValue(plain, node)) == Ok(node)
  {
    hide ParseGroup, ParseOperation, ParseKey, Split, PrintGroup, PrintOperation, PrintField,
      WellFormedOperation, WellFormedField;
    var value := PrintValue(plain, node);
    assert value + "" == value;
    match node
    case Group(negate, logic, children) =>
      LogicKey(negate, logic);
      GroupUndoesPrint(plain, negate, logic, children, 1, "");
    case Condition(field, op) =>
      FieldKeyIsNotLogic(plain, field);
      KeyUndoesPrint(plain, field);
      OperationUndoesPrint(plain, false, op, "");
  }

  // ---- Every accepted filter is well-formed ----

  lemma {:induction false} AcceptedPath(s: string)
    requires JsonPath(s).Done?
    ensures forall i | 0 <= i < |JsonPath(s).value| :: WellFormedStep(JsonPath(s).value[i])
    decreases |s|
  {
    if HasPrefix(s, "->") {
      var textual := HasPrefix(s, "->>");
      var s1 := if textual then s[3..] else s[2..];
      StepConsumes(textual, s1);
      AcceptedPath(StepAfterArrow(textual, s1).rest);
    }
  }

  lemma AcceptedOperation(inTree: bool, s: string)
    requires ParseOperation(inTree, s).Done?
    ensures WellFormedOperation(ParseOperation(inTree, s).value)
  {
    var s0 := if HasPrefix(s, "not.") then s[4..] else s;
    var n := Span(s0, IsAsciiLetter);
    var op := s0[..n];
    AcceptedAfterOperator(inTree, HasPrefix(s, "not."), op, s0[n..]);
  }

  lemma AcceptedModifiers(op: string, s: string)
    ensures FtsModifier(s).Done? ==> forall i | 0 <= i < |FtsModifier(s).value| :: IsLangChar(FtsModifier(s).value[i])
    ensures QuantModifier(op, s).Done? && QuantModifier(op, s).value != NoQuant ==> op in QUANTIFIABLE
    ensures IsOperand(s).Done? ==> IsOperand(s).value in IS_VALUES
  {
    hide QUANTIFIABLE, IS_VALUES, HasPrefix;
  }

  lemma AcceptedAfterOperator(inTree: bool, negate: bool, op: string, s: string)
    requires AfterOperator(inTree, negate, op, s).Done?
    ensures WellFormedOperation(AfterOperator(inTree, negate, op, s).value)
  {
    hide List, Operand, HasPrefix, SQL_OPERATORS, FTS_FUNCTIONS, IS_VALUES, QUANTIFIABLE, FtsModifier, QuantModifier, IsOperand;
    AcceptedModifiers(op, s);
    if HasPrefix(s, ".") {
      assert |s| > 0 by { PrefixChar(s, '.'); }
      AcceptedModifiers(op, s[1..]);
    }
  }

  lemma AcceptedLeaf(s: string, depth: nat)
    requires ParseLeaf(s).Done?
    ensures WellFormed(ParseLeaf(s).value, depth)
  {
    var path := JsonPath(Name(s).rest);
    AcceptedPath(Name(s).rest);
    AcceptedOperation(true, path.rest[1..]);
  }

  lemma {:induction false} AcceptedGroup(logic: Logic, negate: bool, depth: nat, s: string)
    requires ParseGroup(logic, negate, depth, s).Done?
    ensures WellFormed(ParseGroup(logic, negate, depth, s).value, depth)
    decreases |s|, 0
  {
    AcceptedMembers(depth, SkipSpaces(s[1..]));
  }

  lemma {:induction false} AcceptedMembers(depth: nat, s: string)
    requires ParseMembers(depth, s).Done?
    ensures ParseMembers(depth, s).value != []
    ensures forall i | 0 <= i < |ParseMembers(depth, s).value| ::
              WellFormed(ParseMembers(depth, s).value[i], depth + 1)
    decreases |s|, 2
  {
    AcceptedCondition(depth, s);
    var rest := ParseCondition(depth, s).rest;
    if HasPrefix(rest, ",") { AcceptedMembers(depth, SkipSpaces(rest[1..])); }
  }

  lemma {:induction false} AcceptedCondition(depth: nat, s: string)
    requires ParseCondition(depth, s).Done?
    ensures WellFormed(ParseCondition(depth, s).value, depth + 1)
    decreases |s|, 1
  {
    hide ParseGroup, ParseLeaf, WellFormed;
    if HasPrefix(s, "and(") { AcceptedGroup(AND, false, depth + 1, s[3..]); }
    else if HasPrefix(s, "or(") { AcceptedGroup(OR, false, depth + 1, s[2..]); }
    else if HasPrefix(s, "not.and(") { AcceptedGroup(AND, true, depth + 1, s[7..]); }
    else if HasPrefix(s, "not.or(") { AcceptedGroup(OR, true, depth + 1, s[6..]); }
    else { AcceptedLeaf(s, depth + 1); }
  }

  /** Every filter the parser accepts is well-formed, so printing and parsing it again gives
      the same tree. */
  lemma AcceptedIsWellFormed(key: string, value: string)
    requires ParseFilter(key, value).Ok?
    ensures WellFormed(ParseFilter(key, value).value, 1)
    ensures var node := ParseFilter(key, value).value;
            forall plain :: ParseFilter(PrintKey(plain, node), PrintValue(plain, node)) == Ok(node)
  {
    hide *;
    AcceptedFilter(key, value);
    var node := ParseFilter(key, value).value;
    ParseUndoesPrint(true, node);
    ParseUndoesPrint(false, node);
  }

  lemma AcceptedFilter(key: string, value: string)
    requires ParseFilter(key, value).Ok?
    ensures WellFormed(ParseFilter(key, value).value, 1)
  {
    hide ParseGroup, ParseOperation, Split, WellFormedOperation, WellFormedStep, Name, JsonPath;
    var segments := Split(key, '.');
    var last := segments[|segments| - 1];
    if last == "and" || last == "or" {
      var negate := |segments| > 1 && segments[|segments| - 2] == "not";
      AcceptedGroup(if last == "and" then AND else OR, negate, 1, value);
    } else {
      AcceptedPath(Name(key).rest);
      AcceptedOperation(false, value);
    }
  }
}
