/** The filter language as a relation between texts and trees: what a client may write for a
    filter, with any quoting, escapes, blanks and letter case. It is stated without the rules of
    the parser, which accepts exactly such texts: every accepted text spells the tree it is read
    as, and a clear spelling of a tree is read as that tree. */
module Spellings {
  import opened Text
  import opened FilterGrammar
  import opened FilterPrinting

  // ---- Characters ----

  predicate IsBlank(c: char) { c in {' ', '\t', '\r', '\n'} }

  predicate Blank(s: string) { forall i | 0 <= i < |s| :: IsBlank(s[i]) }

  predicate IsNameChar(c: char) {
    IsAsciiLetter(c) || IsDigit(c) || c in {'_', '$', ' '} || (c as int >= 128 && c in OTHER_LETTERS)
  }

  // ---- Names and paths ----

  /** The text between quotes: a backslash makes the next character literal, and a quote needs
      one. */
  predicate Unescapes(body: string, v: string) {
    if body == "" then v == ""
    else if body[0] == '\\' then |body| > 1 && v != "" && v[0] == body[1] && Unescapes(body[2..], v[1..])
    else body[0] != '"' && v != "" && v[0] == body[0] && Unescapes(body[1..], v[1..])
  }

  ghost predicate QuotedSpells(s: string, v: string) {
    exists body :: s == "\"" + (body + "\"") && Unescapes(body, v)
  }

  /** Name characters with dashes inside. */
  predicate BareName(s: string) {
    && s != "" && s[0] != '-'
    && forall i | 0 <= i < |s| :: IsNameChar(s[i]) || (s[i] == '-' && i + 1 < |s| && IsNameChar(s[i + 1]))
  }

  /** A clear bare name does not start with a space. */
  ghost predicate NameSpells(clear: bool, s: string, name: string) {
    QuotedSpells(s, name) || (s == name && BareName(s) && (clear ==> s[0] != ' '))
  }

  predicate Digits(s: string) { s != "" && forall i | 0 <= i < |s| :: IsDigit(s[i]) }

  predicate IndexSpells(s: string, index: int) {
    && -0x8000_0000 <= index <= 0x7fff_ffff
    && (|| (Digits(s) && DigitsValue(s) == index)
        || (|s| > 1 && s[0] == '-' && Digits(s[1..]) && DigitsValue(s[1..]) == -index))
  }

  /** What follows the arrow of a step; a clear bare key is not all digits. */
  ghost predicate StepSpells(clear: bool, s: string, step: Step) {
    match step
    case KeyStep(_, key) => NameSpells(clear, s, key) && (clear ==> !Digits(s))
    case IndexStep(_, index) => IndexSpells(s, index)
  }

  function Arrow(step: Step): string { if step.textual then "->>" else "->" }

  ghost predicate PathSpells(clear: bool, s: string, path: seq<Step>)
    decreases |path|
  {
    if path == [] then s == ""
    else
      exists k, tail :: s == Arrow(path[0]) + (k + tail) && StepSpells(clear, k, path[0]) && PathSpells(clear, tail, path[1..])
  }

  ghost predicate FieldSpells(clear: bool, s: string, field: Field) {
    exists name, path :: s == name + path && NameSpells(clear, name, field.column) && PathSpells(clear, path, field.path)
  }

  // ---- Operations ----

  predicate NoStops(s: string) { ',' !in s && ')' !in s }

  /** In a column filter the operand is all that follows. In a tree it is quoted, a {...} literal, or
      plain text without commas and closing parentheses; clear text starts with neither a quote
      nor a brace. */
  ghost predicate OperandSpells(clear: bool, inTree: bool, s: string, v: string) {
    if !inTree then s == v
    else
      || QuotedSpells(s, v)
      || (s == v && (IsBraced(s) || (NoStops(s) && (clear && s != "" ==> s[0] !in {'"', '{'}))))
  }

  /** A list item is quoted or text without commas and closing parentheses; clear text does not start
      with a quote. */
  ghost predicate ItemSpells(clear: bool, s: string, v: string) {
    QuotedSpells(s, v) || (s == v && NoStops(s) && (clear && s != "" ==> s[0] != '"'))
  }

  ghost predicate ItemsSpell(clear: bool, s: string, list: seq<string>)
    requires list != []
    decreases |list|
  {
    if |list| == 1 then ItemSpells(clear, s, list[0])
    else exists a, b :: s == a + ("," + b) && ItemSpells(clear, a, list[0]) && ItemsSpell(clear, b, list[1..])
  }

  /** Between parentheses, with blanks after either; blanks before the first item are not part of it,
      blanks after a comma are. Outside trees the parentheses may be left out. */
  ghost predicate ListSpells(clear: bool, inTree: bool, s: string, list: seq<string>) {
    || (!inTree && s != "" && s[0] != '(' && list != [] && s == Join(list, ',') && forall item | item in list :: ',' !in item)
    || exists before, items, after :: IsList(clear, s, before, items, after, list)
  }

  ghost predicate IsList(clear: bool, s: string, before: string, items: string, after: string, list: seq<string>) {
    && s == "(" + (before + (items + (")" + after))) && Blank(before) && Blank(after)
    && (items != "" ==> !IsBlank(items[0]))
    && if list == [] then items == "" else items != "" && ItemsSpell(clear, items, list)
  }

  /** The same word in any letter case. */
  predicate AnyCase(s: string, word: string) {
    |s| == |word| && forall i | 0 <= i < |s| ::
      s[i] == word[i] || ('A' <= s[i] <= 'Z' && s[i] as int + 32 == word[i] as int)
  }

  predicate IsComparing(op: string) {
    op in {"eq", "neq", "gt", "gte", "lt", "lte", "like", "ilike", "match", "imatch",
           "cs", "cd", "ov", "sl", "sr", "nxr", "nxl", "adj"}
  }

  predicate IsTextSearch(op: string) { op in {"fts", "plfts", "phfts", "wfts"} }

  predicate TakesQuantifier(op: string) {
    op in {"eq", "gt", "gte", "lt", "lte", "like", "ilike", "match", "imatch"}
  }

  predicate ConfigName(s: string) { forall i | 0 <= i < |s| :: IsAsciiLetter(s[i]) || IsDigit(s[i]) || s[i] == '_' }

  /** What may stand between an operator and its dot. */
  predicate ModifierSpells(s: string, op: Operation) {
    match op.quant
    case NoQuant =>
      if op.lang == "" then s == "" else IsTextSearch(op.operator) && ConfigName(op.lang) && s == "(" + op.lang + ")"
    case ANY => op.lang == "" && TakesQuantifier(op.operator) && s == "(any)"
    case ALL => op.lang == "" && TakesQuantifier(op.operator) && s == "(all)"
  }

  ghost predicate ValueSpells(clear: bool, inTree: bool, s: string, op: Operation) {
    if op.operator == "in" then op.value == "" && ListSpells(clear, inTree, s, op.list)
    else
      && op.list == []
      && if op.operator == "is" then
           op.value in {"null", "not_null", "true", "false", "unknown"} && AnyCase(s, op.value)
         else
           && (op.operator == "isdistinct" || IsTextSearch(op.operator) || IsComparing(op.operator))
           && OperandSpells(clear, inTree, s, op.value)
  }

  ghost predicate OperationSpells(clear: bool, inTree: bool, s: string, op: Operation) {
    exists modifier, value ::
      && s == PrintNot(op.negate) + (op.operator + (modifier + ("." + value)))
      && ModifierSpells(modifier, op) && ValueSpells(clear, inTree, value, op)
  }

  // ---- Trees ----

  ghost predicate NodeSpells(clear: bool, s: string, node: FilterNode)
    decreases node, 1
  {
    match node
    case Group(negate, logic, children) =>
      exists group :: s == PrintNot(negate) + (LogicName(logic) + group) && GroupSpells(clear, group, children)
    case Condition(field, op) =>
      exists f, o :: s == f + ("." + o) && FieldSpells(clear, f, field) && OperationSpells(clear, true, o, op)
  }

  /** Members between parentheses; blanks after parentheses and commas change nothing. */
  ghost predicate GroupSpells(clear: bool, s: string, children: seq<FilterNode>)
    decreases children, 3
  {
    children != [] && exists before, members, after :: GroupOf(clear, s, before, members, after, children)
  }

  ghost predicate GroupOf(clear: bool, s: string, before: string, members: string, after: string, children: seq<FilterNode>)
    requires children != []
    decreases children, 2
  {
    && s == "(" + (before + (members + (")" + after))) && Blank(before) && Blank(after)
    && MembersSpell(clear, members, children)
  }

  ghost predicate MembersSpell(clear: bool, s: string, children: seq<FilterNode>)
    requires children != []
    decreases children, 1
  {
    if |children| == 1 then NodeSpells(clear, s, children[0])
    else exists a, before, b ::
           && s == a + ("," + (before + b)) && Blank(before)
           && NodeSpells(clear, a, children[0]) && MembersSpell(clear, b, children[1..])
  }

  /** Groups nested at most n deep. */
  predicate NestedWithin(node: FilterNode, n: int)
    decreases node
  {
    match node
    case Group(_, _, children) => n > 0 && forall i | 0 <= i < |children| :: NestedWithin(children[i], n - 1)
    case Condition(_, _) => true
  }

  /** A query parameter that stands for a tree: a logic tree under and, or, not.and or not.or, or one
      condition, with its field as the key. A clear key is not just the name of a logic operator. */
  ghost predicate FilterSpells(clear: bool, key: string, value: string, node: FilterNode) {
    match node
    case Group(negate, logic, children) => key == PrintNot(negate) + LogicName(logic) && GroupSpells(clear, value, children)
    case Condition(field, op) =>
      FieldSpells(clear, key, field) && OperationSpells(clear, false, value, op) && (clear ==> key !in {"and", "or"})
  }

  // ---- Every accepted text spells its tree ----

  lemma CharactersAgree(c: char)
    ensures IsBlank(c) == IsSpace(c) && IsNameChar(c) == IsNameRune(c)
  {
  }

  lemma {:induction false} QuotedBodySound(t: string) returns (body: string)
    requires QuotedBody(t).Done?
    ensures t == body + ("\"" + QuotedBody(t).rest) && Unescapes(body, QuotedBody(t).value)
    decreases |t|
  {
    if t[0] == '"' {
      body := "";
    } else {
      var n := if t[0] == '\\' then 2 else 1;
      var inner := QuotedBodySound(t[n..]);
      body := t[..n] + inner;
      Associative(t[..n], inner, "\"" + QuotedBody(t).rest);
      assert t == t[..n] + t[n..] && body[n..] == inner;
      var v := QuotedBody(t).value;
      assert v[1..] == QuotedBody(t[n..]).value;
    }
  }

  lemma QuotedSound(t: string) returns (s: string)
    requires Quoted(t).Done?
    ensures t == s + Quoted(t).rest && QuotedSpells(s, Quoted(t).value)
  {
    hide QuotedBody, Unescapes;
    var body := QuotedBodySound(t[1..]);
    s := "\"" + (body + "\"");
    assert t == "\"" + t[1..];
    Associative(body, "\"", Quoted(t).rest);
    Associative("\"", body + "\"", Quoted(t).rest);
  }

  lemma {:induction false} NameSpanSound(t: string, inner: bool)
    ensures forall i | 0 <= i < NameSpan(t, inner) ::
              IsNameRune(t[i]) || (t[i] == '-' && (i > 0 || inner) && i + 1 < NameSpan(t, inner) && IsNameRune(t[i + 1]))
    decreases |t|
  {
    if t != "" && (IsNameRune(t[0]) || (t[0] == '-' && inner && NameRuneAt(t, 1))) {
      NameSpanSound(t[1..], true);
      assert forall i | 0 < i < |t| :: t[i] == t[1..][i - 1];
    }
  }

  lemma NameSound(t: string) returns (s: string)
    requires Name(t).Done?
    ensures t == s + Name(t).rest && NameSpells(false, s, Name(t).value)
  {
    hide Quoted, QuotedSpells;
    if HasPrefix(t, "\"") {
      s := QuotedSound(t);
    } else {
      var n := NameSpan(t, false);
      NameSpanSound(t, false);
      s := t[..n];
      forall i | 0 <= i < |s|
        ensures IsNameChar(s[i]) || (s[i] == '-' && i + 1 < |s| && IsNameChar(s[i + 1]))
      {
        CharactersAgree(s[i]);
        if i + 1 < |s| { CharactersAgree(s[i + 1]); }
      }
    }
  }

  lemma IndexSound(t: string) returns (s: string)
    requires ArrayIndex(t).Done?
    ensures t == s + ArrayIndex(t).rest && IndexSpells(s, ArrayIndex(t).value)
  {
    s := t[..IndexLength(t)];
  }

  lemma StepSound(textual: bool, t: string) returns (k: string)
    requires StepAfterArrow(textual, t).Done?
    ensures t == k + StepAfterArrow(textual, t).rest && StepSpells(false, k, StepAfterArrow(textual, t).value)
    ensures StepAfterArrow(textual, t).value.textual == textual
  {
    hide ArrayIndex, Name, NameSpells, IndexSpells;
    if ArrayIndex(t).Done? {
      k := IndexSound(t);
    } else {
      k := NameSound(t);
    }
  }

  lemma {:induction false} PathSound(t: string) returns (s: string)
    requires JsonPath(t).Done?
    ensures t == s + JsonPath(t).rest && PathSpells(false, s, JsonPath(t).value)
    decreases |t|
  {
    hide StepAfterArrow, StepSpells;
    if HasPrefix(t, "->") {
      var textual := HasPrefix(t, "->>");
      var t1 := if textual then t[3..] else t[2..];
      StepConsumes(textual, t1);
      var k := StepSound(textual, t1);
      var step := StepAfterArrow(textual, t1);
      var tail := PathSound(step.rest);
      var arrow := Arrow(step.value);
      s := arrow + (k + tail);
      assert t == arrow + t1;
      hide JsonPath, HasPrefix;
      Associative(k, tail, JsonPath(step.rest).rest);
      Associative(arrow, k + tail, JsonPath(step.rest).rest);
      PathOf(arrow, k, tail, step.value, JsonPath(step.rest).value);
    } else {
      s := "";
    }
  }

  lemma PathOf(arrow: string, k: string, tail: string, step: Step, path: seq<Step>)
    requires arrow == Arrow(step) && StepSpells(false, k, step) && PathSpells(false, tail, path)
    ensures PathSpells(false, arrow + (k + tail), [step] + path)
  {
    hide StepSpells;
    var whole := [step] + path;
    assert whole[0] == step && whole[1..] == path;
    assert StepSpells(false, k, whole[0]) && PathSpells(false, tail, whole[1..]);
  }

  lemma FieldSound(t: string) returns (s: string)
    requires Name(t).Done? && JsonPath(Name(t).rest).Done?
    ensures var path := JsonPath(Name(t).rest);
            t == s + path.rest && FieldSpells(false, s, Field(Name(t).value, path.value))
  {
    hide Name, JsonPath, NameSpells, PathSpells;
    var name := NameSound(t);
    var path := PathSound(Name(t).rest);
    s := name + path;
    Associative(name, path, JsonPath(Name(t).rest).rest);
  }

  // Operations

  lemma QuotedElementSound(t: string) returns (s: string)
    requires QuotedElement(t).Done?
    ensures t == s + QuotedElement(t).rest && QuotedSpells(s, QuotedElement(t).value)
  {
    hide Quoted, QuotedSpells;
    s := QuotedSound(t);
  }

  lemma UntilSound(t: string)
    ensures var (v, rest) := Until(t, ELEMENT_STOPS); t == v + rest && NoStops(v)
  {
  }

  lemma BraceSound(t: string)
    requires HasPrefix(t, "{") && BraceLiteral(t) > 0
    ensures IsBraced(t[..BraceLiteral(t)])
  {
    var n := BraceLiteral(t);
    var t1 := t[1..];
    assert forall i | 0 <= i < n - 2 :: Outside({'{', '}'})(t1[i]);
    assert forall i | 0 < i < n - 1 :: t[i] == t1[i - 1];
  }

  lemma OperandSound(inTree: bool, t: string) returns (s: string)
    ensures var (v, rest) := Operand(inTree, t); t == s + rest && OperandSpells(false, inTree, s, v)
  {
    hide QuotedElement, QuotedSpells, BraceLiteral, Until, NoStops, IsBraced;
    if !inTree {
      s := t;
      assert t + "" == t;
    } else if QuotedElement(t).Done? {
      s := QuotedElementSound(t);
    } else if HasPrefix(t, "{") && BraceLiteral(t) > 0 {
      BraceSound(t);
      s := t[..BraceLiteral(t)];
    } else {
      UntilSound(t);
      s := Until(t, ELEMENT_STOPS).0;
    }
  }

  lemma ItemSound(t: string) returns (s: string)
    ensures var (v, rest) := ListItem(t); t == s + rest && ItemSpells(false, s, v)
  {
    hide QuotedElement, QuotedSpells, Until, NoStops;
    if QuotedElement(t).Done? {
      s := QuotedElementSound(t);
    } else {
      UntilSound(t);
      s := Until(t, ELEMENT_STOPS).0;
    }
  }

  lemma {:induction false} ItemsSound(t: string) returns (s: string)
    ensures ListItems(t).value != [] && t == s + ListItems(t).rest && ItemsSpell(false, s, ListItems(t).value)
    decreases |t|
  {
    hide ListItem, ItemSpells;
    var (item, rest) := ListItem(t);
    var a := ItemSound(t);
    ListItemConsumes(t);
    if HasPrefix(rest, ",") {
      assert rest == "," + rest[1..];
      var b := ItemsSound(rest[1..]);
      var list, after := ListItems(rest[1..]).value, ListItems(rest[1..]).rest;
      s := a + ("," + b);
      Associative(",", b, after);
      Associative(a, "," + b, after);
      assert ([item] + list)[1..] == list;
      hide ListItems;
      assert ItemsSpell(false, s, [item] + list);
    } else {
      s := a;
    }
  }

  lemma SpacesSound(t: string) returns (blank: string)
    ensures t == blank + SkipSpaces(t) && Blank(blank)
  {
    blank := t[..Span(t, IsSpace)];
  }

  lemma ListSound(inTree: bool, t: string) returns (s: string)
    requires List(inTree, t).Done?
    ensures t == s + List(inTree, t).rest && ListSpells(false, inTree, s, List(inTree, t).value)
  {
    if !HasPrefix(t, "(") {
      s := t;
      PrefixChar(t, '(');
      JoinSplit(t, ',');
      assert t + "" == t;
    } else {
      s := BetweenParentheses(inTree, t);
    }
  }

  lemma BetweenParentheses(inTree: bool, t: string) returns (s: string)
    requires List(inTree, t).Done? && HasPrefix(t, "(")
    ensures t == s + List(inTree, t).rest && ListSpells(false, inTree, s, List(inTree, t).value)
  {
    var s1 := SkipSpaces(t[1..]);
    var items, s2 := ItemsOrNone(s1);
    hide ListSpells, ItemsSpell, ListItems, Blank, Split, Join, SkipSpaces;
    var before := SpacesSound(t[1..]);
    var after := SpacesSound(s2[1..]);
    var list, rest := List(inTree, t).value, List(inTree, t).rest;
    s := "(" + (before + (items + (")" + after)));
    Parenthesized(inTree, before, items, after, list);
    OpensWith(t, "(");
    OpensWith(s2, ")");
    hide List, HasPrefix;
    FivePieces("(", before, items, ")", after, rest);
  }

  lemma OpensWith(t: string, token: string)
    requires HasPrefix(t, token)
    ensures t == token + t[|token|..]
  {
  }

  lemma ItemsOrNone(s1: string) returns (items: string, s2: string)
    requires s1 == "" || !IsSpace(s1[0])
    ensures var list := if HasPrefix(s1, ")") then Done([], s1) else ListItems(s1);
            && s2 == list.rest && s1 == items + s2 && (items != "" ==> !IsBlank(items[0]))
            && if list.value == [] then items == ""
               else ItemsSpell(false, items, list.value) && (HasPrefix(s2, ")") ==> items != "")
  {
    hide ListItems, ItemsSpell;
    items, s2 := "", s1;
    if !HasPrefix(s1, ")") {
      items := ItemsSound(s1);
      s2 := ListItems(s1).rest;
      ItemsNotEmpty(items, s1, s2);
    }
    assert items != "" ==> items[0] == s1[0];
  }

  lemma Parenthesized(inTree: bool, before: string, items: string, after: string, list: seq<string>)
    requires Blank(before) && Blank(after) && (items != "" ==> !IsBlank(items[0]))
    requires if list == [] then items == "" else items != "" && ItemsSpell(false, items, list)
    ensures ListSpells(false, inTree, "(" + (before + (items + (")" + after))), list)
  {
    hide ItemsSpell;
    assert IsList(false, "(" + (before + (items + (")" + after))), before, items, after, list);
  }

  /** The text of one or more items is not empty, or it would have been read as no items. */
  lemma ItemsNotEmpty(items: string, s1: string, s2: string)
    requires s1 == items + s2 && !HasPrefix(s1, ")")
    ensures HasPrefix(s2, ")") ==> items != ""
  {
    if items == "" { assert items + s2 == s2; }
  }

  lemma FivePieces(a: string, b: string, c: string, d: string, e: string, rest: string)
    ensures (a + (b + (c + (d + e)))) + rest == a + (b + (c + (d + (e + rest))))
  {
    Associative(d, e, rest);
    Associative(c, d + e, rest);
    Associative(b, c + (d + e), rest);
    Associative(a, b + (c + (d + e)), rest);
  }

  lemma IsSound(t: string) returns (s: string)
    requires IsOperand(t).Done?
    ensures t == s + IsOperand(t).rest && AnyCase(s, IsOperand(t).value)
    ensures IsOperand(t).value in {"null", "not_null", "true", "false", "unknown"}
  {
    s := t[..Span(t, IsIsChar)];
  }

  lemma FtsSound(op: string, t: string) returns (s: string)
    requires IsTextSearch(op) && FtsModifier(t).Done?
    ensures t == s + FtsModifier(t).rest
    ensures forall negate, value ::
              ModifierSpells(s, Operation(negate, op, NoQuant, FtsModifier(t).value, value, []))
  {
    var lang, rest := FtsModifier(t).value, FtsModifier(t).rest;
    s := t[..|t| - |rest|];
    if HasPrefix(t, "(") {
      var t1 := t[1..];
      var n := |lang|;
      assert lang == t1[..n] && t1[n..] == ")" + rest;
      assert forall i | 0 <= i < n :: IsLangChar(t1[i]);
      hide FtsModifier;
      assert s == "(" + lang + ")";
    }
  }

  lemma QuantSound(op: string, t: string) returns (s: string)
    requires QuantModifier(op, t).Done?
    ensures t == s + QuantModifier(op, t).rest
    ensures forall negate, value ::
              ModifierSpells(s, Operation(negate, op, QuantModifier(op, t).value, "", value, []))
  {
    s := "";
    if HasPrefix(t, "(") {
      var t1 := t[1..];
      var any := HasPrefix(t1, "any)");
      s := if any then "(any)" else "(all)";
      assert t == "(" + t1 && t1 == (if any then "any)" else "all)") + t1[4..];
    }
  }

  lemma OperationParts(inTree: bool, t: string) returns (negate: bool, name: string, after: string)
    requires ParseOperation(inTree, t).Done?
    ensures t == PrintNot(negate) + (name + after) && ParseOperation(inTree, t) == AfterOperator(inTree, negate, name, after)
  {
    hide AfterOperator, Span, PrintNot, HasPrefix;
    negate := HasPrefix(t, "not.");
    NotOff(t);
    var t0 := if negate then t[4..] else t;
    name, after := NameOff(t0);
  }

  lemma NotOff(t: string)
    ensures var negate := HasPrefix(t, "not.");
            (negate ==> |t| >= 4) && t == PrintNot(negate) + if negate then t[4..] else t
  {
    if HasPrefix(t, "not.") { OpensWith(t, "not."); } else { assert "" + t == t; }
  }

  lemma NameOff(t: string) returns (name: string, after: string)
    ensures t == name + after && name == t[..Span(t, IsAsciiLetter)] && after == t[Span(t, IsAsciiLetter)..]
  {
    var n := Span(t, IsAsciiLetter);
    name, after := t[..n], t[n..];
  }

  lemma OperationSound(inTree: bool, t: string) returns (s: string)
    requires ParseOperation(inTree, t).Done?
    ensures t == s + ParseOperation(inTree, t).rest && OperationSpells(false, inTree, s, ParseOperation(inTree, t).value)
  {
    hide ParseOperation, AfterOperator, ModifierSpells, ValueSpells, PrintNot;
    var negate, name, after := OperationParts(inTree, t);
    var modifier, value := AfterOperatorSound(inTree, negate, name, after);
    s := PrintNot(negate) + (name + (modifier + ("." + value)));
    FivePieces(PrintNot(negate), name, modifier, ".", value, ParseOperation(inTree, t).rest);
  }

  lemma OperatorsNamed(op: string)
    ensures op in SQL_OPERATORS <==> IsComparing(op)
    ensures op in FTS_FUNCTIONS <==> IsTextSearch(op)
    ensures op in QUANTIFIABLE <==> TakesQuantifier(op)
  {
  }

  lemma AnyModifierSound(inTree: bool, negate: bool, name: string, t: string)
    returns (modifier: string, lang: string, quant: Quant, t1: string)
    requires AfterOperator(inTree, negate, name, t).Done? && name !in {"in", "is"}
    ensures AfterOperator(inTree, negate, name, t) == FinishOperation(inTree, negate, name, quant, lang, t1)
    ensures t == modifier + t1
    ensures forall value :: ModifierSpells(modifier, Operation(negate, name, quant, lang, value, []))
    ensures name == "isdistinct" || IsTextSearch(name) || IsComparing(name)
  {
    OperatorsNamed(name);
    hide SQL_OPERATORS, FTS_FUNCTIONS, FtsModifier, QuantModifier, FinishOperation, IsComparing, IsTextSearch,
      List, IsOperand;
    modifier, lang, quant, t1 := "", "", NoQuant, t;
    if name == "isdistinct" {
    } else if name in FTS_FUNCTIONS {
      modifier := FtsSound(name, t);
      lang, t1 := FtsModifier(t).value, FtsModifier(t).rest;
    } else {
      modifier := QuantSound(name, t);
      quant, t1 := QuantModifier(name, t).value, QuantModifier(name, t).rest;
    }
  }

  lemma FinishSound(inTree: bool, negate: bool, name: string, quant: Quant, lang: string, t: string)
    returns (value: string)
    requires FinishOperation(inTree, negate, name, quant, lang, t).Done? && name !in {"in", "is"}
    requires name == "isdistinct" || IsTextSearch(name) || IsComparing(name)
    ensures var r := FinishOperation(inTree, negate, name, quant, lang, t);
            && t == "." + (value + r.rest) && ValueSpells(false, inTree, value, r.value)
            && r.value == Operation(negate, name, quant, lang, r.value.value, [])
  {
    hide Operand, OperandSpells, IsComparing, IsTextSearch;
    assert t == "." + t[1..];
    value := OperandSound(inTree, t[1..]);
  }

  lemma AfterOperatorSound(inTree: bool, negate: bool, name: string, t: string) returns (modifier: string, value: string)
    requires AfterOperator(inTree, negate, name, t).Done?
    ensures var op, rest := AfterOperator(inTree, negate, name, t).value, AfterOperator(inTree, negate, name, t).rest;
            && t == modifier + ("." + (value + rest)) && op.negate == negate && op.operator == name
            && ModifierSpells(modifier, op) && ValueSpells(false, inTree, value, op)
  {
    if name == "in" || name == "is" {
      modifier := "";
      value := ListedSound(inTree, negate, name, t);
    } else {
      hide AfterOperator, FinishOperation, ModifierSpells, ValueSpells, IsComparing, IsTextSearch;
      var lang, quant, t1;
      modifier, lang, quant, t1 := AnyModifierSound(inTree, negate, name, t);
      value := FinishSound(inTree, negate, name, quant, lang, t1);
    }
  }

  lemma ListedSound(inTree: bool, negate: bool, name: string, t: string) returns (value: string)
    requires AfterOperator(inTree, negate, name, t).Done? && name in {"in", "is"}
    ensures var op, rest := AfterOperator(inTree, negate, name, t).value, AfterOperator(inTree, negate, name, t).rest;
            && t == "" + ("." + (value + rest)) && op.negate == negate && op.operator == name
            && ModifierSpells("", op) && ValueSpells(false, inTree, value, op)
  {
    hide List, IsOperand, ListSpells, AnyCase, SQL_OPERATORS, FTS_FUNCTIONS;
    assert t == "." + t[1..];
    if name == "in" {
      value := ListSound(inTree, t[1..]);
    } else {
      value := IsSound(t[1..]);
    }
  }

  // Trees

  lemma LeafSound(t: string) returns (s: string)
    requires ParseLeaf(t).Done?
    ensures t == s + ParseLeaf(t).rest && NodeSpells(false, s, ParseLeaf(t).value)
  {
    hide Name, JsonPath, ParseOperation, FieldSpells, OperationSpells;
    var f := FieldSound(t);
    var path := JsonPath(Name(t).rest);
    var o := OperationSound(true, path.rest[1..]);
    var rest := ParseLeaf(t).rest;
    OpensWith(path.rest, ".");
    s := f + ("." + o);
    Associative(".", o, rest);
    Associative(f, "." + o, rest);
  }

  lemma {:induction false} GroupSound(logic: Logic, negate: bool, depth: nat, t: string) returns (s: string)
    requires ParseGroup(logic, negate, depth, t).Done?
    ensures var r := ParseGroup(logic, negate, depth, t);
            && t == s + r.rest && r.value == Group(negate, logic, r.value.children)
            && GroupSpells(false, s, r.value.children) && NestedWithin(r.value, 33 - depth)
    decreases |t|, 0
  {
    hide ParseMembers, MembersSpell, SkipSpaces, Blank, NestedWithin;
    var t1 := SkipSpaces(t[1..]);
    var before := SpacesSound(t[1..]);
    var members := MembersSound(depth, t1);
    var list := ParseMembers(depth, t1);
    var after := SpacesSound(list.rest[1..]);
    OpensWith(t, "(");
    OpensWith(list.rest, ")");
    s := "(" + (before + (members + (")" + after)));
    FivePieces("(", before, members, ")", after, ParseGroup(logic, negate, depth, t).rest);
    GroupNested(negate, logic, list.value, depth);
    assert GroupOf(false, s, before, members, after, list.value);
  }

  lemma GroupNested(negate: bool, logic: Logic, children: seq<FilterNode>, depth: nat)
    requires depth <= MAX_FILTER_DEPTH && forall i | 0 <= i < |children| :: NestedWithin(children[i], 32 - depth)
    ensures NestedWithin(Group(negate, logic, children), 33 - depth)
  {
  }

  lemma {:induction false} MembersSound(depth: nat, t: string) returns (s: string)
    requires ParseMembers(depth, t).Done?
    ensures var r := ParseMembers(depth, t);
            && r.value != [] && t == s + r.rest && MembersSpell(false, s, r.value)
            && forall i | 0 <= i < |r.value| :: NestedWithin(r.value[i], 32 - depth)
    decreases |t|, 2
  {
    hide ParseCondition, NodeSpells, SkipSpaces, Blank, NestedWithin;
    var child := ParseCondition(depth, t);
    var a := ConditionSound(depth, t);
    if HasPrefix(child.rest, ",") {
      OpensWith(child.rest, ",");
      var before := SpacesSound(child.rest[1..]);
      var t1 := SkipSpaces(child.rest[1..]);
      var b := MembersSound(depth, t1);
      var list, rest := ParseMembers(depth, t1).value, ParseMembers(depth, t1).rest;
      s := a + ("," + (before + b));
      hide ParseMembers, HasPrefix;
      Associative(before, b, rest);
      Associative(",", before + b, rest);
      Associative(a, "," + (before + b), rest);
      MembersOf(a, before, b, child.value, list);
    } else {
      s := a;
    }
  }

  lemma MembersOf(a: string, before: string, b: string, child: FilterNode, list: seq<FilterNode>)
    requires list != [] && Blank(before) && NodeSpells(false, a, child) && MembersSpell(false, b, list)
    ensures MembersSpell(false, a + ("," + (before + b)), [child] + list)
  {
    hide NodeSpells, Blank;
    var whole := [child] + list;
    assert whole[0] == child && whole[1..] == list;
    assert NodeSpells(false, a, whole[0]) && MembersSpell(false, b, whole[1..]);
  }

  lemma {:induction false} ConditionSound(depth: nat, t: string) returns (s: string)
    requires ParseCondition(depth, t).Done?
    ensures var r := ParseCondition(depth, t);
            t == s + r.rest && NodeSpells(false, s, r.value) && NestedWithin(r.value, 32 - depth)
    decreases |t|, 1
  {
    hide ParseGroup, ParseLeaf, GroupSpells, FieldSpells, OperationSpells;
    var logic := if HasPrefix(t, "and(") || HasPrefix(t, "not.and(") then AND else OR;
    var negate := HasPrefix(t, "not.and(") || HasPrefix(t, "not.or(");
    var opener := PrintNot(negate) + LogicName(logic);
    if HasPrefix(t, "and(") || HasPrefix(t, "or(") || HasPrefix(t, "not.and(") || HasPrefix(t, "not.or(") {
      ConditionIsGroup(depth, t, negate, logic);
      var t1 := t[|opener|..];
      var group := GroupSound(logic, negate, depth + 1, t1);
      s := PrintNot(negate) + (LogicName(logic) + group);
      hide ParseCondition, HasPrefix, NestedWithin;
      Associative(LogicName(logic), group, ParseGroup(logic, negate, depth + 1, t1).rest);
      Associative(PrintNot(negate), LogicName(logic) + group, ParseGroup(logic, negate, depth + 1, t1).rest);
      Associative(PrintNot(negate), LogicName(logic), t1);
    } else {
      s := LeafSound(t);
      LeafIsCondition(t);
    }
  }

  lemma LeafIsCondition(t: string)
    requires ParseLeaf(t).Done?
    ensures ParseLeaf(t).value.Condition?
  {
  }

  lemma ConditionIsGroup(depth: nat, t: string, negate: bool, logic: Logic)
    requires HasPrefix(t, "and(") || HasPrefix(t, "or(") || HasPrefix(t, "not.and(") || HasPrefix(t, "not.or(")
    requires logic == if HasPrefix(t, "and(") || HasPrefix(t, "not.and(") then AND else OR
    requires negate == (HasPrefix(t, "not.and(") || HasPrefix(t, "not.or("))
    ensures var opener := PrintNot(negate) + LogicName(logic);
            && |t| > |opener| && t == opener + t[|opener|..]
            && ParseCondition(depth, t) == ParseGroup(logic, negate, depth + 1, t[|opener|..])
  {
    hide ParseGroup, ParseLeaf;
  }

  lemma LogicKeySound(key: string)
    requires LastSegment(key) in {"and", "or"}
    requires |Split(key, '.')| <= 2 && (|Split(key, '.')| == 2 ==> Split(key, '.')[0] == "not")
    ensures key == PrintNot(|Split(key, '.')| == 2) + LogicName(if LastSegment(key) == "and" then AND else OR)
  {
    hide Split;
    var parts := Split(key, '.');
    JoinSplit(key, '.');
    if |parts| == 2 {
      assert parts[1..] == [parts[1]] && Join(parts, '.') == parts[0] + "." + parts[1];
    }
  }

  lemma GroupFilterSound(key: string, value: string)
    requires ParseFilter(key, value).Ok? && LastSegment(key) in {"and", "or"}
    ensures FilterSpells(false, key, value, ParseFilter(key, value).value)
    ensures NestedWithin(ParseFilter(key, value).value, 32)
  {
    hide ParseGroup, Split, GroupSpells, NestedWithin;
    var segments := Split(key, '.');
    var negate := |segments| > 1 && segments[|segments| - 2] == "not";
    LogicKeySound(key);
    var logic := if LastSegment(key) == "and" then AND else OR;
    var s := GroupSound(logic, negate, 1, value);
    assert s + "" == s;
  }

  lemma KeySound(key: string)
    requires ParseKey(key).Ok?
    ensures FieldSpells(false, key, ParseKey(key).value)
  {
    hide Name, JsonPath, FieldSpells;
    var s := FieldSound(key);
    assert s + "" == s;
  }

  /** Every accepted filter spells the tree it is read as, nested at most 32 deep. */
  lemma AcceptedIsSpelled(key: string, value: string)
    requires ParseFilter(key, value).Ok?
    ensures FilterSpells(false, key, value, ParseFilter(key, value).value)
    ensures NestedWithin(ParseFilter(key, value).value, 32)
  {
    hide ParseGroup, ParseOperation, ParseKey, Split, FieldSpells, OperationSpells, GroupSpells;
    if LastSegment(key) in {"and", "or"} {
      GroupFilterSound(key, value);
    } else {
      KeySound(key);
      var s := OperationSound(false, value);
      assert s + "" == s;
    }
  }

  // ---- Every clear spelling is read as its tree; rest is what follows in the input ----

  lemma {:induction false} QuotedBodyReads(body: string, v: string, rest: string)
    requires Unescapes(body, v)
    ensures QuotedBody(body + ("\"" + rest)) == Done(v, rest)
    decreases |body|
  {
    var t := body + ("\"" + rest);
    if body == "" {
      assert t == "\"" + rest && t[1..] == rest;
    } else {
      var n := if body[0] == '\\' then 2 else 1;
      QuotedBodyReads(body[n..], v[1..], rest);
      assert t[n..] == body[n..] + ("\"" + rest) && t[..n] == body[..n];
      assert [v[0]] + v[1..] == v;
    }
  }

  lemma QuotedReads(s: string, v: string, rest: string)
    requires QuotedSpells(s, v)
    ensures |s| > 1 && s[0] == '"' && s[|s| - 1] == '"'
    ensures Quoted(s + rest) == Done(v, rest) && Name(s + rest) == Done(v, rest)
    ensures EndsValue(rest) ==> QuotedElement(s + rest) == Done(v, rest)
  {
    var body :| s == "\"" + (body + "\"") && Unescapes(body, v);
    QuotedBodyReads(body, v, rest);
    Associative("\"", body + "\"", rest);
    Associative(body, "\"", rest);
    PrefixOfConcat("\"", body + ("\"" + rest));
  }

  lemma BareCharactersAgree(s: string)
    requires BareName(s)
    ensures forall i | 0 <= i < |s| :: IsNameRune(s[i]) || (s[i] == '-' && NameRuneAt(s, i + 1))
  {
    forall i | 0 <= i < |s|
      ensures IsNameRune(s[i]) || (s[i] == '-' && NameRuneAt(s, i + 1))
    {
      CharactersAgree(s[i]);
      if i + 1 < |s| { CharactersAgree(s[i + 1]); }
    }
  }

  lemma NameReads(s: string, name: string, rest: string)
    requires NameSpells(true, s, name) && EndsName(rest)
    ensures Name(s + rest) == Done(name, rest)
    ensures s != "" && !IsSpace(s[0]) && s[0] != '>'
  {
    if QuotedSpells(s, name) {
      QuotedReads(s, name, rest);
    } else {
      BareCharactersAgree(s);
      BareNameSpan(s, false, rest);
      var text := s + rest;
      NoPrefix(text, "\"", 0);
      assert text[..|s|] == s && text[|s|..] == rest;
    }
  }

  lemma IndexReads(s: string, index: int, rest: string)
    requires IndexSpells(s, index) && EndsName(rest)
    ensures ArrayIndex(s + rest) == Done(index, rest)
    ensures s != "" && s[0] != '>'
  {
    var negative := s[0] == '-';
    var digits := if negative then s[1..] else s;
    assert s == if negative then "-" + digits else digits;
    IndexLengthOfPrint(negative, digits, rest);
    var text := s + rest;
    assert text[..|s|] == s && text[|s|..] == rest;
  }

  lemma NotAnIndex(s: string, key: string, rest: string)
    requires NameSpells(true, s, key) && !Digits(s)
    ensures ArrayIndex(s + rest).Fail?
  {
    var text := s + rest;
    if QuotedSpells(s, key) {
      QuotedReads(s, key, rest);
      NoPrefix(text, "-", 0);
      assert text[0..] == text;
      SpanIs(text, IsDigit, 0);
    } else {
      BareIsNoIndex(s, rest);
    }
  }

  lemma BareIsNoIndex(s: string, rest: string)
    requires BareName(s) && !Digits(s)
    ensures ArrayIndex(s + rest).Fail?
  {
    var text := s + rest;
    BareCharactersAgree(s);
    NoPrefix(text, "-", 0);
    assert text[0..] == text;
    var n := Span(s, IsDigit);
    assert forall i | 0 <= i < |s| :: text[i] == s[i];
    SpanIs(text, IsDigit, n);
    assert NameRuneAt(text, n) || (text[n] == '-' && NameRuneAt(text, n + 1));
  }

  lemma StepReads(k: string, step: Step, rest: string)
    requires StepSpells(true, k, step) && EndsName(rest)
    ensures StepAfterArrow(step.textual, k + rest) == Done(step, rest)
    ensures k != "" && k[0] != '>'
  {
    hide NameSpells, IndexSpells, Digits, ArrayIndex, Name;
    match step
    case KeyStep(_, key) =>
      NameReads(k, key, rest);
      NotAnIndex(k, key, rest);
    case IndexStep(_, index) => IndexReads(k, index, rest);
  }

  lemma {:induction false} PathReads(s: string, path: seq<Step>, rest: string)
    requires PathSpells(true, s, path)
    requires rest == "" || rest[0] == '.'
    ensures EndsName(s + rest) && JsonPath(s + rest) == Done(path, rest)
    ensures if path == [] then s == "" else s != "" && s[0] == '-'
    decreases |path|
  {
    hide JsonPath, HasPrefix, StepAfterArrow, StepSpells;
    if path == [] {
      assert s + rest == rest;
      NoPath(rest);
    } else {
      var k, tail :| s == Arrow(path[0]) + (k + tail) && StepSpells(true, k, path[0]) && PathSpells(true, tail, path[1..]);
      PathReads(tail, path[1..], rest);
      StepReads(k, path[0], tail + rest);
      var after := k + (tail + rest);
      Associative(Arrow(path[0]), k + tail, rest);
      Associative(k, tail, rest);
      ArrowTold(path[0].textual, after);
      PathStep(Arrow(path[0]) + after, path[0].textual, path[0], tail + rest);
      assert [path[0]] + path[1..] == path;
    }
  }

  // Operations

  lemma SkipBlank(blank: string, t: string)
    requires Blank(blank) && (t == "" || !IsBlank(t[0]))
    ensures SkipSpaces(blank + t) == t
  {
    assert forall i | 0 <= i < |blank| :: IsSpace(blank[i]);
    SpanOfRun(blank, t, IsSpace);
  }

  lemma EndIsNoBlank(rest: string)
    requires EndsValue(rest)
    ensures rest == "" || !IsBlank(rest[0])
  {
  }

  lemma PlainReads(s: string, rest: string)
    requires NoStops(s) && EndsValue(rest)
    ensures Until(s + rest, ELEMENT_STOPS) == (s, rest)
    ensures (s != "" && s[0] == '"') || QuotedElement(s + rest).Fail?
  {
    hide Until;
    BareUntil(s, rest);
    if s + rest == "" {
      NotQuoted("");
    } else if s == "" || s[0] != '"' {
      NoQuotedElement(s + rest);
    }
  }

  lemma NotQuoted(s: string)
    requires s == ""
    ensures QuotedElement(s).Fail?
  {
  }

  lemma OperandReads(inTree: bool, s: string, v: string, rest: string)
    requires OperandSpells(true, inTree, s, v)
    requires if inTree then EndsValue(rest) else rest == ""
    ensures Operand(inTree, s + rest) == (v, rest)
  {
    hide QuotedElement, Until, BraceLiteral, QuotedSpells;
    if !inTree {
      assert s + "" == s;
    } else if QuotedSpells(s, v) {
      QuotedReads(s, v, rest);
    } else if IsBraced(s) {
      BracedReads(s, rest);
      NoQuotedElement(s + rest);
    } else {
      PlainReads(s, rest);
      if s + rest != "" { NoPrefix(s + rest, "{", 0); }
    }
  }

  lemma ItemReads(s: string, v: string, rest: string)
    requires ItemSpells(true, s, v) && EndsValue(rest)
    ensures ListItem(s + rest) == (v, rest)
    ensures s != "" ==> s[0] != ')'
  {
    hide QuotedElement, Until, QuotedSpells;
    if QuotedSpells(s, v) {
      QuotedReads(s, v, rest);
    } else {
      PlainReads(s, rest);
      if s != "" { assert s[0] in s; }
    }
  }

  lemma {:induction false} ItemsRead(s: string, list: seq<string>, rest: string)
    requires list != [] && ItemsSpell(true, s, list)
    requires rest != "" && rest[0] == ')'
    ensures ListItems(s + rest) == Done(list, rest)
    ensures s != "" ==> s[0] != ')'
    decreases |list|
  {
    hide ListItem, ItemSpells, HasPrefix, Span;
    if |list| == 1 {
      ItemReads(s, list[0], rest);
      NoPrefix(rest, ",", 0);
      assert list == [list[0]];
    } else {
      var a, b :| s == a + ("," + b) && ItemSpells(true, a, list[0]) && ItemsSpell(true, b, list[1..]);
      ItemsRead(b, list[1..], rest);
      var tail := "," + (b + rest);
      ItemReads(a, list[0], tail);
      Associative(a, "," + b, rest);
      Associative(",", b, rest);
      PrefixOfConcat(",", b + rest);
      assert [list[0]] + list[1..] == list;
    }
  }

  lemma ListReads(inTree: bool, s: string, list: seq<string>, rest: string)
    requires ListSpells(true, inTree, s, list)
    requires if inTree then EndsValue(rest) else rest == ""
    ensures List(inTree, s + rest) == Done(list, rest)
  {
    hide IsList, Split, Join;
    if before, items, after :| IsList(true, s, before, items, after, list) {
      ParenthesesRead(inTree, s, before, items, after, list, rest);
    } else {
      assert s + "" == s;
      PrefixChar(s, '(');
      SplitJoin(list, ',');
    }
  }

  lemma ParenthesesRead(
    inTree: bool, s: string, before: string, items: string, after: string, list: seq<string>, rest: string)
    requires IsList(true, s, before, items, after, list) && EndsValue(rest)
    ensures List(inTree, s + rest) == Done(list, rest)
  {
    hide ListItems, ItemsSpell, SkipSpaces, Blank, EndsValue;
    FivePieces("(", before, items, ")", after, rest);
    var close := ")" + (after + rest);
    EndIsNoBlank(rest);
    SkipBlank(after, rest);
    SkipBlank(before, items + close);
    PrefixOfConcat("(", before + (items + close));
    PrefixOfConcat(")", after + rest);
    if list == [] {
      assert items + close == close;
    } else {
      ItemsRead(items, list, close);
      NoPrefix(items + close, ")", 0);
    }
  }

  lemma IsReads(s: string, value: string, rest: string)
    requires value in {"null", "not_null", "true", "false", "unknown"} && AnyCase(s, value) && EndsValue(rest)
    ensures IsOperand(s + rest) == Done(value, rest)
  {
    IsValuesAreLowerCase(value);
    forall i | 0 <= i < |s|
      ensures IsIsChar(s[i]) && ToLowerChar(s[i]) == value[i]
    {
      LowerCase(s[i], value[i]);
    }
    SpanOfRun(s, rest, IsIsChar);
    assert ToLower(s) == value;
  }

  lemma LowerCase(c: char, l: char)
    requires IsIsChar(l) && ToLowerChar(l) == l && (c == l || ('A' <= c <= 'Z' && c as int + 32 == l as int))
    ensures IsIsChar(c) && ToLowerChar(c) == l
  {
  }

  lemma FinishReads(inTree: bool, value: string, op: Operation, rest: string)
    requires ValueSpells(true, inTree, value, op) && op.operator !in {"in", "is"}
    requires if inTree then EndsValue(rest) else rest == ""
    ensures FinishOperation(inTree, op.negate, op.operator, op.quant, op.lang, "." + (value + rest)) == Done(op, rest)
  {
    hide Operand, OperandSpells;
    OperandReads(inTree, value, op.value, rest);
    PrefixOfConcat(".", value + rest);
  }

  lemma ModifierReads(modifier: string, op: Operation, tail: string)
    requires ModifierSpells(modifier, op) && tail != "" && tail[0] == '.'
    ensures IsTextSearch(op.operator) ==> op.quant == NoQuant && FtsModifier(modifier + tail) == Done(op.lang, tail)
    ensures IsComparing(op.operator) ==> op.lang == "" && QuantModifier(op.operator, modifier + tail) == Done(op.quant, tail)
    ensures op.operator in {"in", "is", "isdistinct"} ==> modifier == "" && op.lang == "" && op.quant == NoQuant
    ensures var after := modifier + tail; after != "" && !IsAsciiLetter(after[0])
  {
    OperatorsNamed(op.operator);
    hide SQL_OPERATORS, FTS_FUNCTIONS, QUANTIFIABLE, FtsModifier, QuantModifier;
    if IsTextSearch(op.operator) {
      assert forall i | 0 <= i < |op.lang| :: IsLangChar(op.lang[i]);
      LangUndoesPrint(op.lang, tail);
    } else if IsComparing(op.operator) {
      QuantUndoesPrint(op, tail);
    }
  }

  lemma AfterOperatorReads(inTree: bool, modifier: string, value: string, op: Operation, rest: string)
    requires ModifierSpells(modifier, op) && ValueSpells(true, inTree, value, op)
    requires if inTree then EndsValue(rest) else rest == ""
    ensures AfterOperator(inTree, op.negate, op.operator, modifier + ("." + (value + rest))) == Done(op, rest)
  {
    var tail := "." + (value + rest);
    ModifierReads(modifier, op, tail);
    OperatorsNamed(op.operator);
    hide List, FtsModifier, QuantModifier, IsOperand, FinishOperation, ListSpells, OperandSpells, AnyCase, ModifierSpells,
      SQL_OPERATORS, FTS_FUNCTIONS, QUANTIFIABLE;
    if op.operator == "in" || op.operator == "is" {
      assert "" + tail == tail;
      PrefixOfConcat(".", value + rest);
      if op.operator == "in" {
        ListReads(inTree, value, op.list, rest);
      } else {
        EndsOrNothing(inTree, rest);
        IsReads(value, op.value, rest);
      }
    } else {
      FinishReads(inTree, value, op, rest);
      assert op.operator == "isdistinct" ==> modifier + tail == tail;
    }
  }

  lemma EndsOrNothing(inTree: bool, rest: string)
    requires if inTree then EndsValue(rest) else rest == ""
    ensures EndsValue(rest)
  {
  }

  lemma OperatorKnown(inTree: bool, value: string, op: Operation)
    requires ValueSpells(true, inTree, value, op)
    ensures op.operator in {"in", "is", "isdistinct"} || op.operator in FTS_FUNCTIONS || op.operator in SQL_OPERATORS
  {
    OperatorsNamed(op.operator);
    hide SQL_OPERATORS, FTS_FUNCTIONS;
  }

  lemma OperationReads(inTree: bool, s: string, op: Operation, rest: string)
    requires OperationSpells(true, inTree, s, op)
    requires if inTree then EndsValue(rest) else rest == ""
    ensures ParseOperation(inTree, s + rest) == Done(op, rest)
    ensures |s| > 1 && NotLogic(s[0], s[1])
  {
    hide AfterOperator, ParseOperation, ModifierSpells, ValueSpells, SQL_OPERATORS, FTS_FUNCTIONS;
    var modifier, value :|
      && s == PrintNot(op.negate) + (op.operator + (modifier + ("." + value)))
      && ModifierSpells(modifier, op) && ValueSpells(true, inTree, value, op);
    AfterOperatorReads(inTree, modifier, value, op, rest);
    ModifierReads(modifier, op, "." + (value + rest));
    OperatorKnown(inTree, value, op);
    NamedOperation(inTree, op.negate, op.operator, modifier + ("." + (value + rest)));
    FivePieces(PrintNot(op.negate), op.operator, modifier, ".", value, rest);
    OperatorsAreLetters(op.operator);
  }

  // Trees

  lemma LeafReads(name: string, path: string, o: string, field: Field, op: Operation, rest: string)
    requires NameSpells(true, name, field.column) && PathSpells(true, path, field.path)
    requires OperationSpells(true, true, o, op) && EndsValue(rest)
    ensures ParseLeaf(name + (path + ("." + (o + rest)))) == Done(Condition(field, op), rest)
  {
    hide ParseOperation, JsonPath, Name, NameSpells, PathSpells, OperationSpells, EndsName;
    var dotted := "." + (o + rest);
    PathReads(path, field.path, dotted);
    NameReads(name, field.column, path + dotted);
    PrefixOfConcat(".", o + rest);
    OperationReads(true, o, op, rest);
  }

  lemma StartsLeaf(name: string, path: string, o: string, field: Field, op: Operation, depth: nat, rest: string)
    requires NameSpells(true, name, field.column) && PathSpells(true, path, field.path)
    requires OperationSpells(true, true, o, op) && EndsValue(rest)
    ensures var t := name + (path + ("." + (o + rest))); ParseCondition(depth, t) == ParseLeaf(t)
  {
    hide ParseLeaf, ParseCondition, PathSpells, OperationSpells, QuotedSpells, JsonPath, ParseOperation;
    var tail := path + ("." + (o + rest));
    PathReads(path, field.path, "." + (o + rest));
    OperationReads(true, o, op, rest);
    if QuotedSpells(name, field.column) {
      QuotedReads(name, field.column, "");
      QuoteStartsLeaf(depth, name + tail);
    } else {
      BareCharactersAgree(name);
      BareStartsLeaf(name, tail, depth);
    }
  }

  lemma {:induction false} NodeReads(s: string, node: FilterNode, depth: nat, rest: string)
    requires NodeSpells(true, s, node) && NestedWithin(node, 32 - depth) && EndsValue(rest)
    ensures ParseCondition(depth, s + rest) == Done(node, rest)
    ensures s != "" && !IsBlank(s[0])
    decreases node, 4
  {
    hide ParseCondition, ParseGroup, ParseLeaf, GroupSpells, FieldSpells, OperationSpells, EndsValue, NestedWithin;
    match node
    case Group(negate, logic, children) =>
      var group :| s == PrintNot(negate) + (LogicName(logic) + group) && GroupSpells(true, group, children);
      Associative(PrintNot(negate), LogicName(logic) + group, rest);
      Associative(LogicName(logic), group, rest);
      Associative(PrintNot(negate), LogicName(logic), group + rest);
      GroupReads(group, negate, logic, children, depth + 1, rest);
      GroupPrefix(negate, logic, depth, group + rest);
    case Condition(field, op) =>
      ConditionReads(s, field, op, depth, rest);
  }

  lemma ConditionReads(s: string, field: Field, op: Operation, depth: nat, rest: string)
    requires NodeSpells(true, s, Condition(field, op)) && EndsValue(rest)
    ensures ParseCondition(depth, s + rest) == Done(Condition(field, op), rest)
    ensures s != "" && !IsBlank(s[0])
  {
    hide ParseCondition, ParseLeaf, NameSpells, PathSpells, OperationSpells, EndsValue;
    var f, o :| s == f + ("." + o) && FieldSpells(true, f, field) && OperationSpells(true, true, o, op);
    var name, path :| f == name + path && NameSpells(true, name, field.column) && PathSpells(true, path, field.path);
    LeafReads(name, path, o, field, op, rest);
    StartsLeaf(name, path, o, field, op, depth, rest);
    hide FieldSpells, NodeSpells;
    Associative(name + path, "." + o, rest);
    Associative(".", o, rest);
    Associative(name, path, "." + (o + rest));
    NothingEndsName();
    NameReads(name, field.column, "");
  }

  lemma NothingEndsName()
    ensures EndsName("")
  {
  }

  lemma {:induction false} GroupReads(
    s: string, negate: bool, logic: Logic, children: seq<FilterNode>, depth: nat, rest: string)
    requires GroupSpells(true, s, children) && NestedWithin(Group(negate, logic, children), 33 - depth) && EndsValue(rest)
    ensures ParseGroup(logic, negate, depth, s + rest) == Done(Group(negate, logic, children), rest)
    ensures s != "" && s[0] == '('
    decreases children, 3
  {
    hide ParseMembers, ParseGroup, SkipSpaces, Blank, MembersSpell, EndsValue;
    var before, members, after :| GroupOf(true, s, before, members, after, children);
    FivePieces("(", before, members, ")", after, rest);
    var close := ")" + (after + rest);
    EndIsNoBlank(rest);
    SkipBlank(after, rest);
    MembersRead(members, children, depth, close);
    SkipBlank(before, members + close);
    PrefixOfConcat("(", before + (members + close));
    PrefixOfConcat(")", after + rest);
    GroupStep(logic, negate, depth, s + rest, children, close);
  }

  lemma {:induction false} MembersRead(s: string, children: seq<FilterNode>, depth: nat, rest: string)
    requires children != [] && MembersSpell(true, s, children) && rest != "" && rest[0] == ')'
    requires depth <= 32 && forall i | 0 <= i < |children| :: NestedWithin(children[i], 32 - depth)
    ensures s != "" && !IsBlank(s[0])
    ensures ParseMembers(depth, s + rest) == Done(children, rest)
    decreases children, 2
  {
    hide ParseCondition, ParseMembers, HasPrefix, SkipSpaces, Blank, NodeSpells, NestedWithin;
    if |children| == 1 {
      NodeReads(s, children[0], depth, rest);
      NoPrefix(rest, ",", 0);
      LastMember(depth, s + rest, children[0], rest);
      assert [children[0]] == children;
    } else {
      var a, before, b :|
        && s == a + ("," + (before + b)) && Blank(before)
        && NodeSpells(true, a, children[0]) && MembersSpell(true, b, children[1..]);
      MembersRead(b, children[1..], depth, rest);
      NodeReads(a, children[0], depth, "," + (before + (b + rest)));
      NextRead(depth, a, before, b, rest, children[0], children[1..]);
      assert [children[0]] + children[1..] == children;
    }
  }

  lemma NextRead(
    depth: nat, a: string, before: string, b: string, rest: string, child: FilterNode, more: seq<FilterNode>)
    requires ParseCondition(depth, a + ("," + (before + (b + rest)))) == Done(child, "," + (before + (b + rest)))
    requires ParseMembers(depth, b + rest) == Done(more, rest) && Blank(before) && b != "" && !IsBlank(b[0])
    ensures ParseMembers(depth, a + ("," + (before + b)) + rest) == Done([child] + more, rest)
  {
    hide ParseCondition, ParseMembers, HasPrefix, SkipSpaces, Blank;
    var tail := before + (b + rest);
    Associative(a, "," + (before + b), rest);
    Associative(",", before + b, rest);
    Associative(before, b, rest);
    PrefixOfConcat(",", tail);
    SkipBlank(before, b + rest);
    NextMember(depth, a + ("," + tail), child, "," + tail);
  }

  // Keys

  lemma FieldReads(key: string, field: Field)
    requires FieldSpells(true, key, field)
    ensures ParseKey(key) == Ok(field)
  {
    hide NameSpells, PathSpells, Name, JsonPath;
    var name, path :| key == name + path && NameSpells(true, name, field.column) && PathSpells(true, path, field.path);
    PathReads(path, field.path, "");
    assert path + "" == path;
    NameReads(name, field.column, path);
    PrefixChar(path, '.');
  }

  /** The last step of a path, and what is before it. */
  lemma {:induction false} LastStep(s: string, path: seq<Step>) returns (front: string, k: string)
    requires path != [] && PathSpells(true, s, path)
    ensures var step := path[|path| - 1]; s == front + (Arrow(step) + k) && StepSpells(true, k, step)
    decreases |path|
  {
    hide StepSpells, Arrow;
    var k0, tail :| s == Arrow(path[0]) + (k0 + tail) && StepSpells(true, k0, path[0]) && PathSpells(true, tail, path[1..]);
    if |path| == 1 {
      front, k := "", k0;
      assert path[1..] == [] && k0 + tail == k0 && "" + s == s;
    } else {
      var inner;
      inner, k := LastStep(tail, path[1..]);
      front := Arrow(path[0]) + (k0 + inner);
      var last := Arrow(path[|path| - 1]) + k;
      Associative(k0, inner, last);
      Associative(Arrow(path[0]), k0 + inner, last);
    }
  }

  lemma BareHasNoDots(s: string)
    requires BareName(s)
    ensures '.' !in s
  {
  }

  lemma StepCloses(k: string, step: Step)
    requires StepSpells(true, k, step)
    ensures k != "" && (EndsClosed(k) || '.' !in k)
  {
    match step
    case KeyStep(_, key) => NameCloses(k, key);
    case IndexStep(_, index) => assert IsDigit(k[|k| - 1]);
  }

  lemma NameCloses(s: string, name: string)
    requires NameSpells(true, s, name)
    ensures s != "" && (EndsClosed(s) || '.' !in s)
  {
    if QuotedSpells(s, name) { QuotedReads(s, name, ""); } else { BareHasNoDots(s); }
  }

  /** A field's key is taken for a logic tree's only where it is the bare word. */
  lemma FieldIsNotLogic(key: string, field: Field)
    requires FieldSpells(true, key, field) && key !in {"and", "or"}
    ensures LastSegment(key) !in {"and", "or"}
  {
    hide NameSpells, StepSpells, EndsClosed;
    var name, path :| key == name + path && NameSpells(true, name, field.column) && PathSpells(true, path, field.path);
    if field.path == [] {
      assert key == name;
      NameCloses(name, field.column);
      if EndsClosed(key) { ClosedIsNotLogic(key); } else { WholeIsLast(key); }
    } else {
      var front, k := LastStep(path, field.path);
      var step := field.path[|field.path| - 1];
      StepCloses(k, step);
      Associative(name, front, Arrow(step) + k);
      PathIsNotLogic(name + front, Arrow(step), k);
    }
  }

  lemma WholeIsLast(key: string)
    requires '.' !in key
    ensures LastSegment(key) == key
  {
    SplitOne(key, "", '.');
    assert key + "" == key;
  }

  lemma PathIsNotLogic(front: string, arrow: string, k: string)
    requires arrow in {"->", "->>"} && k != "" && (EndsClosed(k) || '.' !in k)
    ensures LastSegment(front + (arrow + k)) !in {"and", "or"}
  {
    var key, last := front + (arrow + k), arrow + k;
    if EndsClosed(k) {
      ClosedAtEnd(front + arrow, k);
      Associative(front, arrow, k);
      hide *;
      ClosedIsNotLogic(key);
    } else {
      ArrowOpens(arrow, k);
      hide *;
      SplitLastSuffix(front, last, '.');
      LogicHasNoDash(LastSegment(key), Split(key, '.'));
    }
  }

  lemma ClosedAtEnd(front: string, k: string)
    requires EndsClosed(k)
    ensures EndsClosed(front + k)
  {
    assert (front + k)[|front + k| - 1] == k[|k| - 1];
  }

  lemma ArrowOpens(arrow: string, k: string)
    requires arrow in {"->", "->>"} && '.' !in k
    ensures '.' !in arrow + k && '-' in arrow + k
  {
    assert (arrow + k)[0] == '-';
  }

  lemma LogicHasNoDash(last: string, parts: seq<string>)
    requires parts != [] && '-' in parts[|parts| - 1]
    ensures last == parts[|parts| - 1] ==> last !in {"and", "or"}
  {
    assert '-' !in "and" && '-' !in "or";
  }

  /** A clear spelling of a tree, nested at most 32 deep, is accepted and read as the tree; so it
      spells no other. */
  lemma SpelledIsAccepted(key: string, value: string, node: FilterNode)
    requires FilterSpells(true, key, value, node) && NestedWithin(node, 32)
    ensures ParseFilter(key, value) == Ok(node)
  {
    hide ParseGroup, ParseOperation, ParseKey, Split, FieldSpells, OperationSpells, GroupSpells, NestedWithin;
    assert value + "" == value;
    NothingEndsValue();
    match node
    case Group(negate, logic, children) =>
      LogicKey(negate, logic);
      GroupReads(value, negate, logic, children, 1, "");
    case Condition(field, op) =>
      FieldIsNotLogic(key, field);
      FieldReads(key, field);
      OperationReads(false, value, op, "");
  }

  lemma NothingEndsValue()
    ensures EndsValue("")
  {
  }

  // ---- Spellings that are never printed ----

  function ListFilter(field: Field, negate: bool, list: seq<string>): FilterNode {
    Condition(field, Operation(negate, "in", NoQuant, "", "", list))
  }

  /** Items without commas may be listed without parentheses. */
  lemma BareListReads(key: string, field: Field, negate: bool, list: seq<string>)
    requires FieldSpells(true, key, field) && key !in {"and", "or"}
    requires list != [] && (forall item | item in list :: ',' !in item)
    requires Join(list, ',') != "" && Join(list, ',')[0] != '('
    ensures ParseFilter(key, PrintNot(negate) + "in." + Join(list, ',')) == Ok(ListFilter(field, negate, list))
  {
    hide FieldSpells, Join;
    var items := Join(list, ',');
    assert ListSpells(true, false, items, list);
    ListIsSpelled(key, field, negate, items, list);
  }

  lemma ListIsSpelled(key: string, field: Field, negate: bool, items: string, list: seq<string>)
    requires FieldSpells(true, key, field) && key !in {"and", "or"} && ListSpells(true, false, items, list)
    ensures ParseFilter(key, PrintNot(negate) + "in." + items) == Ok(ListFilter(field, negate, list))
  {
    hide FieldSpells, ListSpells;
    var op := Operation(negate, "in", NoQuant, "", "", list);
    var value := PrintNot(negate) + "in." + items;
    assert value == PrintNot(negate) + ("in" + ("" + ("." + items)));
    assert ModifierSpells("", op) && ValueSpells(true, false, items, op);
    assert OperationSpells(true, false, value, op);
    SpelledIsAccepted(key, value, Condition(field, op));
  }

  /** Between parentheses, items without commas, closing parentheses and quotes in front are taken
      as they stand, blanks after a comma included; blanks after the parentheses are not. */
  lemma PlainListReads(key: string, field: Field, negate: bool, list: seq<string>, before: string, after: string)
    requires FieldSpells(true, key, field) && key !in {"and", "or"} && Blank(before) && Blank(after)
    requires list != [] && forall item | item in list :: NoStops(item) && (item != "" ==> item[0] != '"')
    requires Join(list, ',') != "" && !IsBlank(Join(list, ',')[0])
    ensures ParseFilter(key, PrintNot(negate) + "in." + ("(" + (before + (Join(list, ',') + (")" + after)))))
            == Ok(ListFilter(field, negate, list))
  {
    hide FieldSpells, NoStops, Blank;
    PlainItems(list);
    var s := "(" + (before + (Join(list, ',') + (")" + after)));
    assert IsList(true, s, before, Join(list, ','), after, list);
    ListIsSpelled(key, field, negate, s, list);
  }

  lemma {:induction false} PlainItems(list: seq<string>)
    requires list != [] && forall item | item in list :: NoStops(item) && (item != "" ==> item[0] != '"')
    ensures ItemsSpell(true, Join(list, ','), list)
    decreases |list|
  {
    hide NoStops;
    assert list[0] in list;
    if |list| > 1 {
      assert forall item | item in list[1..] :: item in list;
      var b := Join(list[1..], ',');
      PlainItems(list[1..]);
      Associative(list[0], ",", b);
      assert ItemSpells(true, list[0], list[0]) && Join(list, ',') == list[0] + ("," + b);
    }
  }

  /** The value of is may be written in any letter case. */
  lemma IsReadsAnyCase(key: string, field: Field, negate: bool, word: string, s: string)
    requires FieldSpells(true, key, field) && key !in {"and", "or"}
    requires word in {"null", "not_null", "true", "false", "unknown"} && AnyCase(s, word)
    ensures ParseFilter(key, PrintNot(negate) + "is." + s) == Ok(Condition(field, Operation(negate, "is", NoQuant, "", word, [])))
  {
    hide FieldSpells, AnyCase;
    var op := Operation(negate, "is", NoQuant, "", word, []);
    var value := PrintNot(negate) + "is." + s;
    assert value == PrintNot(negate) + ("is" + ("" + ("." + s)));
    assert ModifierSpells("", op) && ValueSpells(true, false, s, op);
    SpelledIsAccepted(key, value, Condition(field, op));
  }

  /** Blanks after the parentheses of a group change nothing. */
  lemma GroupBlanks(negate: bool, logic: Logic, members: string, children: seq<FilterNode>, before: string, after: string)
    requires children != [] && MembersSpell(true, members, children) && Blank(before) && Blank(after)
    requires NestedWithin(Group(negate, logic, children), 32)
    ensures ParseFilter(PrintNot(negate) + LogicName(logic), "(" + (before + (members + (")" + after))))
            == Ok(Group(negate, logic, children))
  {
    hide MembersSpell, Blank, NestedWithin;
    var value := "(" + (before + (members + (")" + after)));
    assert GroupOf(true, value, before, members, after, children);
    SpelledIsAccepted(PrintNot(negate) + LogicName(logic), value, Group(negate, logic, children));
  }
}
