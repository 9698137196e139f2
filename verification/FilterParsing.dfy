/** The cursor-based parser of pkg/rest/filter.go: `pos` moves over `src`, and each method is
    proved to agree with the rule of `FilterGrammar` on the rest of the input. */
module FilterParsing {
  import opened Text
  import opened FilterGrammar

  class FilterParser {
    const src: string
    var pos: nat

    constructor (src: string)
      ensures Valid() && this.src == src && Rest() == src
    {
      this.src := src;
      pos := 0;
    }

    ghost predicate Valid()
      reads this
    {
      pos <= |src|
    }

    ghost function Rest(): string
      reads this
      requires Valid()
    {
      src[pos..]
    }

    /** The method's result r and the new cursor are what rule result p says. On an error the
        caller gives up, so the cursor is only known to be in range. */
    ghost predicate Agrees<T>(r: Result<T>, p: Parsed<T>)
      reads this
    {
      && Valid()
      && match p
         case Done(value, rest) => r == Ok(value) && Rest() == rest
         case Fail(error) => r == Err(error)
    }

    method Eof() returns (b: bool)
      requires Valid()
      ensures b == (Rest() == "")
    {
      b := pos >= |src|;
    }

    /** peek() == c */
    method PeekIs(c: char) returns (b: bool)
      requires Valid()
      ensures b == HasPrefix(Rest(), [c]) == (Rest() != "" && Rest()[0] == c)
    {
      PrefixChar(src[pos..], c);
      b := pos < |src| && src[pos] == c;
    }

    method LooksAt(token: string) returns (b: bool)
      requires Valid()
      ensures b == HasPrefix(Rest(), token)
    {
      b := HasPrefix(src[pos..], token);
    }

    method Consume(token: string) returns (ok: bool)
      requires Valid()
      modifies this
      ensures Valid() && ok == HasPrefix(old(Rest()), token)
      ensures Rest() == if ok then old(Rest())[|token|..] else old(Rest())
    {
      ok := HasPrefix(src[pos..], token);
      if ok {
        Sub(src, pos, |token|);
        pos := pos + |token|;
      }
    }

    method ExpectToken(token: string) returns (r: Result<()>)
      requires Valid()
      modifies this
      ensures Agrees(r, Expect(token, old(Rest())))
    {
      var ok := Consume(token);
      r := if ok then Ok(()) else Err(Expected(token, |src| - pos));
    }

    /** The scanning loops: for !eof && p(src[pos]) { pos++ } */
    method TakeWhile(p: char -> bool) returns (text: string)
      requires Valid()
      modifies this
      ensures Valid()
      ensures var n := Span(old(Rest()), p);
              text == old(Rest())[..n] && Rest() == old(Rest())[n..]
    {
      var start := pos;
      while pos < |src| && p(src[pos])
        invariant start <= pos <= |src|
        invariant Span(src[start..], p) == pos - start + Span(src[pos..], p)
      {
        Sub(src, pos, 1);
        pos := pos + 1;
      }
      Sub(src, start, pos - start);
      text := src[start..pos];
    }

    method SkipSpace()
      requires Valid()
      modifies this
      ensures Valid() && Rest() == SkipSpaces(old(Rest()))
    {
      var _ := TakeWhile(IsSpace);
    }

    /** A double-quoted string; a backslash escapes the next character. On failure the
        cursor does not move. */
    method ParseQuoted() returns (r: Result<string>)
      requires Valid()
      modifies this
      ensures Valid()
      ensures r.Ok? == Quoted(old(Rest())).Done?
      ensures r.Ok? ==> Agrees(r, Quoted(old(Rest())))
      ensures r.Err? ==> pos == old(pos)
    {
      var open := PeekIs('"');
      if !open { return Err(Expected("\"", |src| - pos)); }
      Sub(src, pos, 1);
      r := ScanQuotedBody(pos + 1);
    }

    method ScanQuotedBody(start: nat) returns (r: Result<string>)
      requires Valid() && pos < start <= |src|
      modifies this
      ensures Valid()
      ensures r.Ok? == QuotedBody(src[start..]).Done?
      ensures r.Ok? ==> Agrees(r, QuotedBody(src[start..]))
      ensures r.Err? ==> pos == old(pos)
    {
      var b := "";
      var i := start;
      PrependLaws(b, ' ', QuotedBody(src[start..]));
      while i < |src|
        invariant start <= i <= |src| && pos == old(pos)
        invariant QuotedBody(src[start..]) == Prepend(b, QuotedBody(src[i..]))
      {
        var c := src[i];
        Sub(src, i, 1);
        if c == '\\' {
          if i + 1 == |src| { return Err(Expected("\"", 0)); }
          Sub(src, i, 2);
          i := i + 1;
          PrependLaws(b, src[i], QuotedBody(src[i + 1..]));
          b := b + [src[i]];
        } else if c == '"' {
          assert b + "" == b;
          pos := i + 1;
          return Ok(b);
        } else {
          PrependLaws(b, c, QuotedBody(src[i + 1..]));
          b := b + [c];
        }
        i := i + 1;
      }
      return Err(Expected("\"", 0));
    }

    /** Backtracks: the cursor is restored when no complete quoted element starts here. */
    method ParseQuotedElement() returns (r: Result<string>)
      requires Valid()
      modifies this
      ensures Valid()
      ensures r.Ok? == QuotedElement(old(Rest())).Done?
      ensures r.Ok? ==> Agrees(r, QuotedElement(old(Rest())))
      ensures r.Err? ==> pos == old(pos)
    {
      var start := pos;
      r := ParseQuoted();
      var end := Eof();
      var comma := PeekIs(',');
      var close := PeekIs(')');
      if r.Ok? && (end || comma || close) { return r; }
      pos := start;
      r := Err(Expected(",", |src| - pos));
    }

    method NameRuneAtIndex(i: nat) returns (b: bool)
      requires Valid() && pos <= i
      ensures b == NameRuneAt(Rest(), i - pos)
    {
      b := i < |src| && IsNameRune(src[i]);
    }

    method ParseName() returns (r: Result<string>)
      requires Valid()
      modifies this
      ensures Agrees(r, Name(old(Rest())))
    {
      var open := PeekIs('"');
      if open {
        var left := |src| - pos;
        r := ParseQuoted();
        if r.Err? { return Err(Expected("closing quote", left)); }
        return r;
      }
      var n := ScanName();
      if n == 0 { return Err(Expected("column name", |src| - pos)); }
      Sub(src, pos, n);
      pos := pos + n;
      return Ok(src[pos - n..pos]);
    }

    /** The loop over an unquoted name. */
    method ScanName() returns (n: nat)
      requires Valid()
      ensures n == NameSpan(Rest(), false)
    {
      var i := pos;
      while i < |src|
        invariant pos <= i <= |src|
        invariant NameSpan(src[pos..], false) == i - pos + NameSpan(src[i..], i > pos)
      {
        var dashOk := i + 1 < |src| && IsNameRune(src[i + 1]);
        Sub(src, i, 1);
        if IsNameRune(src[i]) || (src[i] == '-' && i > pos && dashOk) {
          i := i + 1;
          continue;
        }
        break;
      }
      n := i - pos;
    }

    method ScanIndex() returns (n: nat)
      requires Valid()
      ensures n == IndexLength(Rest())
    {
      hide HasPrefix, IsNameRune;
      var i := pos;
      var signed := PeekIs('-');
      if signed { i := i + 1; }
      var digits := i;
      while i < |src| && IsDigit(src[i])
        invariant digits <= i <= |src|
        invariant forall k | digits <= k < i :: IsDigit(src[k])
      {
        i := i + 1;
      }
      Sub(src, pos, digits - pos);
      SpanIs(src[digits..], IsDigit, i - digits);
      var nameFollows := NameRuneAtIndex(i);
      var dashedNameFollows := NameRuneAtIndex(i + 1);
      var whole := !nameFollows && !(i < |src| && src[i] == '-' && dashedNameFollows);
      n := if i == digits || !whole then 0 else i - pos;
    }

    /** Moves the cursor only when an index in range was read. */
    method ParseArrayIndex() returns (r: Result<int>)
      requires Valid()
      modifies this
      ensures Valid()
      ensures r.Ok? == ArrayIndex(old(Rest())).Done?
      ensures r.Ok? ==> Agrees(r, ArrayIndex(old(Rest())))
      ensures r.Err? ==> pos == old(pos)
    {
      var n := ScanIndex();
      if n == 0 { return Err(Expected("index", |src| - pos)); }
      Sub(src, pos, n);
      var index := ParseInt32(src[pos..pos + n]);
      if index.Fail? { return Err(index.error); }
      pos := pos + n;
      return Ok(index.value);
    }

    method ParseStep(textual: bool) returns (r: Result<Step>)
      requires Valid()
      modifies this
      ensures Agrees(r, StepAfterArrow(textual, old(Rest())))
    {
      var index := ParseArrayIndex();
      if index.Ok? { return Ok(IndexStep(textual, index.value)); }
      var key := ParseName();
      if key.Err? { return Err(key.error); }
      return Ok(KeyStep(textual, key.value));
    }

    method ParseJsonPath() returns (r: Result<seq<Step>>)
      requires Valid()
      modifies this
      ensures Agrees(r, JsonPath(old(Rest())))
    {
      var path: seq<Step> := [];
      PrependLaws(path, KeyStep(false, ""), JsonPath(Rest()));
      while true
        invariant Valid()
        invariant JsonPath(old(Rest())) == Prepend(path, JsonPath(Rest()))
        decreases |src| - pos
      {
        ghost var before := Rest();
        ArrowPrefix(before);
        var textual := Consume("->>");
        if !textual {
          var plain := Consume("->");
          if !plain {
            assert path + [] == path;
            return Ok(path);
          }
        }
        StepConsumes(textual, Rest());
        var step := ParseStep(textual);
        if step.Err? { return Err(step.error); }
        PrependLaws(path, step.value, JsonPath(Rest()));
        path := path + [step.value];
      }
    }

    method ParseUntil(stops: set<char>) returns (text: string)
      requires Valid()
      modifies this
      ensures Valid() && (text, Rest()) == Until(old(Rest()), stops)
    {
      text := TakeWhile(Outside(stops));
    }

    method ParseOperand(inTree: bool) returns (v: string)
      requires Valid()
      modifies this
      ensures Valid() && (v, Rest()) == Operand(inTree, old(Rest()))
    {
      if !inTree {
        v := src[pos..];
        pos := |src|;
        assert Rest() == "";
        return;
      }
      var quoted := ParseQuotedElement();
      if quoted.Ok? { return quoted.value; }
      var brace := PeekIs('{');
      if brace {
        var n := ScanBraces();
        if n > 0 {
          Sub(src, pos, n);
          v := src[pos..pos + n];
          pos := pos + n;
          return;
        }
      }
      v := ParseUntil(ELEMENT_STOPS);
    }

    method ScanBraces() returns (n: nat)
      requires Valid() && HasPrefix(Rest(), "{")
      ensures n == BraceLiteral(Rest())
    {
      var i := pos + 1;
      while i < |src| && src[i] != '{' && src[i] != '}'
        invariant pos < i <= |src|
        invariant forall k | pos < k < i :: src[k] != '{' && src[k] != '}'
      {
        i := i + 1;
      }
      Sub(src, pos, 1);
      SpanIs(src[pos + 1..], Outside({'{', '}'}), i - pos - 1);
      n := if i < |src| && src[i] == '}' then i + 1 - pos else 0;
    }

    method ParseList(inTree: bool) returns (r: Result<seq<string>>)
      requires Valid()
      modifies this
      ensures Agrees(r, List(inTree, old(Rest())))
    {
      var open := Consume("(");
      if !open {
        if inTree || pos >= |src| { return Err(Expected("(", |src| - pos)); }
        var items := Split(src[pos..], ',');
        pos := |src|;
        return Ok(items);
      }
      SkipSpace();
      var items := ParseListItems();
      var close := ExpectToken(")");
      if close.Err? { return Err(close.error); }
      SkipSpace();
      return Ok(items);
    }

    method ParseListItems() returns (items: seq<string>)
      requires Valid()
      modifies this
      ensures Valid()
      ensures Done(items, Rest()) ==
        if HasPrefix(old(Rest()), ")") then Done([], old(Rest())) else ListItems(old(Rest()))
    {
      items := [];
      PrefixChar(Rest(), ')');
      PrependLaws(items, "", ListItems(Rest()));
      while true
        invariant Valid()
        invariant items == [] ==> Rest() == old(Rest())
        invariant items != [] ==> !HasPrefix(old(Rest()), ")")
        invariant ListItems(old(Rest())) == Prepend(items, ListItems(Rest()))
        decreases |src| - pos
      {
        ListItemConsumes(Rest());
        var quoted := ParseQuotedElement();
        var item := "";
        if quoted.Ok? {
          item := quoted.value;
        } else {
          item := ParseUntil(ELEMENT_STOPS);
          var close := PeekIs(')');
          if item == "" && items == [] && close { return; }  // ()
        }
        var more := Consume(",");
        if !more {
          items := items + [item];
          return;
        }
        PrependLaws(items, item, ListItems(Rest()));
        items := items + [item];
      }
    }

    /** [not.]<op>[(modifier)].<operand> */
    method ParseOp(inTree: bool) returns (r: Result<Operation>)
      requires Valid()
      modifies this
      ensures Agrees(r, ParseOperation(inTree, old(Rest())))
    {
      var negate := Consume("not.");
      var op := TakeWhile(IsAsciiLetter);
      if op == "" { return Err(Expected("operator", |src| - pos)); }
      r := ParseAfterOp(inTree, negate, op);
    }

    /** The switch on the operator name. */
    method ParseAfterOp(inTree: bool, negate: bool, op: string) returns (r: Result<Operation>)
      requires Valid()
      modifies this
      ensures Agrees(r, AfterOperator(inTree, negate, op, old(Rest())))
    {
      var quant, lang := NoQuant, "";
      if op == "in" {
        var dot := ExpectToken(".");
        if dot.Err? { return Err(dot.error); }
        var list := ParseList(inTree);
        if list.Err? { return Err(list.error); }
        return Ok(Operation(negate, op, NoQuant, "", "", list.value));
      } else if op == "is" {
        var dot := ExpectToken(".");
        if dot.Err? { return Err(dot.error); }
        var raw := TakeWhile(IsIsChar);
        var value := ToLower(raw);
        if value !in IS_VALUES { return Err(Rejected("is value")); }
        return Ok(Operation(negate, op, NoQuant, "", value, []));
      } else if op == "isdistinct" {
      } else if op in FTS_FUNCTIONS {
        var language := ParseFtsModifier();
        if language.Err? { return Err(language.error); }
        lang := language.value;
      } else if op in SQL_OPERATORS {
        var quantifier := ParseQuantModifier(op);
        if quantifier.Err? { return Err(quantifier.error); }
        quant := quantifier.value;
      } else {
        return Err(Rejected("operator"));
      }
      r := ParseFinish(inTree, negate, op, quant, lang);
    }

    method ParseFinish(inTree: bool, negate: bool, op: string, quant: Quant, lang: string)
      returns (r: Result<Operation>)
      requires Valid()
      modifies this
      ensures Agrees(r, FinishOperation(inTree, negate, op, quant, lang, old(Rest())))
    {
      var dot := ExpectToken(".");
      if dot.Err? { return Err(dot.error); }
      var value := ParseOperand(inTree);
      return Ok(Operation(negate, op, quant, lang, value, []));
    }

    method ParseFtsModifier() returns (r: Result<string>)
      requires Valid()
      modifies this
      ensures Agrees(r, FtsModifier(old(Rest())))
    {
      var open := Consume("(");
      if !open { return Ok(""); }
      var lang := TakeWhile(IsLangChar);
      if lang == "" { return Err(Expected("text search configuration", |src| - pos)); }
      var close := ExpectToken(")");
      if close.Err? { return Err(close.error); }
      return Ok(lang);
    }

    method ParseQuantModifier(op: string) returns (r: Result<Quant>)
      requires Valid()
      modifies this
      ensures Agrees(r, QuantModifier(op, old(Rest())))
    {
      var open := Consume("(");
      if !open { return Ok(NoQuant); }
      if op !in QUANTIFIABLE { return Err(Rejected("modifier")); }
      var any := Consume("any)");
      if any { return Ok(ANY); }
      var all := Consume("all)");
      if all { return Ok(ALL); }
      return Err(Expected("any) or all)", |src| - pos));
    }

    method Group(logic: Logic, negate: bool, depth: nat) returns (r: Result<FilterNode>)
      requires Valid()
      modifies this
      ensures Agrees(r, ParseGroup(logic, negate, depth, old(Rest())))
      decreases |src| - pos, 0
    {
      hide ParseMembers, ParseCondition, SkipSpaces;
      if depth > MAX_FILTER_DEPTH { return Err(TooDeep); }
      var open := ExpectToken("(");
      if open.Err? { return Err(open.error); }
      SkipSpace();
      var children := Members(depth);
      if children.Err? { return Err(children.error); }
      var close := Consume(")");
      if !close { return Err(Expected(", or )", |src| - pos)); }
      SkipSpace();
      return Ok(FilterNode.Group(negate, logic, children.value));
    }

    /** The loop of group: conditions separated by commas. */
    method Members(depth: nat) returns (r: Result<seq<FilterNode>>)
      requires Valid()
      modifies this
      ensures Agrees(r, ParseMembers(depth, old(Rest())))
      decreases |src| - pos, 2
    {
      var children: seq<FilterNode> := [];
      ghost var any := FilterNode.Group(false, AND, []);
      PrependLaws(children, any, ParseMembers(depth, Rest()));
      while true
        invariant Valid() && pos >= old(pos)
        invariant ParseMembers(depth, old(Rest())) == Prepend(children, ParseMembers(depth, Rest()))
        decreases |src| - pos
      {
        var child := ParseMember(depth);
        if child.Err? { return Err(child.error); }
        var more := Consume(",");
        if !more { return Ok(children + [child.value]); }
        SkipSpace();
        PrependLaws(children, child.value, ParseMembers(depth, Rest()));
        children := children + [child.value];
      }
    }

    method ParseMember(depth: nat) returns (r: Result<FilterNode>)
      requires Valid()
      modifies this
      ensures Agrees(r, ParseCondition(depth, old(Rest())))
      decreases |src| - pos, 1
    {
      var nested := LooksAt("and(");
      if nested {
        Sub(src, pos, 3);
        pos := pos + 3;  // leave "(" for the group
        r := Group(AND, false, depth + 1);
        return;
      }
      nested := LooksAt("or(");
      if nested {
        Sub(src, pos, 2);
        pos := pos + 2;  // leave "(" for the group
        r := Group(OR, false, depth + 1);
        return;
      }
      nested := LooksAt("not.and(");
      if nested {
        Sub(src, pos, 7);
        pos := pos + 7;  // leave "(" for the group
        r := Group(AND, true, depth + 1);
        return;
      }
      nested := LooksAt("not.or(");
      if nested {
        Sub(src, pos, 6);
        pos := pos + 6;  // leave "(" for the group
        r := Group(OR, true, depth + 1);
        return;
      }
      r := Leaf();
    }

    method Leaf() returns (r: Result<FilterNode>)
      requires Valid()
      modifies this
      ensures Agrees(r, ParseLeaf(old(Rest())))
    {
      var column := ParseName();
      if column.Err? { return Err(column.error); }
      var path := ParseJsonPath();
      if path.Err? { return Err(path.error); }
      var dot := ExpectToken(".");
      if dot.Err? { return Err(dot.error); }
      var op := ParseOp(true);
      if op.Err? { return Err(op.error); }
      return Ok(Condition(Field(column.value, path.value), op.value));
    }

    method ExpectEof() returns (r: Result<()>)
      requires Valid()
      ensures r == if Rest() == "" then Ok(()) else Err(Expected("end", |Rest()|))
    {
      r := if pos < |src| then Err(Expected("end", |src| - pos)) else Ok(());
    }

    method WholeTree(logic: Logic, negate: bool) returns (r: Result<FilterNode>)
      requires Valid()
      modifies this
      ensures r == ParseWhole(ParseGroup(logic, negate, 1, old(Rest())))
    {
      r := Group(logic, negate, 1);
      if r.Err? { return; }
      var end := ExpectEof();
      if end.Err? { return Err(end.error); }
    }

    method WholeOperation() returns (r: Result<Operation>)
      requires Valid()
      modifies this
      ensures r == ParseWhole(ParseOperation(false, old(Rest())))
    {
      r := ParseOp(false);
      if r.Err? { return; }
      var end := ExpectEof();
      if end.Err? { return Err(end.error); }
    }

    /** parseFilterKey */
    method WholeKey() returns (r: Result<Field>)
      requires Valid()
      modifies this
      ensures r == ParseKey(old(Rest()))
    {
      var column := ParseName();
      if column.Err? { return Err(column.error); }
      var dot := PeekIs('.');
      if dot { return Err(EmbeddedResource); }
      var path := ParseJsonPath();
      if path.Err? { return Err(path.error); }
      var end := ExpectEof();
      if end.Err? { return Err(end.error); }
      return Ok(Field(column.value, path.value));
    }
  }

  /** "->>" is tried before its prefix "->". */
  lemma ArrowPrefix(s: string)
    ensures HasPrefix(s, "->>") ==> HasPrefix(s, "->")
  {
    if HasPrefix(s, "->>") { assert s[..2] == s[..3][..2]; }
  }

  method ParseFilterKey(key: string) returns (r: Result<Field>)
    ensures r == ParseKey(key)
  {
    var p := new FilterParser(key);
    r := p.WholeKey();
  }

  /** parseFilter, through a fresh parser for the key and one for the value. */
  method ParseRawFilter(key: string, value: string) returns (r: Result<FilterNode>)
    ensures r == ParseFilter(key, value)
  {
    var segments := Split(key, '.');
    var last := segments[|segments| - 1];
    if last == "and" || last == "or" {
      var prefix := segments[..|segments| - 1];
      var negate := |prefix| > 0 && prefix[|prefix| - 1] == "not";
      if negate { prefix := prefix[..|prefix| - 1]; }
      if |prefix| > 0 { return Err(EmbeddedResource); }
      var p := new FilterParser(value);
      r := p.WholeTree(if last == "and" then AND else OR, negate);
      return;
    }
    var field := ParseFilterKey(key);
    if field.Err? { return Err(field.error); }
    var p := new FilterParser(value);
    var op := p.WholeOperation();
    if op.Err? { return Err(op.error); }
    return Ok(Condition(field.value, op.value));
  }
}
