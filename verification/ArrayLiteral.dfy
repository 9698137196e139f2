/** PostgreSQL array literals: the encoder of pkg/rest/filter.go, the converter of
    pkg/rest/util.go, and a reader that follows section 8.15.6 of the PostgreSQL manual. */
module ArrayLiteral {
  import opened Options
  import opened Text

  // ---- Reading a literal of a one-dimensional array ----

  predicate IsArraySpace(c: char) {
    c == ' ' || c == '\t' || c == '\n' || c == '\r' || c as int == 11 || c as int == 12
  }

  function DropSpaces(s: string): (r: string)
    ensures |r| <= |s|
  {
    s[Span(s, IsArraySpace)..]
  }

  /** The body of a quoted element: a backslash makes the next character literal. */
  function ReadQuoted(s: string): (r: Option<(string, string)>)
    ensures r.Some? ==> |r.value.1| < |s|
  {
    if s == "" then None
    else if s[0] == '"' then Some(("", s[1..]))
    else if s[0] == '\\' then
      if |s| == 1 then None
      else
        match ReadQuoted(s[2..])
        case None => None
        case Some((text, rest)) => Some(([s[1]] + text, rest))
    else
      match ReadQuoted(s[1..])
      case None => None
      case Some((text, rest)) => Some(([s[0]] + text, rest))
  }

  datatype Bare = Bare(word: string, escaped: bool, rest: string)

  /** An unquoted element up to a comma, brace or quote: a backslash makes the next character
      literal, and unescaped space at the end is dropped. */
  function ReadBare(s: string): (r: Option<Bare>)
    ensures r.Some? ==> |r.value.word| + |r.value.rest| <= |s|
  {
    if s == "" || s[0] in {',', '{', '}', '"'} then Some(Bare("", false, s))
    else if s[0] == '\\' then
      if |s| == 1 then None
      else
        match ReadBare(s[2..])
        case None => None
        case Some(b) => Some(Bare([s[1]] + b.word, true, b.rest))
    else
      match ReadBare(s[1..])
      case None => None
      case Some(b) => Some(if IsArraySpace(s[0]) && b.word == "" then b else b.(word := [s[0]] + b.word))
  }

  predicate IsNullWord(s: string) {
    |s| == 4 && s[0] in {'n', 'N'} && s[1] in {'u', 'U'} && s[2] in {'l', 'L'} && s[3] in {'l', 'L'}
  }

  /** One element and what follows it: quoted, or bare with surrounding space dropped, where
      the bare word NULL is the null element. */
  function ReadElement(s: string): (r: Option<(Option<string>, string)>)
    ensures r.Some? ==> |r.value.1| < |s|
  {
    var t := DropSpaces(s);
    if HasPrefix(t, "\"") then
      match ReadQuoted(t[1..])
      case None => None
      case Some((text, rest)) => Some((Some(text), DropSpaces(rest)))
    else
      match ReadBare(t)
      case None => None
      case Some(b) =>
        if b.word == "" then None
        else Some((if IsNullWord(b.word) && !b.escaped then None else Some(b.word), b.rest))
  }

  /** Elements up to the closing brace. */
  function ReadElements(s: string): Option<(seq<Option<string>>, string)>
    decreases |s|
  {
    match ReadElement(s)
    case None => None
    case Some((element, rest)) =>
      if HasPrefix(rest, "}") then Some(([element], rest[1..]))
      else if HasPrefix(rest, ",") then
        match ReadElements(rest[1..])
        case None => None
        case Some((elements, rest1)) => Some(([element] + elements, rest1))
      else None
  }

  /** The elements of an array literal; None when it is malformed. */
  function ReadArray(s: string): Option<seq<Option<string>>> {
    var t := DropSpaces(s);
    if !HasPrefix(t, "{") then None
    else if HasPrefix(DropSpaces(t[1..]), "}") then
      if DropSpaces(DropSpaces(t[1..])[1..]) == "" then Some([]) else None
    else
      match ReadElements(t[1..])
      case None => None
      case Some((elements, rest)) => if DropSpaces(rest) == "" then Some(elements) else None
  }

  // ---- The encoder ----

  /** pgArrayLiteral */
  function Encode(values: seq<string>): string {
    "{" + JoinQuoted(values) + "}"
  }

  function JoinQuoted(values: seq<string>): string {
    if values == [] then ""
    else if |values| == 1 then Quote(values[0])
    else Quote(values[0]) + "," + JoinQuoted(values[1..])
  }

  lemma {:induction false} JoinQuotedSnoc(values: seq<string>, v: string)
    ensures JoinQuoted(values + [v]) == JoinQuoted(values) + (if values == [] then "" else ",") + Quote(v)
    decreases |values|
  {
    if values == [] {
      assert values + [v] == [v];
    } else {
      JoinQuotedSnoc(values[1..], v);
      assert (values + [v])[1..] == values[1..] + [v];
    }
  }

  /** Both loops of pgArrayLiteral, over a string builder. */
  method PgArrayLiteral(values: seq<string>) returns (b: string)
    ensures b == Encode(values)
  {
    b := "{";
    for i := 0 to |values|
      invariant b == "{" + JoinQuoted(values[..i])
    {
      JoinQuotedSnoc(values[..i], values[i]);
      assert values[..i] + [values[i]] == values[..i + 1];
      if i > 0 { b := b + ","; }
      b := WriteQuoted(b, values[i]);
    }
    assert values[..|values|] == values;
    b := b + "}";
  }

  method WriteQuoted(prefix: string, v: string) returns (b: string)
    ensures b == prefix + Quote(v)
  {
    b := prefix + "\"";
    for j := 0 to |v|
      invariant b == prefix + "\"" + Escape(v[..j])
    {
      EscapeSnoc(v[..j], v[j]);
      assert v[..j] + [v[j]] == v[..j + 1];
      if v[j] == '"' || v[j] == '\\' { b := b + "\\"; }
      b := b + [v[j]];
    }
    assert v[..|v|] == v;
    b := b + "\"";
  }

  // ---- Reading undoes encoding ----

  lemma {:induction false} ReadUndoesEscape(s: string, rest: string)
    ensures ReadQuoted(Escape(s) + "\"" + rest) == Some((s, rest))
    decreases |s|
  {
    var text := Escape(s) + "\"" + rest;
    if s == "" {
      assert text == "\"" + rest;
    } else {
      var tail := Escape(s[1..]) + "\"" + rest;
      ReadUndoesEscape(s[1..], rest);
      if s[0] == '"' || s[0] == '\\' {
        assert text == ['\\', s[0]] + tail;
      } else {
        assert text == [s[0]] + tail;
      }
      assert [s[0]] + s[1..] == s;
    }
  }

  lemma NoSpacesToDrop(s: string)
    requires s == "" || !IsArraySpace(s[0])
    ensures DropSpaces(s) == s
  {
  }

  lemma ReadUndoesQuote(s: string, rest: string)
    requires rest == "" || !IsArraySpace(rest[0])
    ensures ReadElement(Quote(s) + rest) == Some((Some(s), rest))
  {
    ReadUndoesEscape(s, rest);
    assert Quote(s) + rest == "\"" + (Escape(s) + "\"" + rest);
    PrefixOfConcat("\"", Escape(s) + "\"" + rest);
    NoSpacesToDrop(Quote(s) + rest);
    NoSpacesToDrop(rest);
  }

  function Plain(values: seq<string>): (r: seq<Option<string>>)
    ensures |r| == |values|
  {
    seq(|values|, i requires 0 <= i < |values| => Some(values[i]))
  }

  lemma {:induction false} ReadUndoesJoin(values: seq<string>)
    requires values != []
    ensures ReadElements(JoinQuoted(values) + "}") == Some((Plain(values), ""))
    ensures JoinQuoted(values) != "" && JoinQuoted(values)[0] == '"'
    decreases |values|
  {
    hide ReadElement, Quote, ReadQuoted, DropSpaces;
    if |values| == 1 {
      ReadUndoesQuote(values[0], "}");
      QuoteStarts(values[0]);
      PrefixChar("}", '}');
      assert "}"[1..] == "";
      assert Plain(values) == [Some(values[0])];
    } else {
      var tail := JoinQuoted(values[1..]) + "}";
      ReadUndoesJoin(values[1..]);
      QuoteStarts(values[0]);
      assert JoinQuoted(values) + "}" == Quote(values[0]) + ("," + tail);
      ReadUndoesQuote(values[0], "," + tail);
      PrefixOfConcat(",", tail);
      NoPrefix("," + tail, "}", 0);
      assert Plain(values) == [Some(values[0])] + Plain(values[1..]);
    }
  }

  lemma QuoteStarts(s: string)
    ensures Quote(s) != "" && Quote(s)[0] == '"'
  {
  }

  /** Reading an encoded list gives the list back, for every list of strings. */
  lemma ReadUndoesEncode(values: seq<string>)
    ensures ReadArray(Encode(values)) == Some(Plain(values))
  {
    var inner := JoinQuoted(values) + "}";
    assert Encode(values) == "{" + inner;
    PrefixOfConcat("{", inner);
    NoSpacesToDrop(Encode(values));
    if values == [] {
      assert inner == "}";
      NoSpacesToDrop("}");
      PrefixChar("}", '}');
      assert Plain(values) == [];
    } else {
      ReadUndoesJoin(values);
      NoSpacesToDrop(inner);
      NoPrefix(inner, "}", 0);
    }
  }

  // ---- The converter of pkg/rest/util.go ----

  predicate AlreadyEncoded(t: string) { '"' in t || HasPrefix(t, "[") }

  function StripBraces(t: string): string {
    if |t| > 1 && t[0] == '{' && t[|t| - 1] == '}' then t[1..|t| - 1] else t
  }

  /** The trimmed non-empty parts. */
  function TrimmedParts(parts: seq<string>): seq<string> {
    if parts == [] then []
    else (if TrimSpace(parts[0]) == "" then [] else [TrimSpace(parts[0])]) + TrimmedParts(parts[1..])
  }

  function PartsOf(t: string): seq<string> { TrimmedParts(Split(StripBraces(t), ',')) }

  /** Each part between quotes; what is inside is not escaped. */
  function JoinPlainlyQuoted(parts: seq<string>): string {
    if parts == [] then ""
    else if |parts| == 1 then "\"" + parts[0] + "\""
    else "\"" + parts[0] + "\"" + "," + JoinPlainlyQuoted(parts[1..])
  }

  /** convertToPostgresArrayOrJSON */
  function Convert(val: string): string {
    var t := TrimSpace(val);
    if AlreadyEncoded(t) then t else "{" + JoinPlainlyQuoted(PartsOf(t)) + "}"
  }

  lemma {:induction false} TrimmedPartsSnoc(parts: seq<string>, part: string)
    ensures TrimmedParts(parts + [part])
            == TrimmedParts(parts) + (if TrimSpace(part) == "" then [] else [TrimSpace(part)])
    decreases |parts|
  {
    hide TrimSpace;
    if parts == [] {
      assert parts + [part] == [part];
    } else {
      TrimmedPartsSnoc(parts[1..], part);
      assert (parts + [part])[1..] == parts[1..] + [part];
    }
  }

  /** The parts hold no quote, so the source's escaping of quotes changes nothing. */
  method ConvertToPostgresArrayOrJSON(val: string) returns (r: string)
    ensures r == Convert(val)
  {
    hide TrimSpace, JoinPlainlyQuoted, Split;
    var t := TrimSpace(val);
    if '"' in t || HasPrefix(t, "[") { return t; }
    if HasPrefix(t, "{") && |t| > 0 && t[|t| - 1] == '}' { t := t[1..|t| - 1]; }
    var parts := Split(t, ',');
    var kept: seq<string> := [];
    for i := 0 to |parts|
      invariant kept == TrimmedParts(parts[..i])
    {
      TrimmedPartsSnoc(parts[..i], parts[i]);
      assert parts[..i] + [parts[i]] == parts[..i + 1];
      var part := TrimSpace(parts[i]);
      if part != "" { kept := kept + [part]; }
    }
    assert parts[..|parts|] == parts;
    PrefixChar(TrimSpace(val), '{');
    r := "{" + JoinPlainlyQuoted(kept) + "}";
  }

  /** Converting twice is converting once, on every input. */
  lemma ConvertIdempotent(val: string)
    ensures Convert(Convert(val)) == Convert(val)
  {
    hide PartsOf;
    var t := TrimSpace(val);
    TrimSpaceTrims(val);
    var r := Convert(val);
    if AlreadyEncoded(t) {
      TrimmedIsFixed(t);
    } else {
      var parts := PartsOf(t);
      TrimmedIsFixed(r);
      if parts == [] {
        EmptyBraces();
        assert r == "{}";
      } else {
        assert r[1] == '"';
      }
    }
  }

  lemma EmptyBraces()
    ensures PartsOf("{}") == [] && !AlreadyEncoded("{}")
  {
    NoPrefix("{}", "[", 0);
    assert StripBraces("{}") == "";
    assert Split("", ',') == [""];
  }

  lemma {:induction false} PartsLack(parts: seq<string>, bad: char)
    requires forall p | p in parts :: bad !in p
    ensures forall part | part in TrimmedParts(parts) :: part != "" && bad !in part
    decreases |parts|
  {
    hide TrimSpace;
    if parts != [] {
      PartsLack(parts[1..], bad);
      TrimSpaceTrims(parts[0]);
    }
  }

  lemma {:induction false} SplitKeepsCharacters(s: string, sep: char)
    ensures forall p | p in Split(s, sep) :: forall c | c in p :: c in s
    decreases |s|
  {
    var n := Span(s, Except(sep));
    if n < |s| { SplitKeepsCharacters(s[n + 1..], sep); }
  }

  lemma PartsHaveNoQuote(t: string)
    requires '"' !in t
    ensures forall part | part in PartsOf(t) :: part != "" && '"' !in part
  {
    SplitKeepsCharacters(StripBraces(t), ',');
    PartsLack(Split(StripBraces(t), ','), '"');
  }

  /** Without a backslash a part is its own escaped form. */
  lemma {:induction false} NothingToEscape(s: string)
    requires '"' !in s && '\\' !in s
    ensures Escape(s) == s
    decreases |s|
  {
    if s != "" {
      NothingToEscape(s[1..]);
      assert [s[0]] + s[1..] == s;
    }
  }

  lemma {:induction false} PlainlyQuotedIsQuoted(parts: seq<string>)
    requires forall p | p in parts :: '"' !in p && '\\' !in p
    ensures JoinPlainlyQuoted(parts) == JoinQuoted(parts)
    decreases |parts|
  {
    if parts != [] {
      NothingToEscape(parts[0]);
      PlainlyQuotedIsQuoted(parts[1..]);
    }
  }

  /** Text read without a quote in it is no longer than what stands before the first quote. */
  lemma {:induction false} ReadIsNoLonger(p: string, rest: string)
    requires '"' !in p
    requires ReadQuoted(p + "\"" + rest).Some?
    requires '"' !in ReadQuoted(p + "\"" + rest).value.0
    ensures |ReadQuoted(p + "\"" + rest).value.0| <= |p|
    decreases |p|
  {
    var s := p + "\"" + rest;
    if p != "" && p[0] != '\\' {
      assert s[1..] == p[1..] + "\"" + rest;
      ReadIsNoLonger(p[1..], rest);
    } else if p != "" {
      if |p| == 1 {
        assert false;
      } else {
        assert s[2..] == p[2..] + "\"" + rest;
        ReadIsNoLonger(p[2..], rest);
      }
    } else {
      assert s[0] == '"';
    }
  }

  /** A part with a backslash never reads back as itself. */
  lemma {:induction false} BackslashIsLost(p: string, rest: string)
    requires '"' !in p && '\\' in p
    requires ReadQuoted(p + "\"" + rest).Some?
    ensures ReadQuoted(p + "\"" + rest).value.0 != p
    decreases |p|
  {
    var s := p + "\"" + rest;
    var text := ReadQuoted(s).value.0;
    if p[0] != '\\' {
      assert s[1..] == p[1..] + "\"" + rest;
      assert p == [p[0]] + p[1..];
      BackslashIsLost(p[1..], rest);
      assert text[1..] == ReadQuoted(s[1..]).value.0;
    } else if |p| == 1 {
      assert s[1] == '"' && text[0] == '"';
    } else {
      assert s[2..] == p[2..] + "\"" + rest;
      var tail := ReadQuoted(s[2..]).value.0;
      assert text == [p[1]] + tail;
      if text == p {
        assert tail == p[1..];
        ReadIsNoLonger(p[2..], rest);
        assert false;
      }
    }
  }

  /** What follows the first part in the joined text. */
  function AfterFirst(parts: seq<string>): string
    requires parts != []
  {
    if |parts| == 1 then "}" else "," + (JoinPlainlyQuoted(parts[1..]) + "}")
  }

  lemma FirstOfJoin(parts: seq<string>)
    requires parts != []
    ensures JoinPlainlyQuoted(parts) + "}" == "\"" + parts[0] + "\"" + AfterFirst(parts)
  {
  }

  lemma {:induction false} PlainlyQuotedWithBackslash(parts: seq<string>)
    requires parts != [] && forall p | p in parts :: '"' !in p
    requires exists p | p in parts :: '\\' in p
    ensures var r := ReadElements(JoinPlainlyQuoted(parts) + "}");
            r.Some? ==> r.value.0 != Plain(parts)
    decreases |parts|
  {
    hide ReadElement, ReadElements, JoinPlainlyQuoted, HasPrefix, Quote, Escape;
    var p, after := parts[0], AfterFirst(parts);
    var text := JoinPlainlyQuoted(parts) + "}";
    FirstOfJoin(parts);
    if '\\' in p {
      PlainElement(p, after);
      FirstElementRead(text);
      assert Plain(parts)[0] == Some(p);
    } else {
      assert Quote(p) == "\"" + p + "\"" by { QuoteOfPlain(p); }
      ReadUndoesQuote(p, after);
      var other :| other in parts && '\\' in other;
      assert other in parts[1..];
      var rest := JoinPlainlyQuoted(parts[1..]) + "}";
      PlainlyQuotedWithBackslash(parts[1..]);
      NextElementsRead(text, p, rest);
      assert Plain(parts)[1..] == Plain(parts[1..]);
    }
  }

  lemma QuoteOfPlain(p: string)
    requires '"' !in p && '\\' !in p
    ensures Quote(p) == "\"" + p + "\""
  {
    NothingToEscape(p);
  }

  lemma FirstElementRead(s: string)
    ensures ReadElements(s).Some? ==>
              ReadElement(s).Some? && ReadElements(s).value.0 != [] && ReadElements(s).value.0[0] == ReadElement(s).value.0
  {
    hide ReadElement;
  }

  lemma NextElementsRead(s: string, p: string, rest: string)
    requires ReadElement(s) == Some((Some(p), "," + rest))
    ensures ReadElements(s).Some? ==>
              ReadElements(rest).Some? && ReadElements(s).value.0 == [Some(p)] + ReadElements(rest).value.0
  {
    hide ReadElement;
    PrefixOfConcat(",", rest);
    NoPrefix("," + rest, "}", 0);
  }

  lemma PlainElement(p: string, after: string)
    requires '"' !in p && '\\' in p
    ensures var r := ReadElement("\"" + p + "\"" + after); r.Some? ==> r.value.0 != Some(p)
  {
    hide ReadQuoted, ReadBare, DropSpaces, Escape, HasPrefix;
    var s := "\"" + p + "\"" + after;
    NoSpacesToDrop(s);
    assert s == "\"" + (p + "\"" + after);
    PrefixOfConcat("\"", p + "\"" + after);
    if ReadQuoted(p + "\"" + after).Some? { BackslashIsLost(p, after); }
  }

  /** On input the converter encodes itself, PostgreSQL reads back exactly the trimmed
      non-empty parts if and only if none of them contains a backslash. */
  lemma ConvertReadsBack(val: string)
    requires !AlreadyEncoded(TrimSpace(val))
    ensures var parts := PartsOf(TrimSpace(val));
            ReadArray(Convert(val)) == Some(Plain(parts)) <==> forall p | p in parts :: '\\' !in p
  {
    hide PartsOf, TrimSpace, ReadArray, Plain, JoinPlainlyQuoted, AlreadyEncoded, HasPrefix;
    var parts := PartsOf(TrimSpace(val));
    assert '"' !in TrimSpace(val) by { NotEncoded(TrimSpace(val)); }
    PartsHaveNoQuote(TrimSpace(val));
    if forall p | p in parts :: '\\' !in p {
      PlainlyQuotedIsQuoted(parts);
      ReadUndoesEncode(parts);
    } else {
      BackslashUnread(parts);
    }
  }

  lemma NotEncoded(t: string)
    requires !AlreadyEncoded(t)
    ensures '"' !in t
  {
  }

  lemma BackslashUnread(parts: seq<string>)
    requires parts != [] && forall p | p in parts :: '"' !in p
    requires exists p | p in parts :: '\\' in p
    ensures ReadArray("{" + JoinPlainlyQuoted(parts) + "}") != Some(Plain(parts))
  {
    hide ReadElements, DropSpaces, HasPrefix;
    PlainlyQuotedWithBackslash(parts);
    var inner := JoinPlainlyQuoted(parts) + "}";
    assert "{" + JoinPlainlyQuoted(parts) + "}" == "{" + inner;
    PrefixOfConcat("{", inner);
    NoSpacesToDrop("{" + inner);
    NoSpacesToDrop(inner);
    NoPrefix(inner, "}", 0);
  }

  /** Items as the shorthand writes them: trimmed, not empty, and without the characters that mean
      something. */
  predicate ArePlainParts(list: seq<string>) {
    forall p | p in list :: p != "" && Trimmed(p) && forall c | c in p :: c !in {',', '"', '\\', '{', '}'}
  }

  /** Items joined with commas convert to a literal that reads back as the items. */
  lemma ShorthandReads(list: seq<string>)
    requires list != [] && ArePlainParts(list) && !HasPrefix(Join(list, ','), "[")
    ensures ReadArray(Convert(Join(list, ','))) == Some(Plain(list))
  {
    hide TrimSpace, ReadArray, Convert;
    var val := Join(list, ',');
    JoinedParts(list);
    TrimmedIsFixed(val);
    SplitJoin(list, ',');
    AllTrimmed(list);
    ConvertReadsBack(val);
  }

  lemma {:induction false} JoinedParts(list: seq<string>)
    requires list != [] && ArePlainParts(list)
    ensures list[0] != "" && list[|list| - 1] != ""
    ensures var val := Join(list, ',');
            && val != "" && val[0] == list[0][0] && val[|val| - 1] == list[|list| - 1][|list[|list| - 1]| - 1]
            && Trimmed(val) && '"' !in val && val[0] != '{'
    decreases |list|
  {
    assert list[0] in list && list[|list| - 1] in list;
    assert list[0][0] in list[0];
    if |list| > 1 {
      assert forall p | p in list[1..] :: p in list;
      JoinedParts(list[1..]);
    }
  }

  lemma {:induction false} AllTrimmed(list: seq<string>)
    requires ArePlainParts(list)
    ensures TrimmedParts(list) == list
  {
    hide TrimSpace;
    if list != [] {
      assert list[0] in list && forall p | p in list[1..] :: p in list;
      TrimmedIsFixed(list[0]);
      AllTrimmed(list[1..]);
    }
  }

  /** The same between braces. */
  lemma BracesRead(list: seq<string>)
    requires list != [] && ArePlainParts(list)
    ensures ReadArray(Convert("{" + Join(list, ',') + "}")) == Some(Plain(list))
  {
    hide TrimSpace, ReadArray, Convert;
    var inner := Join(list, ',');
    var val := "{" + inner + "}";
    JoinedParts(list);
    TrimmedIsFixed(val);
    NoPrefix(val, "[", 0);
    assert val[1..|val| - 1] == inner;
    SplitJoin(list, ',');
    AllTrimmed(list);
    ConvertReadsBack(val);
  }
}
