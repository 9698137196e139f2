/** The order parameter (pkg/rest/order_by.go): splitting it at commas outside parentheses, and
    reading one order term. */
module OrderBy {
  import opened Options
  import opened Text
  import opened Query

  // ---- Splitting ----

  function Deeper(depth: int, c: char): int {
    if c == '(' then depth + 1 else if c == ')' then depth - 1 else depth
  }

  function DepthAfter(depth: int, s: string): int
    decreases |s|
  {
    if s == "" then depth else DepthAfter(Deeper(depth, s[0]), s[1..])
  }

  /** A comma of s is met at depth zero, starting from the given depth. */
  predicate HasTopComma(depth: int, s: string)
    decreases |s|
  {
    s != "" && ((s[0] == ',' && depth == 0) || HasTopComma(Deeper(depth, s[0]), s[1..]))
  }

  /** The pieces between the commas at depth zero; at least one. */
  function Pieces(depth: int, s: string): (r: seq<string>)
    ensures |r| > 0
    decreases |s|
  {
    if s == "" then [""]
    else if s[0] == ',' && depth == 0 then [""] + Pieces(0, s[1..])
    else Onto([s[0]], Pieces(Deeper(depth, s[0]), s[1..]))
  }

  /** start put before the first piece. */
  function Onto(start: string, pieces: seq<string>): (r: seq<string>)
    requires |pieces| > 0
    ensures |r| == |pieces| && r[0] == start + pieces[0] && r[1..] == pieces[1..]
  {
    [start + pieces[0]] + pieces[1..]
  }

  function DropEmptyLast(pieces: seq<string>): seq<string>
    requires |pieces| > 0
  {
    if pieces[|pieces| - 1] == "" then pieces[..|pieces| - 1] else pieces
  }

  lemma OntoOnto(a: string, b: string, pieces: seq<string>)
    requires |pieces| > 0
    ensures Onto(a, Onto(b, pieces)) == Onto(a + b, pieces)
    ensures Onto("", pieces) == pieces
    ensures Onto(a, [b]) == [a + b]
  {
    assert a + (b + pieces[0]) == (a + b) + pieces[0];
    assert "" + pieces[0] == pieces[0];
  }

  /** splitOrderParamString */
  method SplitOrder(order: string) returns (parts: seq<string>)
    ensures parts == DropEmptyLast(Pieces(0, order))
  {
    hide Onto, Deeper;
    parts := [];
    var current, depth := "", 0;
    OntoOnto("", "", Pieces(0, order));
    for i := 0 to |order|
      invariant Pieces(0, order) == parts + Onto(current, Pieces(depth, order[i..]))
    {
      var c := order[i];
      var rest := order[i..][1..];
      assert rest == order[i + 1..];
      OntoOnto(current, [c], Pieces(Deeper(depth, c), rest));
      if c == ',' && depth == 0 {
        assert current + "" == current;
        assert Onto(current, [""] + Pieces(0, rest)) == [current] + Pieces(0, rest);
        OntoOnto("", "", Pieces(0, rest));
        parts := parts + [current];
        current := "";
      } else {
        current := current + [c];
        depth := Deeper(depth, c);
      }
    }
    OntoOnto(current, "", [""]);
    assert order[|order|..] == "" && current + "" == current;
    if current != "" { parts := parts + [current]; }
  }

  /** Parts that can be told apart again: none has a comma at depth zero, and all but the last
      leave no parenthesis open. The first part starts at the given depth. */
  predicate Separable(depth: int, parts: seq<string>)
    decreases |parts|
  {
    parts != [] ==>
      && !HasTopComma(depth, parts[0])
      && (|parts| > 1 ==> DepthAfter(depth, parts[0]) == 0)
      && Separable(0, parts[1..])
  }

  /** Joining the pieces with commas gives back the text, and the pieces are separable. */
  lemma {:induction false} PiecesJoin(depth: int, s: string)
    ensures Join(Pieces(depth, s), ',') == s
    ensures Separable(depth, Pieces(depth, s))
    decreases |s|
  {
    if s != "" {
      var next := if s[0] == ',' && depth == 0 then 0 else Deeper(depth, s[0]);
      PiecesJoin(next, s[1..]);
      var tail := Pieces(next, s[1..]);
      assert s == [s[0]] + s[1..];
      hide HasTopComma, DepthAfter;
      if s[0] == ',' && depth == 0 {
        EmptyFirst(tail);
      } else {
        LongerFirst(depth, s[0], tail);
      }
    }
  }

  lemma EmptyFirst(tail: seq<string>)
    requires tail != [] && Separable(0, tail)
    ensures Join([""] + tail, ',') == "," + Join(tail, ',') && Separable(0, [""] + tail)
  {
    assert ([""] + tail)[1..] == tail;
    assert "" + "," == ",";
  }

  lemma LongerFirst(depth: int, c: char, tail: seq<string>)
    requires tail != [] && Separable(Deeper(depth, c), tail) && !(c == ',' && depth == 0)
    ensures Join(Onto([c], tail), ',') == [c] + Join(tail, ',') && Separable(depth, Onto([c], tail))
  {
    assert ([c] + tail[0])[1..] == tail[0];
    if |tail| > 1 {
      hide HasTopComma, DepthAfter;
      Associative([c], tail[0] + ",", Join(tail[1..], ','));
      Associative([c], tail[0], ",");
    }
  }

  lemma {:induction false} PiecesOfPart(depth: int, part: string, s: string)
    requires !HasTopComma(depth, part)
    ensures Pieces(depth, part + s) == Onto(part, Pieces(DepthAfter(depth, part), s))
    decreases |part|
  {
    if part == "" {
      assert part + s == s;
      OntoOnto("", "", Pieces(depth, s));
    } else {
      var next := Deeper(depth, part[0]);
      PiecesOfPart(next, part[1..], s);
      assert (part + s)[1..] == part[1..] + s;
      OntoOnto([part[0]], part[1..], Pieces(DepthAfter(depth, part), s));
      assert [part[0]] + part[1..] == part;
    }
  }

  lemma {:induction false} PiecesOfJoin(depth: int, parts: seq<string>)
    requires parts != [] && Separable(depth, parts)
    ensures Pieces(depth, Join(parts, ',')) == parts
    decreases |parts|
  {
    if |parts| == 1 {
      PiecesOfPart(depth, parts[0], "");
      assert parts[0] + "" == parts[0];
    } else {
      PiecesOfJoin(0, parts[1..]);
      var rest := "," + Join(parts[1..], ',');
      PiecesOfPart(depth, parts[0], rest);
      assert rest[1..] == Join(parts[1..], ',');
      assert Join(parts, ',') == parts[0] + rest;
      assert parts[0] + "" == parts[0];
    }
  }

  /** Splitting undoes joining exactly for the lists of parts that can be told apart. */
  lemma SplitUndoesJoin(parts: seq<string>)
    requires parts != []
    ensures Pieces(0, Join(parts, ',')) == parts <==> Separable(0, parts)
  {
    PiecesJoin(0, Join(parts, ','));
    if Separable(0, parts) { PiecesOfJoin(0, parts); }
  }

  lemma {:induction false} SeparableInit(depth: int, parts: seq<string>)
    requires Separable(depth, parts) && parts != []
    ensures Separable(depth, parts[..|parts| - 1])
    decreases |parts|
  {
    if |parts| > 1 {
      SeparableInit(0, parts[1..]);
      assert parts[..|parts| - 1][1..] == parts[1..][..|parts| - 2];
    }
  }

  lemma {:induction false} JoinEmptyLast(parts: seq<string>)
    requires |parts| > 1 && parts[|parts| - 1] == ""
    ensures Join(parts, ',') == Join(parts[..|parts| - 1], ',') + ","
  {
    var front := parts[..|parts| - 1];
    if |parts| == 2 {
      assert Join(parts[1..], ',') == "";
    } else {
      JoinEmptyLast(parts[1..]);
      assert front[1..] == parts[1..][..|parts| - 2];
    }
  }

  /** Splitting loses nothing but one trailing comma: joining the parts gives back the text, up
      to a comma that ends it, and no part has a separator left in it. */
  lemma SplitLosesNothing(order: string)
    ensures var parts := DropEmptyLast(Pieces(0, order));
            && order in {Join(parts, ','), Join(parts, ',') + ","}
            && Separable(0, parts)
  {
    PiecesJoin(0, order);
    var pieces := Pieces(0, order);
    if pieces[|pieces| - 1] == "" {
      SeparableInit(0, pieces);
      if |pieces| > 1 { JoinEmptyLast(pieces); }
    }
  }

  // ---- One term ----

  predicate HasSuffix(s: string, suffix: string) {
    |suffix| <= |s| && s[|s| - |suffix|..] == suffix
  }

  /** strings.TrimSuffix */
  function TrimSuffix(s: string, suffix: string): string {
    if HasSuffix(s, suffix) then s[..|s| - |suffix|] else s
  }

  /** strings.Trim of quotes */
  function TrimQuotes(s: string): string { TrimQuotesRight(TrimQuotesLeft(s)) }

  function TrimQuotesLeft(s: string): string {
    if s != "" && IsQuote(s[0]) then TrimQuotesLeft(s[1..]) else s
  }

  function TrimQuotesRight(s: string): string
    decreases |s|
  {
    if s != "" && IsQuote(s[|s| - 1]) then TrimQuotesRight(s[..|s| - 1]) else s
  }

  const SIMILARITY := "similarity("

  /** \s in Go's regular expressions */
  predicate IsRegexSpace(c: char) { c in {' ', '\t', '\n', '\r', '\U{C}'} }

  /** \s* before a text of which it has to leave one character. */
  function DropSpaces(s: string): (r: string)
    ensures forall c | c in r :: c in s
  {
    if |s| > 1 && IsRegexSpace(s[0]) then DropSpaces(s[1..]) else s
  }

  /** The two groups of the similarity expression, where it matches at the start of s. */
  function SimilarityAt(s: string): Option<(string, string)> {
    if !HasPrefix(s, SIMILARITY) then None
    else
      var inner := s[|SIMILARITY|..];
      var comma := Span(inner, Outside({','}));
      if comma == 0 || comma == |inner| then None
      else
        var second := inner[comma + 1..];
        var close := Span(second, Outside({')'}));
        if close == 0 || close == |second| then None
        else Some((inner[..comma], DropSpaces(second[..close])))
  }

  /** The same where the expression matches first. */
  function Similar(s: string): Option<(string, string)> {
    var here := SimilarityAt(s);
    if s == "" || here.Some? then here else Similar(s[1..])
  }

  /** One part with its surrounding space removed, and not empty. */
  function Term(part: string): OrderParam {
    match Similar(part)
    case Some((column, text)) =>
      var direction := if !HasSuffix(part, ".desc") && HasSuffix(part, ".asc") then "asc" else "desc";
      WithNulls(TrimSpace(column), direction, TrimQuotes(TrimSpace(text)))
    case None =>
      if HasSuffix(part, ".desc") then WithNulls(TrimSuffix(part, ".desc"), "desc", "")
      else WithNulls(TrimSuffix(part, ".asc"), "asc", "")
  }

  function WithNulls(column: string, direction: string, similarity: string): OrderParam {
    if HasSuffix(column, ".nullsfirst") then OrderParam(TrimSuffix(column, ".nullsfirst"), direction, "first", similarity)
    else OrderParam(TrimSuffix(column, ".nullslast"), direction, "last", similarity)
  }

  function Terms(parts: seq<string>): seq<OrderParam> {
    if parts == [] then []
    else
      var part := TrimSpace(parts[0]);
      (if part == "" then [] else [Term(part)]) + Terms(parts[1..])
  }

  /** The terms of an order parameter. */
  function OrderTerms(order: string): seq<OrderParam> { Terms(DropEmptyLast(Pieces(0, order))) }

  /** parseOrderParam */
  method ParseOrder(order: string) returns (result: seq<OrderParam>)
    ensures result == OrderTerms(order)
  {
    hide Pieces, DropEmptyLast, TrimSpace, Term;
    var parts := SplitOrder(order);
    assert parts[0..] == parts;
    assert [] + Terms(parts[0..]) == Terms(parts);
    result := [];
    for i := 0 to |parts|
      invariant Terms(parts) == result + Terms(parts[i..])
    {
      assert parts[i..][1..] == parts[i + 1..];
      var part := TrimSpace(parts[i]);
      if part == "" { continue; }
      var o := ReadTerm(part);
      Associative(result, [o], Terms(parts[i + 1..]));
      result := result + [o];
    }
  }

  method ReadTerm(part: string) returns (o: OrderParam)
    ensures o == Term(part)
  {
    hide HasSuffix, TrimSpace, Similar;
    var direction, nulls, similarity, column := "asc", "last", "", part;
    var groups := Similar(part);
    if groups.Some? {
      column := TrimSpace(groups.value.0);
      similarity := TrimQuotes(TrimSpace(groups.value.1));
      direction := "desc";
      if HasSuffix(part, ".desc") {
        direction := "desc";
      } else if HasSuffix(part, ".asc") {
        direction := "asc";
      }
    } else {
      if HasSuffix(part, ".desc") {
        column := TrimSuffix(part, ".desc");
        direction := "desc";
      } else if HasSuffix(part, ".asc") {
        column := TrimSuffix(part, ".asc");
        direction := "asc";
      }
    }
    if HasSuffix(column, ".nullsfirst") {
      column := TrimSuffix(column, ".nullsfirst");
      nulls := "first";
    } else if HasSuffix(column, ".nullslast") {
      column := TrimSuffix(column, ".nullslast");
      nulls := "last";
    }
    o := OrderParam(column, direction, nulls, similarity);
  }

  // ---- Printing ----

  function NullsWord(o: OrderParam): string { if o.nulls == "first" then ".nullsfirst" else ".nullslast" }

  function DirectionWord(o: OrderParam): string { if o.direction == "desc" then ".desc" else ".asc" }

  function Repeat(c: char, n: nat): string { if n == 0 then "" else [c] + Repeat(c, n - 1) }

  /** A plain term in the order the reader strips it: column, nulls position, direction. */
  function PrintPlain(o: OrderParam): string { (o.column + NullsWord(o)) + DirectionWord(o) }

  /** A similarity term, with its parentheses balanced outside the two groups; the nulls position
      belongs to the first group. */
  function PrintSimilarity(o: OrderParam): string { Balanced(o) + DirectionWord(o) }

  function Balanced(o: OrderParam): string {
    Repeat('(', Opens(o)) + (SimilarTerm(o) + Repeat(')', Closes(o)))
  }

  function Opens(o: OrderParam): nat {
    if DepthAfter(0, o.column) < 0 then -DepthAfter(0, o.column) else 0
  }

  function Closes(o: OrderParam): nat {
    var open := Opens(o) + DepthAfter(0, o.column) + DepthAfter(0, o.similarity);
    if open < 0 then 0 else open
  }

  function SimilarTerm(o: OrderParam): string {
    SIMILARITY + ((o.column + NullsWord(o)) + ("," + (("'" + o.similarity + "'") + ")")))
  }

  /** Terms without a search text that a plain term can express. */
  predicate IsPlain(o: OrderParam) {
    o.similarity == "" && (',' in o.column || DepthAfter(0, o.column) == 0)
  }

  function PrintTerm(o: OrderParam): string { if IsPlain(o) then PrintPlain(o) else PrintSimilarity(o) }

  function PrintTerms(order: seq<OrderParam>): (r: seq<string>)
    ensures |r| == |order|
  {
    if order == [] then [] else [PrintTerm(order[0])] + PrintTerms(order[1..])
  }

  function PrintOrder(order: seq<OrderParam>): string { Join(PrintTerms(order), ',') }

  // ---- The terms the parser produces ----

  predicate StartsClean(s: string) { s != "" ==> !IsUnicodeSpace(s[0]) }

  predicate IsQuote(c: char) { c in {'\'', '"'} }

  predicate IsSearchText(s: string) {
    ')' !in s && (s != "" ==> !IsQuote(s[0]) && !IsQuote(s[|s| - 1]))
  }

  predicate IsTerm(o: OrderParam) {
    && o.direction in {"asc", "desc"} && o.nulls in {"first", "last"}
    && StartsClean(o.column) && IsSearchText(o.similarity)
    && (',' in o.column ==> o.similarity == "" && Similar(o.column).None? && !HasTopComma(0, o.column))
  }

  /** Only the last term may have a column with a comma that leaves a parenthesis open. */
  predicate IsReadable(order: seq<OrderParam>) {
    order != [] ==>
      && IsTerm(order[0])
      && (|order| > 1 && ',' in order[0].column ==> DepthAfter(0, order[0].column) == 0)
      && IsReadable(order[1..])
  }

  // ---- Depth of parentheses ----

  lemma {:induction false} DepthConcat(depth: int, a: string, b: string)
    ensures DepthAfter(depth, a + b) == DepthAfter(DepthAfter(depth, a), b)
    ensures HasTopComma(depth, a + b) <==> HasTopComma(depth, a) || HasTopComma(DepthAfter(depth, a), b)
    decreases |a|
  {
    if a == "" {
      assert a + b == b;
    } else {
      assert (a + b)[1..] == a[1..] + b;
      DepthConcat(Deeper(depth, a[0]), a[1..], b);
    }
  }

  lemma {:induction false} DepthShift(depth: int, s: string)
    ensures DepthAfter(depth, s) == depth + DepthAfter(0, s)
    decreases |s|
  {
    if s != "" {
      DepthShift(Deeper(depth, s[0]), s[1..]);
      DepthShift(Deeper(0, s[0]), s[1..]);
    }
  }

  lemma {:induction false} NoComma(depth: int, s: string)
    requires ',' !in s
    ensures !HasTopComma(depth, s)
    decreases |s|
  {
    if s != "" { NoComma(Deeper(depth, s[0]), s[1..]); }
  }

  /** Text without a closing parenthesis only goes deeper. */
  lemma {:induction false} OnlyDeeper(depth: int, s: string)
    requires ')' !in s
    ensures DepthAfter(depth, s) >= depth && (depth > 0 ==> !HasTopComma(depth, s))
    decreases |s|
  {
    if s != "" { OnlyDeeper(Deeper(depth, s[0]), s[1..]); }
  }

  lemma {:induction false} RepeatDepth(depth: int, c: char, n: nat)
    requires c == '(' || c == ')'
    ensures DepthAfter(depth, Repeat(c, n)) == if c == '(' then depth + n else depth - n
    ensures ',' !in Repeat(c, n)
    decreases n
  {
    if n > 0 {
      assert Repeat(c, n)[1..] == Repeat(c, n - 1);
      RepeatDepth(Deeper(depth, c), c, n - 1);
    }
  }

  /** Neither commas nor parentheses. */
  predicate IsNeutral(s: string) {
    ',' !in s && '(' !in s && ')' !in s
  }

  lemma {:induction false} NeutralDepth(depth: int, s: string)
    requires IsNeutral(s)
    ensures DepthAfter(depth, s) == depth && !HasTopComma(depth, s)
    decreases |s|
  {
    if s != "" { NeutralDepth(depth, s[1..]); }
  }

  predicate SameShape(s: string, t: string) {
    && DepthAfter(0, s) == DepthAfter(0, t)
    && (HasTopComma(0, s) <==> HasTopComma(0, t))
    && (',' in s <==> ',' in t)
  }

  lemma NeutralTail(s: string, tail: string)
    requires IsNeutral(tail)
    ensures SameShape(s + tail, s)
  {
    DepthConcat(0, s, tail);
    NeutralDepth(DepthAfter(0, s), tail);
  }

  lemma WordsAreNeutral(o: OrderParam)
    ensures IsNeutral(NullsWord(o)) && IsNeutral(DirectionWord(o))
  {
  }

  lemma PlainKeepsShape(o: OrderParam)
    ensures SameShape(PrintPlain(o), o.column)
  {
    hide DepthAfter, HasTopComma, IsNeutral, NullsWord, DirectionWord;
    WordsAreNeutral(o);
    NeutralTail(o.column, NullsWord(o));
    NeutralTail(o.column + NullsWord(o), DirectionWord(o));
  }

  /** The depth within a printed similarity term: above zero at each of its commas. */
  lemma SimilarTermDepth(depth: int, o: OrderParam)
    requires ',' !in o.column && ')' !in o.similarity && depth + DepthAfter(0, o.column) >= 0
    ensures !HasTopComma(depth, SimilarTerm(o))
    ensures DepthAfter(depth, SimilarTerm(o)) == depth + DepthAfter(0, o.column) + DepthAfter(0, o.similarity)
  {
    hide DepthAfter, HasTopComma, IsNeutral, NullsWord;
    var first, second := o.column + NullsWord(o), "'" + o.similarity + "'";
    var inside := depth + 1 + DepthAfter(0, o.column);
    OpenDepth(depth);
    DepthConcat(depth, SIMILARITY, first + ("," + (second + ")")));
    FirstGroupDepth(depth + 1, o);
    DepthConcat(depth + 1, first, "," + (second + ")"));
    CommaDepth(inside);
    DepthConcat(inside, ",", second + ")");
    SecondGroupDepth(inside, o.similarity);
    DepthConcat(inside, second, ")");
    CloseDepth(inside + DepthAfter(0, o.similarity));
  }

  lemma OpenDepth(depth: int)
    ensures DepthAfter(depth, SIMILARITY) == depth + 1 && !HasTopComma(depth, SIMILARITY)
  {
    hide DepthAfter, HasTopComma;
    assert SIMILARITY == "similarity" + "(";
    DepthConcat(depth, "similarity", "(");
    NeutralDepth(depth, "similarity");
    OpenParenthesis(depth);
  }

  lemma OpenParenthesis(depth: int)
    ensures DepthAfter(depth, "(") == depth + 1 && !HasTopComma(depth, "(")
  {
  }

  lemma CommaDepth(depth: int)
    requires depth > 0
    ensures DepthAfter(depth, ",") == depth && !HasTopComma(depth, ",")
  {
  }

  lemma CloseDepth(depth: int)
    ensures DepthAfter(depth, ")") == depth - 1 && !HasTopComma(depth, ")")
  {
  }

  lemma FirstGroupDepth(depth: int, o: OrderParam)
    requires ',' !in o.column
    ensures DepthAfter(depth, o.column + NullsWord(o)) == depth + DepthAfter(0, o.column)
    ensures !HasTopComma(depth, o.column + NullsWord(o))
  {
    hide DepthAfter, HasTopComma, NullsWord, IsNeutral;
    WordsAreNeutral(o);
    DepthConcat(depth, o.column, NullsWord(o));
    NeutralDepth(DepthAfter(depth, o.column), NullsWord(o));
    DepthShift(depth, o.column);
    NoComma(depth, o.column);
  }

  lemma SecondGroupDepth(depth: int, text: string)
    requires depth > 0 && ')' !in text
    ensures DepthAfter(depth, "'" + text + "'") == depth + DepthAfter(0, text)
    ensures !HasTopComma(depth, "'" + text + "'")
  {
    var quoted := "'" + text + "'";
    OnlyDeeper(depth, quoted);
    hide HasTopComma, DepthAfter;
    NeutralDepth(depth, "'");
    DepthConcat(depth, "'" + text, "'");
    DepthConcat(depth, "'", text);
    DepthShift(depth, text);
    NeutralDepth(DepthAfter(depth, text), "'");
  }

  /** A printed similarity term is balanced and has no comma at depth zero. */
  lemma SimilarityBalanced(o: OrderParam)
    requires ',' !in o.column && ')' !in o.similarity
    ensures DepthAfter(0, PrintSimilarity(o)) == 0 && !HasTopComma(0, PrintSimilarity(o))
  {
    hide DepthAfter, HasTopComma, SimilarTerm, DirectionWord, IsNeutral, Repeat;
    TextDepth(o.similarity);
    var opens, closes := Opens(o), Closes(o);
    RepeatDepth(0, '(', opens);
    NoComma(0, Repeat('(', opens));
    DepthConcat(0, Repeat('(', opens), SimilarTerm(o) + Repeat(')', closes));
    SimilarTermDepth(opens, o);
    DepthConcat(opens, SimilarTerm(o), Repeat(')', closes));
    RepeatDepth(closes, ')', closes);
    NoComma(closes, Repeat(')', closes));
    WordsAreNeutral(o);
    NeutralTail(Balanced(o), DirectionWord(o));
  }

  lemma TextDepth(s: string)
    requires ')' !in s
    ensures DepthAfter(0, s) >= 0
  {
    OnlyDeeper(0, s);
  }

  // ---- Suffixes ----

  lemma SuffixConcat(s: string, suffix: string)
    ensures HasSuffix(s + suffix, suffix) && TrimSuffix(s + suffix, suffix) == s
    ensures s == TrimSuffix(s, suffix) + if HasSuffix(s, suffix) then suffix else ""
  {
    assert (s + suffix)[|s|..] == suffix;
  }

  /** A character that differs, counted from the end, rules a suffix out. */
  lemma OtherSuffix(s: string, suffix: string, other: string, k: nat)
    requires k < |suffix| && k < |other| && suffix[|suffix| - 1 - k] != other[|other| - 1 - k]
    ensures !HasSuffix(s + suffix, other)
  {
    var t := s + suffix;
    if |other| <= |t| {
      assert t[|t| - |other|..][|other| - 1 - k] == t[|t| - 1 - k] == suffix[|suffix| - 1 - k];
    }
  }

  lemma AscIsNotDesc(s: string)
    ensures !HasSuffix(s + ".asc", ".desc")
  {
    OtherSuffix(s, ".asc", ".desc", 2);
  }

  lemma LastIsNotFirst(s: string)
    ensures !HasSuffix(s + ".nullslast", ".nullsfirst")
  {
    OtherSuffix(s, ".nullslast", ".nullsfirst", 2);
  }

  /** The column with its nulls position, as both kinds of term read it. */
  lemma NullsUndoesPrint(o: OrderParam)
    requires o.nulls in {"first", "last"}
    ensures WithNulls(o.column + NullsWord(o), o.direction, o.similarity) == o
  {
    hide HasSuffix;
    SuffixConcat(o.column, NullsWord(o));
    LastIsNotFirst(o.column);
  }

  // ---- Where the similarity expression matches ----

  /** Text that can follow a match without changing it: the match ends in a closing parenthesis. */
  lemma SpanWithTail(s: string, tail: string, stop: char)
    requires stop !in tail
    ensures var n, m := Span(s, Outside({stop})), Span(s + tail, Outside({stop}));
            if n < |s| then m == n else m == |s + tail|
  {
    var n := Span(s, Outside({stop}));
    if n < |s| {
      assert s[..n] + (s[n..] + tail) == s + tail;
      SpanOfRun(s[..n], s[n..] + tail, Outside({stop}));
    } else {
      assert forall i | 0 <= i < |s + tail| :: (s + tail)[i] != stop by {
        assert forall i | 0 <= i < |tail| :: tail[i] in tail;
      }
      SpanIs(s + tail, Outside({stop}), |s + tail|);
    }
  }

  lemma PrefixWithTail(s: string, tail: string)
    requires '(' !in tail
    ensures HasPrefix(s + tail, SIMILARITY) <==> HasPrefix(s, SIMILARITY)
  {
    var n := |SIMILARITY|;
    if |s| >= n {
      assert (s + tail)[..n] == s[..n];
    } else if |s + tail| >= n {
      assert (s + tail)[n - 1] == tail[n - 1 - |s|] && tail[n - 1 - |s|] in tail;
      NoPrefix(s + tail, SIMILARITY, n - 1);
    }
  }

  lemma SimilarityAtTail(s: string, tail: string)
    requires IsNeutral(tail)
    ensures SimilarityAt(s + tail) == SimilarityAt(s)
  {
    hide HasPrefix, Span, DropSpaces;
    PrefixWithTail(s, tail);
    if HasPrefix(s, SIMILARITY) {
      var inner := AfterPrefix(s, tail);
      SpanWithTail(inner, tail, ',');
      var comma := Span(inner, Outside({','}));
      if comma < |inner| {
        assert (inner + tail)[..comma] == inner[..comma];
        var second := inner[comma + 1..];
        assert (inner + tail)[comma + 1..] == second + tail;
        SpanWithTail(second, tail, ')');
        var close := Span(second, Outside({')'}));
        if close < |second| { assert (second + tail)[..close] == second[..close]; }
      }
    }
  }

  lemma AfterPrefix(s: string, tail: string) returns (inner: string)
    requires HasPrefix(s, SIMILARITY)
    ensures inner == s[|SIMILARITY|..] && (s + tail)[|SIMILARITY|..] == inner + tail
  {
    inner := s[|SIMILARITY|..];
  }

  lemma {:induction false} SimilarTail(s: string, tail: string)
    requires IsNeutral(tail)
    ensures Similar(s + tail) == Similar(s)
    decreases |s| + |tail|
  {
    hide SimilarityAt;
    SimilarityAtTail(s, tail);
    if s != "" {
      assert (s + tail)[1..] == s[1..] + tail;
      SimilarTail(s[1..], tail);
    } else if tail != "" {
      assert s + tail == tail && "" + tail[1..] == tail[1..];
      SimilarTail("", tail[1..]);
    }
  }

  lemma {:induction false} NoCommaNoMatch(s: string)
    requires ',' !in s
    ensures Similar(s).None?
  {
    if s != "" { NoCommaNoMatch(s[1..]); }
  }

  /** A text of the expression's form matches with the groups it was made of. */
  lemma Matches(first: string, second: string, tail: string)
    requires first != "" && ',' !in first
    requires second != "" && ')' !in second
    ensures SimilarityAt(SIMILARITY + (first + ("," + (second + (")" + tail))))) == Some((first, DropSpaces(second)))
  {
    hide HasPrefix, Span, SIMILARITY;
    var close := ")" + tail;
    var comma := "," + (second + close);
    PrefixOfConcat(SIMILARITY, first + comma);
    UpTo(first, comma, ',');
    UpTo(second, close, ')');
    assert comma[1..] == second + close;
  }

  /** What the expression says: a column without commas, a comma, space, and a text without closing
      parentheses up to one; the space takes all it can. */
  predicate IsMatch(s: string, column: string, space: string, text: string, rest: string) {
    && s == SIMILARITY + (column + ("," + ((space + text) + (")" + rest))))
    && column != "" && ',' !in column
    && text != "" && ')' !in space + text
    && (forall c | c in space :: IsRegexSpace(c)) && (|text| > 1 ==> !IsRegexSpace(text[0]))
  }

  /** Cutting at the first comma and the first closing parenthesis after it is matching. */
  lemma SimilarityIsMatch(s: string, column: string, text: string)
    ensures SimilarityAt(s) == Some((column, text))
            <==> exists space, rest :: IsMatch(s, column, space, text, rest)
  {
    if SimilarityAt(s) == Some((column, text)) {
      var space, rest := CutIsMatch(s);
      assert IsMatch(s, column, space, text, rest);
    }
    if space, rest :| IsMatch(s, column, space, text, rest) {
      SpacesDropped(space, text);
      Matches(column, space + text, rest);
    }
  }

  lemma {:induction false} SpacesDropped(space: string, text: string)
    requires text != "" && (|text| > 1 ==> !IsRegexSpace(text[0]))
    requires forall c | c in space :: IsRegexSpace(c)
    ensures DropSpaces(space + text) == text
  {
    if space == "" {
      assert space + text == text;
    } else {
      assert (space + text)[1..] == space[1..] + text;
      SpacesDropped(space[1..], text);
    }
  }

  lemma {:induction false} DroppedSpaces(s: string) returns (space: string)
    requires s != ""
    ensures s == space + DropSpaces(s) && DropSpaces(s) != ""
    ensures (forall c | c in space :: IsRegexSpace(c))
    ensures var text := DropSpaces(s); |text| > 1 ==> !IsRegexSpace(text[0])
  {
    space := "";
    if |s| > 1 && IsRegexSpace(s[0]) {
      var more := DroppedSpaces(s[1..]);
      space := [s[0]] + more;
    }
  }

  lemma CutIsMatch(s: string) returns (space: string, rest: string)
    requires SimilarityAt(s).Some?
    ensures var (column, text) := SimilarityAt(s).value; IsMatch(s, column, space, text, rest)
  {
    hide SimilarityAt, SIMILARITY, DropSpaces;
    var column, between;
    column, between, rest := CutParts(s);
    space := DroppedSpaces(between);
    assert space + DropSpaces(between) == between;
  }

  lemma CutParts(s: string) returns (column: string, between: string, rest: string)
    requires SimilarityAt(s).Some?
    ensures SimilarityAt(s) == Some((column, DropSpaces(between)))
    ensures s == SIMILARITY + (column + ("," + (between + (")" + rest))))
    ensures column != "" && ',' !in column && between != "" && ')' !in between
  {
    hide Span, DropSpaces;
    var inner := s[|SIMILARITY|..];
    FromPrefix(s);
    hide HasPrefix, SIMILARITY;
    var second;
    column, second := CutAt(inner, ',');
    between, rest := CutAt(second, ')');
  }

  lemma FromPrefix(s: string)
    requires HasPrefix(s, SIMILARITY)
    ensures s == SIMILARITY + s[|SIMILARITY|..]
  {
  }

  lemma CutAt(s: string, stop: char) returns (front: string, rest: string)
    requires Span(s, Outside({stop})) < |s|
    ensures var n := Span(s, Outside({stop})); |front| == n && front == s[..n] && rest == s[n + 1..]
    ensures stop !in front && s == front + ([stop] + rest)
  {
    var n := Span(s, Outside({stop}));
    front, rest := s[..n], s[n + 1..];
    CutIndex(s, n);
  }

  lemma CutIndex(s: string, n: nat)
    requires n < |s|
    ensures s == s[..n] + ([s[n]] + s[n + 1..])
  {
  }

  lemma UpTo(s: string, rest: string, stop: char)
    requires stop !in s && rest != "" && rest[0] == stop
    ensures Span(s + rest, Outside({stop})) == |s| && (s + rest)[..|s|] == s
    ensures (s + rest)[|s| + 1..] == rest[1..]
  {
    assert forall i | 0 <= i < |s| :: s[i] in s;
    SpanOfRun(s, rest, Outside({stop}));
  }

  lemma {:induction false} OpensDoNotMatch(n: nat, s: string)
    requires s != "" && SimilarityAt(s).Some?
    ensures Similar(Repeat('(', n) + s) == SimilarityAt(s)
  {
    hide SimilarityAt;
    if n == 0 {
      assert "" + s == s;
    } else {
      var text := Repeat('(', n) + s;
      assert text[0] == '(' && text[1..] == Repeat('(', n - 1) + s;
      NoMatchAtOpen(text);
      OpensDoNotMatch(n - 1, s);
    }
  }

  lemma NoMatchAtOpen(s: string)
    requires s != "" && s[0] == '('
    ensures SimilarityAt(s).None?
  {
    NoPrefix(s, SIMILARITY, 0);
  }

  // ---- Reading a printed term ----

  lemma PlainUndoesPrint(o: OrderParam)
    requires IsTerm(o) && IsPlain(o)
    ensures Term(PrintPlain(o)) == o
  {
    hide HasSuffix, Similar, IsNeutral, WithNulls, NullsWord;
    WordsAreNeutral(o);
    if ',' !in o.column { NoCommaNoMatch(o.column); }
    SimilarTail(o.column, NullsWord(o));
    SimilarTail(o.column + NullsWord(o), DirectionWord(o));
    SuffixConcat(o.column + NullsWord(o), DirectionWord(o));
    AscIsNotDesc(o.column + NullsWord(o));
    NullsUndoesPrint(o);
  }

  lemma QuotesUndone(text: string)
    requires IsSearchText(text)
    ensures TrimQuotes(TrimSpace("'" + text + "'")) == text
  {
    var quoted, closed := "'" + text + "'", text + "'";
    TrimmedIsFixed(quoted);
    hide TrimSpace, TrimQuotesLeft, TrimQuotesRight;
    assert quoted == "'" + closed;
    FirstQuoteOff(closed);
    if text == "" {
      assert closed == "'" + "";
      FirstQuoteOff("");
      NoQuote("");
    } else {
      assert closed[0] == text[0];
      NoQuote(closed);
      LastQuoteOff(text);
      NoQuote(text);
    }
  }

  lemma FirstQuoteOff(s: string)
    ensures TrimQuotesLeft("'" + s) == TrimQuotesLeft(s)
  {
    assert ("'" + s)[1..] == s;
  }

  lemma LastQuoteOff(s: string)
    ensures TrimQuotesRight(s + "'") == TrimQuotesRight(s)
  {
    assert (s + "'")[..|s|] == s;
  }

  lemma NoQuote(s: string)
    ensures s == "" || !IsQuote(s[0]) ==> TrimQuotesLeft(s) == s
    ensures s == "" || !IsQuote(s[|s| - 1]) ==> TrimQuotesRight(s) == s
  {
  }

  lemma NullsEndsWord(o: OrderParam)
    requires StartsClean(o.column)
    ensures var first := o.column + NullsWord(o); first != "" && TrimSpace(first) == first
    ensures ',' !in o.column ==> ',' !in o.column + NullsWord(o)
  {
    TrimmedIsFixed(o.column + NullsWord(o));
  }

  lemma SimilarityMatches(o: OrderParam)
    requires IsTerm(o) && ',' !in o.column
    ensures Similar(PrintSimilarity(o)) == Some((o.column + NullsWord(o), "'" + o.similarity + "'"))
  {
    hide SimilarityAt, Repeat, DirectionWord, NullsWord, Similar, TrimSpace, IsNeutral, Opens, Closes;
    var first, second, tail := o.column + NullsWord(o), "'" + o.similarity + "'", Repeat(')', Closes(o));
    NullsEndsWord(o);
    Matches(first, second, tail);
    Associative(second, ")", tail);
    Associative(",", second + ")", tail);
    Associative(first, "," + (second + ")"), tail);
    Associative(SIMILARITY, first + ("," + (second + ")")), tail);
    OpensDoNotMatch(Opens(o), SimilarTerm(o) + tail);
    WordsAreNeutral(o);
    SimilarTail(Balanced(o), DirectionWord(o));
  }

  lemma SimilarityUndoesPrint(o: OrderParam)
    requires IsTerm(o) && ',' !in o.column
    ensures Term(PrintSimilarity(o)) == o
  {
    hide HasSuffix, Similar, WithNulls, NullsWord, TrimSpace, TrimQuotes, Balanced;
    SimilarityMatches(o);
    NullsEndsWord(o);
    QuotesUndone(o.similarity);
    SuffixConcat(Balanced(o), DirectionWord(o));
    AscIsNotDesc(Balanced(o));
    NullsUndoesPrint(o);
  }

  /** Reading a printed term gives it back, plain or with a search text. */
  lemma ReadUndoesPrint(o: OrderParam)
    requires IsTerm(o)
    ensures Term(PrintTerm(o)) == o
  {
    hide Term, PrintPlain, PrintSimilarity, DepthAfter, HasTopComma, Similar;
    if IsPlain(o) { PlainUndoesPrint(o); } else { SimilarityUndoesPrint(o); }
  }

  lemma PrintedIsTrimmed(o: OrderParam)
    requires StartsClean(o.column)
    ensures PrintTerm(o) != "" && TrimSpace(PrintTerm(o)) == PrintTerm(o)
  {
    hide IsPlain, TrimSpace, Opens, Closes, Repeat;
    if !IsPlain(o) { RepeatStart('(', Opens(o)); }
    TrimmedIsFixed(PrintTerm(o));
  }

  lemma RepeatStart(c: char, n: nat)
    ensures Repeat(c, n) != "" ==> Repeat(c, n)[0] == c
  {
  }

  /** A printed term has no separator, and none but an unbalanced column leaves one open. */
  lemma PrintedShape(o: OrderParam)
    requires IsTerm(o)
    ensures !HasTopComma(0, PrintTerm(o))
    ensures DepthAfter(0, PrintTerm(o)) == if ',' in o.column then DepthAfter(0, o.column) else 0
  {
    hide PrintPlain, PrintSimilarity, DepthAfter, HasTopComma, Similar;
    if IsPlain(o) {
      PlainKeepsShape(o);
      if ',' !in o.column { NoComma(0, o.column); }
    } else {
      SimilarityBalanced(o);
    }
  }

  lemma {:induction false} PrintedTerms(order: seq<OrderParam>)
    requires IsReadable(order)
    ensures Terms(PrintTerms(order)) == order && Separable(0, PrintTerms(order))
  {
    hide Term, PrintTerm, TrimSpace, IsTerm, DepthAfter, HasTopComma;
    if order != [] {
      var o := order[0];
      assert PrintTerms(order)[1..] == PrintTerms(order[1..]);
      IsTermStarts(o);
      PrintedIsTrimmed(o);
      ReadUndoesPrint(o);
      PrintedShape(o);
      PrintedTerms(order[1..]);
    }
  }

  lemma IsTermStarts(o: OrderParam)
    requires IsTerm(o)
    ensures StartsClean(o.column)
  {
  }

  lemma {:induction false} LastPrinted(order: seq<OrderParam>)
    requires IsReadable(order) && order != []
    ensures var printed := PrintTerms(order); printed[|printed| - 1] != ""
  {
    hide PrintTerm, IsTerm, DepthAfter;
    assert PrintTerms(order)[1..] == PrintTerms(order[1..]);
    if |order| > 1 {
      LastPrinted(order[1..]);
    } else {
      IsTermStarts(order[0]);
      PrintedIsTrimmed(order[0]);
    }
  }

  lemma ReadableUndoesPrint(order: seq<OrderParam>)
    requires IsReadable(order)
    ensures OrderTerms(PrintOrder(order)) == order
  {
    hide Terms, IsReadable, Separable, Pieces;
    var printed := PrintTerms(order);
    PrintedTerms(order);
    if order != [] {
      SplitUndoesJoin(printed);
      LastPrinted(order);
    } else {
      NoTerms();
    }
  }

  lemma NoTerms()
    ensures OrderTerms("") == []
  {
  }

  // ---- What is parsed is readable ----

  lemma {:induction false} TrimKeepsShape(s: string)
    ensures SameShape(TrimSpace(s), s)
  {
    TrimLeftKeepsShape(s);
    TrimRightKeepsShape(TrimLeft(s));
  }

  lemma {:induction false} TrimLeftKeepsShape(s: string)
    ensures SameShape(TrimLeft(s), s)
  {
    if s != "" && IsUnicodeSpace(s[0]) {
      TrimLeftKeepsShape(s[1..]);
      assert s == [s[0]] + s[1..];
    }
  }

  lemma {:induction false} TrimRightKeepsShape(s: string)
    ensures SameShape(TrimRight(s), s)
    decreases |s|
  {
    if s != "" && IsUnicodeSpace(s[|s| - 1]) {
      var front, last := s[..|s| - 1], s[|s| - 1..];
      TrimRightKeepsShape(front);
      assert last == [s[|s| - 1]] && s == front + last;
      NeutralTail(front, last);
    }
  }

  /** What a term loses with an ending: neither its shape, its start nor a match. */
  lemma EndingTrimmed(s: string, suffix: string)
    requires IsNeutral(suffix) && StartsClean(s)
    ensures var t := TrimSuffix(s, suffix);
            SameShape(t, s) && StartsClean(t) && Similar(t) == Similar(s)
  {
    hide DepthAfter, HasTopComma, IsNeutral, Similar, HasSuffix;
    var t := TrimSuffix(s, suffix);
    SuffixConcat(s, suffix);
    NeutralTail(t, suffix);
    SimilarTail(t, suffix);
    if !HasSuffix(s, suffix) { assert t + "" == t; }
    assert t != "" ==> t[0] == s[0];
  }

  lemma NullsRead(column: string, direction: string, similarity: string)
    requires StartsClean(column)
    ensures var o := WithNulls(column, direction, similarity);
            && o.direction == direction && o.similarity == similarity && o.nulls in {"first", "last"}
            && SameShape(o.column, column) && StartsClean(o.column) && Similar(o.column) == Similar(column)
  {
    hide DepthAfter, HasTopComma, Similar, TrimSuffix, HasSuffix, StartsClean;
    assert IsNeutral(".nullsfirst") && IsNeutral(".nullslast");
    hide IsNeutral;
    EndingTrimmed(column, if HasSuffix(column, ".nullsfirst") then ".nullsfirst" else ".nullslast");
  }

  lemma PlainRead(part: string)
    requires Similar(part).None? && Trimmed(part)
    ensures var o := Term(part);
            && o.direction in {"asc", "desc"} && o.nulls in {"first", "last"} && o.similarity == ""
            && SameShape(o.column, part) && StartsClean(o.column) && Similar(o.column).None?
  {
    hide DepthAfter, HasTopComma, Similar, TrimSuffix, HasSuffix, WithNulls;
    var direction := if HasSuffix(part, ".desc") then ".desc" else ".asc";
    assert IsNeutral(direction) && StartsClean(part);
    hide IsNeutral, StartsClean;
    EndingTrimmed(part, direction);
    NullsRead(TrimSuffix(part, direction), direction[1..], "");
  }

  lemma {:induction false} MatchedGroups(s: string)
    requires Similar(s).Some?
    ensures ',' !in Similar(s).value.0 && ')' !in Similar(s).value.1
  {
    if SimilarityAt(s).None? {
      MatchedGroups(s[1..]);
    } else {
      MatchedGroupsAt(s);
    }
  }

  lemma MatchedGroupsAt(s: string)
    requires SimilarityAt(s).Some?
    ensures ',' !in SimilarityAt(s).value.0 && ')' !in SimilarityAt(s).value.1
  {
  }

  lemma SearchTextRead(s: string)
    requires ')' !in s
    ensures IsSearchText(TrimQuotes(TrimSpace(s)))
  {
    hide TrimSpace;
    TrimSpaceTrims(s);
    TrimQuotesLeftTrims(TrimSpace(s));
    TrimQuotesRightTrims(TrimQuotesLeft(TrimSpace(s)));
  }

  lemma {:induction false} TrimQuotesLeftTrims(s: string)
    ensures var r := TrimQuotesLeft(s); (r != "" ==> !IsQuote(r[0])) && forall c | c in r :: c in s
  {
    if s != "" && IsQuote(s[0]) { TrimQuotesLeftTrims(s[1..]); }
  }

  lemma {:induction false} TrimQuotesRightTrims(s: string)
    ensures var r := TrimQuotesRight(s);
            && (r != "" ==> !IsQuote(r[|r| - 1]) && r[0] == s[0]) && forall c | c in r :: c in s
    decreases |s|
  {
    if s != "" && IsQuote(s[|s| - 1]) { TrimQuotesRightTrims(s[..|s| - 1]); }
  }

  lemma SimilarityRead(part: string)
    requires Similar(part).Some?
    ensures IsTerm(Term(part)) && ',' !in Term(part).column
  {
    hide DepthAfter, HasTopComma, Similar, TrimSpace, TrimQuotes, HasSuffix, WithNulls, IsSearchText;
    var (first, second) := Similar(part).value;
    MatchedGroups(part);
    TrimSpaceTrims(first);
    SearchTextRead(second);
    var direction := if !HasSuffix(part, ".desc") && HasSuffix(part, ".asc") then "asc" else "desc";
    NullsRead(TrimSpace(first), direction, TrimQuotes(TrimSpace(second)));
  }

  /** Every part without a separator is read as a term that can be printed. */
  lemma TermRead(part: string)
    requires Trimmed(part) && !HasTopComma(0, part)
    ensures IsTerm(Term(part))
    ensures ',' in Term(part).column ==> DepthAfter(0, Term(part).column) == DepthAfter(0, part)
  {
    hide DepthAfter, HasTopComma, Similar, Term;
    if Similar(part).Some? {
      SimilarityRead(part);
    } else {
      PlainRead(part);
    }
  }

  lemma {:induction false} TermsReadable(parts: seq<string>)
    requires Separable(0, parts)
    ensures IsReadable(Terms(parts))
  {
    hide Term, TrimSpace, IsTerm, DepthAfter, HasTopComma;
    if parts != [] {
      TermsReadable(parts[1..]);
      var part := TrimSpace(parts[0]);
      var rest := Terms(parts[1..]);
      if part != "" {
        TrimSpaceTrims(parts[0]);
        TrimKeepsShape(parts[0]);
        TermRead(part);
        assert Terms(parts)[1..] == rest;
      } else {
        assert Terms(parts) == rest;
      }
    }
  }

  /** Every order, whatever the text, is parsed into readable terms. */
  lemma ParsedIsReadable(order: string)
    ensures IsReadable(OrderTerms(order))
  {
    SplitLosesNothing(order);
    TermsReadable(DropEmptyLast(Pieces(0, order)));
  }

  /** Parsing printed terms gives them back exactly for the terms the parser can produce. */
  lemma ParseUndoesPrint(order: seq<OrderParam>)
    ensures OrderTerms(PrintOrder(order)) == order <==> IsReadable(order)
  {
    ParsedIsReadable(PrintOrder(order));
    if IsReadable(order) { ReadableUndoesPrint(order); }
  }

  /** Every order string, printed from its terms and parsed again, gives the same terms. */
  lemma ParsePrintParse(order: string)
    ensures OrderTerms(PrintOrder(OrderTerms(order))) == OrderTerms(order)
  {
    ParsedIsReadable(order);
    ReadableUndoesPrint(OrderTerms(order));
  }

  // ---- Endings in the other order ----

  /** The direction has to come last: written before a nulls position, it is read as part of the
      column name. */
  lemma DirectionMustBeLast(o: OrderParam)
    requires IsTerm(o) && o.similarity == "" && Similar(o.column).None?
    ensures Term(o.column + DirectionWord(o) + NullsWord(o))
            == o.(column := o.column + DirectionWord(o), direction := "asc")
  {
    hide HasSuffix, Similar, IsNeutral;
    var column, part := o.column + DirectionWord(o), o.column + DirectionWord(o) + NullsWord(o);
    WordsAreNeutral(o);
    SimilarTail(o.column, DirectionWord(o));
    SimilarTail(column, NullsWord(o));
    SuffixConcat(column, NullsWord(o));
    SuffixConcat(part, ".asc");
    LastIsNotFirst(column);
    NullsIsNotDirection(column, NullsWord(o));
  }

  lemma NullsIsNotDirection(s: string, nulls: string)
    requires nulls in {".nullsfirst", ".nullslast"}
    ensures !HasSuffix(s + nulls, ".desc") && !HasSuffix(s + nulls, ".asc")
  {
    OtherSuffix(s, nulls, ".desc", 0);
    OtherSuffix(s, nulls, ".asc", 0);
  }

  /** In a similarity term the nulls position is read inside the parentheses; after them, like
      anything else there, it is not read and hides a direction before it. */
  lemma NullsAfterSimilarity(o: OrderParam)
    requires IsTerm(o) && ',' !in o.column
    ensures Term(PrintSimilarity(o) + ".nullsfirst") == o.(direction := "desc")
  {
    assert IsNeutral(".nullsfirst") && NullsWord(o.(direction := "desc")) == NullsWord(o);
    hide HasSuffix, Similar, WithNulls, NullsWord, TrimSpace, TrimQuotes, PrintSimilarity, HasTopComma;
    SimilarityMatches(o);
    SimilarTail(PrintSimilarity(o), ".nullsfirst");
    NullsIsNotDirection(PrintSimilarity(o), ".nullsfirst");
    NullsEndsWord(o);
    QuotesUndone(o.similarity);
    NullsUndoesPrint(o.(direction := "desc"));
  }

  // ---- What a client may leave out ----

  predicate EndsInWord(s: string) {
    HasSuffix(s, ".asc") || HasSuffix(s, ".desc") || HasSuffix(s, ".nullsfirst") || HasSuffix(s, ".nullslast")
  }

  /** A plain term is a column, a nulls position and a direction, the last two optional: ascending unless
      .desc is written, and nulls last unless .nullsfirst is. */
  lemma TermDefaults(column: string, nulls: string, direction: string)
    requires Similar(column).None? && !EndsInWord(column)
    requires nulls in {"", ".nullsfirst", ".nullslast"} && direction in {"", ".asc", ".desc"}
    ensures Term(column + nulls + direction)
            == OrderParam(column, if direction == ".desc" then "desc" else "asc",
                          if nulls == ".nullsfirst" then "first" else "last", "")
  {
    var inner := column + nulls;
    assert IsNeutral(nulls) && IsNeutral(direction);
    SimilarTail(column, nulls);
    SimilarTail(inner, direction);
    hide Similar, IsNeutral, WithNulls, Term;
    NullsRead2(column, nulls);
    assert column + "" == column;
    if nulls != "" { NullsIsNotDirection(column, nulls); }
    DirectionRead(inner, direction);
  }

  lemma DirectionRead(inner: string, direction: string)
    requires Similar(inner + direction).None? && !HasSuffix(inner, ".asc") && !HasSuffix(inner, ".desc")
    requires direction in {"", ".asc", ".desc"}
    ensures Term(inner + direction) == WithNulls(inner, if direction == ".desc" then "desc" else "asc", "")
  {
    hide WithNulls, Similar;
    assert inner + "" == inner;
    SuffixConcat(inner, direction);
    AscIsNotDesc(inner);
    hide HasSuffix;
  }

  lemma NullsRead2(column: string, nulls: string)
    requires !EndsInWord(column) && nulls in {"", ".nullsfirst", ".nullslast"}
    ensures forall direction :: WithNulls(column + nulls, direction, "")
              == OrderParam(column, direction, if nulls == ".nullsfirst" then "first" else "last", "")
  {
    assert column + "" == column;
    SuffixConcat(column, nulls);
    LastIsNotFirst(column);
    hide HasSuffix;
  }

  /** A similarity term is a column and a search text, in quotes or not: most similar first unless .asc is
      written. */
  lemma SimilarityDefaults(column: string, blank: string, quote: string, text: string, direction: string)
    requires column != "" && Trimmed(column) && ',' !in column && !EndsInWord(column)
    requires forall c | c in blank :: IsRegexSpace(c)
    requires text != "" && Trimmed(text) && IsSearchText(text) && quote in {"", "'", "\""}
    requires direction in {"", ".asc", ".desc"}
    ensures Term(SIMILARITY + (column + ("," + ((blank + (quote + text + quote)) + ")"))) + direction)
            == OrderParam(column, if direction == ".asc" then "asc" else "desc", "last", text)
  {
    hide *;
    QuotesOff(quote, text);
    DirectionIsNeutral(direction);
    TrimmedIsFixed(column);
    TrimmedIsFixed(quote + text + quote);
    NullsRead3(column, text);
    SimilarityPart(column, blank, quote + text + quote, direction);
  }

  lemma DirectionIsNeutral(direction: string)
    requires direction in {"", ".asc", ".desc"}
    ensures IsNeutral(direction)
  {
  }

  lemma SimilarityPart(column: string, blank: string, quoted: string, direction: string)
    requires column != "" && ',' !in column && quoted != "" && ')' !in quoted && !IsRegexSpace(quoted[0])
    requires forall c | c in blank :: IsRegexSpace(c)
    requires direction in {"", ".asc", ".desc"} && IsNeutral(direction)
    ensures Term(SIMILARITY + (column + ("," + ((blank + quoted) + ")"))) + direction)
            == WithNulls(TrimSpace(column), if direction == ".asc" then "asc" else "desc", TrimQuotes(TrimSpace(quoted)))
  {
    hide *;
    var part := SIMILARITY + (column + ("," + ((blank + quoted) + ")")));
    SimilarityFound(column, blank, quoted);
    SimilarTail(part, direction);
    ClosesLast(SIMILARITY + (column + ","), blank + quoted);
    Associative(SIMILARITY, column + ",", (blank + quoted) + ")");
    Associative(column, ",", (blank + quoted) + ")");
    ClosedDirection(part, direction);
    TermOfMatch(part + direction, column, quoted);
  }

  lemma ClosesLast(front: string, inner: string)
    ensures var s := front + (inner + ")"); s != "" && s[|s| - 1] == ')'
  {
  }

  lemma TermOfMatch(part: string, column: string, text: string)
    requires Similar(part) == Some((column, text))
    ensures Term(part)
            == WithNulls(TrimSpace(column), if !HasSuffix(part, ".desc") && HasSuffix(part, ".asc") then "asc" else "desc",
                         TrimQuotes(TrimSpace(text)))
  {
    hide Similar, WithNulls, TrimSpace, TrimQuotes, HasSuffix;
  }

  lemma SimilarityFound(column: string, blank: string, quoted: string)
    requires column != "" && ',' !in column && quoted != "" && ')' !in quoted && !IsRegexSpace(quoted[0])
    requires forall c | c in blank :: IsRegexSpace(c)
    ensures Similar(SIMILARITY + (column + ("," + ((blank + quoted) + ")")))) == Some((column, quoted))
  {
    SpacesDropped(blank, quoted);
    Matches(column, blank + quoted, "");
    assert ")" + "" == ")";
    hide SimilarityAt;
  }

  lemma QuotesOff(quote: string, text: string)
    requires text != "" && Trimmed(text) && IsSearchText(text) && quote in {"", "'", "\""}
    ensures var quoted := quote + text + quote;
            && Trimmed(quoted) && quoted != "" && ')' !in quoted && !IsRegexSpace(quoted[0])
            && TrimQuotes(quoted) == text
  {
    NoQuote(text);
    var quoted, closed := quote + text + quote, text + quote;
    if quote == "" {
      assert quoted == text;
      SpaceIsSpace(text[0]);
    } else {
      assert quoted == quote + closed && quoted[1..] == closed && closed[0] == text[0];
      NoQuote(closed);
      assert closed[..|text|] == text;
    }
  }

  lemma SpaceIsSpace(c: char)
    ensures IsRegexSpace(c) ==> IsUnicodeSpace(c)
  {
  }

  lemma NullsRead3(column: string, text: string)
    requires !EndsInWord(column)
    ensures forall direction :: WithNulls(column, direction, text) == OrderParam(column, direction, "last", text)
  {
  }

  lemma ClosedDirection(part: string, direction: string)
    requires part != "" && part[|part| - 1] == ')' && direction in {"", ".asc", ".desc"}
    ensures HasSuffix(part + direction, ".asc") <==> direction == ".asc"
    ensures HasSuffix(part + direction, ".desc") <==> direction == ".desc"
  {
    SuffixConcat(part, direction);
    AscIsNotDesc(part);
    if direction == ".desc" { OtherSuffix(part, ".desc", ".asc", 2); }
    if direction == "" {
      assert part + "" == part;
      var text := part[..|part| - 1];
      assert part == text + ")";
      OtherSuffix(text, ")", ".asc", 0);
      OtherSuffix(text, ")", ".desc", 0);
    }
  }

  /** A list is read part by part: a comma outside parentheses separates, and space around a part and
      blank parts mean nothing. */
  lemma ListOfTerms(a: string, b: string)
    ensures DepthAfter(0, a) == 0 ==> OrderTerms(a + "," + b) == OrderTerms(a) + OrderTerms(b)
    ensures !HasTopComma(0, a) ==> OrderTerms(a) == if TrimSpace(a) == "" then [] else [Term(TrimSpace(a))]
  {
    hide Term, TrimSpace, Pieces, Terms, DropEmptyLast, HasTopComma, DepthAfter;
    if DepthAfter(0, a) == 0 {
      PiecesAround(0, a, b);
      TermsConcat(Pieces(0, a), Pieces(0, b));
      Associative(a, ",", b);
    }
    if !HasTopComma(0, a) { OnePart(a); }
  }

  lemma OnePart(a: string)
    requires !HasTopComma(0, a)
    ensures OrderTerms(a) == if TrimSpace(a) == "" then [] else [Term(TrimSpace(a))]
  {
    BlankIsNoTerm();
    PiecesOfPart(0, a, "");
    OntoOnto(a, "", [""]);
    hide Term, TrimSpace, Pieces, HasTopComma;
    assert a + "" == a && Pieces(0, "") == [""] by { NoPieces(); }
    assert Pieces(0, a) == [a] && [a][1..] == [] && [a][..0] == [];
    if a != "" { assert (if TrimSpace(a) == "" then [] else [Term(TrimSpace(a))]) + [] == Terms([a]); }
  }

  lemma NoPieces()
    ensures Pieces(0, "") == [""]
  {
  }

  lemma BlankIsNoTerm()
    ensures TrimSpace("") == ""
  {
  }

  lemma {:induction false} PiecesAround(depth: int, a: string, b: string)
    requires DepthAfter(depth, a) == 0
    ensures Pieces(depth, a + ("," + b)) == Pieces(depth, a) + Pieces(0, b)
    decreases |a|
  {
    var rest := "," + b;
    if a == "" {
      assert a + rest == rest && rest[1..] == b;
      assert Pieces(depth, rest) == [""] + Pieces(0, b);
    } else {
      var next := if a[0] == ',' && depth == 0 then 0 else Deeper(depth, a[0]);
      PiecesAround(next, a[1..], b);
      assert (a + rest)[0] == a[0] && (a + rest)[1..] == a[1..] + rest;
      var p, q := Pieces(next, a[1..]), Pieces(0, b);
      OntoConcat([a[0]], p, q);
      Associative([""], p, q);
      hide Onto;
    }
  }

  lemma OntoConcat(start: string, p: seq<string>, q: seq<string>)
    requires p != []
    ensures Onto(start, p + q) == Onto(start, p) + q
  {
    assert (p + q)[1..] == p[1..] + q;
    Associative([start + p[0]], p[1..], q);
  }

  lemma {:induction false} TermsConcat(p: seq<string>, q: seq<string>)
    requires p != [] && q != []
    ensures Terms(DropEmptyLast(p + q)) == Terms(DropEmptyLast(p)) + Terms(DropEmptyLast(q))
  {
    hide Term, TrimSpace;
    TermsOf(p, DropEmptyLast(q));
    assert DropEmptyLast(p + q) == p + DropEmptyLast(q) by {
      assert (p + q)[..|p + q| - 1] == p + q[..|q| - 1];
    }
    var n := |p| - 1;
    if p[n] == "" {
      BlankIsNoTerm();
      TermsOf(p[..n], [p[n]]);
      assert p[..n] + [p[n]] == p && [p[n]][1..] == [];
      assert Terms(p[..n]) + [] == Terms(p[..n]);
    }
  }

  lemma {:induction false} TermsOf(p: seq<string>, q: seq<string>)
    ensures Terms(p + q) == Terms(p) + Terms(q)
  {
    hide Term, TrimSpace;
    if p == [] {
      assert p + q == q;
    } else {
      TermsOf(p[1..], q);
      assert (p + q)[0] == p[0] && (p + q)[1..] == p[1..] + q;
      var part := TrimSpace(p[0]);
      Associative(if part == "" then [] else [Term(part)], Terms(p[1..]), Terms(q));
    }
  }
}
