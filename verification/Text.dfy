/** Strings as the Go code uses them: prefixes, runs of characters, split and join,
    and decimal integers. */
module Text {
  import opened Options

  lemma Associative<T>(a: seq<T>, b: seq<T>, c: seq<T>)
    ensures (a + b) + c == a + (b + c)
  {
  }

  lemma Halves<T>(a: seq<T>, b: seq<T>)
    ensures (a + b)[..|a|] == a && (a + b)[|a|..] == b
  {
  }

  /** strings.HasPrefix */
  predicate HasPrefix(s: string, p: string) {
    |p| <= |s| && s[..|p|] == p
  }

  lemma PrefixOfConcat(p: string, s: string)
    ensures HasPrefix(p + s, p) && (p + s)[|p|..] == s
  {
    assert (p + s)[..|p|] == p;
  }

  lemma PrefixChar(s: string, c: char)
    ensures HasPrefix(s, [c]) <==> s != "" && s[0] == c
  {
    if s != "" { assert s[..1] == [s[0]]; }
  }

  /** Slices of a slice that starts at a. */
  lemma Sub(s: string, a: nat, k: nat)
    requires a + k <= |s|
    ensures s[a..][k..] == s[a + k..] && s[a..][..k] == s[a..a + k]
  {
  }

  /** Two strings that differ at an index both of them have cannot be prefix-related. */
  lemma NoPrefix(s: string, p: string, i: nat)
    requires i < |s| && i < |p| && s[i] != p[i]
    ensures !HasPrefix(s, p)
  {
    if |p| <= |s| {
      assert s[..|p|][i] == s[i];
    }
  }

  /** Length of the longest prefix of s whose characters all satisfy p. */
  function Span(s: string, p: char -> bool): (n: nat)
    ensures n <= |s|
    ensures forall i | 0 <= i < n :: p(s[i])
    ensures n < |s| ==> !p(s[n])
  {
    if s == "" || !p(s[0]) then 0 else 1 + Span(s[1..], p)
  }

  lemma SpanIs(s: string, p: char -> bool, n: nat)
    requires n <= |s|
    requires forall i | 0 <= i < n :: p(s[i])
    requires n < |s| ==> !p(s[n])
    ensures Span(s, p) == n
  {
  }

  /** Span over a run followed by a suffix that does not continue it. */
  lemma SpanOfRun(run: string, suffix: string, p: char -> bool)
    requires forall i | 0 <= i < |run| :: p(run[i])
    requires suffix == "" || !p(suffix[0])
    ensures Span(run + suffix, p) == |run|
    ensures (run + suffix)[..|run|] == run && (run + suffix)[|run|..] == suffix
  {
    var s := run + suffix;
    assert forall i | 0 <= i < |run| :: s[i] == run[i];
    if suffix != "" {
      assert s[|run|] == suffix[0];
    }
    SpanIs(s, p, |run|);
  }

  function Except(sep: char): char -> bool { c => c != sep }

  function Outside(stops: set<char>): char -> bool { c => c !in stops }

  /** strings.Split on a single character. */
  function Split(s: string, sep: char): (parts: seq<string>)
    ensures |parts| > 0
  {
    var n := Span(s, Except(sep));
    if n == |s| then [s] else [s[..n]] + Split(s[n + 1..], sep)
  }

  /** strings.Join with a one-character separator. */
  function Join(parts: seq<string>, sep: char): string {
    if |parts| == 0 then ""
    else if |parts| == 1 then parts[0]
    else parts[0] + [sep] + Join(parts[1..], sep)
  }

  lemma {:induction false} JoinSplit(s: string, sep: char)
    ensures Join(Split(s, sep), sep) == s
    ensures forall part | part in Split(s, sep) :: sep !in part
    decreases |s|
  {
    var n := Span(s, Except(sep));
    if n < |s| {
      JoinSplit(s[n + 1..], sep);
      var tail := Split(s[n + 1..], sep);
      assert Split(s, sep)[1..] == tail;
      assert s == s[..n] + [sep] + s[n + 1..];
    }
  }

  lemma {:induction false} SplitJoin(parts: seq<string>, sep: char)
    requires |parts| > 0
    requires forall part | part in parts :: sep !in part
    ensures Split(Join(parts, sep), sep) == parts
  {
    hide Split;
    if |parts| == 1 {
      SplitOne(parts[0], "", sep);
      assert parts[0] + "" == parts[0];
    } else {
      SplitJoin(parts[1..], sep);
      var tail := [sep] + Join(parts[1..], sep);
      SplitOne(parts[0], tail, sep);
      assert tail[1..] == Join(parts[1..], sep);
      Associative(parts[0], [sep], Join(parts[1..], sep));
    }
  }

  /** Splitting off a first part that does not contain the separator. */
  lemma SplitOne(head: string, tail: string, sep: char)
    requires sep !in head
    requires tail == "" || tail[0] == sep
    ensures Split(head + tail, sep) == if tail == "" then [head] else [head] + Split(tail[1..], sep)
  {
    assert forall i | 0 <= i < |head| :: head[i] in head;
    SpanOfRun(head, tail, Except(sep));
    if tail == "" {
      assert head + tail == head;
    } else {
      assert (head + tail)[|head| + 1..] == tail[1..];
    }
  }

  lemma {:induction false} JoinConcat(a: seq<string>, b: seq<string>, sep: char)
    requires a != [] && b != []
    ensures Join(a + b, sep) == Join(a, sep) + [sep] + Join(b, sep)
  {
    assert (a + b)[1..] == a[1..] + b;
    if |a| == 1 {
      assert a[1..] + b == b;
    } else {
      JoinConcat(a[1..], b, sep);
    }
  }

  lemma SplitConcat(a: string, b: string, sep: char)
    ensures Split(a + [sep] + b, sep) == Split(a, sep) + Split(b, sep)
  {
    hide Split, Join;
    var front, back := Split(a, sep), Split(b, sep);
    JoinSplit(a, sep);
    JoinSplit(b, sep);
    JoinConcat(front, back, sep);
    SplitJoin(front + back, sep);
  }

  /** The last part of a split ends where the whole string ends. */
  lemma {:induction false} SplitLastChar(s: string, sep: char)
    requires s != "" && s[|s| - 1] != sep
    ensures var parts := Split(s, sep);
            parts[|parts| - 1] != "" && parts[|parts| - 1][|parts[|parts| - 1]| - 1] == s[|s| - 1]
    decreases |s|
  {
    var n := Span(s, Except(sep));
    if n < |s| {
      var rest := s[n + 1..];
      assert s[n] == sep && rest != "" && rest[|rest| - 1] == s[|s| - 1];
      var whole, parts := Split(s, sep), Split(rest, sep);
      assert whole == [s[..n]] + parts;
      hide Split, Span;
      SplitLastChar(rest, sep);
      assert whole[|whole| - 1] == parts[|parts| - 1];
    } else {
      assert Split(s, sep) == [s];
    }
  }

  /** The last part of a split contains every ending without a separator. */
  lemma {:induction false} SplitLastSuffix(front: string, end: string, sep: char)
    requires sep !in end
    ensures var parts := Split(front + end, sep);
            forall c | c in end :: c in parts[|parts| - 1]
    decreases |front|
  {
    var n := Span(front, Except(sep));
    assert sep !in front[..n];
    if n == |front| {
      var s := front + end;
      assert sep !in s;
      SplitOne(s, "", sep);
      assert s + "" == s;
    } else {
      var rest := front[n + 1..];
      assert front == front[..n] + [sep] + rest;
      hide Split, Span;
      SplitLastSuffix(rest, end, sep);
      var tail := [sep] + (rest + end);
      Associative(front[..n] + [sep], rest, end);
      Associative(front[..n], [sep], rest + end);
      assert tail[1..] == rest + end;
      SplitOne(front[..n], tail, sep);
      var whole, parts := Split(front + end, sep), Split(rest + end, sep);
      assert whole == [front[..n]] + parts;
      assert whole[|whole| - 1] == parts[|parts| - 1];
    }
  }

  predicate IsDigit(c: char) { '0' <= c <= '9' }

  predicate IsAsciiLetter(c: char) { 'a' <= c <= 'z' || 'A' <= c <= 'Z' }

  function DigitValue(c: char): nat
    requires IsDigit(c)
  {
    c as int - '0' as int
  }

  /** Value of a run of decimal digits. */
  function DigitsValue(s: string): nat
    requires forall i | 0 <= i < |s| :: IsDigit(s[i])
  {
    if s == "" then 0
    else DigitsValue(s[..|s| - 1]) * 10 + DigitValue(s[|s| - 1])
  }

  function DigitChar(d: nat): (c: char)
    requires d < 10
    ensures IsDigit(c) && DigitValue(c) == d
  {
    ('0' as int + d) as char
  }

  /** Decimal form of a natural number, as strconv.Itoa prints it. */
  function NatToString(n: nat): (s: string)
    ensures s != "" && forall i | 0 <= i < |s| :: IsDigit(s[i])
  {
    if n < 10 then [DigitChar(n)] else NatToString(n / 10) + [DigitChar(n % 10)]
  }

  lemma {:induction false} DigitsOfNat(n: nat)
    ensures DigitsValue(NatToString(n)) == n
  {
    if n < 10 {
      assert NatToString(n)[..0] == "";
    } else {
      DigitsOfNat(n / 10);
      assert NatToString(n)[..|NatToString(n)| - 1] == NatToString(n / 10);
    }
  }

  function IntToString(i: int): string {
    if i < 0 then "-" + NatToString(-i) else NatToString(i)
  }

  const INT64_LIMIT: int := 0x8000_0000_0000_0000

  /** strconv.Atoi: an optional sign and decimal digits, within 64 bits. */
  function Atoi(s: string): Option<int> {
    var signed := s != "" && s[0] in {'+', '-'};
    var digits := if signed then s[1..] else s;
    if digits == "" || Span(digits, IsDigit) < |digits| then None
    else
      var n := (if signed && s[0] == '-' then -1 else 1) * DigitsValue(digits);
      if -INT64_LIMIT <= n < INT64_LIMIT then Some(n) else None
  }

  lemma AtoiOfInt(i: int)
    requires -INT64_LIMIT <= i < INT64_LIMIT
    ensures Atoi(IntToString(i)) == Some(i)
  {
    var n: nat := if i < 0 then -i else i;
    var digits := NatToString(n);
    DigitsOfNat(n);
    SpanIs(digits, IsDigit, |digits|);
    assert IsDigit(digits[0]);
    assert i < 0 ==> IntToString(i)[1..] == digits;
  }

  /** A backslash before every quote and backslash. */
  function Escape(s: string): string {
    if s == "" then ""
    else (if s[0] == '"' || s[0] == '\\' then ['\\', s[0]] else [s[0]]) + Escape(s[1..])
  }

  function Quote(s: string): string { "\"" + Escape(s) + "\"" }

  lemma {:induction false} EscapeSnoc(s: string, c: char)
    ensures Escape(s + [c]) == Escape(s) + Escape([c])
    decreases |s|
  {
    if s == "" {
      assert s + [c] == [c];
    } else {
      EscapeSnoc(s[1..], c);
      assert (s + [c])[1..] == s[1..] + [c];
    }
  }

  /** unicode.IsSpace */
  predicate IsUnicodeSpace(c: char) {
    var n := c as int;
    || 9 <= n <= 13 || n == 32 || n == 0x85 || n == 0xA0
    || n == 0x1680 || 0x2000 <= n <= 0x200A || n == 0x2028 || n == 0x2029
    || n == 0x202F || n == 0x205F || n == 0x3000
  }

  function TrimLeft(s: string): string {
    if s != "" && IsUnicodeSpace(s[0]) then TrimLeft(s[1..]) else s
  }

  function TrimRight(s: string): string
    decreases |s|
  {
    if s != "" && IsUnicodeSpace(s[|s| - 1]) then TrimRight(s[..|s| - 1]) else s
  }

  /** strings.TrimSpace */
  function TrimSpace(s: string): string { TrimRight(TrimLeft(s)) }

  predicate Trimmed(s: string) {
    s == "" || (!IsUnicodeSpace(s[0]) && !IsUnicodeSpace(s[|s| - 1]))
  }

  lemma {:induction false} TrimLeftTrims(s: string)
    ensures var r := TrimLeft(s); r == "" || !IsUnicodeSpace(r[0])
    ensures forall c | c in TrimLeft(s) :: c in s
  {
    if s != "" && IsUnicodeSpace(s[0]) { TrimLeftTrims(s[1..]); }
  }

  lemma {:induction false} TrimRightTrims(s: string)
    ensures var r := TrimRight(s);
            |r| <= |s| && r == s[..|r|] && (r == "" || !IsUnicodeSpace(r[|r| - 1]))
    decreases |s|
  {
    if s != "" && IsUnicodeSpace(s[|s| - 1]) { TrimRightTrims(s[..|s| - 1]); }
  }

  lemma TrimSpaceTrims(s: string)
    ensures Trimmed(TrimSpace(s))
    ensures forall c | c in TrimSpace(s) :: c in s
  {
    TrimLeftTrims(s);
    TrimRightTrims(TrimLeft(s));
  }

  lemma TrimmedIsFixed(s: string)
    requires Trimmed(s)
    ensures TrimSpace(s) == s
  {
  }

  predicate IsAllSpace(s: string) { forall i | 0 <= i < |s| :: IsUnicodeSpace(s[i]) }

  lemma {:induction false} TrimLeftTakes(s: string) returns (a: string)
    ensures s == a + TrimLeft(s) && IsAllSpace(a)
  {
    a := "";
    if s != "" && IsUnicodeSpace(s[0]) {
      var more := TrimLeftTakes(s[1..]);
      a := [s[0]] + more;
    }
  }

  lemma {:induction false} TrimRightTakes(s: string) returns (b: string)
    ensures s == TrimRight(s) + b && IsAllSpace(b)
    decreases |s|
  {
    b := "";
    if s != "" && IsUnicodeSpace(s[|s| - 1]) {
      var front := s[..|s| - 1];
      var more := TrimRightTakes(front);
      b := more + [s[|s| - 1]];
      Associative(TrimRight(front), more, [s[|s| - 1]]);
    }
  }

  /** Trimming takes space from both ends, all of it, and nothing else. */
  lemma TrimSpaceTakes(s: string) returns (a: string, b: string)
    ensures s == a + (TrimSpace(s) + b) && IsAllSpace(a) && IsAllSpace(b) && Trimmed(TrimSpace(s))
  {
    a := TrimLeftTakes(s);
    b := TrimRightTakes(TrimLeft(s));
    TrimSpaceTrims(s);
  }
}
