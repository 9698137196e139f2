/** The JSON path evaluator (pkg/util/jq.go). */
module Jq {
  import opened Options
  import opened Text
  import opened JsonData

  datatype Error =
    | InvalidInput
    | NotAMap(key: string)
    | NoKey(key: string)
    | Malformed(key: string)
    | NotAList(key: string)
    | BadIndex(index: string, key: string)
    | NoMatch

  datatype Result = Found(value: Json) | Failed(error: Error)

  // ---- Paths ----

  function NonEmpty(parts: seq<string>): seq<string> {
    if parts == [] then []
    else (if parts[0] == "" then [] else [parts[0]]) + NonEmpty(parts[1..])
  }

  /** The keys of a path: its non-empty segments. */
  function Keys(path: string): seq<string> { NonEmpty(Split(path, '.')) }

  predicate IsKey(key: string) { key != "" && '.' !in key }

  predicate AreKeys(keys: seq<string>) {
    forall key | key in keys :: IsKey(key)
  }

  lemma {:induction false} NonEmptyAreKeys(parts: seq<string>)
    requires forall part | part in parts :: '.' !in part
    ensures AreKeys(NonEmpty(parts))
  {
    if parts != [] { NonEmptyAreKeys(parts[1..]); }
  }

  lemma KeysAreKeys(path: string)
    ensures AreKeys(Keys(path))
  {
    JoinSplit(path, '.');
    NonEmptyAreKeys(Split(path, '.'));
  }

  lemma {:induction false} NonEmptyConcat(a: seq<string>, b: seq<string>)
    ensures NonEmpty(a + b) == NonEmpty(a) + NonEmpty(b)
  {
    if a == [] {
      assert a + b == b;
    } else {
      NonEmptyConcat(a[1..], b);
      assert (a + b)[0] == a[0] && (a + b)[1..] == a[1..] + b;
      Associative(if a[0] == "" then [] else [a[0]], NonEmpty(a[1..]), NonEmpty(b));
    }
  }

  /** Dots only separate: leading, trailing and repeated dots change nothing. */
  lemma DotsOnlySeparate(a: string, b: string)
    ensures Keys(a + "." + b) == Keys(a) + Keys(b)
    ensures Keys("." + b) == Keys(b) && Keys(a + ".") == Keys(a)
  {
    SplitConcat(a, b, '.');
    NonEmptyConcat(Split(a, '.'), Split(b, '.'));
    SplitConcat("", b, '.');
    NonEmptyConcat(Split("", '.'), Split(b, '.'));
    assert "" + "." + b == "." + b;
    SplitConcat(a, "", '.');
    NonEmptyConcat(Split(a, '.'), Split("", '.'));
    assert a + "." + "" == a + ".";
    assert Keys("") == [] by { assert Split("", '.') == [""]; }
    assert Keys(a) + [] == Keys(a);
  }

  lemma {:induction false} NonEmptyIsAll(parts: seq<string>)
    requires AreKeys(parts)
    ensures NonEmpty(parts) == parts
  {
    if parts != [] {
      assert IsKey(parts[0]);
      NonEmptyIsAll(parts[1..]);
    }
  }

  /** Splitting joined keys again gives back the keys. */
  lemma KeysOfJoin(keys: seq<string>)
    requires AreKeys(keys)
    ensures Keys(Join(keys, '.')) == keys
  {
    assert forall key | key in keys :: IsKey(key);
    if keys == [] {
      assert Split("", '.') == [""];
    } else {
      SplitJoin(keys, '.');
      NonEmptyIsAll(keys);
    }
  }

  lemma {:induction false} JoinNonEmptyShrinks(parts: seq<string>)
    ensures |Join(NonEmpty(parts), '.')| <= |Join(parts, '.')|
  {
    if parts != [] {
      JoinNonEmptyShrinks(parts[1..]);
      var rest := NonEmpty(parts[1..]);
      if parts[0] == "" {
        assert NonEmpty(parts) == rest;
      } else {
        assert NonEmpty(parts)[1..] == rest;
      }
    }
  }

  lemma {:induction false} JoinOfRest(keys: seq<string>, i: nat)
    requires i < |keys| && AreKeys(keys)
    ensures |Join(keys[i + 1..], '.')| < |Join(keys, '.')|
  {
    assert IsKey(keys[0]);
    if i > 0 {
      JoinOfRest(keys[1..], i - 1);
      assert keys[1..][i..] == keys[i + 1..];
    }
  }

  /** What is left of a path after any of its keys is shorter than the path. */
  lemma RestIsShorter(path: string, i: nat)
    requires i < |Keys(path)|
    ensures |Join(Keys(path)[i + 1..], '.')| < |path|
  {
    KeysAreKeys(path);
    JoinOfRest(Keys(path), i);
    JoinNonEmptyShrinks(Split(path, '.'));
    JoinSplit(path, '.');
  }

  lemma KeysOfOne(key: string)
    requires '.' !in key
    ensures Keys(key) == if key == "" then [] else [key]
  {
    SplitOne(key, "", '.');
    assert key + "" == key;
    var rest: seq<string> := [key][1..];
    assert rest == [] && NonEmpty(rest) == [];
    assert Split(key, '.') == [key];
  }

  /** The loop of Jq that cuts the path. */
  method SplitPath(path: string) returns (keys: seq<string>)
    ensures keys == Keys(path)
  {
    hide Split, NonEmpty;
    keys := [];
    var start := 0;
    for i := 0 to |path|
      invariant 0 <= start <= i
      invariant '.' !in path[start..i]
      invariant keys + Keys(path[start..]) == Keys(path)
    {
      if path[i] == '.' {
        assert path[start..] == path[start..i] + "." + path[i + 1..];
        DotsOnlySeparate(path[start..i], path[i + 1..]);
        KeysOfOne(path[start..i]);
        if i > start { keys := keys + [path[start..i]]; }
        start := i + 1;
      }
    }
    KeysOfOne(path[start..]);
    if start < |path| { keys := keys + [path[start..]]; }
  }

  // ---- The recursive evaluator ----

  function IndexOf(s: string, c: char): (n: nat)
    ensures n <= |s| && (n < |s| <==> c in s)
    ensures n < |s| ==> s[n] == c && c !in s[..n]
  {
    assert forall i | 0 <= i < |s| :: s[i] in s;
    Span(s, Except(c))
  }

  /** splitKeyAndIndex: what is before the first '[', and between it and the first ']'. */
  function SplitIndex(key: string): Option<(string, string)> {
    var open, close := IndexOf(key, '['), IndexOf(key, ']');
    if open == |key| || close == |key| || close < open then None else Some((key[..open], key[open + 1..close]))
  }

  predicate IsWildcard(index: string) { index == "*" || index == "" }

  function Eval(v: Json, keys: seq<string>): Result
    decreases |keys|, 0
  {
    if keys == [] then Found(v)
    else if !v.Object? then Failed(NotAMap(keys[0]))
    else if '[' !in keys[0] then
      if keys[0] in v.fields then Eval(v.fields[keys[0]], keys[1..]) else Failed(NoKey(keys[0]))
    else
      match SplitIndex(keys[0])
      case None => Failed(Malformed(keys[0]))
      case Some((name, index)) =>
        if name !in v.fields || !v.fields[name].List? then Failed(NotAList(name))
        else if IsWildcard(index) then
          if |keys| == 1 then Found(v.fields[name]) else Gathered(Gather(v.fields[name].items, keys[1..]))
        else
          var n := Atoi(index);
          if n.None? || n.value < 0 || n.value >= |v.fields[name].items| then Failed(BadIndex(index, name))
          else Eval(v.fields[name].items[n.value], keys[1..])
  }

  /** The values of the rest of the path in every object of a list: a list found counts as its
      elements, a miss as nothing. */
  function Gather(items: seq<Json>, keys: seq<string>): seq<Json>
    decreases |keys|, 1 + |items|
  {
    if items == [] then []
    else
      (if items[0].Object? then Contribution(Eval(items[0], keys)) else []) + Gather(items[1..], keys)
  }

  function Contribution(r: Result): seq<Json> {
    match r
    case Failed(_) => []
    case Found(v) => if v.List? then v.items else [v]
  }

  function Gathered(found: seq<Json>): Result {
    if found == [] then Failed(NoMatch) else Found(List(found))
  }

  // ---- The evaluator of the source ----

  /** Jq; None stands for a nil map. It is the recursive evaluator over the keys of the path. */
  method Query(input: Option<map<string, Json>>, path: string) returns (r: Result)
    ensures r == if input.None? || path == "" then Failed(InvalidInput) else Eval(Object(input.value), Keys(path))
    decreases |path|, 0
  {
    if input.None? || path == "" { return Failed(InvalidInput); }
    if path[0] == '.' {
      assert path == "." + path[1..];
      DotsOnlySeparate("", path[1..]);
    }
    var keys := SplitPath(if path[0] == '.' then path[1..] else path);
    KeysAreKeys(path);
    var current := Object(input.value);
    for i := 0 to |keys|
      invariant Eval(current, keys[i..]) == Eval(Object(input.value), keys)
    {
      var key := keys[i];
      assert keys[i..][1..] == keys[i + 1..];
      if !current.Object? { return Failed(NotAMap(key)); }
      if '[' !in key {
        if key !in current.fields { return Failed(NoKey(key)); }
        current := current.fields[key];
        continue;
      }
      var split := SplitIndex(key);
      if split.None? { return Failed(Malformed(key)); }
      var (name, index) := split.value;
      if name !in current.fields || !current.fields[name].List? { return Failed(NotAList(name)); }
      var list := current.fields[name].items;
      if IsWildcard(index) {
        if i == |keys| - 1 { return Found(current.fields[name]); }
        RestIsShorter(path, i);
        r := HandleWildcard(list, keys[i + 1..]);
        return;
      }
      var n := Atoi(index);
      if n.None? || n.value < 0 || n.value >= |list| { return Failed(BadIndex(index, name)); }
      current := list[n.value];
    }
    r := Found(current);
  }

  method HandleWildcard(items: seq<Json>, remaining: seq<string>) returns (r: Result)
    requires remaining != [] && AreKeys(remaining)
    ensures r == Gathered(Gather(items, remaining))
    decreases |Join(remaining, '.')|, 1
  {
    hide Eval, Join, Keys;
    var path := Join(remaining, '.');
    KeysOfJoin(remaining);
    JoinOfRest(remaining, 0);
    var results := [];
    for i := 0 to |items|
      invariant results + Gather(items[i..], remaining) == Gather(items, remaining)
    {
      assert items[i..][1..] == items[i + 1..];
      ghost var rest := Gather(items[i + 1..], remaining);
      assert [] + rest == rest;
      if items[i].Object? {
        var value := Query(Some(items[i].fields), path);
        assert items[i] == Object(items[i].fields);
        if value.Found? {
          Associative(results, Contribution(value), rest);
          results := results + if value.value.List? then value.value.items else [value.value];
        }
      }
    }
    assert results + [] == results;
    r := if results == [] then Failed(NoMatch) else Found(List(results));
  }

  // ---- What paths mean ----

  /** A key that selects at most one value. */
  predicate Selects(key: string) {
    '[' !in key || SplitIndex(key).None? || !IsWildcard(SplitIndex(key).value.1)
  }

  /** Following a path is following its parts one after the other, up to the first wildcard. */
  lemma {:induction false} EvalComposes(v: Json, a: seq<string>, b: seq<string>)
    requires forall key | key in a :: Selects(key)
    ensures Eval(v, a + b)
            == match Eval(v, a)
               case Failed(e) => Failed(e)
               case Found(w) => Eval(w, b)
    decreases |a|
  {
    if a == [] {
      assert a + b == b;
    } else {
      assert (a + b)[0] == a[0] && (a + b)[1..] == a[1..] + b;
      assert Selects(a[0]);
      if v.Object? {
        forall w: Json
          ensures Eval(w, a[1..] + b)
                  == match Eval(w, a[1..])
                     case Failed(e) => Failed(e)
                     case Found(x) => Eval(x, b)
        {
          EvalComposes(w, a[1..], b);
        }
      }
    }
  }

  lemma PathsCompose(v: Json, p: string, q: string)
    requires forall key | key in Keys(p) :: Selects(key)
    ensures Eval(v, Keys(p + "." + q))
            == match Eval(v, Keys(p))
               case Failed(e) => Failed(e)
               case Found(w) => Eval(w, Keys(q))
  {
    DotsOnlySeparate(p, q);
    EvalComposes(v, Keys(p), Keys(q));
  }

  /** A wildcard treats the elements of a list one by one, in order. */
  lemma {:induction false} GatherConcat(a: seq<Json>, b: seq<Json>, keys: seq<string>)
    ensures Gather(a + b, keys) == Gather(a, keys) + Gather(b, keys)
    decreases |a|
  {
    if a == [] {
      assert a + b == b;
    } else {
      GatherConcat(a[1..], b, keys);
      assert (a + b)[0] == a[0] && (a + b)[1..] == a[1..] + b;
    }
  }

  // ---- What each kind of key selects ----

  predicate IsName(name: string) { '[' !in name && ']' !in name }

  /** name[index] splits into the two, whatever follows the first closing bracket. */
  lemma IndexedKey(name: string, index: string, after: string)
    requires IsName(name) && ']' !in index
    ensures SplitIndex(name + ("[" + (index + ("]" + after)))) == Some((name, index))
  {
    var key, rest := name + ("[" + (index + ("]" + after))), "[" + (index + ("]" + after));
    FirstAt(name, rest, '[');
    var front := name + ("[" + index);
    Associative("[", index, "]" + after);
    Associative(name, "[" + index, "]" + after);
    assert ']' !in front;
    FirstAt(front, "]" + after, ']');
    hide IndexOf;
    assert front == key[..|front|];
    assert key[|name| + 1..|front|] == front[|name| + 1..] == index;
  }

  lemma FirstAt(front: string, rest: string, c: char)
    requires c !in front && rest != "" && rest[0] == c
    ensures IndexOf(front + rest, c) == |front|
  {
    assert forall i | 0 <= i < |front| :: front[i] in front;
    SpanOfRun(front, rest, Except(c));
  }

  /** A key without a bracket selects the member of that name of an object, and nothing else has members. */
  lemma MemberSelected(v: Json, name: string, rest: seq<string>)
    requires '[' !in name
    ensures Eval(v, [name] + rest)
            == if !v.Object? then Failed(NotAMap(name))
               else if name in v.fields then Eval(v.fields[name], rest)
               else Failed(NoKey(name))
  {
    assert ([name] + rest)[1..] == rest;
  }

  /** The key of an element or wildcard, and its two parts. */
  lemma BracketKey(name: string, index: string, rest: seq<string>)
    requires IsName(name) && ']' !in index
    ensures var key := name + ("[" + (index + "]"));
            '[' in key && SplitIndex(key) == Some((name, index)) && ([key] + rest)[1..] == rest
  {
    assert "]" + "" == "]";
    IndexedKey(name, index, "");
    assert (name + ("[" + (index + "]")))[|name|] == '[';
  }

  /** name[n] selects element n of the list of that name, counted from zero. */
  lemma ElementSelected(fields: map<string, Json>, name: string, n: nat, rest: seq<string>)
    requires IsName(name) && n < INT64_LIMIT
    ensures Eval(Object(fields), [name + ("[" + (IntToString(n) + "]"))] + rest)
            == if name !in fields || !fields[name].List? then Failed(NotAList(name))
               else if n < |fields[name].items| then Eval(fields[name].items[n], rest)
               else Failed(BadIndex(IntToString(n), name))
  {
    AtoiOfInt(n);
    IsNoWildcard(n);
    hide SplitIndex, Atoi, IntToString, IsName, IsWildcard;
    BracketKey(name, IntToString(n), rest);
  }

  lemma IsNoWildcard(n: nat)
    ensures !IsWildcard(IntToString(n)) && ']' !in IntToString(n)
  {
    var digits := NatToString(n);
    assert forall c | c in digits :: IsDigit(c);
  }

  /** An index that is no number, or a negative one, selects nothing. */
  lemma BadIndexRefused(fields: map<string, Json>, name: string, index: string, rest: seq<string>)
    requires IsName(name) && ']' !in index && index !in {"*", ""}
    requires Atoi(index).None? || Atoi(index).value < 0
    ensures var r := Eval(Object(fields), [name + ("[" + (index + "]"))] + rest);
            r == Failed(if name in fields && fields[name].List? then BadIndex(index, name) else NotAList(name))
  {
    hide SplitIndex, Atoi, IsName;
    BracketKey(name, index, rest);
  }

  /** name[*] and name[] select the list itself at the end of a path, and otherwise gather what the rest of
      the path selects in each object of the list; gathering nothing is an error. */
  lemma WildcardSelected(fields: map<string, Json>, name: string, star: bool, rest: seq<string>)
    requires IsName(name)
    ensures var r := Eval(Object(fields), [name + ("[" + ((if star then "*" else "") + "]"))] + rest);
            if name !in fields || !fields[name].List? then r == Failed(NotAList(name))
            else if rest == [] then r == Found(fields[name])
            else r == Gathered(Gather(fields[name].items, rest))
  {
    hide SplitIndex, IsName, Gather, Gathered;
    BracketKey(name, if star then "*" else "", rest);
  }

  /** What an element adds to a gathering: the elements of a list found in it, the value found, or
      nothing. */
  lemma ElementGathered(item: Json, rest: seq<string>)
    ensures Gather([item], rest)
            == if !item.Object? then []
               else match Eval(item, rest)
                    case Failed(_) => []
                    case Found(v) => if v.List? then v.items else [v]
    ensures Gathered([]) == Failed(NoMatch)
  {
    hide Eval;
    assert [item][1..] == [];
  }

  /** A bracket that is not closed, or closed before it opens, is malformed. */
  lemma MalformedRefused(fields: map<string, Json>, key: string, rest: seq<string>)
    requires '[' in key && (']' !in key || IndexOf(key, ']') < IndexOf(key, '['))
    ensures Eval(Object(fields), [key] + rest) == Failed(Malformed(key))
  {
  }
}
