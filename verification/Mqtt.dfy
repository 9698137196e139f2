/** MQTT topics (pkg/pipeline/peer/mqtt): decoding a message's topic and body into events,
    fields taken from the topic, and matching topics against filters. */
module Mqtt {
  import opened Options
  import opened Text
  import opened JsonData

  /** Parsing done by libraries: scalars by guessing and by given type, JSON bodies, and the first
      group of a regular expression on the topic. */
  datatype Parsers = Parsers(
    scalar: string -> Json,
    typed: (string, string) -> Json,
    json: string -> Option<Json>,
    regex: (string, string) -> Option<string>)

  // ---- Topics ----

  datatype OpCode = Create | Update | Delete | Read

  function OpCodeOf(operation: string): Option<OpCode> {
    if operation in {"c", "create"} then Some(Create)
    else if operation in {"u", "update"} then Some(Update)
    else if operation in {"d", "delete"} then Some(Delete)
    else if operation in {"r", "read"} then Some(Read)
    else None
  }

  /** What a topic says: conditions are its key/value pairs, scalar the lone field at its end. */
  datatype Route = Route(
    schemaName: string, table: string, op: OpCode, batch: bool, conditions: map<string, Json>, scalar: Option<string>)

  /** The topic written after the prefix: schema, table, operation, batch flag, pairs, scalar. */
  datatype Address = Address(
    schemaName: string, table: string, operation: string, batch: bool,
    pairs: seq<(string, string)>, scalar: Option<string>)

  function Flatten(pairs: seq<(string, string)>): seq<string> {
    if pairs == [] then [] else [pairs[0].0, pairs[0].1] + Flatten(pairs[1..])
  }

  function Tail(a: Address): seq<string> {
    Flatten(a.pairs) + (if a.scalar.Some? then [a.scalar.value] else [])
  }

  function Segments(a: Address): seq<string> {
    [a.schemaName, a.table, a.operation] + (if a.batch then ["batch"] else []) + Tail(a)
  }

  function Topic(prefix: string, a: Address): string { prefix + "/" + Join(Segments(a), '/') }

  function PairsMap(p: Parsers, pairs: seq<(string, string)>): map<string, Json> {
    if pairs == [] then map[] else map[pairs[0].0 := p.scalar(pairs[0].1)] + PairsMap(p, pairs[1..])
  }

  /** Key, value, key, value, ...; a later value of a key wins, and a lone last segment is left out. */
  function Conditions(p: Parsers, parts: seq<string>): map<string, Json>
    decreases |parts|
  {
    if |parts| < 2 then map[] else map[parts[0] := p.scalar(parts[1])] + Conditions(p, parts[2..])
  }

  function RouteOf(p: Parsers, parts: seq<string>): Option<Route> {
    if |parts| < 3 || OpCodeOf(parts[2]).None? then None
    else
      var batch := |parts| > 3 && parts[3] == "batch";
      var rest := parts[if batch then 4 else 3..];
      var scalar := if |rest| % 2 == 1 then Some(rest[|rest| - 1]) else None;
      Some(Route(parts[0], parts[1], OpCodeOf(parts[2]).value, batch, Conditions(p, rest), scalar))
  }

  /** A topic that is too short is rewritten. */
  function Used(prefix: string, rewrite: string -> string, topic: string): string {
    if |Split(topic, '/')| < |Split(prefix, '/')| + 3 then rewrite(topic) else topic
  }

  /** The segments after the prefix. */
  function PartsOf(prefix: string, rewrite: string -> string, topic: string): Option<seq<string>> {
    var n := |Split(prefix, '/')|;
    var used := Used(prefix, rewrite, topic);
    if |Split(used, '/')| < n + 3 then None else Some(Split(used, '/')[n..])
  }

  method DecodeTopic(p: Parsers, prefix: string, rewrite: string -> string, topic: string)
    returns (route: Option<Route>, used: string)
    ensures route == match PartsOf(prefix, rewrite, topic)
                     case None => None
                     case Some(parts) => RouteOf(p, parts)
    ensures route.Some? ==> used == Used(prefix, rewrite, topic)
  {
    hide Split, Conditions, OpCodeOf;
    used := topic;
    var topicParts, prefixParts := Split(topic, '/'), Split(prefix, '/');
    if |topicParts| < |prefixParts| + 3 {
      var rewritten := rewrite(topic);
      if rewritten == topic { return None, used; }
      used := rewritten;
      topicParts := Split(used, '/');
    }
    if |topicParts| < |prefixParts| + 3 { return None, used; }
    var parts := topicParts[|prefixParts|..];
    var op := OpCodeOf(parts[2]);
    if op.None? { return None, used; }
    var batch, start := false, 3;
    if |parts| > 3 && parts[3] == "batch" { batch, start := true, 4; }
    var scalar := None;
    if |parts| > start && |parts[start..]| % 2 == 1 { scalar := Some(parts[start..][|parts[start..]| - 1]); }
    var conditions := ReadPairs(p, parts, start, if scalar.Some? then |parts| - 1 else |parts|);
    route := Some(Route(parts[0], parts[1], op.value, batch, conditions, scalar));
  }

  method ReadPairs(p: Parsers, parts: seq<string>, start: nat, end: nat) returns (conditions: map<string, Json>)
    requires start <= end <= |parts| && (end - start) % 2 == 0 && |parts| <= end + 1
    ensures conditions == Conditions(p, parts[start..])
  {
    conditions := map[];
    var i := start;
    while i < end
      invariant start <= i <= end && (end - i) % 2 == 0
      invariant conditions + Conditions(p, parts[i..]) == Conditions(p, parts[start..])
    {
      assert parts[i..][2..] == parts[i + 2..];
      Overriding(conditions, parts[i], p.scalar(parts[i + 1]), Conditions(p, parts[i + 2..]));
      conditions := conditions[parts[i] := p.scalar(parts[i + 1])];
      i := i + 2;
    }
  }

  lemma Overriding(before: map<string, Json>, key: string, value: Json, after: map<string, Json>)
    ensures before[key := value] + after == before + (map[key := value] + after)
  {
  }

  // ---- Round trip ----

  ghost predicate SlashFree(parts: seq<string>) {
    forall part | part in parts :: '/' !in part
  }

  lemma {:induction false} FlattenReads(p: Parsers, pairs: seq<(string, string)>, last: seq<string>)
    requires |last| <= 1
    ensures Conditions(p, Flatten(pairs) + last) == PairsMap(p, pairs)
    ensures |Flatten(pairs)| == 2 * |pairs|
    decreases |pairs|
  {
    if pairs != [] {
      FlattenReads(p, pairs[1..], last);
      assert (Flatten(pairs) + last)[2..] == Flatten(pairs[1..]) + last;
    }
  }

  function Meaning(p: Parsers, a: Address, op: OpCode): Route {
    Route(a.schemaName, a.table, op, a.batch, PairsMap(p, a.pairs), a.scalar)
  }

  lemma SegmentsOfTopic(prefix: string, rewrite: string -> string, a: Address)
    requires SlashFree(Segments(a))
    ensures PartsOf(prefix, rewrite, Topic(prefix, a)) == Some(Segments(a))
    ensures Used(prefix, rewrite, Topic(prefix, a)) == Topic(prefix, a)
  {
    hide Split, Join, Tail;
    var segments := Segments(a);
    SplitConcat(prefix, Join(segments, '/'), '/');
    SplitJoin(segments, '/');
    assert Topic(prefix, a) == prefix + "/" + Join(segments, '/');
    assert (Split(prefix, '/') + segments)[|Split(prefix, '/')|..] == segments;
  }

  /** Without the flag, a segment "batch" right after the operation is taken for it. */
  predicate BatchIsPlain(a: Address) { a.batch || Tail(a) == [] || Tail(a)[0] != "batch" }

  lemma RouteOfSegments(p: Parsers, a: Address)
    requires OpCodeOf(a.operation).Some?
    ensures RouteOf(p, Segments(a)) == Some(Meaning(p, a, OpCodeOf(a.operation).value)) <==> BatchIsPlain(a)
  {
    hide Conditions, PairsMap, OpCodeOf, Flatten;
    var segments := Segments(a);
    FlattenReads(p, a.pairs, if a.scalar.Some? then [a.scalar.value] else []);
    if a.batch {
      assert segments[3] == "batch" && segments[4..] == Tail(a);
    } else if Tail(a) != [] {
      assert segments[3] == Tail(a)[0] && segments[3..] == Tail(a);
    }
  }

  /** Decoding a topic recovers everything that was encoded in it, for any number of pairs, exactly
      when the segment after the operation of a topic without the batch flag is not "batch". */
  lemma TopicRoundTrip(p: Parsers, prefix: string, rewrite: string -> string, a: Address)
    requires SlashFree(Segments(a)) && OpCodeOf(a.operation).Some?
    ensures var parts := PartsOf(prefix, rewrite, Topic(prefix, a));
            parts.Some? &&
            (RouteOf(p, parts.value) == Some(Meaning(p, a, OpCodeOf(a.operation).value)) <==> BatchIsPlain(a))
  {
    hide PartsOf, RouteOf, Segments, BatchIsPlain;
    SegmentsOfTopic(prefix, rewrite, a);
    RouteOfSegments(p, a);
  }

  // ---- Messages ----

  datatype Event = Event(schemaName: string, table: string, op: OpCode, before: Json, after: Json)

  function Under(payload: Json, defaults: map<string, Json>): Json {
    if payload.Object? then Object(defaults + payload.fields) else payload
  }

  /** The payloads of a message; None when its body is not JSON. */
  function Payloads(p: Parsers, r: Route, body: string): Option<seq<Json>> {
    if r.scalar.Some? then
      Some([Object(r.conditions[r.scalar.value := if body == "" then Null else p.scalar(body)])])
    else if body == "" then Some(if r.conditions == map[] then [] else [Object(r.conditions)])
    else
      match p.json(body)
      case None => None
      case Some(v) =>
        Some(AllUnder(if !r.batch then [v] else if v.List? then v.items else if v.Null? then [] else [v], r.conditions))
  }

  function AllUnder(payloads: seq<Json>, defaults: map<string, Json>): seq<Json> {
    seq(|payloads|, i requires 0 <= i < |payloads| => Under(payloads[i], defaults))
  }

  function WithExtracted(payload: Json, extracted: map<string, Json>): Json {
    if payload.Null? && extracted != map[] then Object(extracted) else Under(payload, extracted)
  }

  function EventOf(r: Route, payload: Json, extracted: map<string, Json>): Event {
    var full := WithExtracted(payload, extracted);
    if r.op == Delete then Event(r.schemaName, r.table, r.op, full, Null)
    else Event(r.schemaName, r.table, r.op, Null, full)
  }

  function EventsOf(r: Route, payloads: seq<Json>, extracted: map<string, Json>): seq<Event> {
    seq(|payloads|, i requires 0 <= i < |payloads| => EventOf(r, payloads[i], extracted))
  }

  /** Adds the fields that are missing, in whatever order they are visited. */
  method AddMissing(payload: map<string, Json>, defaults: map<string, Json>) returns (merged: map<string, Json>)
    ensures merged == defaults + payload
  {
    merged := payload;
    var left := defaults.Keys;
    while left != {}
      invariant left <= defaults.Keys
      invariant forall k :: k in merged <==> k in payload || k in defaults.Keys - left
      invariant forall k | k in merged :: merged[k] == if k in payload then payload[k] else defaults[k]
      decreases left
    {
      var key :| key in left;
      if key !in merged { merged := merged[key := defaults[key]]; }
      left := left - {key};
    }
  }

  method ReadPayloads(p: Parsers, r: Route, body: string) returns (payloads: Option<seq<Json>>)
    ensures payloads == Payloads(p, r, body)
  {
    if body != "" {
      if r.scalar.Some? { return Some([Object(r.conditions[r.scalar.value := p.scalar(body)])]); }
      var decoded := p.json(body);
      if decoded.None? { return None; }
      var v := decoded.value;
      var list := if !r.batch then [v] else if v.List? then v.items else if v.Null? then [] else [v];
      var merged: seq<Json> := [];
      for i := 0 to |list|
        invariant merged == AllUnder(list, r.conditions)[..i]
      {
        if list[i].Object? {
          var m := AddMissing(list[i].fields, r.conditions);
          merged := merged + [Object(m)];
        } else {
          merged := merged + [list[i]];
        }
      }
      assert merged == AllUnder(list, r.conditions);
      payloads := Some(merged);
    } else if r.scalar.Some? {
      payloads := Some([Object(r.conditions[r.scalar.value := Null])]);
    } else if r.conditions != map[] {
      payloads := Some([Object(r.conditions)]);
    } else {
      payloads := Some([]);
    }
  }

  method CreateEvent(r: Route, payload: Json, extracted: map<string, Json>) returns (e: Event)
    ensures e == EventOf(r, payload, extracted)
  {
    var full := payload;
    if extracted != map[] && !payload.Null? {
      if payload.Object? {
        var m := AddMissing(payload.fields, extracted);
        full := Object(m);
      }
    } else if extracted != map[] {
      full := Object(extracted);
    }
    assert map[] + (if payload.Object? then payload.fields else map[]) == if payload.Object? then payload.fields else map[];
    e := if r.op == Delete then Event(r.schemaName, r.table, r.op, full, Null)
         else Event(r.schemaName, r.table, r.op, Null, full);
  }

  /** The subscription callback; the events that would be offered to the channel, in order. */
  method Receive(
    p: Parsers, fields: seq<TopicToField>, prefix: string, rewrite: string -> string, topic: string, body: string)
    returns (events: seq<Event>)
    ensures events == match PartsOf(prefix, rewrite, topic)
                      case None => []
                      case Some(parts) => Delivered(p, fields, parts, Used(prefix, rewrite, topic), body)
  {
    hide PartsOf, RouteOf, Payloads, EventOf, Extracted;
    var route, used := DecodeTopic(p, prefix, rewrite, topic);
    events := [];
    if route.None? { return; }
    var payloads := ReadPayloads(p, route.value, body);
    if payloads.None? { return; }
    var extracted := ExtractFields(p, used, fields);
    for i := 0 to |payloads.value|
      invariant events == EventsOf(route.value, payloads.value, extracted)[..i]
    {
      var e := CreateEvent(route.value, payloads.value[i], extracted);
      events := events + [e];
    }
  }

  function Delivered(p: Parsers, fields: seq<TopicToField>, parts: seq<string>, topic: string, body: string): seq<Event> {
    match RouteOf(p, parts)
    case None => []
    case Some(r) =>
      match Payloads(p, r, body)
      case None => []
      case Some(payloads) => EventsOf(r, payloads, Extracted(p, topic, fields))
  }

  /** A message published to an encoded topic with an object as its body gives one event, in which
      the body wins over the topic's pairs, and these win over the extracted fields. */
  lemma BodyOverPairsOverFields(
    p: Parsers, fields: seq<TopicToField>, prefix: string, rewrite: string -> string, a: Address, body: string)
    requires SlashFree(Segments(a)) && OpCodeOf(a.operation).Some? && BatchIsPlain(a) && a.scalar.None?
    requires body != "" && p.json(body).Some? && p.json(body).value.Object?
    ensures var topic := Topic(prefix, a);
            var sent, pairs, extracted := p.json(body).value.fields, PairsMap(p, a.pairs), Extracted(p, topic, fields);
            var parts := PartsOf(prefix, rewrite, topic);
            && parts.Some? && Used(prefix, rewrite, topic) == topic
            && var events := Delivered(p, fields, parts.value, topic, body);
               && |events| == 1
               && (events[0].schemaName, events[0].table) == (a.schemaName, a.table)
               && Some(events[0].op) == OpCodeOf(a.operation)
               && var data := if events[0].op == Delete then events[0].before else events[0].after;
                  && data.Object?
                  && forall key ::
                       && (key in data.fields <==> key in sent || key in pairs || key in extracted)
                       && (key in data.fields ==>
                             data.fields[key] == if key in sent then sent[key] else if key in pairs then pairs[key] else extracted[key])
  {
    hide PartsOf, RouteOf, Segments, BatchIsPlain, Extracted, PairsMap, OpCodeOf;
    SegmentsOfTopic(prefix, rewrite, a);
    TopicRoundTrip(p, prefix, rewrite, a);
    var r := Meaning(p, a, OpCodeOf(a.operation).value);
    var v := p.json(body).value;
    assert AllUnder([v], r.conditions) == [Under(v, r.conditions)];
    assert Payloads(p, r, body) == Some([Under(v, r.conditions)]);
  }

  // ---- Fields from topics ----

  datatype TopicToField = TopicToField(field: string, index: string, pattern: string, fixed: string, kind: string)

  function TrimSlashLeft(s: string): string {
    if s != "" && s[0] == '/' then TrimSlashLeft(s[1..]) else s
  }

  function TrimSlashRight(s: string): string
    decreases |s|
  {
    if s != "" && s[|s| - 1] == '/' then TrimSlashRight(s[..|s| - 1]) else s
  }

  function RawValue(p: Parsers, topic: string, segments: seq<string>, f: TopicToField): string {
    if f.fixed != "" then f.fixed
    else if f.index != "" then AtIndex(segments, Atoi(f.index))
    else if f.pattern != "" then
      match p.regex(f.pattern, topic)
      case None => ""
      case Some(group) => group
    else ""
  }

  /** A negative index counts from the end. */
  function AtIndex(segments: seq<string>, index: Option<int>): string {
    if index.None? then ""
    else
      var i := if index.value < 0 then |segments| + index.value else index.value;
      if 0 <= i < |segments| then segments[i] else ""
  }

  function TopicSegments(topic: string): seq<string> { Split(TrimSlashRight(TrimSlashLeft(topic)), '/') }

  /** A later field of the same name wins; empty values are left out. */
  function Extracted(p: Parsers, topic: string, fields: seq<TopicToField>): map<string, Json> {
    if fields == [] then map[]
    else
      var raw := RawValue(p, topic, TopicSegments(topic), fields[0]);
      (if raw == "" then map[] else map[fields[0].field := p.typed(raw, fields[0].kind)]) + Extracted(p, topic, fields[1..])
  }

  method ReadField(p: Parsers, topic: string, segments: seq<string>, f: TopicToField) returns (raw: string)
    ensures raw == RawValue(p, topic, segments, f)
  {
    hide Atoi;
    raw := "";
    if f.fixed != "" {
      raw := f.fixed;
    } else if f.index != "" {
      var parsed := Atoi(f.index);
      if parsed.Some? {
        var idx := parsed.value;
        if idx < 0 { idx := |segments| + idx; }
        if 0 <= idx < |segments| { raw := segments[idx]; }
      }
    } else if f.pattern != "" {
      var group := p.regex(f.pattern, topic);
      if group.Some? { raw := group.value; }
    }
  }

  /** extractFieldsFromTopic */
  method ExtractFields(p: Parsers, topic: string, fields: seq<TopicToField>) returns (result: map<string, Json>)
    ensures result == Extracted(p, topic, fields)
  {
    hide TopicSegments, RawValue;
    var segments := TopicSegments(topic);
    result := map[];
    for i := 0 to |fields|
      invariant result + Extracted(p, topic, fields[i..]) == Extracted(p, topic, fields)
    {
      assert fields[i..][1..] == fields[i + 1..];
      ghost var rest := Extracted(p, topic, fields[i + 1..]);
      assert map[] + rest == rest;
      var raw := ReadField(p, topic, segments, fields[i]);
      if raw == "" { continue; }
      var value := p.typed(raw, fields[i].kind);
      Overriding(result, fields[i].field, value, rest);
      result := result[fields[i].field := value];
    }
  }

  /** The segment at -k is the k-th from the end. */
  lemma NegativeIndex(segments: seq<string>, k: int)
    requires 1 <= k <= |segments| < INT64_LIMIT
    ensures AtIndex(segments, Atoi(IntToString(0 - k))) == AtIndex(segments, Atoi(IntToString(|segments| - k)))
                                                    == segments[|segments| - k]
  {
    hide Atoi, IntToString;
    AtoiOfInt(0 - k);
    AtoiOfInt(|segments| - k);
  }

  // ---- Matching ----

  /** matchParts */
  function MatchParts(pattern: seq<string>, topic: seq<string>, p: nat, t: nat): bool
    decreases |pattern| - p
  {
    if p >= |pattern| then t >= |topic|
    else if t >= |topic| then p == |pattern| - 1 && pattern[p] == "#"
    else if pattern[p] == "#" then true
    else if pattern[p] == "+" then MatchParts(pattern, topic, p + 1, t + 1)
    else pattern[p] == topic[t] && MatchParts(pattern, topic, p + 1, t + 1)
  }

  function TopicMatch(pattern: string, topic: string): bool {
    MatchParts(Split(pattern, '/'), Split(topic, '/'), 0, 0)
  }

  predicate LevelMatches(level: string, name: string) { level == "+" || level == name }

  /** Section 4.7.1 of MQTT 3.1.1: "+" stands for one level, and "#", which may only be the last
      level, for the parent and any number of levels below it. */
  predicate Matches(filter: seq<string>, topic: seq<string>) {
    var n := |filter|;
    if n > 0 && filter[n - 1] == "#" then
      n - 1 <= |topic| && forall i | 0 <= i < n - 1 :: LevelMatches(filter[i], topic[i])
    else n == |topic| && forall i | 0 <= i < n :: LevelMatches(filter[i], topic[i])
  }

  predicate IsFilter(filter: seq<string>) {
    forall i | 0 <= i < |filter| - 1 :: filter[i] != "#"
  }

  lemma {:induction false} MatchFrom(filter: seq<string>, topic: seq<string>, i: nat)
    requires IsFilter(filter) && i <= |filter| && i <= |topic|
    ensures MatchParts(filter, topic, i, i) <==> Matches(filter[i..], topic[i..])
    decreases |filter| - i
  {
    if i < |filter| && i < |topic| && filter[i] != "#" {
      MatchFrom(filter, topic, i + 1);
      var f, t, f1, t1 := filter[i..], topic[i..], filter[i + 1..], topic[i + 1..];
      assert f1 == f[1..] && t1 == t[1..];
      assert f[0] == filter[i] && t[0] == topic[i];
      assert forall k | 0 <= k < |f1| && k < |t1| :: f1[k] == f[k + 1] && t1[k] == t[k + 1];
      if Matches(f1, t1) && LevelMatches(f[0], t[0]) {
        assert forall k | 0 <= k < |f| && k < |t| && k != 0 :: f[k] == f1[k - 1] && t[k] == t1[k - 1];
      }
    }
  }

  /** The matcher is the relation of the standard. */
  lemma MatchIsStandard(filter: seq<string>, topic: seq<string>)
    requires IsFilter(filter)
    ensures MatchParts(filter, topic, 0, 0) <==> Matches(filter, topic)
  {
    MatchFrom(filter, topic, 0);
    assert filter[0..] == filter && topic[0..] == topic;
  }

  lemma TopicMatchIsStandard(filter: string, topic: string)
    requires IsFilter(Split(filter, '/'))
    ensures TopicMatch(filter, topic) <==> Matches(Split(filter, '/'), Split(topic, '/'))
  {
    hide Split;
    MatchIsStandard(Split(filter, '/'), Split(topic, '/'));
  }

  /** Widening a filter, one level to "+" or everything from a level on to "#", loses no match. */
  lemma WideningKeepsMatches(filter: seq<string>, topic: seq<string>, i: nat)
    requires IsFilter(filter) && i < |filter|
    requires MatchParts(filter, topic, 0, 0)
    ensures filter[i] != "#" ==> MatchParts(filter[i := "+"], topic, 0, 0)
    ensures MatchParts(filter[..i] + ["#"], topic, 0, 0)
    ensures filter[|filter| - 1] != "#" ==> MatchParts(filter + ["#"], topic, 0, 0)
  {
    MatchIsStandard(filter, topic);
    MatchIsStandard(filter[i := "+"], topic);
    MatchIsStandard(filter[..i] + ["#"], topic);
    if filter[|filter| - 1] != "#" { MatchIsStandard(filter + ["#"], topic); }
  }

  // ---- What a message gives ----

  predicate IsOperation(operation: string, op: OpCode) {
    match op
    case Create => operation == "c" || operation == "create"
    case Update => operation == "u" || operation == "update"
    case Delete => operation == "d" || operation == "delete"
    case Read => operation == "r" || operation == "read"
  }

  lemma OperationsRead(operation: string)
    ensures forall op :: OpCodeOf(operation) == Some(op) <==> IsOperation(operation, op)
  {
  }

  /** An event of the address's table and operation, with the image before for a delete and after
      otherwise. */
  predicate IsEvent(e: Event, a: Address, image: Json) {
    && e.schemaName == a.schemaName && e.table == a.table && IsOperation(a.operation, e.op)
    && if e.op == Delete then e.before == image && e.after == Null else e.before == Null && e.after == image
  }

  predicate AreEvents(events: seq<Event>, a: Address, images: seq<Json>) {
    |events| == |images| && forall i | 0 <= i < |events| :: IsEvent(events[i], a, images[i])
  }

  /** The image of a payload: an object wins over the topic's pairs, and these over the extracted fields;
      nothing becomes the extracted fields, if any; other values stay as they are. */
  predicate IsImageOf(image: Json, payload: Json, pairs: map<string, Json>, extracted: map<string, Json>) {
    match payload
    case Object(sent) => image == Object(extracted + (pairs + sent))
    case Null => image == if extracted == map[] then Null else Object(extracted)
    case _ => image == payload
  }

  /** What a message on an encoded topic gives. With a scalar field: one object with the pairs and the body
      under the field's name, null when there is no body. Without a body: the pairs, if there are
      any. With a body that is not JSON: nothing. With JSON: one event for it, or, in a batch, one for
      each element of a list, in order, none for null, and one for any other value. */
  lemma MessageRead(
    p: Parsers, fields: seq<TopicToField>, prefix: string, rewrite: string -> string, a: Address, body: string, op: OpCode)
    requires SlashFree(Segments(a)) && IsOperation(a.operation, op) && BatchIsPlain(a)
    ensures var topic := Topic(prefix, a);
            var parts := PartsOf(prefix, rewrite, topic);
            && parts.Some?
            && var events := Delivered(p, fields, parts.value, Used(prefix, rewrite, topic), body);
               var pairs, extracted := PairsMap(p, a.pairs), Extracted(p, topic, fields);
               if a.scalar.Some? then
                 AreEvents(events, a, [Object(extracted + pairs[a.scalar.value := if body == "" then Null else p.scalar(body)])])
               else if body == "" then
                 AreEvents(events, a, if pairs == map[] then [] else [Object(extracted + pairs)])
               else
                 match p.json(body)
                 case None => events == []
                 case Some(v) =>
                   var payloads := if !a.batch then [v] else if v.List? then v.items else if v.Null? then [] else [v];
                   exists images :: AreEvents(events, a, images) && |images| == |payloads|
                     && forall i | 0 <= i < |images| :: IsImageOf(images[i], payloads[i], pairs, extracted)
  {
    OperationsRead(a.operation);
    SegmentsOfTopic(prefix, rewrite, a);
    TopicRoundTrip(p, prefix, rewrite, a);
    hide PartsOf, RouteOf, Segments, BatchIsPlain, Extracted, PairsMap, OpCodeOf, SlashFree, Used, IsOperation;
    var r := Meaning(p, a, op);
    var extracted := Extracted(p, Topic(prefix, a), fields);
    if a.scalar.None? && body != "" && p.json(body).Some? {
      JsonRead(p, a, r, body, extracted);
    } else if Payloads(p, r, body).Some? {
      OneImage(a, r, Payloads(p, r, body).value, extracted);
    }
  }

  lemma EventIsOf(a: Address, r: Route, payload: Json, extracted: map<string, Json>)
    requires r.schemaName == a.schemaName && r.table == a.table && IsOperation(a.operation, r.op)
    ensures IsEvent(EventOf(r, payload, extracted), a, WithExtracted(payload, extracted))
  {
    hide WithExtracted;
  }

  /** Payloads that are objects, of which there is at most one. */
  lemma OneImage(a: Address, r: Route, payloads: seq<Json>, extracted: map<string, Json>)
    requires r.schemaName == a.schemaName && r.table == a.table && IsOperation(a.operation, r.op)
    requires |payloads| <= 1 && forall v | v in payloads :: v.Object?
    ensures AreEvents(EventsOf(r, payloads, extracted), a,
                      if payloads == [] then [] else [Object(extracted + payloads[0].fields)])
  {
    hide IsOperation;
    if payloads != [] {
      assert payloads[0] in payloads;
      EventIsOf(a, r, payloads[0], extracted);
    }
  }

  lemma JsonRead(p: Parsers, a: Address, r: Route, body: string, extracted: map<string, Json>)
    requires r.schemaName == a.schemaName && r.table == a.table && IsOperation(a.operation, r.op)
    requires r.batch == a.batch && r.scalar.None? && body != "" && p.json(body).Some? && Payloads(p, r, body).Some?
    ensures var v := p.json(body).value;
            var payloads := if !a.batch then [v] else if v.List? then v.items else if v.Null? then [] else [v];
            exists images :: AreEvents(EventsOf(r, Payloads(p, r, body).value, extracted), a, images)
              && |images| == |payloads|
              && forall i | 0 <= i < |images| :: IsImageOf(images[i], payloads[i], r.conditions, extracted)
  {
    hide IsOperation;
    var v := p.json(body).value;
    var payloads := if !a.batch then [v] else if v.List? then v.items else if v.Null? then [] else [v];
    var merged := AllUnder(payloads, r.conditions);
    assert Payloads(p, r, body) == Some(merged);
    var events := EventsOf(r, merged, extracted);
    var images := seq(|merged|, i requires 0 <= i < |merged| => WithExtracted(merged[i], extracted));
    forall i | 0 <= i < |merged|
      ensures IsEvent(events[i], a, images[i]) && IsImageOf(images[i], payloads[i], r.conditions, extracted)
    {
      EventIsOf(a, r, merged[i], extracted);
      ImageOf(payloads[i], r.conditions, extracted);
    }
    assert AreEvents(events, a, images);
  }

  lemma ImageOf(payload: Json, pairs: map<string, Json>, extracted: map<string, Json>)
    ensures IsImageOf(WithExtracted(Under(payload, pairs), extracted), payload, pairs, extracted)
  {
  }

  /** A topic whose operation is none of the eight words gives nothing. */
  lemma UnknownOperation(p: Parsers, fields: seq<TopicToField>, parts: seq<string>, topic: string, body: string)
    requires |parts| >= 3
    requires parts[2] !in {"c", "create", "u", "update", "d", "delete", "r", "read"}
    ensures Delivered(p, fields, parts, topic, body) == []
  {
  }

  /** A topic with fewer than three levels below the prefix is read as what it is rewritten to. */
  lemma ShortTopicRewritten(prefix: string, rewrite: string -> string, levels: seq<string>, a: Address)
    requires 1 <= |levels| <= 2 && SlashFree(levels) && SlashFree(Segments(a))
    requires rewrite(prefix + "/" + Join(levels, '/')) == Topic(prefix, a)
    ensures var topic := prefix + "/" + Join(levels, '/');
            Used(prefix, rewrite, topic) == Topic(prefix, a) && PartsOf(prefix, rewrite, topic) == Some(Segments(a))
  {
    hide Split, Join, Tail;
    ShortTopic(prefix, levels);
    var segments := Segments(a);
    SplitConcat(prefix, Join(segments, '/'), '/');
    SplitJoin(segments, '/');
    assert (Split(prefix, '/') + segments)[|Split(prefix, '/')|..] == segments;
  }

  lemma ShortTopic(prefix: string, levels: seq<string>)
    requires levels != [] && SlashFree(levels)
    ensures |Split(prefix + "/" + Join(levels, '/'), '/')| == |Split(prefix, '/')| + |levels|
  {
    hide Split, Join;
    SplitConcat(prefix, Join(levels, '/'), '/');
    SplitJoin(levels, '/');
  }

  /** Without a rewrite, a short topic is left alone and gives nothing. */
  lemma ShortTopicDropped(prefix: string, rewrite: string -> string, levels: seq<string>)
    requires 1 <= |levels| <= 2 && SlashFree(levels)
    requires rewrite(prefix + "/" + Join(levels, '/')) == prefix + "/" + Join(levels, '/')
    ensures PartsOf(prefix, rewrite, prefix + "/" + Join(levels, '/')).None?
  {
    hide Split, Join;
    ShortTopic(prefix, levels);
  }

  /** One configured field: a fixed value, or the segment at an index, or the group of a pattern, the first
      of them that is configured; an empty result is left out. */
  lemma FieldExtracted(p: Parsers, topic: string, f: TopicToField, n: nat)
    requires f.fixed == "" && f.index != "" ==> n < INT64_LIMIT && f.index == IntToString(n)
    ensures var segments := TopicSegments(topic);
            var raw := if f.fixed != "" then f.fixed
                       else if f.index != "" then (if n < |segments| then segments[n] else "")
                       else if f.pattern != "" && p.regex(f.pattern, topic).Some? then p.regex(f.pattern, topic).value
                       else "";
            Extracted(p, topic, [f]) == if raw == "" then map[] else map[f.field := p.typed(raw, f.kind)]
  {
    hide TopicSegments, Atoi, IntToString;
    assert [f][1..] == [];
    if f.fixed == "" && f.index != "" { AtoiOfInt(n); }
    var one := if RawValue(p, topic, TopicSegments(topic), f) == "" then map[]
               else map[f.field := p.typed(RawValue(p, topic, TopicSegments(topic), f), f.kind)];
    assert one + map[] == one;
  }

  /** Fields are extracted one by one, a later one over an earlier one of its name. */
  lemma {:induction false} FieldsExtracted(p: Parsers, topic: string, a: seq<TopicToField>, b: seq<TopicToField>)
    ensures Extracted(p, topic, a + b) == Extracted(p, topic, a) + Extracted(p, topic, b)
    decreases |a|
  {
    hide RawValue, TopicSegments;
    if a == [] {
      assert a + b == b && map[] + Extracted(p, topic, b) == Extracted(p, topic, b);
    } else {
      FieldsExtracted(p, topic, a[1..], b);
      assert (a + b)[0] == a[0] && (a + b)[1..] == a[1..] + b;
      var raw := RawValue(p, topic, TopicSegments(topic), a[0]);
      var first := if raw == "" then map[] else map[a[0].field := p.typed(raw, a[0].kind)];
      OverridingInTurn(first, Extracted(p, topic, a[1..]), Extracted(p, topic, b));
    }
  }

  lemma OverridingInTurn(a: map<string, Json>, b: map<string, Json>, c: map<string, Json>)
    ensures (a + b) + c == a + (b + c)
  {
  }

  /** Slashes at either end of a topic mean nothing. */
  lemma {:induction false} OuterSlashes(topic: string)
    ensures TopicSegments("/" + topic) == TopicSegments(topic) && TopicSegments(topic + "/") == TopicSegments(topic)
  {
    hide Split;
    assert ("/" + topic)[1..] == topic;
    TrimsLast(topic);
  }

  lemma {:induction false} TrimsLast(topic: string)
    ensures TrimSlashRight(TrimSlashLeft(topic + "/")) == TrimSlashRight(TrimSlashLeft(topic))
    decreases |topic|
  {
    if topic == "" {
      assert topic + "/" == "/" && "/"[1..] == "";
    } else if topic[0] == '/' {
      TrimsLast(topic[1..]);
      assert (topic + "/")[1..] == topic[1..] + "/";
    } else {
      assert (topic + "/")[..|topic|] == topic;
    }
  }
}
