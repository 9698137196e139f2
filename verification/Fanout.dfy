/** The pipeline fan-out (cmd/pigo/pipeline.go, pkg/pipeline): one goroutine per source offers
    each event to every subscribed pipeline's sinks over bounded queues that drop when full, and
    any number of consumers drain each queue. */
module Fanout {
  import opened Options
  import opened Text
  import opened Cdc
  import opened Transform

  datatype SourceConfig = SourceConfig(name: string, transformations: seq<Transformation>)

  datatype Sink = Sink(name: string, transformations: seq<Transformation>)

  datatype Pipeline = Pipeline(
    name: string, sources: seq<SourceConfig>, transformations: seq<Transformation>, sinks: seq<Sink>)

  type Config = seq<Pipeline>

  const CAPACITY: nat := 100

  /** GetPipeline: the first of that name. */
  function FindPipeline(cfg: Config, name: string): (r: Option<Pipeline>)
    ensures r.Some? ==> r.value in cfg && r.value.name == name
    ensures r.None? ==> forall pl | pl in cfg :: pl.name != name
  {
    if cfg == [] then None else if cfg[0].name == name then Some(cfg[0]) else FindPipeline(cfg[1..], name)
  }

  /** The pipeline found is the first of its name, and none is found only if there is none. */
  lemma {:induction false} FindsFirst(cfg: Config, name: string)
    ensures match FindPipeline(cfg, name)
            case None => forall i | 0 <= i < |cfg| :: cfg[i].name != name
            case Some(pl) => exists i | 0 <= i < |cfg| ::
                               && cfg[i] == pl && pl.name == name
                               && forall j | 0 <= j < i :: cfg[j].name != name
    decreases |cfg|
  {
    if cfg != [] && cfg[0].name != name {
      FindsFirst(cfg[1..], name);
      assert forall i | 0 <= i < |cfg| - 1 :: cfg[1..][i] == cfg[i + 1];
      var found := FindPipeline(cfg[1..], name);
      if found.Some? {
        var i :| 0 <= i < |cfg| - 1 && cfg[1..][i] == found.value && forall j | 0 <= j < i :: cfg[1..][j].name != name;
        assert cfg[i + 1] == found.value;
        forall j | 0 <= j < i + 1
          ensures cfg[j].name != name
        {
          if j > 0 { assert cfg[j] == cfg[1..][j - 1]; }
        }
      }
    }
  }

  function FindSource(sources: seq<SourceConfig>, name: string): (r: Option<SourceConfig>)
    ensures r.Some? ==> r.value in sources && r.value.name == name
    ensures r.None? ==> forall src | src in sources :: src.name != name
  {
    if sources == [] then None else if sources[0].name == name then Some(sources[0]) else FindSource(sources[1..], name)
  }

  /** The source entry found is the first of its name, and none is found only if there is none. */
  lemma {:induction false} FindsFirstSource(sources: seq<SourceConfig>, name: string)
    ensures match FindSource(sources, name)
            case None => forall i | 0 <= i < |sources| :: sources[i].name != name
            case Some(src) => exists i | 0 <= i < |sources| ::
                                && sources[i] == src && src.name == name
                                && forall j | 0 <= j < i :: sources[j].name != name
    decreases |sources|
  {
    if sources != [] && sources[0].name != name {
      FindsFirstSource(sources[1..], name);
      assert forall i | 0 <= i < |sources| - 1 :: sources[1..][i] == sources[i + 1];
      var found := FindSource(sources[1..], name);
      if found.Some? {
        var i :| 0 <= i < |sources| - 1 && sources[1..][i] == found.value
                 && forall j | 0 <= j < i :: sources[1..][j].name != name;
        assert sources[i + 1] == found.value;
        forall j | 0 <= j < i + 1
          ensures sources[j].name != name
        {
          if j > 0 { assert sources[j] == sources[1..][j - 1]; }
        }
      }
    }
  }

  predicate DistinctSinks(pl: Pipeline) {
    forall i, j | 0 <= i < j < |pl.sinks| :: pl.sinks[i].name != pl.sinks[j].name
  }

  /** d is what a pipeline may make of a source's event before its sinks: the payload it passes on,
      or nothing, also when the pipeline or its source entry does not exist. */
  ghost predicate PassesAs(pat: Patterns, pl: Option<Pipeline>, source: string, event: Payload, d: Option<Payload>) {
    match pl
    case None => d.None?
    case Some(pl) =>
      match FindSource(pl.sources, source)
      case None => d.None?
      case Some(src) => DeliversInTurn(pat, src.transformations, pl.transformations, event, d)
  }

  lemma PassesTotal(pat: Patterns, pl: Option<Pipeline>, source: string, event: Payload) returns (d: Option<Payload>)
    ensures PassesAs(pat, pl, source, event, d)
  {
    d := None;
    if pl.Some? {
      var src := FindSource(pl.value.sources, source);
      if src.Some? {
        d := DeliversTotal(pat, src.value.transformations, event);
        if d.Some? { d := DeliversTotal(pat, pl.value.transformations, d.value); }
      }
    }
  }

  /** Whether an event passes never depends on which of two colliding columns wins. */
  lemma PassingIsFixed(
    pat: Patterns, pl: Option<Pipeline>, source: string, event: Payload, d: Option<Payload>, d1: Option<Payload>)
    requires PassesAs(pat, pl, source, event, d) && PassesAs(pat, pl, source, event, d1)
    ensures d.Some? == d1.Some?
  {
    hide Delivers;
    if pl.Some? && FindSource(pl.value.sources, source).Some? {
      var ts, ts1 := FindSource(pl.value.sources, source).value.transformations, pl.value.transformations;
      TurnIsFixed(pat, ts, ts1, event, d, d1);
    }
  }

  lemma TurnIsFixed(
    pat: Patterns, a: seq<Transformation>, b: seq<Transformation>, event: Payload, d: Option<Payload>, d1: Option<Payload>)
    requires DeliversInTurn(pat, a, b, event, d) && DeliversInTurn(pat, a, b, event, d1)
    ensures d.Some? == d1.Some?
  {
    TurnsToChain(pat, a, b, event, d);
    TurnsToChain(pat, a, b, event, d1);
    DeliveryIsFixed(pat, a + b, event, event, d, d1);
  }

  /** No renaming on the way through a pipeline makes two columns of the event one. */
  ghost predicate NoCollisions(pat: Patterns, pl: Pipeline, source: string, event: Payload) {
    match FindSource(pl.sources, source)
    case None => true
    case Some(src) =>
      Undecodable in src.transformations + pl.transformations
      || CollisionFree(pat, src.transformations + pl.transformations, event)
  }

  lemma PassingIsUnique(
    pat: Patterns, pl: Pipeline, source: string, event: Payload, d: Option<Payload>, d1: Option<Payload>)
    requires NoCollisions(pat, pl, source, event)
    requires PassesAs(pat, Some(pl), source, event, d) && PassesAs(pat, Some(pl), source, event, d1)
    ensures d == d1
  {
    hide DeliversInTurn, CollisionFree;
    if FindSource(pl.sources, source).Some? {
      var ts, ts1 := FindSource(pl.sources, source).value.transformations, pl.transformations;
      TurnsToChain(pat, ts, ts1, event, d);
      TurnsToChain(pat, ts, ts1, event, d1);
      DeliveryIsUnique(pat, ts + ts1, event, d, d1);
    }
  }

  // ---- process.go, one event at a time ----

  class Channel {
    var items: seq<Payload>

    constructor ()
      ensures items == []
    {
      items := [];
    }

    /** select { case ch <- event: ... default: ... } on a buffered channel */
    method TrySend(p: Payload) returns (sent: bool)
      modifies this
      ensures sent == (|old(items)| < 100)
      ensures items == AfterOffer(old(items), p)
    {
      sent := |items| < CAPACITY;
      if sent { items := items + [p]; }
    }
  }

  function AfterOffer(items: seq<Payload>, p: Payload): seq<Payload> {
    if |items| < CAPACITY then items + [p] else items
  }

  type Channels = map<string, Channel>

  /** Each sink has a channel of its own. */
  ghost predicate Separate(channels: Channels) {
    forall a, b | a in channels && b in channels && a != b :: channels[a] != channels[b]
  }

  /** How many of the first n sinks have this name. */
  function SinkCount(pl: Pipeline, n: nat, name: string): nat {
    if n == 0 || |pl.sinks| < n then 0
    else SinkCount(pl, n - 1, name) + (if pl.sinks[n - 1].name == name then 1 else 0)
  }

  /** A channel after k offers of one payload. */
  function AfterOffers(items: seq<Payload>, p: Payload, k: nat): seq<Payload> {
    if k == 0 then items else AfterOffer(AfterOffers(items, p, k - 1), p)
  }

  method DistributeToSinks(pl: Pipeline, p: Payload, channels: Channels)
    requires Separate(channels)
    modifies channels.Values
    ensures forall name | name in channels ::
              channels[name].items
              == AfterOffers(old(channels[name].items), p, SinkCount(pl, |pl.sinks|, name))
  {
    hide AfterOffer;
    for i := 0 to |pl.sinks|
      invariant forall name | name in channels ::
                  channels[name].items == AfterOffers(old(channels[name].items), p, SinkCount(pl, i, name))
    {
      var name := pl.sinks[i].name;
      if name in channels {
        assert channels[name] in channels.Values;
        var _ := channels[name].TrySend(p);
      }
    }
  }

  function AfterOutcome(items: seq<Payload>, d: Option<Payload>, k: nat): seq<Payload> {
    if d.Some? then AfterOffers(items, d.value, k) else items
  }

  /** ProcessEvent: the event is passed by value, so the pipeline works on its own copy. What
      reaches the channels depends on the payload and this pipeline's configuration alone, and
      each channel's outcome on that channel alone; the caller's event keeps its payload. */
  method ProcessEvent(pat: Patterns, pl: Pipeline, source: SourceConfig, event: Event, channels: Channels)
    returns (ghost d: Option<Payload>)
    requires Separate(channels)
    modifies event.fields, channels.Values
    ensures DeliversInTurn(pat, source.transformations, pl.transformations, old(event.payload), d)
    ensures forall name | name in channels ::
              channels[name].items
              == AfterOutcome(old(channels[name].items), d, SinkCount(pl, |pl.sinks|, name))
  {
    hide ApplyGives, ChainGives, FieldsAfter;
    var copy := new Event(event.fields, event.payload);
    var first, n := ApplyTransformations(pat, source.transformations, copy);
    d := None;
    assert Delivers(pat, source.transformations, event.payload, Delivered(PayloadOf(first)));
    if !first.Keep? { return; }
    ghost var q := first.value.payload;
    var second, m := ApplyTransformations(pat, pl.transformations, first.value);
    assert Delivers(pat, pl.transformations, q, Delivered(PayloadOf(second)));
    if !second.Keep? { return; }
    d := Some(second.value.payload);
    DistributeToSinks(pl, second.value.payload, channels);
  }

  // ---- pipeline.go: one event to every subscribed pipeline ----

  type Key = (string, string)   // pipeline, sink

  ghost predicate SeparateKeys(channels: map<Key, Channel>) {
    forall a, b | a in channels && b in channels && a != b :: channels[a] != channels[b]
  }

  /** The channels of one pipeline by sink name. */
  function ChannelsOf(channels: map<Key, Channel>, name: string): Channels {
    map key | key in channels && key.0 == name :: key.1 := channels[key]
  }

  predicate IsSink(cfg: Config, key: Key) {
    var pl := FindPipeline(cfg, key.0);
    pl.Some? && exists i | 0 <= i < |pl.value.sinks| :: pl.value.sinks[i].name == key.1
  }

  /** How many of the first n sinks of a pipeline send to the channel. */
  function KeyCount(cfg: Config, name: string, n: nat, key: Key): nat {
    var pl := FindPipeline(cfg, name);
    if name == key.0 && pl.Some? then SinkCount(pl.value, if n <= |pl.value.sinks| then n else |pl.value.sinks|, key.1) else 0
  }

  function SinksOf(cfg: Config, name: string): nat {
    var pl := FindPipeline(cfg, name);
    if pl.Some? then |pl.value.sinks| else 0
  }

  /** A channel after one subscription: one of its own pipeline offers it what the pipeline
      passes on, once for each sink of its name; another does not touch it. */
  function AfterOne(cfg: Config, name: string, d: Option<Payload>, key: Key, items: seq<Payload>): seq<Payload> {
    AfterOutcome(items, d, KeyCount(cfg, name, SinksOf(cfg, name), key))
  }

  function AfterServing(
    cfg: Config, subs: seq<string>, ds: seq<Option<Payload>>, key: Key, items: seq<Payload>): seq<Payload>
    requires |ds| == |subs|
    decreases |subs|
  {
    if subs == [] then items
    else
      var n := |subs| - 1;
      AfterOne(cfg, subs[n], ds[n], key, AfterServing(cfg, subs[..n], ds[..n], key, items))
  }

  method Serve(pat: Patterns, cfg: Config, source: string, name: string, event: Event, channels: map<Key, Channel>)
    returns (ghost d: Option<Payload>)
    requires SeparateKeys(channels)
    modifies event.fields, channels.Values
    ensures PassesAs(pat, FindPipeline(cfg, name), source, event.payload, d)
    ensures forall key | key in channels ::
              channels[key].items == AfterOne(cfg, name, d, key, old(channels[key].items))
    ensures (forall pl | pl in cfg && pl.name == name :: forall src | src in pl.sources :: src.name != source) ==>
              d.None? && forall key | key in channels :: channels[key].items == old(channels[key].items)
  {
    hide DeliversInTurn, AfterOffer;
    d := None;
    var pl := FindPipeline(cfg, name);
    if pl.None? { return; }
    var src := FindSource(pl.value.sources, source);
    if src.None? { return; }
    var own := ChannelsOf(channels, name);
    assert forall sink | sink in own :: own[sink] == channels[(name, sink)];
    d := ProcessEvent(pat, pl.value, src.value, event, own);
  }

  /** The loop over subscriptions for one event: each is served from the same event. */
  method FanOut(
    pat: Patterns, cfg: Config, source: string, subs: seq<string>, event: Event, channels: map<Key, Channel>)
    returns (ghost ds: seq<Option<Payload>>)
    requires SeparateKeys(channels)
    modifies event.fields, channels.Values
    ensures |ds| == |subs|
    ensures forall i | 0 <= i < |subs| :: PassesAs(pat, FindPipeline(cfg, subs[i]), source, event.payload, ds[i])
    ensures forall key | key in channels ::
              channels[key].items == AfterServing(cfg, subs, ds, key, old(channels[key].items))
  {
    hide AfterOne, PassesAs, FindPipeline;
    ds := [];
    for i := 0 to |subs|
      invariant |ds| == i
      invariant forall j | 0 <= j < i :: PassesAs(pat, FindPipeline(cfg, subs[j]), source, event.payload, ds[j])
      invariant forall key | key in channels ::
                  channels[key].items == AfterServing(cfg, subs[..i], ds, key, old(channels[key].items))
    {
      assert subs[..i + 1][..i] == subs[..i];
      ghost var d := Serve(pat, cfg, source, subs[i], event, channels);
      assert (ds + [d])[..i] == ds;
      ds := ds + [d];
    }
    assert subs[..|subs|] == subs;
  }

  // ---- manager.go: subscriptions, and the goroutines started for them ----

  function SubscribersOf(subscriptions: map<string, seq<string>>, source: string): seq<string> {
    if source in subscriptions then subscriptions[source] else []
  }

  function WithSubscription(
    subscriptions: map<string, seq<string>>, source: string, pipeline: string): map<string, seq<string>>
  {
    subscriptions[source := SubscribersOf(subscriptions, source) + [pipeline]]
  }

  class Manager {
    var subscriptions: map<string, seq<string>>   // pipeline names, in order, by source
    var started: seq<string>                      // sources whose goroutine was started

    /** At most one goroutine is started for a source, and only for a subscribed one. */
    ghost predicate Valid()
      reads this
    {
      && (forall i, j | 0 <= i < j < |started| :: started[i] != started[j])
      && forall source | source in started :: GetSubscriptions(source) != []
    }

    constructor ()
      ensures Valid() && subscriptions == map[] && started == []
    {
      subscriptions, started := map[], [];
    }

    function GetSubscriptions(source: string): seq<string>
      reads this
    {
      SubscribersOf(subscriptions, source)
    }

    method AddSubscription(source: string, pipeline: string)
      modifies this`subscriptions
      ensures GetSubscriptions(source) == old(GetSubscriptions(source)) + [pipeline]
      ensures forall other | other != source :: GetSubscriptions(other) == old(GetSubscriptions(other))
      ensures subscriptions == WithSubscription(old(subscriptions), source, pipeline)
    {
      subscriptions := subscriptions[source := GetSubscriptions(source) + [pipeline]];
    }

    method IsFirstSubscription(source: string) returns (first: bool)
      requires Valid()
      ensures first == (GetSubscriptions(source) == [])
      ensures first ==> source !in started
    {
      first := |GetSubscriptions(source)| == 0;
    }

    /** setupSource up to the sinks: the first subscription of a source connects to it and starts
        its goroutine. */
    method SetupSource(source: string, pipeline: string, connects: bool) returns (ok: bool)
      requires Valid()
      modifies this
      ensures Valid()
      ensures subscriptions == WithSubscription(old(subscriptions), source, pipeline)
      ensures var first := old(GetSubscriptions(source)) == [];
              && ok == (connects || !first)
              && started == old(started) + (if first && connects then [source] else [])
    {
      var first := IsFirstSubscription(source);
      AddSubscription(source, pipeline);
      if first {
        if !connects { return false; }
        started := started + [source];
      }
      ok := true;
    }
  }

  // ---- The running system, as interleaved atomic steps ----

  /** The history of a queue: every offer, accepted or not, and every receive. */
  datatype Entry = Offered(source: string, raw: Payload, payload: Payload, accepted: bool) | Took

  /** A sink's queue with its history, the events its consumers hold, and what became of the
      events taken. */
  datatype Queue = Queue(
    items: seq<Payload>, log: seq<Entry>, hands: map<nat, Payload>,
    published: nat, publishErrors: nat, filtered: nat, failed: nat)

  /** Sinks from number next on have yet to be offered the payload. */
  datatype Delivery = Delivery(payload: Payload, next: nat)

  /** A source goroutine: waiting, ended, or working through the subscriptions it read when the
      event came. */
  datatype Goroutine =
    | Idle
    | Ended
    | Busy(event: Payload, subs: seq<string>, at: nat, pending: Option<Delivery>)

  /** An event given to a pipeline, and what the pipeline passed on. */
  datatype Served = Served(event: Payload, outcome: Option<Payload>)

  /** served: by source and pipeline, the events given to the pipeline. */
  datatype State = State(
    subscriptions: map<string, seq<string>>, sources: map<string, Goroutine>,
    queues: map<Key, Queue>, served: map<Key, seq<Served>>)

  /** Steps with what the environment decides: the events received, how colliding columns resolve,
      and whether publishing succeeds. */
  datatype Action =
    | Subscribe(source: string, pipeline: string)
    | Receive(source: string, event: Payload)
    | TransformNext(source: string, outcome: Option<Payload>)
    | Offer(source: string)
    | Finish(source: string)
    | End(source: string)
    | Take(key: Key, consumer: nat)
    | Complete(key: Key, consumer: nat, result: Outcome<Payload>, publishedOk: bool)

  /** Pipelines, and the sinks of each, have distinct names. */
  predicate DistinctNames(cfg: Config) {
    && (forall i, j | 0 <= i < j < |cfg| :: cfg[i].name != cfg[j].name)
    && forall i | 0 <= i < |cfg| :: DistinctSinks(cfg[i])
  }

  const EMPTY_QUEUE: Queue := Queue([], [], map[], 0, 0, 0, 0)

  /** Every sink has an empty queue. */
  ghost predicate Initial(cfg: Config, s: State) {
    && s.subscriptions == map[] && s.sources == map[] && s.served == map[]
    && forall key: Key :: (key in s.queues <==> IsSink(cfg, key)) && (key in s.queues ==> s.queues[key] == EMPTY_QUEUE)
  }

  function ServedBy(s: State, source: string, pipeline: string): seq<Served> {
    if (source, pipeline) in s.served then s.served[(source, pipeline)] else []
  }

  predicate IsBusy(s: State, source: string) { source in s.sources && s.sources[source].Busy? }

  function SinkKey(cfg: Config, g: Goroutine): Option<Key>
    requires g.Busy? && g.pending.Some? && g.at < |g.subs|
  {
    var pl := FindPipeline(cfg, g.subs[g.at]);
    if pl.Some? && g.pending.value.next < |pl.value.sinks| then Some((g.subs[g.at], pl.value.sinks[g.pending.value.next].name))
    else None
  }

  ghost predicate Enabled(pat: Patterns, cfg: Config, s: State, a: Action) {
    match a
    case Subscribe(_, pipeline) => FindPipeline(cfg, pipeline).Some?
    case Receive(source, _) => source in s.sources && s.sources[source].Idle?
    case TransformNext(source, outcome) =>
      && CanTransform(s, source)
      && var g := s.sources[source];
         PassesAs(pat, FindPipeline(cfg, g.subs[g.at]), source, g.event, outcome)
    case Offer(source) => CanOffer(s, source)
    case Finish(source) =>
      IsBusy(s, source) && s.sources[source].pending.None? && s.sources[source].at >= |s.sources[source].subs|
    case End(source) => source in s.sources && s.sources[source].Idle?
    case Take(key, consumer) =>
      key in s.queues && s.queues[key].items != [] && consumer !in s.queues[key].hands
    case Complete(key, consumer, result, _) =>
      && key in s.queues && consumer in s.queues[key].hands && IsSink(cfg, key)
      && ApplyGives(pat, SinkTransformations(cfg, key), s.queues[key].hands[consumer], result)
  }

  predicate CanTransform(s: State, source: string) {
    IsBusy(s, source) && s.sources[source].pending.None? && s.sources[source].at < |s.sources[source].subs|
  }

  /** Offering never waits for room. */
  predicate CanOffer(s: State, source: string) {
    IsBusy(s, source) && s.sources[source].pending.Some? && s.sources[source].at < |s.sources[source].subs|
  }

  function WithGoroutine(s: State, source: string, g: Goroutine): State {
    s.(sources := s.sources[source := g])
  }

  /** The next subscribed pipeline is given the event; when nothing passes, the goroutine moves on. */
  function AfterTransform(s: State, source: string, outcome: Option<Payload>): State
    requires CanTransform(s, source)
  {
    var g := s.sources[source];
    var key := (source, g.subs[g.at]);
    var s1 := s.(served := s.served[key := ServedBy(s, source, g.subs[g.at]) + [Served(g.event, outcome)]]);
    match outcome
    case None => WithGoroutine(s1, source, g.(at := g.at + 1))
    case Some(q) => WithGoroutine(s1, source, g.(pending := Some(Delivery(q, 0))))
  }

  function Offer1(q: Queue, source: string, raw: Payload, p: Payload): Queue {
    var accepted := |q.items| < CAPACITY;
    q.(items := AfterOffer(q.items, p), log := q.log + [Offered(source, raw, p, accepted)])
  }

  /** One attempt to send, or the step past the last sink. */
  function AfterOfferStep(cfg: Config, s: State, source: string): State
    requires CanOffer(s, source)
  {
    var g := s.sources[source];
    var d := g.pending.value;
    match SinkKey(cfg, g)
    case None => WithGoroutine(s, source, g.(at := g.at + 1, pending := None))
    case Some(key) =>
      var moved := WithGoroutine(s, source, g.(pending := Some(d.(next := d.next + 1))));
      if key in s.queues then moved.(queues := s.queues[key := Offer1(s.queues[key], source, g.event, d.payload)])
      else moved
  }

  function Take1(q: Queue, consumer: nat): Queue
    requires q.items != []
  {
    q.(items := q.items[1..], log := q.log + [Took], hands := q.hands[consumer := q.items[0]])
  }

  /** The outcome of the sink's own transformations, and of publishing. */
  function Complete1(q: Queue, consumer: nat, result: Outcome<Payload>, ok: bool): Queue
    requires consumer in q.hands
  {
    var done := q.(hands := q.hands - {consumer});
    match result
    case Failed => done.(failed := q.failed + 1)
    case Skip => done.(filtered := q.filtered + 1)
    case Keep(_) => if ok then done.(published := q.published + 1) else done.(publishErrors := q.publishErrors + 1)
  }

  function SinkTransformations(cfg: Config, key: Key): seq<Transformation>
    requires IsSink(cfg, key)
  {
    FindSink(FindPipeline(cfg, key.0).value.sinks, key.1)
  }

  function FindSink(sinks: seq<Sink>, name: string): seq<Transformation> {
    if sinks == [] then [] else if sinks[0].name == name then sinks[0].transformations else FindSink(sinks[1..], name)
  }

  /** The transformations of the first sink of that name. */
  lemma {:induction false} FindsFirstSink(sinks: seq<Sink>, name: string, i: nat)
    requires i < |sinks| && sinks[i].name == name && forall j | 0 <= j < i :: sinks[j].name != name
    ensures FindSink(sinks, name) == sinks[i].transformations
    decreases |sinks|
  {
    if i > 0 {
      assert forall j | 0 <= j < i :: sinks[1..][j] == sinks[j + 1];
      FindsFirstSink(sinks[1..], name, i - 1);
    }
  }

  ghost function Next(pat: Patterns, cfg: Config, s: State, a: Action): State
    requires Enabled(pat, cfg, s, a)
  {
    match a
    case Subscribe(source, pipeline) =>
      var s1 := s.(subscriptions := WithSubscription(s.subscriptions, source, pipeline));
      if SubscribersOf(s.subscriptions, source) == [] then WithGoroutine(s1, source, Idle) else s1
    case Receive(source, event) =>
      WithGoroutine(s, source, Busy(event, SubscribersOf(s.subscriptions, source), 0, None))
    case TransformNext(source, outcome) => AfterTransform(s, source, outcome)
    case Offer(source) => AfterOfferStep(cfg, s, source)
    case Finish(source) => WithGoroutine(s, source, Idle)
    case End(source) => WithGoroutine(s, source, Ended)
    case Take(key, consumer) => s.(queues := s.queues[key := Take1(s.queues[key], consumer)])
    case Complete(key, consumer, result, ok) =>
      s.(queues := s.queues[key := Complete1(s.queues[key], consumer, result, ok)])
  }

  // ---- What a log says ----

  function Queued(log: seq<Entry>): seq<Payload>
    decreases |log|
  {
    if log == [] then []
    else
      var last := log[|log| - 1];
      Queued(log[..|log| - 1]) + (if last.Offered? && last.accepted then [last.payload] else [])
  }

  function Taken(log: seq<Entry>): nat
    decreases |log|
  {
    if log == [] then 0 else Taken(log[..|log| - 1]) + (if log[|log| - 1].Took? then 1 else 0)
  }

  function Dropped(log: seq<Entry>): nat
    decreases |log|
  {
    if log == [] then 0
    else
      var last := log[|log| - 1];
      Dropped(log[..|log| - 1]) + (if last.Offered? && !last.accepted then 1 else 0)
  }

  /** A raw event and what the pipeline passed on for it. */
  type Offering = (Payload, Payload)

  /** What was offered by one source. */
  function OfferedBy(log: seq<Entry>, source: string): seq<Offering>
    decreases |log|
  {
    if log == [] then []
    else OfferedBy(log[..|log| - 1], source) + OfferingOf(log[|log| - 1], source)
  }

  function OfferingOf(e: Entry, source: string): seq<Offering> {
    if e.Offered? && e.source == source then [(e.raw, e.payload)] else []
  }

  /** What was offered by one source and accepted. */
  function QueuedFrom(log: seq<Entry>, source: string): seq<Offering>
    decreases |log|
  {
    if log == [] then []
    else
      var last := log[|log| - 1];
      QueuedFrom(log[..|log| - 1], source) + (if last.Offered? && last.accepted then OfferingOf(last, source) else [])
  }

  function AllOffered(log: seq<Entry>): seq<Payload>
    decreases |log|
  {
    if log == [] then []
    else AllOffered(log[..|log| - 1]) + (if log[|log| - 1].Offered? then [log[|log| - 1].payload] else [])
  }

  /** An offer is accepted exactly when the queue had room, and only queued events are taken. */
  predicate WellLogged(log: seq<Entry>)
    decreases |log|
  {
    log != [] ==>
      var before := log[..|log| - 1];
      && WellLogged(before)
      && Taken(before) <= |Queued(before)|
      && match log[|log| - 1]
         case Offered(_, _, _, accepted) => accepted == (|Queued(before)| - Taken(before) < CAPACITY)
         case Took => Taken(before) < |Queued(before)|
  }

  /** small is what is left of big after leaving out elements. */
  predicate Subsequence<T(==)>(small: seq<T>, big: seq<T>)
    decreases |big|
  {
    if small == [] then true
    else if big == [] then false
    else
      var m, n := |small| - 1, |big| - 1;
      (small[m] == big[n] && Subsequence(small[..m], big[..n])) || Subsequence(small, big[..n])
  }

  lemma {:induction false} LogCounts(log: seq<Entry>)
    ensures |AllOffered(log)| == |Queued(log)| + Dropped(log)
    decreases |log|
  {
    if log != [] { LogCounts(log[..|log| - 1]); }
  }

  lemma EmptySubsequence<T>(big: seq<T>)
    ensures Subsequence([], big)
  {
  }

  lemma SubsequenceStep<T>(small: seq<T>, big: seq<T>, s: seq<T>, b: seq<T>)
    requires Subsequence(small, big)
    requires |b| <= 1 && (s == [] || s == b)
    ensures Subsequence(small + s, big + b)
  {
    if b == [] {
      assert small + s == small && big + b == big;
    } else {
      assert (big + b)[..|big|] == big;
      if s == [] {
        assert small + s == small;
      } else {
        assert (small + s)[..|small|] == small;
      }
    }
  }

  /** What is queued is an ordered subsequence of what was offered. */
  lemma {:induction false} QueuedIsSubsequence(log: seq<Entry>)
    ensures Subsequence(Queued(log), AllOffered(log))
    decreases |log|
  {
    hide Subsequence;
    if log == [] {
      EmptySubsequence<Payload>([]);
    } else {
      var before, last := log[..|log| - 1], log[|log| - 1];
      QueuedIsSubsequence(before);
      SubsequenceStep(Queued(before), AllOffered(before),
                      if last.Offered? && last.accepted then [last.payload] else [],
                      if last.Offered? then [last.payload] else []);
    }
  }

  /** The same source by source. */
  lemma {:induction false} QueuedFromIsSubsequence(log: seq<Entry>, source: string)
    ensures Subsequence(QueuedFrom(log, source), OfferedBy(log, source))
    decreases |log|
  {
    hide Subsequence;
    if log == [] {
      EmptySubsequence<Offering>([]);
    } else {
      var before, last := log[..|log| - 1], log[|log| - 1];
      QueuedFromIsSubsequence(before, source);
      SubsequenceStep(QueuedFrom(before, source), OfferedBy(before, source),
                      if last.Offered? && last.accepted then OfferingOf(last, source) else [], OfferingOf(last, source));
    }
  }

  // ---- What the history of steps says ----

  /** The pipelines subscribed to a source, in order. */
  function Subscribed(h: seq<Action>, source: string): seq<string>
    decreases |h|
  {
    if h == [] then []
    else
      var last := h[|h| - 1];
      Subscribed(h[..|h| - 1], source) + (if last.Subscribe? && last.source == source then [last.pipeline] else [])
  }

  /** An event with the subscriptions there were when it came. */
  datatype Arrival = Arrival(event: Payload, subs: seq<string>)

  function Arrivals(h: seq<Action>, source: string): seq<Arrival>
    decreases |h|
  {
    if h == [] then []
    else
      var before, last := h[..|h| - 1], h[|h| - 1];
      Arrivals(before, source)
      + (if last.Receive? && last.source == source then [Arrival(last.event, Subscribed(before, source))] else [])
  }

  function Count(subs: seq<string>, name: string): nat
    decreases |subs|
  {
    if subs == [] then 0 else Count(subs[..|subs| - 1], name) + (if subs[|subs| - 1] == name then 1 else 0)
  }

  function Repeated(e: Payload, n: nat): seq<Payload> { seq(n, _ => e) }

  /** What a pipeline is to be given: every event of the source, in order, once for each
      subscription of the pipeline. */
  function Due(arrivals: seq<Arrival>, name: string): seq<Payload>
    decreases |arrivals|
  {
    if arrivals == [] then []
    else
      var last := arrivals[|arrivals| - 1];
      Due(arrivals[..|arrivals| - 1], name) + Repeated(last.event, Count(last.subs, name))
  }

  /** How many subscriptions the goroutine has served of the current event. */
  function Progress(g: Goroutine): nat
    requires g.Busy?
  {
    g.at + if g.pending.Some? then 1 else 0
  }

  /** What is due so far: of the event the goroutine works on, the subscriptions served. */
  function DueSoFar(arrivals: seq<Arrival>, s: State, source: string, name: string): seq<Payload> {
    if arrivals != [] && IsBusy(s, source) then
      var g := s.sources[source];
      Due(arrivals[..|arrivals| - 1], name)
      + Repeated(g.event, Count(if Progress(g) <= |g.subs| then g.subs[..Progress(g)] else g.subs, name))
    else Due(arrivals, name)
  }

  function Events(served: seq<Served>): (r: seq<Payload>)
    ensures |r| == |served|
  {
    seq(|served|, i requires 0 <= i < |served| => served[i].event)
  }

  /** What a pipeline passed on, with the events it came from. */
  function Passing(served: seq<Served>): seq<Offering>
    decreases |served|
  {
    if served == [] then []
    else
      var last := served[|served| - 1];
      Passing(served[..|served| - 1]) + (if last.outcome.Some? then [(last.event, last.outcome.value)] else [])
  }

  // ---- The invariant ----

  /** A queue holds what was queued and not yet taken, never more than its capacity, and
      everything taken is accounted for. */
  ghost predicate QueueInv(q: Queue) {
    && WellLogged(q.log) && Taken(q.log) <= |Queued(q.log)|
    && q.items == Queued(q.log)[Taken(q.log)..] && |q.items| <= CAPACITY
    && Taken(q.log) == q.published + q.publishErrors + q.filtered + q.failed + |q.hands|
  }

  /** What a source still has to offer to sink number i of a pipeline. */
  function InFlight(s: State, source: string, name: string, i: nat): seq<Offering> {
    if IsBusy(s, source) then
      var g := s.sources[source];
      if g.pending.Some? && g.at < |g.subs| && g.subs[g.at] == name && g.pending.value.next <= i
      then [(g.event, g.pending.value.payload)] else []
    else []
  }

  /** The goroutine of a source works on the latest arrival. */
  ghost predicate GoroutineInv(h: seq<Action>, s: State, source: string) {
    && SubscribersOf(s.subscriptions, source) == Subscribed(h, source)
    && (source in s.sources <==> Subscribed(h, source) != [])
    && (source !in s.sources ==> Arrivals(h, source) == [])
    && (IsBusy(s, source) ==>
          var arrivals, g := Arrivals(h, source), s.sources[source];
          && arrivals != [] && arrivals[|arrivals| - 1] == Arrival(g.event, g.subs)
          && Progress(g) <= |g.subs|)
  }

  /** The pipeline was given exactly what was due so far, in order, and passed on what its
      transformations may make of it. */
  ghost predicate ServedInv(pat: Patterns, cfg: Config, h: seq<Action>, s: State, source: string, name: string) {
    var served := ServedBy(s, source, name);
    && Events(served) == DueSoFar(Arrivals(h, source), s, source, name)
    && Outcomes(pat, FindPipeline(cfg, name), source, served)
  }

  ghost predicate Outcomes(pat: Patterns, pl: Option<Pipeline>, source: string, served: seq<Served>) {
    forall i | 0 <= i < |served| :: PassesAs(pat, pl, source, served[i].event, served[i].outcome)
  }

  ghost predicate SourceInv(pat: Patterns, cfg: Config, h: seq<Action>, s: State, source: string) {
    GoroutineInv(h, s, source) && forall name :: ServedInv(pat, cfg, h, s, source, name)
  }

  /** Everything a pipeline passed on has been offered to each of its sinks, in order, or is about
      to be. */
  predicate FlowInv(s: State, source: string, pl: Pipeline, i: nat)
    requires i < |pl.sinks|
  {
    var key := (pl.name, pl.sinks[i].name);
    key in s.queues
    && OfferedBy(s.queues[key].log, source) + InFlight(s, source, pl.name, i) == Passing(ServedBy(s, source, pl.name))
  }

  ghost predicate Flows(cfg: Config, s: State) {
    forall source: string, pl: Pipeline, i: nat | pl in cfg && i < |pl.sinks| :: FlowInv(s, source, pl, i)
  }

  ghost predicate Inv(pat: Patterns, cfg: Config, h: seq<Action>, s: State) {
    && (forall key: Key :: key in s.queues <==> IsSink(cfg, key))
    && (forall key | key in s.queues :: QueueInv(s.queues[key]))
    && (forall source :: SourceInv(pat, cfg, h, s, source))
    && Flows(cfg, s)
  }

  lemma {:induction false} FindIsUnique(cfg: Config, pl: Pipeline)
    requires DistinctNames(cfg) && pl in cfg
    ensures FindPipeline(cfg, pl.name) == Some(pl)
    decreases |cfg|
  {
    var k :| 0 <= k < |cfg| && cfg[k] == pl;
    if k > 0 {
      assert pl in cfg[1..] by { assert cfg[1..][k - 1] == pl; }
      assert DistinctNames(cfg[1..]) by {
        assert forall i | 0 <= i < |cfg| - 1 :: cfg[1..][i] == cfg[i + 1];
      }
      FindIsUnique(cfg[1..], pl);
    }
  }

  lemma InitialInv(pat: Patterns, cfg: Config, s: State)
    requires DistinctNames(cfg) && Initial(cfg, s)
    ensures Inv(pat, cfg, [], s)
  {
    hide PassesAs, DistinctNames;
    forall source: string, pl: Pipeline, i: nat | pl in cfg && i < |pl.sinks|
      ensures FlowInv(s, source, pl, i)
    {
      FindIsUnique(cfg, pl);
      assert IsSink(cfg, (pl.name, pl.sinks[i].name));
    }
  }

  // ---- Every step keeps the invariant ----

  lemma HistorySnoc(h: seq<Action>, a: Action)
    ensures forall source :: Subscribed(h + [a], source)
              == if a.Subscribe? && a.source == source then Subscribed(h, source) + [a.pipeline] else Subscribed(h, source)
    ensures forall source :: Arrivals(h + [a], source)
              == if a.Receive? && a.source == source then Arrivals(h, source) + [Arrival(a.event, Subscribed(h, source))]
                 else Arrivals(h, source)
  {
    assert (h + [a])[..|h|] == h;
  }

  lemma LogSnoc(log: seq<Entry>, e: Entry)
    ensures var log1 := log + [e];
            && Queued(log1) == Queued(log) + (if e.Offered? && e.accepted then [e.payload] else [])
            && Taken(log1) == Taken(log) + (if e.Took? then 1 else 0)
            && (WellLogged(log1) <==>
                  && WellLogged(log) && Taken(log) <= |Queued(log)|
                  && match e
                     case Offered(_, _, _, accepted) => accepted == (|Queued(log)| - Taken(log) < CAPACITY)
                     case Took => Taken(log) < |Queued(log)|)
            && forall source :: OfferedBy(log1, source) == OfferedBy(log, source) + OfferingOf(e, source)
  {
    assert (log + [e])[..|log|] == log;
  }

  lemma OfferKeepsQueue(q: Queue, source: string, raw: Payload, p: Payload)
    requires QueueInv(q)
    ensures QueueInv(Offer1(q, source, raw, p))
  {
    LogSnoc(q.log, Offered(source, raw, p, |q.items| < CAPACITY));
  }

  lemma TakeKeepsQueue(q: Queue, consumer: nat)
    requires QueueInv(q) && q.items != [] && consumer !in q.hands
    ensures QueueInv(Take1(q, consumer))
  {
    LogSnoc(q.log, Took);
    assert |Take1(q, consumer).hands| == |q.hands| + 1;
  }

  lemma CompleteKeepsQueue(q: Queue, consumer: nat, result: Outcome<Payload>, ok: bool)
    requires QueueInv(q) && consumer in q.hands
    ensures QueueInv(Complete1(q, consumer, result, ok))
    ensures Complete1(q, consumer, result, ok).log == q.log
  {
    var left := q.hands - {consumer};
    assert q.hands == left[consumer := q.hands[consumer]];
    assert |q.hands| == |left| + 1;
  }

  /** Two states and histories that look the same to a source. */
  ghost predicate SameSource(h: seq<Action>, s: State, h1: seq<Action>, s1: State, source: string) {
    && SubscribersOf(s1.subscriptions, source) == SubscribersOf(s.subscriptions, source)
    && (source in s1.sources <==> source in s.sources)
    && (source in s.sources ==> s1.sources[source] == s.sources[source])
    && (forall name :: ServedBy(s1, source, name) == ServedBy(s, source, name))
    && Subscribed(h1, source) == Subscribed(h, source) && Arrivals(h1, source) == Arrivals(h, source)
  }

  lemma SourceUnchanged(
    pat: Patterns, cfg: Config, h: seq<Action>, s: State, h1: seq<Action>, s1: State, source: string)
    requires SourceInv(pat, cfg, h, s, source) && SameSource(h, s, h1, s1, source)
    ensures SourceInv(pat, cfg, h1, s1, source)
  {
    hide PassesAs, FindPipeline, Due, Count, Events;
    forall name
      ensures ServedInv(pat, cfg, h1, s1, source, name)
    {
      assert ServedInv(pat, cfg, h, s, source, name);
    }
  }

  /** Steps that neither offer nor pass anything on. */
  lemma FlowsUnchanged(cfg: Config, s: State, s1: State)
    requires Flows(cfg, s)
    requires s1.queues.Keys == s.queues.Keys
    requires forall key, source | key in s.queues :: OfferedBy(s1.queues[key].log, source) == OfferedBy(s.queues[key].log, source)
    requires forall source, name :: Passing(ServedBy(s1, source, name)) == Passing(ServedBy(s, source, name))
    requires forall source, name, i: nat :: InFlight(s1, source, name, i) == InFlight(s, source, name, i)
    ensures Flows(cfg, s1)
  {
    forall source: string, pl: Pipeline, i: nat | pl in cfg && i < |pl.sinks|
      ensures FlowInv(s1, source, pl, i)
    {
      assert FlowInv(s, source, pl, i);
    }
  }

  /** A change to one queue that adds no offers. */
  lemma QueueChange(pat: Patterns, cfg: Config, h: seq<Action>, s: State, a: Action, key: Key, q: Queue)
    requires Inv(pat, cfg, h, s) && key in s.queues && QueueInv(q) && (a.Take? || a.Complete?)
    requires forall source :: OfferedBy(q.log, source) == OfferedBy(s.queues[key].log, source)
    ensures Inv(pat, cfg, h + [a], s.(queues := s.queues[key := q]))
  {
    hide QueueInv, IsSink, OfferedBy, Flows, SourceInv, Passing;
    var s1 := s.(queues := s.queues[key := q]);
    HistorySnoc(h, a);
    forall source
      ensures SourceInv(pat, cfg, h + [a], s1, source)
    {
      SourceUnchanged(pat, cfg, h, s, h + [a], s1, source);
    }
    assert forall source, name, i: nat :: InFlight(s1, source, name, i) == InFlight(s, source, name, i);
    hide InFlight;
    FlowsUnchanged(cfg, s, s1);
  }

  lemma QueueStep(pat: Patterns, cfg: Config, h: seq<Action>, s: State, a: Action)
    requires Inv(pat, cfg, h, s) && Enabled(pat, cfg, s, a) && (a.Take? || a.Complete?)
    ensures Inv(pat, cfg, h + [a], Next(pat, cfg, s, a))
  {
    hide QueueInv, IsSink, Flows, SourceInv, ApplyGives;
    var q := s.queues[a.key];
    if a.Take? {
      TakeKeepsQueue(q, a.consumer);
      LogSnoc(q.log, Took);
      assert forall source :: OfferedBy(q.log, source) + [] == OfferedBy(q.log, source);
      QueueChange(pat, cfg, h, s, a, a.key, Take1(q, a.consumer));
    } else {
      CompleteKeepsQueue(q, a.consumer, a.result, a.publishedOk);
      QueueChange(pat, cfg, h, s, a, a.key, Complete1(q, a.consumer, a.result, a.publishedOk));
    }
  }

  lemma CountSnoc(subs: seq<string>, name: string, p: nat)
    requires p < |subs|
    ensures Count(subs[..p + 1], name) == Count(subs[..p], name) + (if subs[p] == name then 1 else 0)
  {
    assert subs[..p + 1][..p] == subs[..p];
  }

  lemma RepeatedSnoc(e: Payload, n: nat)
    ensures Repeated(e, n + 1) == Repeated(e, n) + [e] && Repeated(e, 0) == []
  {
  }

  /** A step of one source's goroutine, or a subscription: the other sources see nothing of it. */
  lemma OtherSources(pat: Patterns, cfg: Config, h: seq<Action>, s: State, a: Action, s1: State, source: string)
    requires Inv(pat, cfg, h, s)
    requires forall other | other != source :: SameSource(h, s, h + [a], s1, other)
    requires SourceInv(pat, cfg, h + [a], s1, source)
    ensures forall other :: SourceInv(pat, cfg, h + [a], s1, other)
  {
    hide SourceInv, SameSource, Flows, QueueInv, IsSink;
    forall other
      ensures SourceInv(pat, cfg, h + [a], s1, other)
    {
      if other != source { SourceUnchanged(pat, cfg, h, s, h + [a], s1, other); }
    }
  }

  lemma DueOfLast(arrivals: seq<Arrival>, name: string)
    requires arrivals != []
    ensures var last := arrivals[|arrivals| - 1];
            Due(arrivals, name) == Due(arrivals[..|arrivals| - 1], name) + Repeated(last.event, Count(last.subs, name))
  {
  }

  /** A new event: nothing of it is due before its first subscription is served. */
  lemma DueOnReceive(arrivals: seq<Arrival>, event: Payload, s: State, source: string, name: string)
    requires source in s.sources && s.sources[source].Idle?
    ensures var subs := SubscribersOf(s.subscriptions, source);
            DueSoFar(arrivals + [Arrival(event, subs)], WithGoroutine(s, source, Busy(event, subs, 0, None)), source, name)
            == DueSoFar(arrivals, s, source, name)
  {
    hide Due;
    var subs := SubscribersOf(s.subscriptions, source);
    assert (arrivals + [Arrival(event, subs)])[..|arrivals|] == arrivals;
    assert Count(subs[..0], name) == 0 && Repeated(event, 0) == [];
    assert Due(arrivals, name) + [] == Due(arrivals, name);
  }

  /** The end of an event: all of it was due. */
  lemma DueOnFinish(arrivals: seq<Arrival>, s: State, source: string, name: string)
    requires IsBusy(s, source) && arrivals != []
    requires var g := s.sources[source];
             g.pending.None? && g.at == |g.subs| && arrivals[|arrivals| - 1] == Arrival(g.event, g.subs)
    ensures DueSoFar(arrivals, WithGoroutine(s, source, Idle), source, name) == DueSoFar(arrivals, s, source, name)
  {
    DueOfLast(arrivals, name);
    hide Due, Count;
    var g := s.sources[source];
    assert g.subs[..Progress(g)] == g.subs;
  }

  /** The steps that change a goroutine but serve nothing and have nothing in flight. */
  lemma WaitingDue(pat: Patterns, cfg: Config, h: seq<Action>, s: State, a: Action, name: string)
    requires a.Subscribe? || a.Receive? || a.Finish? || a.End?
    requires Enabled(pat, cfg, s, a) && GoroutineInv(h, s, a.source)
    ensures DueSoFar(Arrivals(h + [a], a.source), Next(pat, cfg, s, a), a.source, name)
            == DueSoFar(Arrivals(h, a.source), s, a.source, name)
  {
    HistorySnoc(h, a);
    var arrivals := Arrivals(h, a.source);
    hide PassesAs, FindPipeline, Due, Count, Arrivals, Subscribed;
    if a.Receive? {
      DueOnReceive(arrivals, a.event, s, a.source, name);
    } else if a.Finish? {
      DueOnFinish(arrivals, s, a.source, name);
    }
  }

  lemma WaitingServed(pat: Patterns, cfg: Config, h: seq<Action>, s: State, a: Action, name: string)
    requires Inv(pat, cfg, h, s) && Enabled(pat, cfg, s, a)
    requires a.Subscribe? || a.Receive? || a.Finish? || a.End?
    ensures ServedInv(pat, cfg, h + [a], Next(pat, cfg, s, a), a.source, name)
  {
    hide PassesAs, FindPipeline, DueSoFar, Events, Outcomes, QueueInv, Flows, IsSink, GoroutineInv, Arrivals;
    assert SourceInv(pat, cfg, h, s, a.source) && ServedInv(pat, cfg, h, s, a.source, name);
    hide Inv, SourceInv;
    WaitingDue(pat, cfg, h, s, a, name);
  }

  lemma WaitingGoroutine(pat: Patterns, cfg: Config, h: seq<Action>, s: State, a: Action)
    requires Inv(pat, cfg, h, s) && Enabled(pat, cfg, s, a)
    requires a.Subscribe? || a.Receive? || a.Finish? || a.End?
    ensures GoroutineInv(h + [a], Next(pat, cfg, s, a), a.source)
  {
    hide ServedInv, PassesAs, FindPipeline, QueueInv, Flows, IsSink, Subscribed, Arrivals;
    HistorySnoc(h, a);
    assert SourceInv(pat, cfg, h, s, a.source);
  }

  /** Steps of a source change nothing that another source sees. */
  lemma OthersSame(h: seq<Action>, s: State, a: Action, s1: State, source: string)
    requires a.Subscribe? || a.Receive? ==> a.source == source
    requires forall other | other != source :: SubscribersOf(s1.subscriptions, other) == SubscribersOf(s.subscriptions, other)
    requires forall other | other != source ::
               (other in s1.sources <==> other in s.sources) && (other in s.sources ==> s1.sources[other] == s.sources[other])
    requires forall other, name | other != source :: ServedBy(s1, other, name) == ServedBy(s, other, name)
    ensures forall other | other != source :: SameSource(h, s, h + [a], s1, other)
  {
    HistorySnoc(h, a);
  }

  lemma WaitingOthers(pat: Patterns, cfg: Config, h: seq<Action>, s: State, a: Action)
    requires Enabled(pat, cfg, s, a)
    requires a.Subscribe? || a.Receive? || a.Finish? || a.End?
    ensures var s1 := Next(pat, cfg, s, a);
            && (forall other | other != a.source :: SameSource(h, s, h + [a], s1, other))
            && s1.queues == s.queues && s1.served == s.served
  {
    hide SameSource, FindPipeline;
    OthersSame(h, s, a, Next(pat, cfg, s, a), a.source);
  }

  lemma WaitingInFlight(pat: Patterns, cfg: Config, h: seq<Action>, s: State, a: Action)
    requires Inv(pat, cfg, h, s) && Enabled(pat, cfg, s, a)
    requires a.Subscribe? || a.Receive? || a.Finish? || a.End?
    ensures forall source, name, i: nat :: InFlight(Next(pat, cfg, s, a), source, name, i) == InFlight(s, source, name, i)
  {
    hide FindPipeline, ServedInv, PassesAs, QueueInv, Flows, IsSink;
    assert SourceInv(pat, cfg, h, s, a.source);
  }

  lemma WaitingStep(pat: Patterns, cfg: Config, h: seq<Action>, s: State, a: Action)
    requires Inv(pat, cfg, h, s) && Enabled(pat, cfg, s, a)
    requires a.Subscribe? || a.Receive? || a.Finish? || a.End?
    ensures Inv(pat, cfg, h + [a], Next(pat, cfg, s, a))
  {
    hide ServedInv, GoroutineInv, SameSource, QueueInv, IsSink, OfferedBy, Passing, Next, Enabled, InFlight;
    var s1 := Next(pat, cfg, s, a);
    WaitingGoroutine(pat, cfg, h, s, a);
    WaitingOthers(pat, cfg, h, s, a);
    WaitingInFlight(pat, cfg, h, s, a);
    forall name
      ensures ServedInv(pat, cfg, h + [a], s1, a.source, name)
    {
      WaitingServed(pat, cfg, h, s, a, name);
    }
    OtherSources(pat, cfg, h, s, a, s1, a.source);
    hide SourceInv, Flows;
    FlowsUnchanged(cfg, s, s1);
  }

  /** The goroutine of a source goes on with the same event. */
  predicate GoesOn(s: State, s1: State, source: string) {
    && IsBusy(s, source) && IsBusy(s1, source) && s1.subscriptions == s.subscriptions
    && s1.sources.Keys == s.sources.Keys
    && var g, g1 := s.sources[source], s1.sources[source];
       g1.event == g.event && g1.subs == g.subs && Progress(g) <= Progress(g1) <= |g.subs|
  }

  lemma GoroutineGoesOn(h: seq<Action>, s: State, a: Action, s1: State, source: string)
    requires GoroutineInv(h, s, source) && GoesOn(s, s1, source) && !a.Subscribe? && !a.Receive?
    ensures GoroutineInv(h + [a], s1, source)
  {
    HistorySnoc(h, a);
  }

  lemma DueGoesOn(arrivals: seq<Arrival>, s: State, s1: State, source: string, name: string)
    requires GoesOn(s, s1, source) && arrivals != []
    ensures var g, g1 := s.sources[source], s1.sources[source];
            && (Progress(g1) == Progress(g) ==>
                  DueSoFar(arrivals, s1, source, name) == DueSoFar(arrivals, s, source, name))
            && (Progress(g1) == Progress(g) + 1 ==>
                  DueSoFar(arrivals, s1, source, name)
                  == DueSoFar(arrivals, s, source, name) + (if g.subs[Progress(g)] == name then [g.event] else []))
  {
    hide Due, Count;
    var g, g1 := s.sources[source], s1.sources[source];
    if Progress(g1) == Progress(g) + 1 {
      CountSnoc(g.subs, name, Progress(g));
      var n := Count(g.subs[..Progress(g)], name);
      RepeatedSnoc(g.event, n);
      Associative(Due(arrivals[..|arrivals| - 1], name), Repeated(g.event, n), [g.event]);
    }
  }

  lemma ServedSnoc(pat: Patterns, pl: Option<Pipeline>, source: string, served: seq<Served>, one: Served)
    requires Outcomes(pat, pl, source, served) && PassesAs(pat, pl, source, one.event, one.outcome)
    ensures Outcomes(pat, pl, source, served + [one]) && Events(served + [one]) == Events(served) + [one.event]
  {
    hide PassesAs;
  }

  lemma ServedAfter(s: State, source: string, outcome: Option<Payload>, name: string)
    requires CanTransform(s, source)
    ensures var g := s.sources[source];
            ServedBy(AfterTransform(s, source, outcome), source, name)
            == ServedBy(s, source, name) + (if g.subs[g.at] == name then [Served(g.event, outcome)] else [])
  {
  }

  lemma TransformGoesOn(s: State, source: string, outcome: Option<Payload>)
    requires CanTransform(s, source)
    ensures var s1 := AfterTransform(s, source, outcome);
            GoesOn(s, s1, source) && Progress(s1.sources[source]) == Progress(s.sources[source]) + 1
    ensures s.sources[source].at == Progress(s.sources[source])
  {
  }

  lemma TransformServed(pat: Patterns, cfg: Config, h: seq<Action>, s: State, a: Action, name: string)
    requires a.TransformNext? && Enabled(pat, cfg, s, a) && SourceInv(pat, cfg, h, s, a.source)
    ensures ServedInv(pat, cfg, h + [a], AfterTransform(s, a.source, a.outcome), a.source, name)
  {
    hide PassesAs, FindPipeline, DueSoFar, Outcomes, Events, AfterTransform, ServedBy, GoesOn, Arrivals, Subscribed;
    HistorySnoc(h, a);
    var g := s.sources[a.source];
    var s1 := AfterTransform(s, a.source, a.outcome);
    assert ServedInv(pat, cfg, h, s, a.source, name);
    TransformGoesOn(s, a.source, a.outcome);
    DueGoesOn(Arrivals(h, a.source), s, s1, a.source, name);
    ServedAfter(s, a.source, a.outcome, name);
    if g.subs[g.at] == name {
      ServedSnoc(pat, FindPipeline(cfg, name), a.source, ServedBy(s, a.source, name), Served(g.event, a.outcome));
    } else {
      assert ServedBy(s, a.source, name) + [] == ServedBy(s, a.source, name);
      assert Events(ServedBy(s, a.source, name)) + [] == Events(ServedBy(s, a.source, name));
    }
  }

  lemma TransformOthers(h: seq<Action>, s: State, a: Action)
    requires a.TransformNext? && CanTransform(s, a.source)
    ensures var s1 := AfterTransform(s, a.source, a.outcome);
            && GoesOn(s, s1, a.source) && s1.queues == s.queues
            && forall other | other != a.source :: SameSource(h, s, h + [a], s1, other)
  {
    hide SameSource;
    OthersSame(h, s, a, AfterTransform(s, a.source, a.outcome), a.source);
  }

  lemma TransformStep(pat: Patterns, cfg: Config, h: seq<Action>, s: State, a: Action)
    requires DistinctNames(cfg) && Inv(pat, cfg, h, s) && a.TransformNext? && Enabled(pat, cfg, s, a)
    ensures Inv(pat, cfg, h + [a], AfterTransform(s, a.source, a.outcome))
  {
    hide PassesAs, FindPipeline, DistinctNames, QueueInv, IsSink, OfferedBy, ServedInv, GoroutineInv, AfterTransform, GoesOn,
      SameSource, Flows;
    var s1 := AfterTransform(s, a.source, a.outcome);
    assert SourceInv(pat, cfg, h, s, a.source);
    TransformOthers(h, s, a);
    GoroutineGoesOn(h, s, a, s1, a.source);
    forall name
      ensures ServedInv(pat, cfg, h + [a], s1, a.source, name)
    {
      TransformServed(pat, cfg, h, s, a, name);
    }
    OtherSources(pat, cfg, h, s, a, s1, a.source);
    TransformFlows(pat, cfg, h, s, a);
  }

  lemma PassingSnoc(served: seq<Served>, one: Served)
    ensures Passing(served + [one])
            == Passing(served) + (if one.outcome.Some? then [(one.event, one.outcome.value)] else [])
  {
    assert (served + [one])[..|served|] == served;
  }

  /** What the step passes on to a pipeline, and what it then has in flight. */
  lemma TransformPasses(s: State, source: string, outcome: Option<Payload>, src: string, name: string, i: nat)
    requires CanTransform(s, source)
    ensures var s1, g := AfterTransform(s, source, outcome), s.sources[source];
            var now := if src == source && g.subs[g.at] == name && outcome.Some? then [(g.event, outcome.value)] else [];
            && InFlight(s1, src, name, i) == InFlight(s, src, name, i) + now
            && Passing(ServedBy(s1, src, name)) == Passing(ServedBy(s, src, name)) + now
  {
    hide Passing;
    var g := s.sources[source];
    if src == source && g.subs[g.at] == name { PassingSnoc(ServedBy(s, src, name), Served(g.event, outcome)); }
  }

  lemma TransformFlows(pat: Patterns, cfg: Config, h: seq<Action>, s: State, a: Action)
    requires Inv(pat, cfg, h, s) && a.TransformNext? && Enabled(pat, cfg, s, a)
    ensures Flows(cfg, AfterTransform(s, a.source, a.outcome))
  {
    hide PassesAs, FindPipeline, QueueInv, IsSink, OfferedBy, SourceInv, Passing, InFlight;
    var s1 := AfterTransform(s, a.source, a.outcome);
    var g := s.sources[a.source];
    forall source: string, pl: Pipeline, i: nat | pl in cfg && i < |pl.sinks|
      ensures FlowInv(s1, source, pl, i)
    {
      assert FlowInv(s, source, pl, i);
      TransformPasses(s, a.source, a.outcome, source, pl.name, i);
      var now := if source == a.source && g.subs[g.at] == pl.name && a.outcome.Some?
                 then [(g.event, a.outcome.value)] else [];
      Associative(OfferedBy(s.queues[(pl.name, pl.sinks[i].name)].log, source), InFlight(s, source, pl.name, i), now);
    }
  }

  /** What an offer does to the queues: one more entry at the sink whose turn it is. */
  lemma OfferQueues(cfg: Config, s: State, source: string)
    requires (forall key | key in s.queues :: QueueInv(s.queues[key])) && CanOffer(s, source)
    ensures var s1 := AfterOfferStep(cfg, s, source);
            && s1.queues.Keys == s.queues.Keys
            && (forall key | key in s.queues :: QueueInv(s1.queues[key]))
            && forall key, other | key in s.queues ::
                 OfferedBy(s1.queues[key].log, other)
                 == OfferedBy(s.queues[key].log, other)
                    + (if other == source && SinkKey(cfg, s.sources[source]) == Some(key)
                       then [(s.sources[source].event, s.sources[source].pending.value.payload)] else [])
  {
    hide QueueInv, FindPipeline;
    var g := s.sources[source];
    var d := g.pending.value;
    var found := SinkKey(cfg, g);
    if found.Some? && found.value in s.queues {
      var q := s.queues[found.value];
      OfferKeepsQueue(q, source, g.event, d.payload);
      LogSnoc(q.log, Offered(source, g.event, d.payload, |q.items| < CAPACITY));
    }
    forall key, other | key in s.queues
      ensures OfferedBy(s.queues[key].log, other) + [] == OfferedBy(s.queues[key].log, other)
    {
    }
  }

  /** An offer moves the payload from in flight to offered at one sink, and changes no other. */
  lemma OfferInFlight(cfg: Config, s: State, source: string, src: string, pl: Pipeline, i: nat)
    requires DistinctNames(cfg) && pl in cfg && i < |pl.sinks| && FindPipeline(cfg, pl.name) == Some(pl)
    requires CanOffer(s, source)
    ensures (if src == source && SinkKey(cfg, s.sources[source]) == Some((pl.name, pl.sinks[i].name))
             then [(s.sources[source].event, s.sources[source].pending.value.payload)] else [])
            + InFlight(AfterOfferStep(cfg, s, source), src, pl.name, i)
            == InFlight(s, src, pl.name, i)
    ensures ServedBy(AfterOfferStep(cfg, s, source), src, pl.name) == ServedBy(s, src, pl.name)
  {
    hide Offer1, OfferedBy, FindPipeline, DistinctNames;
    var g := s.sources[source];
    var next := g.pending.value.next;
    if g.subs[g.at] == pl.name && next < |pl.sinks| && i != next { OtherSink(cfg, pl, i, next); }
  }

  lemma OtherSink(cfg: Config, pl: Pipeline, i: nat, j: nat)
    requires DistinctNames(cfg) && pl in cfg && i < |pl.sinks| && j < |pl.sinks| && i != j
    ensures pl.sinks[i].name != pl.sinks[j].name
  {
    assert DistinctSinks(pl);
  }

  lemma OfferFlow(pat: Patterns, cfg: Config, h: seq<Action>, s: State, source: string, src: string, pl: Pipeline, i: nat)
    requires DistinctNames(cfg) && Inv(pat, cfg, h, s) && CanOffer(s, source)
    requires pl in cfg && i < |pl.sinks|
    ensures FlowInv(AfterOfferStep(cfg, s, source), src, pl, i)
  {
    hide SourceInv, QueueInv, IsSink, FindPipeline, InFlight, OfferedBy, SinkKey, AfterOfferStep, DistinctNames, Passing;
    assert FlowInv(s, src, pl, i);
    FindIsUnique(cfg, pl);
    OfferQueues(cfg, s, source);
    OfferInFlight(cfg, s, source, src, pl, i);
    var s1 := AfterOfferStep(cfg, s, source);
    var key := (pl.name, pl.sinks[i].name);
    var moved := if src == source && SinkKey(cfg, s.sources[source]) == Some(key)
                 then [(s.sources[source].event, s.sources[source].pending.value.payload)] else [];
    assert OfferedBy(s1.queues[key].log, src) == OfferedBy(s.queues[key].log, src) + moved;
    Associative(OfferedBy(s.queues[key].log, src), moved, InFlight(s1, src, pl.name, i));
  }

  lemma OfferOthers(cfg: Config, h: seq<Action>, s: State, a: Action)
    requires a.Offer? && CanOffer(s, a.source)
    ensures var s1 := AfterOfferStep(cfg, s, a.source);
            && GoesOn(s, s1, a.source) && s1.served == s.served
            && Progress(s1.sources[a.source]) == Progress(s.sources[a.source])
            && forall other | other != a.source :: SameSource(h, s, h + [a], s1, other)
  {
    hide SameSource, FindPipeline, Offer1;
    OthersSame(h, s, a, AfterOfferStep(cfg, s, a.source), a.source);
  }

  lemma OfferServed(pat: Patterns, cfg: Config, h: seq<Action>, s: State, a: Action)
    requires Inv(pat, cfg, h, s) && a.Offer? && CanOffer(s, a.source)
    ensures forall other :: SourceInv(pat, cfg, h + [a], AfterOfferStep(cfg, s, a.source), other)
  {
    hide FindPipeline, QueueInv, IsSink, Flows, DueSoFar, Outcomes, Events, AfterOfferStep, SameSource, GoesOn;
    var s1 := AfterOfferStep(cfg, s, a.source);
    HistorySnoc(h, a);
    OfferOthers(cfg, h, s, a);
    assert SourceInv(pat, cfg, h, s, a.source);
    GoroutineGoesOn(h, s, a, s1, a.source);
    forall name
      ensures ServedInv(pat, cfg, h + [a], s1, a.source, name)
    {
      assert ServedInv(pat, cfg, h, s, a.source, name);
      DueGoesOn(Arrivals(h, a.source), s, s1, a.source, name);
    }
    hide GoroutineInv, ServedInv;
    OtherSources(pat, cfg, h, s, a, s1, a.source);
  }

  lemma OfferStep(pat: Patterns, cfg: Config, h: seq<Action>, s: State, a: Action)
    requires DistinctNames(cfg) && Inv(pat, cfg, h, s) && a.Offer? && CanOffer(s, a.source)
    ensures Inv(pat, cfg, h + [a], AfterOfferStep(cfg, s, a.source))
  {
    hide QueueInv, IsSink, FindPipeline, InFlight, OfferedBy, FlowInv, DistinctNames, SourceInv;
    var s1 := AfterOfferStep(cfg, s, a.source);
    forall src: string, pl: Pipeline, i: nat | pl in cfg && i < |pl.sinks|
      ensures FlowInv(s1, src, pl, i)
    {
      OfferFlow(pat, cfg, h, s, a.source, src, pl, i);
    }
    OfferQueues(cfg, s, a.source);
    OfferServed(pat, cfg, h, s, a);
  }

  /** Every step keeps the invariant. */
  lemma StepInv(pat: Patterns, cfg: Config, h: seq<Action>, s: State, a: Action)
    requires DistinctNames(cfg) && Inv(pat, cfg, h, s) && Enabled(pat, cfg, s, a)
    ensures Inv(pat, cfg, h + [a], Next(pat, cfg, s, a))
  {
    hide Inv, DistinctNames, AfterTransform, AfterOfferStep, Take1, Complete1, FindPipeline, PassesAs;
    match a
    case TransformNext(_, _) => TransformStep(pat, cfg, h, s, a);
    case Offer(_) => OfferStep(pat, cfg, h, s, a);
    case Take(_, _) => QueueStep(pat, cfg, h, s, a);
    case Complete(_, _, _, _) => QueueStep(pat, cfg, h, s, a);
    case _ => WaitingStep(pat, cfg, h, s, a);
  }

  // ---- No goroutine ever waits for a queue ----

  /** What a goroutine has left to do on its event: subscriptions, then sinks of the current one. */
  function WorkLeft(cfg: Config, g: Goroutine): (nat, nat)
    requires g.Busy?
  {
    var left := if g.at <= |g.subs| then |g.subs| - g.at else 0;
    if g.pending.None? || g.at >= |g.subs| then (left, 0)
    else
      match FindPipeline(cfg, g.subs[g.at])
      case None => (left, 1)
      case Some(pl) => (left, 1 + if g.pending.value.next <= |pl.sinks| then |pl.sinks| - g.pending.value.next else 0)
  }

  predicate Shrinks(before: (nat, nat), after: (nat, nat)) {
    after.0 < before.0 || (after.0 == before.0 && after.1 < before.1)
  }

  /** Whatever the queues and the other sources do, a busy goroutine can take a step of its own,
      which is a step towards the end of its event: it hands the event to the next pipeline, or
      has less left to do. */
  lemma NeverBlocked(pat: Patterns, cfg: Config, h: seq<Action>, s: State, source: string) returns (a: Action)
    requires Inv(pat, cfg, h, s) && IsBusy(s, source)
    ensures Enabled(pat, cfg, s, a) && (a.TransformNext? || a.Offer? || a.Finish?) && a.source == source
    ensures var g, g1 := s.sources[source], Next(pat, cfg, s, a).sources[source];
            if a.TransformNext? then g.pending.None? && Progress(g1) == Progress(g) + 1
            else if a.Offer? then g1.Busy? && Shrinks(WorkLeft(cfg, g), WorkLeft(cfg, g1))
            else g1.Idle?
  {
    hide ServedInv, QueueInv, Flows, PassesAs;
    assert SourceInv(pat, cfg, h, s, source);
    var g := s.sources[source];
    if g.pending.Some? {
      a := Offer(source);
    } else if g.at < |g.subs| {
      var d := PassesTotal(pat, FindPipeline(cfg, g.subs[g.at]), source, g.event);
      a := TransformNext(source, d);
    } else {
      a := Finish(source);
    }
  }

  // ---- Reachable states ----

  ghost predicate CanRun(pat: Patterns, cfg: Config, s: State, run: seq<Action>)
    decreases |run|
  {
    run != [] ==> Enabled(pat, cfg, s, run[0]) && CanRun(pat, cfg, Next(pat, cfg, s, run[0]), run[1..])
  }

  ghost function After(pat: Patterns, cfg: Config, s: State, run: seq<Action>): State
    requires CanRun(pat, cfg, s, run)
    decreases |run|
  {
    if run == [] then s else After(pat, cfg, Next(pat, cfg, s, run[0]), run[1..])
  }

  lemma {:induction false} RunInv(pat: Patterns, cfg: Config, h: seq<Action>, s: State, run: seq<Action>)
    requires DistinctNames(cfg) && Inv(pat, cfg, h, s) && CanRun(pat, cfg, s, run)
    ensures Inv(pat, cfg, h + run, After(pat, cfg, s, run))
    decreases |run|
  {
    hide Inv, Enabled, Next, DistinctNames;
    if run == [] {
      assert h + run == h;
    } else {
      StepInv(pat, cfg, h, s, run[0]);
      RunInv(pat, cfg, h + [run[0]], Next(pat, cfg, s, run[0]), run[1..]);
      assert h + [run[0]] + run[1..] == h + run;
    }
  }

  lemma ReachedInv(pat: Patterns, cfg: Config, s0: State, run: seq<Action>)
    requires DistinctNames(cfg) && Initial(cfg, s0) && CanRun(pat, cfg, s0, run)
    ensures Inv(pat, cfg, run, After(pat, cfg, s0, run))
  {
    hide Inv, DistinctNames, Initial;
    InitialInv(pat, cfg, s0);
    RunInv(pat, cfg, [], s0, run);
    assert [] + run == run;
  }

  /** In every reachable state, for each pipeline, sink and source: the pipeline was given exactly
      the events received from the source, in order, once for each of its subscriptions and as
      far as the goroutine has got, and passed on what its transformations may make of them; all
      of that has been offered to the sink, in order, or is in flight; offers are queued or
      dropped; queued events are still there or taken; taken ones are published, failed to
      publish, filtered, failed to transform or in hand; the queue never exceeds its capacity;
      and what was queued is an ordered subsequence of what was passed on. */
  lemma Conservation(pat: Patterns, cfg: Config, s0: State, run: seq<Action>, pl: Pipeline, i: nat, source: string)
    requires DistinctNames(cfg) && Initial(cfg, s0) && CanRun(pat, cfg, s0, run)
    requires pl in cfg && i < |pl.sinks|
    ensures var s := After(pat, cfg, s0, run);
            var key, served := (pl.name, pl.sinks[i].name), ServedBy(s, source, pl.name);
            && Events(served) == DueSoFar(Arrivals(run, source), s, source, pl.name)
            && Outcomes(pat, Some(pl), source, served)
            && key in s.queues
            && var q := s.queues[key];
               && Passing(served) == OfferedBy(q.log, source) + InFlight(s, source, pl.name, i)
               && |AllOffered(q.log)| == |Queued(q.log)| + Dropped(q.log)
               && |Queued(q.log)| == |q.items| + Taken(q.log)
               && Taken(q.log) == q.published + q.publishErrors + q.filtered + q.failed + |q.hands|
               && |q.items| <= 100
               && Subsequence(Queued(q.log), AllOffered(q.log))
               && Subsequence(QueuedFrom(q.log, source), OfferedBy(q.log, source))
  {
    hide Queued, AllOffered, OfferedBy, QueuedFrom, WellLogged, PassesAs, Subsequence, Passing, Events, DueSoFar, Initial,
      DistinctNames, InFlight, CanRun, After;
    ReachedInv(pat, cfg, s0, run);
    var s := After(pat, cfg, s0, run);
    FindIsUnique(cfg, pl);
    assert SourceInv(pat, cfg, run, s, source) && ServedInv(pat, cfg, run, s, source, pl.name);
    assert FlowInv(s, source, pl, i);
    var q := s.queues[(pl.name, pl.sinks[i].name)];
    LogCounts(q.log);
    QueuedIsSubsequence(q.log);
    QueuedFromIsSubsequence(q.log, source);
  }

  // ---- The counters of a queue count what became of the events taken ----

  datatype Fate = Published | Unpublished | Filtered | Refused

  /** How a completed event ended: passed by the sink's transformations and published or not, dropped, or
      failed by them. */
  function FateOf(result: Outcome<Payload>, published: bool): Fate {
    match result
    case Keep(_) => if published then Published else Unpublished
    case Skip => Filtered
    case Failed => Refused
  }

  function Tally(h: seq<Action>, key: Key, fate: Fate): nat
    decreases |h|
  {
    if h == [] then 0
    else
      var last := h[|h| - 1];
      Tally(h[..|h| - 1], key, fate)
      + (if last.Complete? && last.key == key && FateOf(last.result, last.publishedOk) == fate then 1 else 0)
  }

  ghost predicate Tallied(h: seq<Action>, s: State) {
    forall key | key in s.queues ::
      && s.queues[key].published == Tally(h, key, Published) && s.queues[key].publishErrors == Tally(h, key, Unpublished)
      && s.queues[key].filtered == Tally(h, key, Filtered) && s.queues[key].failed == Tally(h, key, Refused)
  }

  predicate SameCounters(q: Queue, q1: Queue) {
    q1.published == q.published && q1.publishErrors == q.publishErrors && q1.filtered == q.filtered && q1.failed == q.failed
  }

  lemma OthersKeepCounters(pat: Patterns, cfg: Config, s: State, a: Action)
    requires Enabled(pat, cfg, s, a) && !a.Complete?
    ensures var s1 := Next(pat, cfg, s, a);
            s1.queues.Keys == s.queues.Keys && forall key | key in s.queues :: SameCounters(s.queues[key], s1.queues[key])
  {
    hide FindPipeline, PassesAs, SinkKey;
  }

  lemma TallySnoc(h: seq<Action>, a: Action, key: Key, fate: Fate)
    ensures Tally(h + [a], key, fate)
            == Tally(h, key, fate)
               + (if a.Complete? && a.key == key && FateOf(a.result, a.publishedOk) == fate then 1 else 0)
  {
    assert (h + [a])[..|h|] == h;
  }

  lemma CompleteTallied(pat: Patterns, cfg: Config, h: seq<Action>, s: State, a: Action)
    requires Tallied(h, s) && a.Complete? && Enabled(pat, cfg, s, a)
    ensures Tallied(h + [a], Next(pat, cfg, s, a))
  {
    hide PassesAs, FindPipeline, ApplyGives, Tally;
    forall key, fate
      ensures Tally(h + [a], key, fate)
              == Tally(h, key, fate) + (if a.key == key && FateOf(a.result, a.publishedOk) == fate then 1 else 0)
    {
      TallySnoc(h, a, key, fate);
    }
  }

  lemma StepTallied(pat: Patterns, cfg: Config, h: seq<Action>, s: State, a: Action)
    requires Tallied(h, s) && Enabled(pat, cfg, s, a)
    ensures Tallied(h + [a], Next(pat, cfg, s, a))
  {
    if a.Complete? {
      CompleteTallied(pat, cfg, h, s, a);
    } else {
      OthersKeepCounters(pat, cfg, s, a);
      hide Next, Enabled, Tally;
      forall key, fate
        ensures Tally(h + [a], key, fate) == Tally(h, key, fate)
      {
        TallySnoc(h, a, key, fate);
      }
    }
  }

  lemma {:induction false} RunTallied(pat: Patterns, cfg: Config, h: seq<Action>, s: State, run: seq<Action>)
    requires Tallied(h, s) && CanRun(pat, cfg, s, run)
    ensures Tallied(h + run, After(pat, cfg, s, run))
    decreases |run|
  {
    hide Tallied, Enabled, Next;
    if run == [] {
      assert h + run == h;
    } else {
      StepTallied(pat, cfg, h, s, run[0]);
      RunTallied(pat, cfg, h + [run[0]], Next(pat, cfg, s, run[0]), run[1..]);
      assert h + [run[0]] + run[1..] == h + run;
    }
  }

  /** In every reachable state the counters of each queue are the numbers of its events that ended each
      way. */
  lemma CountersCount(pat: Patterns, cfg: Config, s0: State, run: seq<Action>)
    requires Initial(cfg, s0) && CanRun(pat, cfg, s0, run)
    ensures Tallied(run, After(pat, cfg, s0, run))
  {
    assert Tallied([], s0);
    hide Tallied, Initial;
    RunTallied(pat, cfg, [], s0, run);
    assert [] + run == run;
  }

  /** An event a consumer completes went through the transformations of its own sink, the first of that
      name in the first pipeline of its name. */
  lemma CompletedByItsSink(pat: Patterns, cfg: Config, s: State, a: Action, pl: Pipeline, i: nat)
    requires a.Complete? && Enabled(pat, cfg, s, a) && DistinctNames(cfg) && pl in cfg && i < |pl.sinks|
    requires a.key == (pl.name, pl.sinks[i].name)
    ensures ApplyGives(pat, pl.sinks[i].transformations, s.queues[a.key].hands[a.consumer], a.result)
  {
    hide ApplyGives;
    FindIsUnique(cfg, pl);
    assert DistinctSinks(pl);
    FindsFirstSink(pl.sinks, pl.sinks[i].name, i);
  }

  // ---- The steps of a goroutine against the loop over subscriptions ----

  predicate OwnStep(a: Action, source: string) {
    (a.TransformNext? || a.Offer? || a.Finish?) && a.source == source
  }

  /** What the pipelines passed on in a run. */
  function OutcomesOf(run: seq<Action>): seq<Option<Payload>>
    decreases |run|
  {
    if run == [] then [] else (if run[0].TransformNext? then [run[0].outcome] else []) + OutcomesOf(run[1..])
  }

  /** The outcomes are ones the subscribed pipelines may have for the event. */
  ghost predicate PassedOn(
    pat: Patterns, cfg: Config, source: string, event: Payload, subs: seq<string>, ds: seq<Option<Payload>>)
  {
    |ds| <= |subs| && forall i | 0 <= i < |ds| :: PassesAs(pat, FindPipeline(cfg, subs[i]), source, event, ds[i])
  }

  /** A channel in the middle of the loop: the subscriptions before the current one have been
      served, and of the current one the sinks that the goroutine is past. */
  function ItemsSoFar(cfg: Config, g: Goroutine, ds: seq<Option<Payload>>, key: Key, items: seq<Payload>): seq<Payload>
    requires g.Busy? && |ds| == Progress(g) <= |g.subs|
  {
    var before := AfterServing(cfg, g.subs[..g.at], ds[..g.at], key, items);
    match g.pending
    case None => before
    case Some(d) => AfterOffers(before, d.payload, KeyCount(cfg, g.subs[g.at], d.next, key))
  }

  /** The goroutine has come this far with the event, from the given queues. */
  ghost predicate SoFar(
    cfg: Config, queues: map<Key, Queue>, s: State, source: string, event: Payload, subs: seq<string>,
    ds: seq<Option<Payload>>)
  {
    && IsBusy(s, source) && s.queues.Keys == queues.Keys
    && var g := s.sources[source];
       && g.event == event && g.subs == subs && |ds| == Progress(g) <= |subs|
       && (g.pending.Some? ==> ds[g.at] == Some(g.pending.value.payload))
       && forall key | key in queues :: s.queues[key].items == ItemsSoFar(cfg, g, ds, key, queues[key].items)
  }

  lemma ServingSnoc(cfg: Config, subs: seq<string>, ds: seq<Option<Payload>>, n: nat, key: Key, items: seq<Payload>)
    requires n < |subs| && n < |ds|
    ensures AfterServing(cfg, subs[..n + 1], ds[..n + 1], key, items)
            == AfterOne(cfg, subs[n], ds[n], key, AfterServing(cfg, subs[..n], ds[..n], key, items))
  {
    assert subs[..n + 1][..n] == subs[..n] && ds[..n + 1][..n] == ds[..n];
  }

  lemma TransformSoFar(
    cfg: Config, queues: map<Key, Queue>, s: State, source: string, event: Payload, subs: seq<string>,
    ds: seq<Option<Payload>>, d: Option<Payload>)
    requires SoFar(cfg, queues, s, source, event, subs, ds) && CanTransform(s, source)
    ensures SoFar(cfg, queues, AfterTransform(s, source, d), source, event, subs, ds + [d])
  {
    hide AfterServing, KeyCount, SinksOf;
    var g := s.sources[source];
    var g1 := AfterTransform(s, source, d).sources[source];
    assert (ds + [d])[..g.at] == ds[..g.at] == ds && g.subs[..g.at] == subs[..g.at];
    forall key | key in queues
      ensures ItemsSoFar(cfg, g1, ds + [d], key, queues[key].items) == ItemsSoFar(cfg, g, ds, key, queues[key].items)
    {
      if d.None? {
        ServingSnoc(cfg, subs, ds + [d], g.at, key, queues[key].items);
      } else {
        NoSinksYet(cfg, subs[g.at], key);
      }
    }
  }

  lemma NoSinksYet(cfg: Config, name: string, key: Key)
    ensures KeyCount(cfg, name, 0, key) == 0
  {
  }

  /** One more sink, or all of them. */
  lemma KeyCountSnoc(cfg: Config, g: Goroutine, key: Key)
    requires g.Busy? && g.pending.Some? && g.at < |g.subs|
    ensures var name, next := g.subs[g.at], g.pending.value.next;
            match SinkKey(cfg, g)
            case Some(k) => KeyCount(cfg, name, next + 1, key) == KeyCount(cfg, name, next, key) + (if k == key then 1 else 0)
            case None => KeyCount(cfg, name, SinksOf(cfg, name), key) == KeyCount(cfg, name, next, key)
  {
  }

  lemma OfferSoFar(
    cfg: Config, queues: map<Key, Queue>, s: State, source: string, event: Payload, subs: seq<string>,
    ds: seq<Option<Payload>>)
    requires SoFar(cfg, queues, s, source, event, subs, ds) && CanOffer(s, source)
    ensures SoFar(cfg, queues, AfterOfferStep(cfg, s, source), source, event, subs, ds)
  {
    hide AfterServing, KeyCount, SinksOf, SinkKey, AfterOffer;
    var g := s.sources[source];
    var s1 := AfterOfferStep(cfg, s, source);
    forall key | key in queues
      ensures s1.queues[key].items == ItemsSoFar(cfg, s1.sources[source], ds, key, queues[key].items)
    {
      KeyCountSnoc(cfg, g, key);
      if SinkKey(cfg, g).None? { ServingSnoc(cfg, subs, ds, g.at, key, queues[key].items); }
    }
  }

  /** The rest of a goroutine's steps on an event, from the middle of the loop. */
  lemma {:induction false} StepsFinishServing(
    pat: Patterns, cfg: Config, queues: map<Key, Queue>, s: State, run: seq<Action>, source: string, event: Payload,
    subs: seq<string>, ds: seq<Option<Payload>>)
    requires CanRun(pat, cfg, s, run) && forall a | a in run :: OwnStep(a, source)
    requires SoFar(cfg, queues, s, source, event, subs, ds) && PassedOn(pat, cfg, source, event, subs, ds)
    requires !IsBusy(After(pat, cfg, s, run), source)
    ensures var all, end := ds + OutcomesOf(run), After(pat, cfg, s, run);
            && |all| == |subs| && PassedOn(pat, cfg, source, event, subs, all) && end.queues.Keys == queues.Keys
            && forall key | key in queues :: end.queues[key].items == AfterServing(cfg, subs, all, key, queues[key].items)
    decreases |run|
  {
    hide PassesAs, FindPipeline, ItemsSoFar, AfterServing, AfterTransform, AfterOfferStep;
    var a, rest := run[0], run[1..];
    assert a in run && forall b | b in rest :: b in run;
    if a.TransformNext? {
      TransformSoFar(cfg, queues, s, source, event, subs, ds, a.outcome);
      StepsFinishServing(pat, cfg, queues, AfterTransform(s, source, a.outcome), rest, source, event, subs, ds + [a.outcome]);
      Associative(ds, [a.outcome], OutcomesOf(rest));
    } else if a.Offer? {
      OfferSoFar(cfg, queues, s, source, event, subs, ds);
      StepsFinishServing(pat, cfg, queues, AfterOfferStep(cfg, s, source), rest, source, event, subs, ds);
      assert [] + OutcomesOf(rest) == OutcomesOf(rest);
    } else {
      NothingAfterFinish(pat, cfg, s, run, source);
      FinishServes(cfg, queues, s, source, event, subs, ds);
      assert [] + OutcomesOf([]) == [] && ds + [] == ds;
    }
  }

  lemma NothingAfterFinish(pat: Patterns, cfg: Config, s: State, run: seq<Action>, source: string)
    requires CanRun(pat, cfg, s, run) && run != [] && run[0] == Finish(source)
    requires forall a | a in run :: OwnStep(a, source)
    ensures run[1..] == []
  {
    hide Enabled;
    assert forall a | a in run[1..] :: a in run;
    OwnStepsNeedBusy(pat, cfg, Next(pat, cfg, s, run[0]), run[1..], source);
  }

  lemma OwnStepsNeedBusy(pat: Patterns, cfg: Config, s: State, run: seq<Action>, source: string)
    requires CanRun(pat, cfg, s, run) && forall a | a in run :: OwnStep(a, source)
    ensures run == [] || IsBusy(s, source)
  {
    if run != [] { assert run[0] in run; }
  }

  lemma FinishServes(
    cfg: Config, queues: map<Key, Queue>, s: State, source: string, event: Payload, subs: seq<string>,
    ds: seq<Option<Payload>>)
    requires SoFar(cfg, queues, s, source, event, subs, ds)
    requires s.sources[source].pending.None? && s.sources[source].at >= |subs|
    ensures |ds| == |subs|
    ensures forall key | key in queues :: s.queues[key].items == AfterServing(cfg, subs, ds, key, queues[key].items)
  {
    hide AfterServing;
    assert ds[..|ds|] == ds && subs[..|subs|] == subs;
  }

  /** A goroutine that goes through an event by itself leaves in every queue what the loop over the
      subscriptions leaves there, for the outcomes of its steps. */
  lemma StepsAreFanOut(
    pat: Patterns, cfg: Config, s: State, run: seq<Action>, source: string, event: Payload, subs: seq<string>)
    requires source in s.sources && s.sources[source] == Busy(event, subs, 0, None)
    requires CanRun(pat, cfg, s, run) && forall a | a in run :: OwnStep(a, source)
    requires !IsBusy(After(pat, cfg, s, run), source)
    ensures var ds, end := OutcomesOf(run), After(pat, cfg, s, run);
            && |ds| == |subs| && PassedOn(pat, cfg, source, event, subs, ds) && end.queues.Keys == s.queues.Keys
            && forall key | key in s.queues ::
                 end.queues[key].items == AfterServing(cfg, subs, ds, key, s.queues[key].items)
  {
    hide PassesAs, FindPipeline;
    assert SoFar(cfg, s.queues, s, source, event, subs, []);
    StepsFinishServing(pat, cfg, s.queues, s, run, source, event, subs, []);
    assert [] + OutcomesOf(run) == OutcomesOf(run);
  }

  /** Whatever outcomes the loop over the subscriptions may have, a goroutine can take the steps
      that have them, to the end of the event. */
  lemma {:induction false} FanOutIsSteps(
    pat: Patterns, cfg: Config, s: State, source: string, ds: seq<Option<Payload>>) returns (run: seq<Action>)
    requires IsBusy(s, source) && Progress(s.sources[source]) <= |ds| == |s.sources[source].subs|
    requires PassedOn(pat, cfg, source, s.sources[source].event, s.sources[source].subs, ds)
    ensures CanRun(pat, cfg, s, run) && forall a | a in run :: OwnStep(a, source)
    ensures !IsBusy(After(pat, cfg, s, run), source)
    ensures OutcomesOf(run) == ds[Progress(s.sources[source])..]
    decreases |ds| - Progress(s.sources[source]), WorkLeft(cfg, s.sources[source]).0, WorkLeft(cfg, s.sources[source]).1
  {
    hide PassesAs, FindPipeline, AfterTransform, AfterOfferStep, WorkLeft, CanRun, After, OutcomesOf, OwnStep;
    var g := s.sources[source];
    var n := Progress(g);
    var rest := [];
    if g.pending.Some? {
      OfferShrinks(cfg, s, source);
      rest := FanOutIsSteps(pat, cfg, AfterOfferStep(cfg, s, source), source, ds);
      run := [Offer(source)] + rest;
    } else if g.at < |g.subs| {
      TransformMovesOn(s, source, ds[n]);
      rest := FanOutIsSteps(pat, cfg, AfterTransform(s, source, ds[n]), source, ds);
      run := [TransformNext(source, ds[n])] + rest;
      assert [ds[n]] + ds[n + 1..] == ds[n..];
    } else {
      EmptyRun(pat, cfg, WithGoroutine(s, source, Idle));
      run := [Finish(source)] + rest;
    }
    RunCons(pat, cfg, s, run[0], rest, source);
  }

  lemma EmptyRun(pat: Patterns, cfg: Config, s: State)
    ensures CanRun(pat, cfg, s, []) && After(pat, cfg, s, []) == s && OutcomesOf([]) == []
  {
  }

  lemma RunCons(pat: Patterns, cfg: Config, s: State, a: Action, rest: seq<Action>, source: string)
    requires Enabled(pat, cfg, s, a) && CanRun(pat, cfg, Next(pat, cfg, s, a), rest)
    requires (a.TransformNext? || a.Offer? || a.Finish?) && a.source == source && forall b | b in rest :: OwnStep(b, source)
    ensures CanRun(pat, cfg, s, [a] + rest) && forall b | b in [a] + rest :: OwnStep(b, source)
    ensures After(pat, cfg, s, [a] + rest) == After(pat, cfg, Next(pat, cfg, s, a), rest)
    ensures OutcomesOf([a] + rest) == (if a.TransformNext? then [a.outcome] else []) + OutcomesOf(rest)
  {
    hide Enabled, Next;
    assert ([a] + rest)[0] == a && ([a] + rest)[1..] == rest;
  }

  lemma TransformMovesOn(s: State, source: string, d: Option<Payload>)
    requires CanTransform(s, source)
    ensures var g, s1 := s.sources[source], AfterTransform(s, source, d);
            && IsBusy(s1, source)
            && var g1 := s1.sources[source];
               g1.subs == g.subs && g1.event == g.event && Progress(g1) == Progress(g) + 1
  {
  }

  lemma OfferShrinks(cfg: Config, s: State, source: string)
    requires CanOffer(s, source)
    ensures var g, g1 := s.sources[source], AfterOfferStep(cfg, s, source).sources[source];
            && IsBusy(AfterOfferStep(cfg, s, source), source)
            && g1.subs == g.subs && g1.event == g.event && Progress(g1) == Progress(g)
            && Shrinks(WorkLeft(cfg, g), WorkLeft(cfg, g1))
  {
    hide FindPipeline, Offer1;
  }

  // ---- Non-interference ----

  /** What a pipeline has to be given by the end of a run: its inputs, fixed by what was received
      and subscribed. */
  function Inputs(run: seq<Action>, source: string, name: string): seq<Payload> { Due(Arrivals(run, source), name) }

  predicate Comparable<T(==)>(a: seq<T>, b: seq<T>) { a <= b || b <= a }

  /** The order in which sources offer to a queue and consumers take from it, without what is
      offered and whether there is room. */
  datatype Turn = OfferFrom(source: string) | Receipt

  function Schedule(log: seq<Entry>): (r: seq<Turn>)
    ensures |r| == |log|
  {
    seq(|log|, i requires 0 <= i < |log| => if log[i].Offered? then OfferFrom(log[i].source) else Receipt)
  }

  /** The same without what the pipeline made of the events: which event was offered by which
      source, and whether it was queued or dropped. */
  datatype Shape = Arrived(source: string, raw: Payload, accepted: bool) | Received

  function Shapes(log: seq<Entry>): (r: seq<Shape>)
    ensures |r| == |log|
  {
    seq(|log|, i requires 0 <= i < |log| => ShapeOf(log[i]))
  }

  function ShapeOf(e: Entry): Shape {
    match e
    case Offered(source, raw, _, accepted) => Arrived(source, raw, accepted)
    case Took => Received
  }

  lemma ShapesSnoc(log: seq<Entry>)
    requires log != []
    ensures Shapes(log) == Shapes(log[..|log| - 1]) + [ShapeOf(log[|log| - 1])]
  {
    hide ShapeOf;
    assert log == log[..|log| - 1] + [log[|log| - 1]];
  }

  function Raws(offerings: seq<Offering>): (r: seq<Payload>)
    ensures |r| == |offerings|
  {
    seq(|offerings|, i requires 0 <= i < |offerings| => offerings[i].0)
  }

  ghost predicate Passable(pat: Patterns, pl: Pipeline, source: string, e: Payload) {
    exists q :: PassesAs(pat, Some(pl), source, e, Some(q))
  }

  /** The events that pass. */
  ghost function Kept(pat: Patterns, pl: Pipeline, source: string, es: seq<Payload>): seq<Payload>
    decreases |es|
  {
    if es == [] then []
    else
      var last := es[|es| - 1];
      Kept(pat, pl, source, es[..|es| - 1]) + (if Passable(pat, pl, source, last) then [last] else [])
  }

  lemma {:induction false} KeptPrefix(pat: Patterns, pl: Pipeline, source: string, a: seq<Payload>, b: seq<Payload>)
    requires a <= b
    ensures Kept(pat, pl, source, a) <= Kept(pat, pl, source, b)
    decreases |b|
  {
    hide Passable;
    if |a| == |b| {
      assert a == b;
    } else {
      KeptPrefix(pat, pl, source, a, b[..|b| - 1]);
    }
  }

  /** Which events pass is fixed by the events. */
  lemma {:induction false} PassingRaws(pat: Patterns, pl: Pipeline, source: string, served: seq<Served>)
    requires Outcomes(pat, Some(pl), source, served)
    ensures Raws(Passing(served)) == Kept(pat, pl, source, Events(served))
    decreases |served|
  {
    hide PassesAs;
    if served != [] {
      var n := |served| - 1;
      var before, last := served[..n], served[n];
      assert Outcomes(pat, Some(pl), source, before);
      PassingRaws(pat, pl, source, before);
      assert Events(served)[..n] == Events(before) && Events(served)[n] == last.event;
      if Passable(pat, pl, source, last.event) {
        var q :| PassesAs(pat, Some(pl), source, last.event, Some(q));
        PassingIsFixed(pat, Some(pl), source, last.event, Some(q), last.outcome);
      }
      var now := if last.outcome.Some? then [(last.event, last.outcome.value)] else [];
      assert Raws(Passing(before) + now) == Raws(Passing(before)) + Raws(now);
      assert Raws(now) == if last.outcome.Some? then [last.event] else [];
    }
  }

  lemma {:induction false} CountPrefix(subs: seq<string>, p: nat, name: string)
    requires p <= |subs|
    ensures Count(subs[..p], name) <= Count(subs, name)
    decreases |subs|
  {
    if p == |subs| {
      assert subs[..p] == subs;
    } else {
      var n := |subs| - 1;
      assert subs[..n][..p] == subs[..p];
      CountPrefix(subs[..n], p, name);
    }
  }

  /** What is due so far is the beginning of the inputs. */
  lemma DuePrefix(run: seq<Action>, s: State, source: string, name: string)
    requires GoroutineInv(run, s, source)
    ensures DueSoFar(Arrivals(run, source), s, source, name) <= Inputs(run, source, name)
  {
    var arrivals := Arrivals(run, source);
    if arrivals != [] && IsBusy(s, source) {
      var g := s.sources[source];
      CountPrefix(g.subs, Progress(g), name);
      DueOfLast(arrivals, name);
      var n, m := Count(g.subs[..Progress(g)], name), Count(g.subs, name);
      assert Repeated(g.event, m) == Repeated(g.event, n) + Repeated(g.event, m - n);
    }
  }

  /** What a source offered to a queue comes from its inputs: the events that pass, in order. */
  lemma OfferedFromInputs(pat: Patterns, cfg: Config, run: seq<Action>, s: State, pl: Pipeline, i: nat, source: string)
    requires DistinctNames(cfg) && Inv(pat, cfg, run, s) && pl in cfg && i < |pl.sinks|
    ensures var key := (pl.name, pl.sinks[i].name);
            && key in s.queues
            && var offered := OfferedBy(s.queues[key].log, source);
               && Raws(offered) <= Kept(pat, pl, source, Inputs(run, source, pl.name))
               && AreImages(pat, pl, source, Inputs(run, source, pl.name), offered)
  {
    hide PassesAs, OfferedBy, Passing, Kept, Events, DueSoFar, Inputs, DistinctNames, QueueInv, IsSink, Outcomes, InFlight;
    FindIsUnique(cfg, pl);
    assert SourceInv(pat, cfg, run, s, source) && ServedInv(pat, cfg, run, s, source, pl.name);
    assert FlowInv(s, source, pl, i);
    var served := ServedBy(s, source, pl.name);
    var offered := OfferedBy(s.queues[(pl.name, pl.sinks[i].name)].log, source);
    DuePrefix(run, s, source, pl.name);
    PassingRaws(pat, pl, source, served);
    KeptPrefix(pat, pl, source, Events(served), Inputs(run, source, pl.name));
    assert Raws(offered) <= Raws(Passing(served));
    PassingImages(pat, pl, source, served, Inputs(run, source, pl.name));
    assert forall j | 0 <= j < |offered| :: offered[j] == Passing(served)[j];
  }

  ghost predicate AreImages(pat: Patterns, pl: Pipeline, source: string, inputs: seq<Payload>, offered: seq<Offering>) {
    forall j | 0 <= j < |offered| ::
      offered[j].0 in inputs && PassesAs(pat, Some(pl), source, offered[j].0, Some(offered[j].1))
  }

  lemma {:induction false} PassingImages(
    pat: Patterns, pl: Pipeline, source: string, served: seq<Served>, inputs: seq<Payload>)
    requires Outcomes(pat, Some(pl), source, served) && Events(served) <= inputs
    ensures AreImages(pat, pl, source, inputs, Passing(served))
    decreases |served|
  {
    hide PassesAs;
    if served != [] {
      var n := |served| - 1;
      var before := served[..n];
      assert Events(served)[n] == served[n].event && Events(served)[n] == inputs[n];
      assert Events(before) == Events(served)[..n];
      assert Outcomes(pat, Some(pl), source, before);
      PassingImages(pat, pl, source, before, inputs);
    }
  }

  lemma EqualPrefixes<T>(a: seq<T>, b: seq<T>, x: seq<T>, y: seq<T>)
    requires a <= x && b <= y && (x <= y || y <= x) && |a| == |b|
    ensures a == b
  {
    assert forall i | 0 <= i < |a| :: a[i] == x[i] && b[i] == y[i] && x[i] == y[i];
  }

  lemma ScheduleInit(a: seq<Entry>, b: seq<Entry>)
    requires Schedule(a) == Schedule(b) && a != []
    ensures |a| == |b| && Schedule(a[..|a| - 1]) == Schedule(b[..|b| - 1])
    ensures a[|a| - 1].Offered? == b[|b| - 1].Offered?
    ensures a[|a| - 1].Offered? ==> a[|a| - 1].source == b[|b| - 1].source
  {
    assert |a| == |Schedule(a)| == |Schedule(b)| == |b|;
    var n := |a| - 1;
    assert Schedule(a)[n] == Schedule(b)[n];
    assert Schedule(a[..n]) == Schedule(a)[..n] && Schedule(b[..n]) == Schedule(b)[..n];
  }

  lemma {:induction false} SameCounts(a: seq<Entry>, b: seq<Entry>, source: string)
    requires Schedule(a) == Schedule(b)
    ensures |OfferedBy(a, source)| == |OfferedBy(b, source)|
    decreases |a|
  {
    hide Schedule;
    if a == [] {
      assert |b| == |Schedule(b)| == |Schedule(a)| == 0;
    } else {
      ScheduleInit(a, b);
      SameCounts(a[..|a| - 1], b[..|b| - 1], source);
    }
  }

  /** Two logs with the same schedule and the same events from every source drop and queue the
      same ones. */
  lemma {:induction false} SameShapes(a: seq<Entry>, b: seq<Entry>)
    requires Schedule(a) == Schedule(b) && WellLogged(a) && WellLogged(b)
    requires forall source :: Raws(OfferedBy(a, source)) == Raws(OfferedBy(b, source))
    ensures Shapes(a) == Shapes(b) && |Queued(a)| == |Queued(b)| && Taken(a) == Taken(b)
    decreases |a|
  {
    hide Schedule, OfferedBy;
    if a == [] {
      assert |b| == |Schedule(b)| == |Schedule(a)| == 0;
    } else {
      ScheduleInit(a, b);
      var n := |a| - 1;
      var a0, b0, x, y := a[..n], b[..n], a[n], b[n];
      forall source
        ensures Raws(OfferedBy(a0, source)) == Raws(OfferedBy(b0, source))
        ensures x.Offered? && x.source == source ==> x.raw == y.raw
      {
        LastOffering(a, source);
        LastOffering(b, source);
        SameCounts(a0, b0, source);
        SameInit(Raws(OfferedBy(a0, source)), Raws(OfferedBy(b0, source)),
                 Raws(OfferingOf(x, source)), Raws(OfferingOf(y, source)));
        SameLastOffering(x, y, source);
      }
      hide OfferingOf, Raws;
      SameShapes(a0, b0);
      assert x.Offered? ==> Raws(OfferedBy(a0, x.source)) == Raws(OfferedBy(b0, x.source)) && x.raw == y.raw;
      SameLastShape(a, b);
    }
  }

  lemma SameLastShape(a: seq<Entry>, b: seq<Entry>)
    requires a != [] && |a| == |b| && WellLogged(a) && WellLogged(b)
    requires var n := |a| - 1;
             && Shapes(a[..n]) == Shapes(b[..n])
             && |Queued(a[..n])| == |Queued(b[..n])| && Taken(a[..n]) == Taken(b[..n])
             && a[n].Offered? == b[n].Offered?
             && (a[n].Offered? ==> a[n].source == b[n].source && a[n].raw == b[n].raw)
    ensures Shapes(a) == Shapes(b) && |Queued(a)| == |Queued(b)| && Taken(a) == Taken(b)
  {
    hide Shapes;
    ShapesSnoc(a);
    ShapesSnoc(b);
  }

  lemma LastOffering(log: seq<Entry>, source: string)
    requires log != []
    ensures OfferedBy(log, source) == OfferedBy(log[..|log| - 1], source) + OfferingOf(log[|log| - 1], source)
    ensures Raws(OfferedBy(log, source))
            == Raws(OfferedBy(log[..|log| - 1], source)) + Raws(OfferingOf(log[|log| - 1], source))
  {
  }

  lemma SameLastOffering(x: Entry, y: Entry, source: string)
    requires x.Offered? == y.Offered? && (x.Offered? ==> x.source == y.source)
    ensures Raws(OfferingOf(x, source)) == Raws(OfferingOf(y, source)) && x.Offered? && x.source == source ==> x.raw == y.raw
    ensures OfferingOf(x, source) == OfferingOf(y, source) && x.Offered? && x.source == source ==> x.payload == y.payload
  {
    if x.Offered? && x.source == source {
      assert Raws(OfferingOf(x, source))[0] == x.raw && Raws(OfferingOf(y, source))[0] == y.raw;
      assert OfferingOf(x, source)[0].1 == x.payload && OfferingOf(y, source)[0].1 == y.payload;
    }
  }

  lemma SameInit<T>(a: seq<T>, b: seq<T>, x: seq<T>, y: seq<T>)
    requires |a| == |b| && a + x == b + y
    ensures a == b && x == y
  {
    assert a == (a + x)[..|a|] && b == (b + y)[..|b|];
    assert x == (a + x)[|a|..] && y == (b + y)[|b|..];
  }

  /** The same with what was offered. */
  lemma {:induction false} SameLogs(a: seq<Entry>, b: seq<Entry>)
    requires Shapes(a) == Shapes(b) && Schedule(a) == Schedule(b)
    requires forall source :: OfferedBy(a, source) == OfferedBy(b, source)
    ensures a == b
    decreases |a|
  {
    hide Schedule, OfferedBy;
    assert |a| == |Shapes(a)| == |Shapes(b)| == |b|;
    if a != [] {
      ScheduleInit(a, b);
      var n := |a| - 1;
      var a0, b0, x, y := a[..n], b[..n], a[n], b[n];
      assert Shapes(a0) == Shapes(a)[..n] && Shapes(b0) == Shapes(b)[..n] && Shapes(a)[n] == Shapes(b)[n];
      forall source
        ensures OfferedBy(a0, source) == OfferedBy(b0, source)
        ensures x.Offered? && x.source == source ==> x.payload == y.payload
      {
        LastOffering(a, source);
        LastOffering(b, source);
        SameCounts(a0, b0, source);
        SameInit(OfferedBy(a0, source), OfferedBy(b0, source), OfferingOf(x, source), OfferingOf(y, source));
        SameLastOffering(x, y, source);
      }
      SameLogs(a0, b0);
      if x.Offered? { assert OfferedBy(a0, x.source) == OfferedBy(b0, x.source); }
      assert a == a0 + [x] && b == b0 + [y] && x == y;
    }
  }

  lemma SameImages(
    pat: Patterns, pl: Pipeline, source: string, inputs: seq<Payload>, a: seq<Offering>, inputs1: seq<Payload>, b: seq<Offering>)
    requires AreImages(pat, pl, source, inputs, a) && AreImages(pat, pl, source, inputs1, b) && Raws(a) == Raws(b)
    requires forall e | e in inputs :: NoCollisions(pat, pl, source, e)
    ensures a == b
  {
    hide PassesAs, NoCollisions;
    assert |a| == |Raws(a)| == |Raws(b)| == |b|;
    forall j | 0 <= j < |a|
      ensures a[j] == b[j]
    {
      assert Raws(a)[j] == Raws(b)[j];
      PassingIsUnique(pat, pl, source, a[j].0, Some(a[j].1), Some(b[j].1));
    }
  }

  /** Two systems that both run a pipeline, whatever else they are configured with and whatever
      else happens in them. If the pipeline's sources received the same events under the same
      subscriptions of the pipeline, one system possibly more of them than the other, and the
      turns of offering to and taking from the queue of one of its sinks came in the same order,
      then the same events were offered there, and the same ones queued and dropped; and if no
      renaming makes two of their columns one, the queue was given, and holds, the same payloads. */
  lemma NonInterference(
    pat: Patterns, cfg1: Config, cfg2: Config, s1: State, s2: State, run1: seq<Action>, run2: seq<Action>,
    pl: Pipeline, i: nat)
    requires DistinctNames(cfg1) && Initial(cfg1, s1) && CanRun(pat, cfg1, s1, run1)
    requires DistinctNames(cfg2) && Initial(cfg2, s2) && CanRun(pat, cfg2, s2, run2)
    requires pl in cfg1 && pl in cfg2 && i < |pl.sinks|
    requires forall source :: Comparable(Inputs(run1, source, pl.name), Inputs(run2, source, pl.name))
    requires var key := (pl.name, pl.sinks[i].name);
             var e1, e2 := After(pat, cfg1, s1, run1), After(pat, cfg2, s2, run2);
             key in e1.queues && key in e2.queues ==> Schedule(e1.queues[key].log) == Schedule(e2.queues[key].log)
    ensures var key := (pl.name, pl.sinks[i].name);
            var e1, e2 := After(pat, cfg1, s1, run1), After(pat, cfg2, s2, run2);
            && key in e1.queues && key in e2.queues
            && var q1, q2 := e1.queues[key], e2.queues[key];
               && Shapes(q1.log) == Shapes(q2.log) && |q1.items| == |q2.items|
               && ((forall source, e | e in Inputs(run1, source, pl.name) :: NoCollisions(pat, pl, source, e)) ==>
                     q1.log == q2.log && q1.items == q2.items)
  {
    hide PassesAs, WellLogged, Schedule, Queued, Taken, Flows, DistinctNames, Initial, CanRun, After, Inputs, NoCollisions,
      SourceInv, IsSink, Shapes, OfferedBy, Comparable, AreImages, Kept;
    ReachedInv(pat, cfg1, s1, run1);
    ReachedInv(pat, cfg2, s2, run2);
    var e1, e2 := After(pat, cfg1, s1, run1), After(pat, cfg2, s2, run2);
    var key := (pl.name, pl.sinks[i].name);
    OfferedFromInputs(pat, cfg1, run1, e1, pl, i, "");
    OfferedFromInputs(pat, cfg2, run2, e2, pl, i, "");
    var log1, log2 := e1.queues[key].log, e2.queues[key].log;
    forall source
      ensures Raws(OfferedBy(log1, source)) == Raws(OfferedBy(log2, source))
    {
      SameOffers(pat, cfg1, cfg2, run1, run2, e1, e2, pl, i, source);
    }
    SameShapes(log1, log2);
    if forall source, e | e in Inputs(run1, source, pl.name) :: NoCollisions(pat, pl, source, e) {
      forall source
        ensures OfferedBy(log1, source) == OfferedBy(log2, source)
      {
        OfferedFromInputs(pat, cfg1, run1, e1, pl, i, source);
        OfferedFromInputs(pat, cfg2, run2, e2, pl, i, source);
        SameImages(pat, pl, source, Inputs(run1, source, pl.name), OfferedBy(log1, source),
                   Inputs(run2, source, pl.name), OfferedBy(log2, source));
      }
      SameLogs(log1, log2);
    }
  }

  lemma SameOffers(
    pat: Patterns, cfg1: Config, cfg2: Config, run1: seq<Action>, run2: seq<Action>, e1: State, e2: State,
    pl: Pipeline, i: nat, source: string)
    requires DistinctNames(cfg1) && Inv(pat, cfg1, run1, e1) && pl in cfg1
    requires DistinctNames(cfg2) && Inv(pat, cfg2, run2, e2) && pl in cfg2 && i < |pl.sinks|
    requires Comparable(Inputs(run1, source, pl.name), Inputs(run2, source, pl.name))
    requires var key := (pl.name, pl.sinks[i].name);
             key in e1.queues && key in e2.queues && Schedule(e1.queues[key].log) == Schedule(e2.queues[key].log)
    ensures var key := (pl.name, pl.sinks[i].name);
            Raws(OfferedBy(e1.queues[key].log, source)) == Raws(OfferedBy(e2.queues[key].log, source))
  {
    hide Inv, DistinctNames, Inputs, Schedule, OfferedBy, AreImages, Kept;
    OfferedFromInputs(pat, cfg1, run1, e1, pl, i, source);
    OfferedFromInputs(pat, cfg2, run2, e2, pl, i, source);
    var key := (pl.name, pl.sinks[i].name);
    var log1, log2 := e1.queues[key].log, e2.queues[key].log;
    var in1, in2 := Inputs(run1, source, pl.name), Inputs(run2, source, pl.name);
    if in1 <= in2 { KeptPrefix(pat, pl, source, in1, in2); } else { KeptPrefix(pat, pl, source, in2, in1); }
    SameCounts(log1, log2, source);
    EqualPrefixes(Raws(OfferedBy(log1, source)), Raws(OfferedBy(log2, source)),
                  Kept(pat, pl, source, in1), Kept(pat, pl, source, in2));
  }
}
