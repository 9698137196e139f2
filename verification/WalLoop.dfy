/** The replication loop of pkg/pglogrepl/stream.go: positions, status updates and the events
    it sends, against what a reader of the whole history of inputs would expect. */
module WalLoop {
  import opened Options
  import opened Text
  import opened Cdc

  /** What the parser makes of WAL data depends on whether a streamed transaction is open; None
      is a parse failure, which ends the process. */
  type Wal = bool -> Option<Message>

  datatype Received =
    | Timeout
    | Failure                        // any other receive error
    | NotCopyData
    | Keepalive(walEnd: nat)
    | XLogData(walStart: nat, wal: Wal)
    | Unparsable                     // a copy message that does not parse, or of another kind

  /** One turn of the loop: the clock at the check, the outcome and clock of a status update if
      one is due, and what is received. */
  datatype Turn = Turn(now: int, sendOk: bool, later: int, received: Received)

  datatype Output = Status(pos: nat) | Sent(event: Payload)

  /** nextStandby is the time of the next status update; running turns false when the loop ends. */
  datatype State = State(
    walPos: nat, nextStandby: int, relations: Relations, inStream: bool, out: seq<Output>, running: bool)

  function Max(a: nat, b: nat): nat { if b > a then b else a }

  function SendAll(events: seq<Payload>): (r: seq<Output>)
    ensures |r| == |events|
  {
    seq(|events|, i requires 0 <= i < |events| => Sent(events[i]))
  }

  /** The status update at the top of a turn. */
  function Report(s: State, t: Turn, interval: int): State {
    if t.now <= s.nextStandby then s
    else if t.sendOk then s.(nextStandby := t.later + interval, out := s.out + [Status(s.walPos)])
    else s.(out := s.out + [Status(s.walPos)], running := false)
  }

  /** The tuples of WAL data fit the relations known when it arrives. */
  predicate FitsTurn(s: State, t: Turn) {
    t.received.XLogData? && t.received.wal(s.inStream).Some? ==> Fits(s.relations, t.received.wal(s.inStream).value)
  }

  function Receive(s: State, r: Received, codec: Codec): State
    requires r.XLogData? && r.wal(s.inStream).Some? ==> Fits(s.relations, r.wal(s.inStream).value)
  {
    match r
    case Failure => s.(running := false)
    case Keepalive(end) => s.(walPos := Max(s.walPos, end))
    case XLogData(start, wal) =>
      var msg := wal(s.inStream);
      if msg.None? then s.(walPos := Max(s.walPos, start), running := false)
      else
        s.(walPos := Max(s.walPos, start),
           relations := RelationsAfter(s.relations, msg.value),
           inStream := InStreamAfter(s.inStream, msg.value),
           out := s.out + SendAll(EventsOf(codec, s.relations, msg.value)))
    case _ => s
  }

  function Step(s: State, t: Turn, codec: Codec, interval: int): State
    requires s.running ==> FitsTurn(s, t)
  {
    if !s.running then s
    else
      var reported := Report(s, t, interval);
      if reported.running then Receive(reported, t.received, codec) else reported
  }

  predicate FitsRun(s: State, turns: seq<Turn>, codec: Codec, interval: int)
    decreases |turns|, 0
  {
    turns != [] ==>
      var n := |turns| - 1;
      && FitsRun(s, turns[..n], codec, interval)
      && (Run(s, turns[..n], codec, interval).running ==> FitsTurn(Run(s, turns[..n], codec, interval), turns[n]))
  }

  /** The state after a sequence of turns. */
  function Run(s: State, turns: seq<Turn>, codec: Codec, interval: int): State
    requires FitsRun(s, turns, codec, interval)
    decreases |turns|, 1
  {
    if turns == [] then s
    else Step(Run(s, turns[..|turns| - 1], codec, interval), turns[|turns| - 1], codec, interval)
  }

  function Start(nextStandby: int): State { State(0, nextStandby, map[], false, [], true) }

  // ---- The source's loop ----

  class Streamer {
    var walPos: nat
    var nextStandby: int
    var out: seq<Output>   // status updates and events, in the order they leave
    var running: bool
    const processor: Processor
    const interval: int

    constructor (codec: Codec, now: int, interval: int)
      ensures Now() == Start(now + interval) && fresh(processor)
      ensures processor.codec == codec && this.interval == interval
    {
      walPos, nextStandby, out, running := 0, now + interval, [], true;
      this.interval := interval;
      processor := new Processor(codec);
    }

    ghost function Now(): State
      reads this, processor
    {
      State(walPos, nextStandby, processor.relations, processor.inStream, out, running)
    }

    /** streamEvents, over the turns it gets to take. */
    method Stream(turns: seq<Turn>)
      requires FitsRun(Now(), turns, processor.codec, interval)
      modifies this, processor
      ensures Now() == Run(old(Now()), turns, processor.codec, interval)
    {
      var i := 0;
      ghost var start := Now();
      while i < |turns| && running
        invariant 0 <= i <= |turns|
        invariant FitsRun(start, turns[..i], processor.codec, interval)
        invariant Now() == Run(start, turns[..i], processor.codec, interval)
      {
        FitsPrefix(start, turns, i + 1, processor.codec, interval);
        assert turns[..i + 1][..i] == turns[..i];
        TakeTurn(turns[i]);
        i := i + 1;
      }
      assert turns[..|turns|] == turns;
      if !running { StoppedStays(start, turns, i, processor.codec, interval); }
    }

    method TakeTurn(t: Turn)
      requires running && FitsTurn(Now(), t)
      modifies this, processor
      ensures Now() == Step(old(Now()), t, processor.codec, interval)
    {
      if t.now > nextStandby {
        out := out + [Status(walPos)];
        if !t.sendOk {
          running := false;
          return;
        }
        nextStandby := t.later + interval;
      }
      match t.received
      case Timeout =>
      case NotCopyData =>
      case Unparsable =>
      case Failure => running := false;
      case Keepalive(end) =>
        if end > walPos { walPos := end; }
      case XLogData(start, wal) =>
        if start > walPos { walPos := start; }
        var msg := wal(processor.inStream);
        if msg.None? {
          running := false;
          return;
        }
        var events := processor.Process(msg.value);
        SendEvents(events);
    }

    method SendEvents(events: seq<Payload>)
      modifies this`out
      ensures out == old(out) + SendAll(events)
    {
      for k := 0 to |events|
        invariant out == old(out) + SendAll(events)[..k]
      {
        out := out + [Sent(events[k])];
      }
      assert SendAll(events)[..|events|] == SendAll(events);
    }
  }

  lemma {:induction false} FitsPrefix(s: State, turns: seq<Turn>, i: nat, codec: Codec, interval: int)
    requires i <= |turns| && FitsRun(s, turns, codec, interval)
    ensures FitsRun(s, turns[..i], codec, interval)
    decreases |turns|
  {
    if i == |turns| {
      assert turns[..i] == turns;
    } else {
      var n := |turns| - 1;
      FitsPrefix(s, turns[..n], i, codec, interval);
      assert turns[..n][..i] == turns[..i];
    }
  }

  lemma {:induction false} StoppedStays(s: State, turns: seq<Turn>, i: nat, codec: Codec, interval: int)
    requires i <= |turns| && FitsRun(s, turns, codec, interval) && FitsRun(s, turns[..i], codec, interval)
    requires !Run(s, turns[..i], codec, interval).running
    ensures Run(s, turns, codec, interval) == Run(s, turns[..i], codec, interval)
    decreases |turns|
  {
    if i == |turns| {
      assert turns[..i] == turns;
    } else {
      var n := |turns| - 1;
      assert turns[..n][..i] == turns[..i];
      StoppedStays(s, turns[..n], i, codec, interval);
    }
  }

  // ---- What the history of inputs says ----

  /** The greatest position received, and 0 before any. */
  function GreatestPosition(turns: seq<Turn>): nat
    decreases |turns|
  {
    if turns == [] then 0
    else
      var earlier := GreatestPosition(turns[..|turns| - 1]);
      match turns[|turns| - 1].received
      case Keepalive(end) => Max(earlier, end)
      case XLogData(start, _) => Max(earlier, start)
      case _ => earlier
  }

  /** Whether a streamed transaction is open after the turns: the last start or stop decides. */
  function OpenStream(turns: seq<Turn>): bool
    decreases |turns|, 0
  {
    if turns == [] then false
    else
      var before := turns[..|turns| - 1];
      match MessageAt(turns, |turns| - 1)
      case None => OpenStream(before)
      case Some(msg) => InStreamAfter(OpenStream(before), msg)
  }

  /** The replication message of turn i, if there is one, parsed in the mode the turns before it
      leave. */
  function MessageAt(turns: seq<Turn>, i: nat): Option<Message>
    requires i < |turns|
    decreases i, 1
  {
    match turns[i].received
    case XLogData(_, wal) => wal(OpenStream(turns[..i]))
    case _ => None
  }

  /** The descriptions of relations in the history. */
  function Known(turns: seq<Turn>): Relations
    decreases |turns|
  {
    if turns == [] then map[]
    else
      var before := turns[..|turns| - 1];
      match MessageAt(turns, |turns| - 1)
      case None => Known(before)
      case Some(msg) => RelationsAfter(Known(before), msg)
  }

  /** The events of the turns, in order, each decoded under the descriptions before it. */
  function AllEvents(turns: seq<Turn>, codec: Codec): seq<Payload>
    decreases |turns|
  {
    if turns == [] then []
    else
      var before := turns[..|turns| - 1];
      match MessageAt(turns, |turns| - 1)
      case None => AllEvents(before, codec)
      case Some(msg) =>
        AllEvents(before, codec) + (if Fits(Known(before), msg) then EventsOf(codec, Known(before), msg) else [])
  }

  predicate DescribesAt(turns: seq<Turn>, i: nat, id: nat) {
    && i < |turns|
    && MessageAt(turns, i).Some? && MessageAt(turns, i).value.RelationMsg? && MessageAt(turns, i).value.id == id
  }

  /** rel is the latest description of relation id in the history. */
  predicate IsLatest(turns: seq<Turn>, id: nat, rel: Relation) {
    exists i: nat | i < |turns| ::
      && DescribesAt(turns, i, id) && MessageAt(turns, i).value.rel == rel
      && forall j: nat | i < j < |turns| :: !DescribesAt(turns, j, id)
  }

  predicate NeverDescribed(turns: seq<Turn>, id: nat) {
    forall i: nat | i < |turns| :: !DescribesAt(turns, i, id)
  }

  lemma MessageAtPrefix(turns: seq<Turn>, n: nat, i: nat)
    requires i < n <= |turns|
    ensures MessageAt(turns[..n], i) == MessageAt(turns, i)
  {
    assert turns[..n][..i] == turns[..i];
  }

  /** What is known of an id is its latest description in the history, and nothing is known of
      an id never described. */
  lemma {:induction false} KnownIsLatest(turns: seq<Turn>, id: nat)
    ensures if id in Known(turns) then IsLatest(turns, id, Known(turns)[id]) else NeverDescribed(turns, id)
    decreases |turns|
  {
    if turns != [] {
      var n := |turns| - 1;
      var before := turns[..n];
      KnownIsLatest(before, id);
      forall i: nat | i < n
        ensures DescribesAt(turns, i, id) == DescribesAt(before, i, id)
        ensures MessageAt(turns, i) == MessageAt(before, i)
      {
        MessageAtPrefix(turns, n, i);
      }
      if DescribesAt(turns, n, id) {
        assert IsLatest(turns, id, MessageAt(turns, n).value.rel);
      } else if id in Known(before) {
        var i: nat :| i < n && DescribesAt(before, i, id) && MessageAt(before, i).value.rel == Known(before)[id]
                      && forall j: nat | i < j < n :: !DescribesAt(before, j, id);
        assert DescribesAt(turns, i, id);
      }
    }
  }

  /** The stream of a transaction is opened or closed at turn i. */
  predicate TurnsStream(turns: seq<Turn>, i: nat, open: bool) {
    i < |turns| && MessageAt(turns, i) == Some(if open then StreamStart else StreamStop)
  }

  /** A streamed transaction is open exactly when a start has come and no stop after it. */
  lemma {:induction false} OpenIsLatest(turns: seq<Turn>)
    ensures OpenStream(turns)
            <==> exists i: nat | i < |turns| ::
                   TurnsStream(turns, i, true) && forall j: nat | i < j < |turns| :: !TurnsStream(turns, j, false)
    decreases |turns|
  {
    if turns != [] {
      var n := |turns| - 1;
      var before := turns[..n];
      OpenIsLatest(before);
      forall i: nat, open | i < n
        ensures TurnsStream(turns, i, open) == TurnsStream(before, i, open)
      {
        MessageAtPrefix(turns, n, i);
      }
      hide MessageAt;
      if TurnsStream(turns, n, true) {
        assert OpenStream(turns);
      } else if OpenStream(before) && !TurnsStream(turns, n, false) {
        var i: nat :| i < n && TurnsStream(before, i, true) && forall j: nat | i < j < n :: !TurnsStream(before, j, false);
        assert TurnsStream(turns, i, true);
      }
    }
  }

  // ---- The loop against the history ----

  function SentOf(out: seq<Output>): seq<Payload>
    decreases |out|
  {
    if out == [] then []
    else
      var rest := SentOf(out[..|out| - 1]);
      if out[|out| - 1].Sent? then rest + [out[|out| - 1].event] else rest
  }

  lemma {:induction false} SentOfAll(out: seq<Output>, events: seq<Payload>)
    ensures SentOf(out + SendAll(events)) == SentOf(out) + events
    decreases |events|
  {
    if events == [] {
      assert out + SendAll(events) == out;
    } else {
      var n := |events| - 1;
      SentOfAll(out, events[..n]);
      assert SendAll(events) == SendAll(events[..n]) + [Sent(events[n])];
      assert events[..n] + [events[n]] == events;
      hide SentOf, SendAll;
      Associative(out, SendAll(events[..n]), [Sent(events[n])]);
      SentOfSnoc(out + SendAll(events[..n]), events[n]);
      Associative(SentOf(out), events[..n], [events[n]]);
    }
  }

  lemma SentOfSnoc(out: seq<Output>, event: Payload)
    ensures SentOf(out + [Sent(event)]) == SentOf(out) + [event]
  {
    assert (out + [Sent(event)])[..|out|] == out;
  }

  lemma {:induction false} GreatestIsMonotone(turns: seq<Turn>, i: nat)
    requires i <= |turns|
    ensures GreatestPosition(turns[..i]) <= GreatestPosition(turns)
    decreases |turns|
  {
    if i < |turns| {
      GreatestIsMonotone(turns[..|turns| - 1], i);
      assert turns[..|turns| - 1][..i] == turns[..i];
    } else {
      assert turns[..i] == turns;
    }
  }

  /** The greatest position is one received, or 0, and no received position exceeds it. */
  lemma {:induction false} GreatestIsGreatest(turns: seq<Turn>)
    ensures forall i | 0 <= i < |turns| :: PositionOf(turns[i].received) <= GreatestPosition(turns)
    ensures GreatestPosition(turns) == 0
            || exists i | 0 <= i < |turns| :: PositionOf(turns[i].received) == GreatestPosition(turns)
    decreases |turns|
  {
    if turns != [] {
      var n := |turns| - 1;
      GreatestIsGreatest(turns[..n]);
      assert forall i | 0 <= i < n :: turns[..n][i] == turns[i];
      assert GreatestPosition(turns) == Max(GreatestPosition(turns[..n]), PositionOf(turns[n].received));
    }
  }

  function PositionOf(r: Received): nat {
    match r
    case Keepalive(end) => end
    case XLogData(start, _) => start
    case _ => 0
  }

  /** The time of the next status update: a turn whose clock has passed it sends one and sets it
      anew. */
  function Deadline(turns: seq<Turn>, first: int, interval: int): int
    decreases |turns|
  {
    if turns == [] then first
    else
      var before, t := Deadline(turns[..|turns| - 1], first, interval), turns[|turns| - 1];
      if t.now > before then t.later + interval else before
  }

  /** The status update of a turn, if one is due: the greatest position received in the turns
      before it. */
  function ReportIn(before: seq<Turn>, t: Turn, first: int, interval: int): seq<Output> {
    if t.now > Deadline(before, first, interval) then [Status(GreatestPosition(before))] else []
  }

  /** The events of a turn, decoded under the descriptions before it. */
  function EventsIn(before: seq<Turn>, t: Turn, codec: Codec): seq<Payload> {
    var msg := if t.received.XLogData? then t.received.wal(OpenStream(before)) else None;
    if msg.Some? && Fits(Known(before), msg.value) then EventsOf(codec, Known(before), msg.value) else []
  }

  /** Everything the turns send: for each its status update, if due, and then its events. */
  function Transcript(turns: seq<Turn>, codec: Codec, first: int, interval: int): seq<Output>
    decreases |turns|
  {
    if turns == [] then []
    else
      var before, t := turns[..|turns| - 1], turns[|turns| - 1];
      Transcript(before, codec, first, interval) + ReportIn(before, t, first, interval) + SendAll(EventsIn(before, t, codec))
  }

  /** A turn that ends the loop: a status update is due and fails, receiving fails, or WAL data
      does not parse. */
  predicate Ends(before: seq<Turn>, t: Turn, first: int, interval: int) {
    || (t.now > Deadline(before, first, interval) && !t.sendOk)
    || t.received.Failure?
    || (t.received.XLogData? && t.received.wal(OpenStream(before)).None?)
  }

  /** Turn i is the first that ends the loop. */
  predicate EndsFirst(turns: seq<Turn>, i: nat, first: int, interval: int) {
    && i < |turns| && Ends(turns[..i], turns[i], first, interval)
    && forall j | 0 <= j < i :: !Ends(turns[..j], turns[j], first, interval)
  }

  predicate NoneEnds(turns: seq<Turn>, first: int, interval: int) {
    forall j | 0 <= j < |turns| :: !Ends(turns[..j], turns[j], first, interval)
  }

  /** The transcript of the turns before the first that ends the loop, and that turn's report. */
  predicate StopsIn(out: seq<Output>, turns: seq<Turn>, codec: Codec, first: int, interval: int) {
    exists i: nat | i < |turns| ::
      && EndsFirst(turns, i, first, interval)
      && out == Transcript(turns[..i], codec, first, interval) + ReportIn(turns[..i], turns[i], first, interval)
  }

  ghost predicate ReportsNeverDecrease(out: seq<Output>) {
    forall j, k | 0 <= j < k < |out| && out[j].Status? && out[k].Status? :: out[j].pos <= out[k].pos
  }

  predicate ReportsUpTo(out: seq<Output>, pos: nat) {
    forall k | 0 <= k < |out| && out[k].Status? :: out[k].pos <= pos
  }

  /** The state of a loop that is still running is what the history says. */
  predicate FollowsHistory(s: State, turns: seq<Turn>, codec: Codec, first: int, interval: int) {
    && s.walPos == GreatestPosition(turns)
    && s.nextStandby == Deadline(turns, first, interval)
    && s.relations == Known(turns)
    && s.inStream == OpenStream(turns)
    && s.out == Transcript(turns, codec, first, interval)
  }

  /** What a turn after the history `before` adds to it. */
  lemma HistoryGrows(before: seq<Turn>, t: Turn, codec: Codec, first: int, interval: int)
    ensures var turns := before + [t];
            var msg := if t.received.XLogData? then t.received.wal(OpenStream(before)) else None;
            && GreatestPosition(turns) == Max(GreatestPosition(before), PositionOf(t.received))
            && Deadline(turns, first, interval)
               == (if t.now > Deadline(before, first, interval) then t.later + interval else Deadline(before, first, interval))
            && OpenStream(turns) == (if msg.Some? then InStreamAfter(OpenStream(before), msg.value) else OpenStream(before))
            && Known(turns) == (if msg.Some? then RelationsAfter(Known(before), msg.value) else Known(before))
            && AllEvents(turns, codec) == AllEvents(before, codec) + EventsIn(before, t, codec)
            && Transcript(turns, codec, first, interval)
               == Transcript(before, codec, first, interval) + ReportIn(before, t, first, interval)
                  + SendAll(EventsIn(before, t, codec))
  {
    var turns := before + [t];
    assert turns[..|turns| - 1] == before && turns[..|before|] == before;
    assert AllEvents(before, codec) + [] == AllEvents(before, codec);
  }

  /** The events sent are those of the history, once each and in order. */
  lemma {:induction false} TranscriptSends(turns: seq<Turn>, codec: Codec, first: int, interval: int)
    ensures SentOf(Transcript(turns, codec, first, interval)) == AllEvents(turns, codec)
    decreases |turns|
  {
    if turns != [] {
      var before, t := turns[..|turns| - 1], turns[|turns| - 1];
      TranscriptSends(before, codec, first, interval);
      OutputGrows(turns, codec, first, interval);
      hide AllEvents, EventsIn, Transcript, SentOf;
      var sent, report := Transcript(before, codec, first, interval), ReportIn(before, t, first, interval);
      SentOfReport(sent, report);
      SentOfAll(sent + report, EventsIn(before, t, codec));
    }
  }

  lemma OutputGrows(turns: seq<Turn>, codec: Codec, first: int, interval: int)
    requires turns != []
    ensures var before, t := turns[..|turns| - 1], turns[|turns| - 1];
            && AllEvents(turns, codec) == AllEvents(before, codec) + EventsIn(before, t, codec)
            && Transcript(turns, codec, first, interval)
               == Transcript(before, codec, first, interval) + ReportIn(before, t, first, interval)
                  + SendAll(EventsIn(before, t, codec))
  {
    var before, t := turns[..|turns| - 1], turns[|turns| - 1];
    assert before + [t] == turns;
    hide *;
    HistoryGrows(before, t, codec, first, interval);
  }

  lemma SentOfReport(sent: seq<Output>, report: seq<Output>)
    requires |report| <= 1 && forall o | o in report :: o.Status?
    ensures SentOf(sent + report) == SentOf(sent)
  {
    if report == [] {
      assert sent + report == sent;
    } else {
      assert report[0] in report;
      assert (sent + report)[..|sent|] == sent;
    }
  }

  /** Reported positions never decrease, and none exceeds the greatest received. */
  lemma {:induction false} TranscriptRises(turns: seq<Turn>, codec: Codec, first: int, interval: int)
    ensures ReportsNeverDecrease(Transcript(turns, codec, first, interval))
    ensures ReportsUpTo(Transcript(turns, codec, first, interval), GreatestPosition(turns))
    decreases |turns|
  {
    if turns != [] {
      var before, t := turns[..|turns| - 1], turns[|turns| - 1];
      TranscriptRises(before, codec, first, interval);
      GreatestIsMonotone(turns, |turns| - 1);
      hide EventsIn, GreatestPosition, Deadline;
      var sent := Transcript(before, codec, first, interval);
      ReportRises(sent, ReportIn(before, t, first, interval), SendAll(EventsIn(before, t, codec)), GreatestPosition(before));
    }
  }

  lemma ReportRises(sent: seq<Output>, report: seq<Output>, more: seq<Output>, pos: nat)
    requires ReportsNeverDecrease(sent) && ReportsUpTo(sent, pos)
    requires report == [] || report == [Status(pos)]
    requires forall o | o in more :: o.Sent?
    ensures ReportsNeverDecrease(sent + report + more) && ReportsUpTo(sent + report + more, pos)
  {
    var out := sent + report + more;
    assert forall k | |sent + report| <= k < |out| :: out[k] == more[k - |sent + report|] && out[k] in more;
    assert forall k | 0 <= k < |sent| :: out[k] == sent[k];
    assert forall k | |sent| <= k < |sent + report| :: out[k] == Status(pos);
  }

  /** One turn keeps the loop in step with the history. */
  lemma TurnFollows(s: State, before: seq<Turn>, t: Turn, codec: Codec, first: int, interval: int)
    requires s.running && FitsTurn(s, t) && FollowsHistory(s, before, codec, first, interval)
    ensures var s1, turns := Step(s, t, codec, interval), before + [t];
            && (s1.running <==> !Ends(before, t, first, interval))
            && if s1.running then FollowsHistory(s1, turns, codec, first, interval)
               else s1.out == Transcript(before, codec, first, interval) + ReportIn(before, t, first, interval)
  {
    hide Transcript, AllEvents, Known, OpenStream, GreatestPosition, Deadline, EventsOf, Fits;
    HistoryGrows(before, t, codec, first, interval);
    var sent := Transcript(before, codec, first, interval);
    var report := ReportIn(before, t, first, interval);
    assert sent + [] == sent && SendAll([]) == [] && sent + report + [] == sent + report;
  }

  /** Over every run of the loop: while it runs, its position is the greatest received, its
      relation cache the latest descriptions, and what it has sent is exactly the transcript of
      the turns: in each turn that a status update is due, one with the greatest position received
      in the turns before it, and then the decoded events of the turn. It runs if and only if no
      turn so far had a status update due that failed, a receive error or WAL data that does not
      parse; a loop that has ended sent the transcript of the turns before the first such turn and
      that turn's report. */
  lemma {:induction false} LoopFollowsHistory(turns: seq<Turn>, codec: Codec, first: int, interval: int)
    requires FitsRun(Start(first), turns, codec, interval)
    ensures var s := Run(Start(first), turns, codec, interval);
            && (s.running <==> NoneEnds(turns, first, interval))
            && if s.running then FollowsHistory(s, turns, codec, first, interval)
               else StopsIn(s.out, turns, codec, first, interval)
    decreases |turns|
  {
    hide Step, Transcript, ReportIn, GreatestPosition, Deadline, Known, OpenStream, Ends;
    if turns == [] {
      StartFollows(codec, first, interval);
    } else {
      var n := |turns| - 1;
      var before, t := turns[..n], turns[n];
      LoopFollowsHistory(before, codec, first, interval);
      var s := Run(Start(first), before, codec, interval);
      assert before + [t] == turns;
      assert forall j | 0 <= j < n :: before[..j] == turns[..j] && before[j] == turns[j];
      if s.running {
        TurnFollows(s, before, t, codec, first, interval);
        if Ends(before, t, first, interval) { assert EndsFirst(turns, n, first, interval); }
      } else {
        StoppedStep(s, t, codec, interval);
        var i: nat :| i < n && EndsFirst(before, i, first, interval)
                      && s.out == Transcript(before[..i], codec, first, interval)
                                  + ReportIn(before[..i], before[i], first, interval);
        assert EndsFirst(turns, i, first, interval);
      }
    }
  }

  lemma StartFollows(codec: Codec, first: int, interval: int)
    ensures FollowsHistory(Start(first), [], codec, first, interval)
  {
  }

  lemma StoppedStep(s: State, t: Turn, codec: Codec, interval: int)
    requires !s.running
    ensures Step(s, t, codec, interval) == s
  {
  }
}
