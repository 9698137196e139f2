/** Change events (pkg/pipeline/cdc/cdc.go) and their decoding from logical replication
    messages (pkg/pglogrepl/process_v2.go, util.go). */
module Cdc {
  import opened Options

  datatype Value = Null | Datum(d: string)

  type Row = map<string, Value>

  /** A before or after image: absent, an object, or any other JSON value. */
  datatype Data = Nil | Fields(m: Row) | Raw(v: Value)

  datatype Operation = NoOp | Create | Update | Delete | Read | Truncate

  datatype Source = Source(schemaName: string, table: string)

  datatype Payload = Payload(before: Data, after: Data, source: Source, op: Operation)

  /** What the handlers return for a relation they do not know. */
  const EMPTY_EVENT: Payload := Payload(Nil, Nil, Source("", ""), NoOp)

  // ---- Replication messages ----

  datatype RelColumn = RelColumn(name: string, dataType: nat)

  datatype Relation = Relation(namespace: string, name: string, columns: seq<RelColumn>)

  /** kind is 'n' for null, 'u' for an unchanged TOAST value, 't' for text. */
  datatype TupleColumn = TupleColumn(kind: char, data: string)

  type Tuple = seq<TupleColumn>

  datatype Message =
    | RelationMsg(id: nat, rel: Relation)
    | InsertMsg(id: nat, tuple: Tuple)
    | UpdateMsg(id: nat, oldTuple: Option<Tuple>, newTuple: Option<Tuple>)
    | DeleteMsg(id: nat, tuple: Tuple)
    | StreamStart
    | StreamStop
    | OtherMsg

  /** Text encoding and decoding of the values of a type; decoding may fail. */
  datatype Codec = Codec(encode: (nat, Value) -> string, decode: (nat, string) -> Option<Value>)

  ghost predicate RoundTrips(codec: Codec) {
    forall oid: nat, v: Value :: v != Null ==> codec.decode(oid, codec.encode(oid, v)) == Some(v)
  }

  /** decodeColumn: null, unchanged and undecodable columns all become nil. */
  function DecodeColumn(codec: Codec, col: TupleColumn, oid: nat): Value {
    if col.kind == 't' then
      match codec.decode(oid, col.data)
      case None => Null
      case Some(v) => v
    else Null
  }

  /** The values of a tuple by column name; a repeated name keeps its last value. */
  function DecodeTuple(codec: Codec, columns: seq<RelColumn>, tuple: Tuple): Row
    requires |tuple| <= |columns|
    decreases |tuple|
  {
    if tuple == [] then map[]
    else
      var i := |tuple| - 1;
      DecodeTuple(codec, columns, tuple[..i])[columns[i].name := DecodeColumn(codec, tuple[i], columns[i].dataType)]
  }

  function DecodeOptional(codec: Codec, columns: seq<RelColumn>, tuple: Option<Tuple>): Row
    requires tuple.Some? ==> |tuple.value| <= |columns|
  {
    match tuple
    case None => map[]
    case Some(t) => DecodeTuple(codec, columns, t)
  }

  type Relations = map<nat, Relation>

  /** The tuples of a message are no longer than its relation, which the source relies on. */
  predicate Fits(relations: Relations, msg: Message) {
    match msg
    case InsertMsg(id, t) => id in relations ==> |t| <= |relations[id].columns|
    case UpdateMsg(id, o, n) =>
      id in relations ==>
        && (o.Some? ==> |o.value| <= |relations[id].columns|)
        && (n.Some? ==> |n.value| <= |relations[id].columns|)
    case DeleteMsg(id, t) => id in relations ==> |t| <= |relations[id].columns|
    case _ => true
  }

  /** The events of one message under the relations known. */
  function EventsOf(codec: Codec, relations: Relations, msg: Message): seq<Payload>
    requires Fits(relations, msg)
  {
    match msg
    case InsertMsg(id, t) =>
      if id !in relations then [EMPTY_EVENT]
      else
        var rel := relations[id];
        [Payload(Nil, Fields(DecodeTuple(codec, rel.columns, t)), Source(rel.namespace, rel.name), Create)]
    case UpdateMsg(id, o, n) =>
      if id !in relations then [EMPTY_EVENT]
      else
        var rel := relations[id];
        [Payload(Fields(DecodeOptional(codec, rel.columns, o)), Fields(DecodeOptional(codec, rel.columns, n)),
                 Source(rel.namespace, rel.name), Update)]
    case DeleteMsg(id, t) =>
      if id !in relations then [EMPTY_EVENT]
      else
        var rel := relations[id];
        [Payload(Fields(DecodeTuple(codec, rel.columns, t)), Nil, Source(rel.namespace, rel.name), Delete)]
    case _ => []
  }

  function RelationsAfter(relations: Relations, msg: Message): Relations {
    if msg.RelationMsg? then relations[msg.id := msg.rel] else relations
  }

  function InStreamAfter(inStream: bool, msg: Message): bool {
    if msg.StreamStart? then true else if msg.StreamStop? then false else inStream
  }

  /** The state processV2 keeps between messages. */
  class Processor {
    var relations: Relations
    var inStream: bool
    const codec: Codec

    constructor (codec: Codec)
      ensures relations == map[] && !inStream && this.codec == codec
    {
      relations, inStream := map[], false;
      this.codec := codec;
    }

    method DecodeValues(columns: seq<RelColumn>, tuple: Tuple) returns (values: Row)
      requires |tuple| <= |columns|
      ensures values == DecodeTuple(codec, columns, tuple)
    {
      values := map[];
      for idx := 0 to |tuple|
        invariant values == DecodeTuple(codec, columns, tuple[..idx])
      {
        assert tuple[..idx + 1][..idx] == tuple[..idx];
        values := values[columns[idx].name := DecodeColumn(codec, tuple[idx], columns[idx].dataType)];
      }
      assert tuple[..|tuple|] == tuple;
    }

    /** processV2, on a parsed message */
    method Process(msg: Message) returns (events: seq<Payload>)
      requires Fits(relations, msg)
      modifies this
      ensures events == EventsOf(codec, old(relations), msg)
      ensures relations == RelationsAfter(old(relations), msg)
      ensures inStream == InStreamAfter(old(inStream), msg)
    {
      events := [];
      match msg
      case RelationMsg(id, rel) => relations := relations[id := rel];
      case InsertMsg(id, t) =>
        var event := HandleInsert(id, t);
        events := events + [event];
      case UpdateMsg(id, o, n) =>
        var event := HandleUpdate(id, o, n);
        events := events + [event];
      case DeleteMsg(id, t) =>
        var event := HandleDelete(id, t);
        events := events + [event];
      case StreamStart => inStream := true;
      case StreamStop => inStream := false;
      case OtherMsg =>
    }

    method HandleInsert(id: nat, t: Tuple) returns (event: Payload)
      requires Fits(relations, InsertMsg(id, t))
      ensures [event] == EventsOf(codec, relations, InsertMsg(id, t))
    {
      if id !in relations { return EMPTY_EVENT; }
      var rel := relations[id];
      var values := DecodeValues(rel.columns, t);
      return Payload(Nil, Fields(values), Source(rel.namespace, rel.name), Create);
    }

    method HandleUpdate(id: nat, o: Option<Tuple>, n: Option<Tuple>) returns (event: Payload)
      requires Fits(relations, UpdateMsg(id, o, n))
      ensures [event] == EventsOf(codec, relations, UpdateMsg(id, o, n))
    {
      if id !in relations { return EMPTY_EVENT; }
      var rel := relations[id];
      var oldValues: Row := map[];
      if o.Some? { oldValues := DecodeValues(rel.columns, o.value); }
      var newValues: Row := map[];
      if n.Some? { newValues := DecodeValues(rel.columns, n.value); }
      return Payload(Fields(oldValues), Fields(newValues), Source(rel.namespace, rel.name), Update);
    }

    method HandleDelete(id: nat, t: Tuple) returns (event: Payload)
      requires Fits(relations, DeleteMsg(id, t))
      ensures [event] == EventsOf(codec, relations, DeleteMsg(id, t))
    {
      if id !in relations { return EMPTY_EVENT; }
      var rel := relations[id];
      var values := DecodeValues(rel.columns, t);
      return Payload(Fields(values), Nil, Source(rel.namespace, rel.name), Delete);
    }
  }

  // ---- Decoding undoes the server's encoding ----

  predicate Distinct(columns: seq<RelColumn>) {
    forall i, j | 0 <= i < j < |columns| :: columns[i].name != columns[j].name
  }

  /** A row has exactly the columns of its relation. */
  predicate HasColumns(columns: seq<RelColumn>, row: Row) {
    && (forall i | 0 <= i < |columns| :: columns[i].name in row)
    && (forall name | name in row :: exists i | 0 <= i < |columns| :: columns[i].name == name)
  }

  /** The tuple the server sends for a row, leaving out the values of unchanged TOAST columns. */
  function EncodeRow(codec: Codec, columns: seq<RelColumn>, row: Row, omitted: set<string>): (r: Tuple)
    requires HasColumns(columns, row)
    ensures |r| == |columns|
  {
    seq(|columns|, i requires 0 <= i < |columns| =>
      EncodeColumn(codec, columns[i], row[columns[i].name], columns[i].name in omitted))
  }

  function EncodeColumn(codec: Codec, col: RelColumn, v: Value, omitted: bool): TupleColumn {
    if v == Null then TupleColumn('n', "")
    else if omitted then TupleColumn('u', "")
    else TupleColumn('t', codec.encode(col.dataType, v))
  }

  /** Each column of a decoded tuple holds its own decoded value, and there are no others. */
  lemma {:induction false} DecodeTupleAt(codec: Codec, columns: seq<RelColumn>, tuple: Tuple)
    requires |tuple| <= |columns| && Distinct(columns)
    ensures var row := DecodeTuple(codec, columns, tuple);
            && (forall i | 0 <= i < |tuple| ::
                  columns[i].name in row && row[columns[i].name] == DecodeColumn(codec, tuple[i], columns[i].dataType))
            && (forall name | name in row :: exists i | 0 <= i < |tuple| :: columns[i].name == name)
    decreases |tuple|
  {
    hide DecodeColumn;
    if tuple != [] {
      var last := |tuple| - 1;
      DecodeTupleAt(codec, columns, tuple[..last]);
      var before := DecodeTuple(codec, columns, tuple[..last]);
      var row := DecodeTuple(codec, columns, tuple);
      forall name | name in row
        ensures exists i | 0 <= i < |tuple| :: columns[i].name == name
      {
        if name == columns[last].name {
        } else {
          assert name in before;
        }
      }
    }
  }

  lemma ColumnRoundTrip(codec: Codec, col: RelColumn, v: Value, omitted: bool)
    requires RoundTrips(codec)
    ensures DecodeColumn(codec, EncodeColumn(codec, col, v, omitted), col.dataType) == if omitted then Null else v
  {
  }

  /** What a row decodes to: the columns left out become null. */
  function Received(row: Row, omitted: set<string>): Row {
    map name | name in row :: if name in omitted then Null else row[name]
  }

  lemma DecodesToReceived(codec: Codec, columns: seq<RelColumn>, row: Row, omitted: set<string>)
    requires RoundTrips(codec) && Distinct(columns) && HasColumns(columns, row)
    ensures DecodeTuple(codec, columns, EncodeRow(codec, columns, row, omitted)) == Received(row, omitted)
  {
    hide RoundTrips, Distinct, DecodeColumn, EncodeColumn;
    var tuple := EncodeRow(codec, columns, row, omitted);
    var decoded := DecodeTuple(codec, columns, tuple);
    DecodeTupleAt(codec, columns, tuple);
    forall name | name in row
      ensures name in decoded
      ensures decoded[name] == if name in omitted then Null else row[name]
    {
      var i :| 0 <= i < |columns| && columns[i].name == name;
      ColumnRoundTrip(codec, columns[i], row[name], name in omitted);
      assert tuple[i] == EncodeColumn(codec, columns[i], row[name], name in omitted);
    }
    forall name | name in decoded
      ensures name in row
    {
      assert exists i | 0 <= i < |tuple| :: columns[i].name == name;
    }
    assert decoded.Keys == row.Keys;
  }

  /** A row sent by the server decodes to itself exactly when every column left out as unchanged
      is null. */
  lemma DecodeUndoesEncode(codec: Codec, columns: seq<RelColumn>, row: Row, omitted: set<string>)
    requires RoundTrips(codec) && Distinct(columns) && HasColumns(columns, row)
    ensures DecodeTuple(codec, columns, EncodeRow(codec, columns, row, omitted)) == row
            <==> forall name | name in omitted && name in row :: row[name] == Null
  {
    hide Distinct, HasColumns, RoundTrips, EncodeRow;
    DecodesToReceived(codec, columns, row, omitted);
    var received := Received(row, omitted);
    assert received == row <==> forall name | name in row :: received[name] == row[name];
  }

  // ---- What the event of each message says ----

  /** The value of a column as sent: null, unchanged and undecodable values are nil. */
  predicate Sent(codec: Codec, col: RelColumn, sent: TupleColumn, v: Value) {
    if sent.kind == 't' && codec.decode(col.dataType, sent.data).Some? then v == codec.decode(col.dataType, sent.data).value
    else v == Null
  }

  /** An image with the value of each column sent, under its name, and no others. */
  predicate IsImage(codec: Codec, columns: seq<RelColumn>, tuple: Tuple, image: Data)
    requires |tuple| <= |columns|
  {
    && image.Fields?
    && (forall i | 0 <= i < |tuple| ::
          columns[i].name in image.m && Sent(codec, columns[i], tuple[i], image.m[columns[i].name]))
    && forall name | name in image.m :: exists i | 0 <= i < |tuple| :: columns[i].name == name
  }

  lemma TupleIsImage(codec: Codec, columns: seq<RelColumn>, tuple: Tuple)
    requires |tuple| <= |columns| && Distinct(columns)
    ensures IsImage(codec, columns, tuple, Fields(DecodeTuple(codec, columns, tuple)))
  {
    DecodeTupleAt(codec, columns, tuple);
  }

  /** A row change of a known relation gives one event of its table: an insert has the row after, a delete
      the old row before, an update both, with an empty object for one that was not sent. Other
      messages give none. */
  lemma MessageDecoded(codec: Codec, relations: Relations, msg: Message)
    requires Fits(relations, msg) && forall id | id in relations :: Distinct(relations[id].columns)
    ensures var events := EventsOf(codec, relations, msg);
            match msg
            case InsertMsg(id, t) =>
              id in relations ==>
                && |events| == 1 && events[0].op == Create && events[0].before == Nil
                && events[0].source == Source(relations[id].namespace, relations[id].name)
                && IsImage(codec, relations[id].columns, t, events[0].after)
            case DeleteMsg(id, t) =>
              id in relations ==>
                && |events| == 1 && events[0].op == Delete && events[0].after == Nil
                && events[0].source == Source(relations[id].namespace, relations[id].name)
                && IsImage(codec, relations[id].columns, t, events[0].before)
            case UpdateMsg(id, o, n) =>
              id in relations ==>
                && |events| == 1 && events[0].op == Update
                && events[0].source == Source(relations[id].namespace, relations[id].name)
                && IsImage(codec, relations[id].columns, if o.Some? then o.value else [], events[0].before)
                && IsImage(codec, relations[id].columns, if n.Some? then n.value else [], events[0].after)
            case _ => events == []
    ensures (msg.InsertMsg? || msg.UpdateMsg? || msg.DeleteMsg?) && msg.id !in relations ==>
              EventsOf(codec, relations, msg) == [Payload(Nil, Nil, Source("", ""), NoOp)]
  {
    hide DecodeTuple, IsImage, Distinct;
    match msg
    case InsertMsg(id, t) => if id in relations { TupleIsImage(codec, relations[id].columns, t); }
    case DeleteMsg(id, t) => if id in relations { TupleIsImage(codec, relations[id].columns, t); }
    case UpdateMsg(id, o, n) =>
      if id in relations {
        OptionalIsImage(codec, relations[id].columns, o);
        OptionalIsImage(codec, relations[id].columns, n);
      }
    case _ =>
  }

  lemma OptionalIsImage(codec: Codec, columns: seq<RelColumn>, tuple: Option<Tuple>)
    requires (tuple.Some? ==> |tuple.value| <= |columns|) && Distinct(columns)
    ensures IsImage(codec, columns, if tuple.Some? then tuple.value else [], Fields(DecodeOptional(codec, columns, tuple)))
  {
    TupleIsImage(codec, columns, if tuple.Some? then tuple.value else []);
  }
}
