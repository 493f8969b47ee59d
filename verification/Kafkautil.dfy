/** Conversion between the services' message records and Kafka messages
    (shared/kafkautil/kafkautil.go): the event type travels as a header, the
    value as the JSON encoding of a record. */
module Kafkautil {
  import opened Common

  /** The header that carries the event type. */
  const EventTypeHeader: string := "event-type"

  /** A header as the services see it, and as Kafka carries it; the byte
      value of a Kafka header is modelled by its text. */
  datatype Header = Header(key: string, value: string)

  /** The bytes of a message value: none (a nil value), the JSON encoding of a
      record of type `V`, or bytes that do not decode. */
  datatype Raw<V> = NoValue | Encoded(v: V) | Malformed

  datatype KafkaMessage<V> = KafkaMessage(
    topic: string,
    partition: int,
    offset: int,
    highWaterMark: int,
    ts: Time,
    key: string,
    value: Raw<V>,
    headers: seq<Header>)

  datatype InboundMessage<V> = InboundMessage(
    topic: string,
    partition: int,
    offset: int,
    highWaterMark: int,
    ts: Time,
    key: string,
    eventType: string,
    rawValue: Raw<V>,
    headers: seq<Header>)

  datatype OutboundMessage<V> = OutboundMessage(
    topic: string,
    key: string,
    eventType: string,
    value: Option<V>,
    headers: seq<Header>)

  // ---------------------------------------------------------------------------
  // Headers

  /** The value of the last event-type header of `hs`, or the empty type. */
  function LastEventType(hs: seq<Header>): (t: string)
    ensures (forall i :: 0 <= i < |hs| ==> hs[i].key != EventTypeHeader) ==> t == ""
    ensures |hs| > 0 && hs[|hs| - 1].key == EventTypeHeader ==> t == hs[|hs| - 1].value
  {
    if |hs| == 0 then ""
    else if hs[|hs| - 1].key == EventTypeHeader then hs[|hs| - 1].value
    else LastEventType(hs[..|hs| - 1])
  }

  /** `headersFromKafkaHeaders`: every header is kept, in order, and the event
      type is the value of the last event-type header. */
  function HeadersFromKafkaHeaders(kafkaHeaders: seq<Header>): (r: (seq<Header>, string))
    ensures r.0 == kafkaHeaders
    ensures r.1 == LastEventType(kafkaHeaders)
  {
    var eventType := LastEventType(kafkaHeaders);
    (kafkaHeaders, eventType)
  }

  /** The last event-type header is the one that decides: an earlier one with
      another value is overridden. */
  lemma {:induction false} LastEventTypeWins(hs: seq<Header>, t: string)
    ensures LastEventType(hs + [Header(EventTypeHeader, t)]) == t
  {
    var all := hs + [Header(EventTypeHeader, t)];
    assert all[|all| - 1] == Header(EventTypeHeader, t);
  }

  /** A header list without event-type headers yields the empty type, even
      when other headers follow. */
  lemma {:induction false} LastEventTypeSkipsOthers(hs: seq<Header>, h: Header)
    requires h.key != EventTypeHeader
    ensures LastEventType(hs + [h]) == LastEventType(hs)
  {
    var all := hs + [h];
    assert all[..|all| - 1] == hs;
  }

  /** `kafkaHeadersFromHeaders`: the given headers in order, followed by
      exactly one event-type header with the given type. */
  function KafkaHeadersFromHeaders(headers: seq<Header>, eventType: string): (r: seq<Header>)
    ensures |r| == |headers| + 1
    ensures r[..|headers|] == headers
    ensures r[|headers|] == Header(EventTypeHeader, eventType)
  {
    headers + [Header(EventTypeHeader, eventType)]
  }

  /** Decoding encoded headers gives back the event type, whatever event-type
      headers the caller already put into the list. */
  lemma EncodedEventTypeIsRecovered(headers: seq<Header>, eventType: string)
    ensures HeadersFromKafkaHeaders(KafkaHeadersFromHeaders(headers, eventType)).1 == eventType
    ensures HeadersFromKafkaHeaders(KafkaHeadersFromHeaders(headers, eventType)).0 == headers + [Header(EventTypeHeader, eventType)]
  {
    LastEventTypeWins(headers, eventType);
  }

  // ---------------------------------------------------------------------------
  // Messages

  /** `inboundMessageFromKafkaMessage`: the transport fields are copied, the
      event type is taken from the headers. */
  function InboundMessageFromKafkaMessage<V>(m: KafkaMessage<V>): (r: InboundMessage<V>)
    ensures r.topic == m.topic && r.partition == m.partition && r.offset == m.offset
    ensures r.highWaterMark == m.highWaterMark && r.ts == m.ts && r.key == m.key
    ensures r.rawValue == m.value && r.headers == m.headers
    ensures r.eventType == LastEventType(m.headers)
  {
    var (headers, eventType) := HeadersFromKafkaHeaders(m.headers);
    InboundMessage(m.topic, m.partition, m.offset, m.highWaterMark, m.ts, m.key, eventType, m.value, headers)
  }

  /** `KafkaMessageFromOutboundMessage`: a nil value gives an empty payload, a
      value that cannot be marshalled (`marshallable` is false for it) is an
      internal error. Partition, offsets and time are set by Kafka on write
      and are zero here. */
  function KafkaMessageFromOutboundMessage<V>(m: OutboundMessage<V>, marshallable: V -> bool): (r: Result<KafkaMessage<V>>)
    ensures r.Err? <==> m.value.Some? && !marshallable(m.value.value)
    ensures r.Err? ==> r.code == Internal
    ensures r.Ok? ==>
      && r.value.topic == m.topic && r.value.key == m.key
      && (m.value.None? ==> r.value.value == NoValue)
      && (m.value.Some? ==> r.value.value == Encoded(m.value.value))
      && r.value.headers == KafkaHeadersFromHeaders(m.headers, m.eventType)
  {
    if m.value.Some? && !marshallable(m.value.value) then Err(Internal)
    else
      var raw := if m.value.None? then NoValue else Encoded(m.value.value);
      Ok(KafkaMessage(m.topic, 0, 0, 0, 0, m.key, raw, KafkaHeadersFromHeaders(m.headers, m.eventType)))
  }

  /** What an outbound message looks like once it was written and read back:
      the same topic, key, event type and value. */
  lemma OutboundInboundRoundTrip<V>(m: OutboundMessage<V>, marshallable: V -> bool)
    requires KafkaMessageFromOutboundMessage(m, marshallable).Ok?
    ensures var i := InboundMessageFromKafkaMessage(KafkaMessageFromOutboundMessage(m, marshallable).value);
      && i.topic == m.topic && i.key == m.key && i.eventType == m.eventType
      && (m.value.Some? <==> i.rawValue.Encoded?)
      && (m.value.Some? ==> i.rawValue.v == m.value.value)
  {
    var k := KafkaMessageFromOutboundMessage(m, marshallable).value;
    EncodedEventTypeIsRecovered(m.headers, m.eventType);
  }

  /** Converts every message, failing with the first that does not convert. */
  function KafkaMessagesFromOutboundMessages<V>(ms: seq<OutboundMessage<V>>, marshallable: V -> bool): (r: Result<seq<KafkaMessage<V>>>)
    ensures r.Ok? <==> forall i :: 0 <= i < |ms| ==> KafkaMessageFromOutboundMessage(ms[i], marshallable).Ok?
    ensures r.Err? ==> r.code == Internal
    ensures r.Ok? ==> |r.value| == |ms|
    ensures r.Ok? ==> forall i :: 0 <= i < |ms| ==> Ok(r.value[i]) == KafkaMessageFromOutboundMessage(ms[i], marshallable)
  {
    if |ms| == 0 then Ok([])
    else
      var k :- KafkaMessageFromOutboundMessage(ms[0], marshallable);
      var rest :- KafkaMessagesFromOutboundMessages(ms[1..], marshallable);
      Ok([k] + rest)
  }

  /** `WriteMessages`: the batch handed to the writer (empty when nothing is
      written) and the outcome. All messages are converted before anything is
      written, so a message that does not convert means no message is
      written; a failing writer is an internal error. */
  function WriteMessages<V>(ms: seq<OutboundMessage<V>>, marshallable: V -> bool, writerFails: bool): (r: (seq<KafkaMessage<V>>, Result<()>))
    ensures r.1.Err? ==> r.1.code == Internal
    ensures (exists i :: 0 <= i < |ms| && KafkaMessageFromOutboundMessage(ms[i], marshallable).Err?) ==> r.0 == [] && r.1.Err?
    ensures r.1.Ok? <==> !writerFails && forall i :: 0 <= i < |ms| ==> KafkaMessageFromOutboundMessage(ms[i], marshallable).Ok?
    ensures r.0 != [] ==> |r.0| == |ms|
    ensures r.0 != [] ==> forall i :: 0 <= i < |ms| ==> Ok(r.0[i]) == KafkaMessageFromOutboundMessage(ms[i], marshallable)
  {
    match KafkaMessagesFromOutboundMessages(ms, marshallable)
    case Err(code) => ([], Err(code))
    case Ok(batch) => (batch, if writerFails then Err(Internal) else Ok(()))
  }
}
