/** The inbox/outbox connector every service uses to talk to Kafka
    (shared/kafkautil/inbox_outbox.go). Messages to publish are first stored
    in an outbox table in the same transaction as the change that produced
    them and are pumped to Kafka from there; consumed messages are first
    stored in an inbox table, committed to Kafka, and processed from there.
    The tables are modelled as sequences of rows in insertion order; the
    database's row locks, the clock and the instance id are parameters. */
module InboxOutbox {
  import opened Common
  import opened Kafkautil

  const InboxPending: int := 0
  const InboxProcessed: int := 200
  const OutboxPending: int := 0
  const OutboxSent: int := 200

  /** The waits of the three loops, in milliseconds. */
  const PumpPollWait: Time := 500
  const PumpErrorCooldown: Time := 3000
  const ReadErrorCooldown: Time := 3000
  const ProcessPollWait: Time := 500
  const ProcessErrorCooldown: Time := 3000

  /** A row of the inbox table. Headers are stored as two parallel arrays. */
  datatype InboxRow<V> = InboxRow(
    id: int,
    topic: string,
    partition: int,
    offset: int,
    ts: Time,
    highWaterMark: int,
    key: string,
    value: Raw<V>,
    eventType: string,
    headerKeys: seq<string>,
    headerValues: seq<string>,
    status: int,
    statusTs: Time,
    statusBy: Id)

  /** A row of the outbox table. The value column holds the JSON encoding of
      the message value, which for a nil value is `null`. */
  datatype OutboxRow<V> = OutboxRow(
    id: int,
    topic: string,
    created: Time,
    key: string,
    value: Option<V>,
    eventType: string,
    headerKeys: seq<string>,
    headerValues: seq<string>,
    status: int,
    statusTs: Time,
    statusBy: Id)

  /** Both tables and the next value of each serial id column. */
  datatype Store<V> = Store(inbox: seq<InboxRow<V>>, outbox: seq<OutboxRow<V>>, nextInboxId: int, nextOutboxId: int)

  // ---------------------------------------------------------------------------
  // Headers

  function HeaderKeys(hs: seq<Header>): (r: seq<string>)
    ensures |r| == |hs|
    ensures forall i :: 0 <= i < |hs| ==> r[i] == hs[i].key
  {
    Map((h: Header) => h.key, hs)
  }

  function HeaderValues(hs: seq<Header>): (r: seq<string>)
    ensures |r| == |hs|
    ensures forall i :: 0 <= i < |hs| ==> r[i] == hs[i].value
  {
    Map((h: Header) => h.value, hs)
  }

  /** Rebuilds the headers of a row; arrays of different lengths are an
      internal error. */
  function JoinHeaders(keys: seq<string>, values: seq<string>): (r: Result<seq<Header>>)
    ensures r.Ok? <==> |keys| == |values|
    ensures r.Err? ==> r.code == Internal
    ensures r.Ok? ==> |r.value| == |keys| && forall i :: 0 <= i < |keys| ==> r.value[i] == Header(keys[i], values[i])
  {
    if |keys| != |values| then Err(Internal)
    else Ok(seq(|keys|, i requires 0 <= i < |keys| => Header(keys[i], values[i])))
  }

  /** Storing headers as two arrays and reading them back gives the same
      headers in the same order. */
  lemma SplitJoinHeaders(hs: seq<Header>)
    ensures JoinHeaders(HeaderKeys(hs), HeaderValues(hs)) == Ok(hs)
  {
    var r := JoinHeaders(HeaderKeys(hs), HeaderValues(hs));
    assert r.Ok?;
    assert forall i :: 0 <= i < |hs| ==> r.value[i] == hs[i];
    assert r.value == hs;
  }

  // ---------------------------------------------------------------------------
  // Inbox rows

  function InboxRowOf<V(==)>(m: InboundMessage<V>, id: int, instance: Id, now: Time): InboxRow<V> {
    InboxRow(id, m.topic, m.partition, m.offset, m.ts, m.highWaterMark, m.key, m.rawValue, m.eventType,
             HeaderKeys(m.headers), HeaderValues(m.headers), InboxPending, now, instance)
  }

  /** The message a selected inbox row is read back as. */
  function InboundOfRow<V(==)>(row: InboxRow<V>): (r: Result<InboundMessage<V>>)
    ensures r.Ok? <==> |row.headerKeys| == |row.headerValues|
    ensures r.Err? ==> r.code == Internal
    ensures r.Ok? ==>
      && r.value.topic == row.topic && r.value.partition == row.partition && r.value.offset == row.offset
      && r.value.key == row.key && r.value.eventType == row.eventType && r.value.rawValue == row.value
      && r.value.headers == JoinHeaders(row.headerKeys, row.headerValues).value
  {
    var headers :- JoinHeaders(row.headerKeys, row.headerValues);
    Ok(InboundMessage(row.topic, row.partition, row.offset, row.highWaterMark, row.ts, row.key, row.eventType, row.value, headers))
  }

  /** A stored inbound message is read back unchanged. */
  lemma InboxRowRoundTrip<V>(m: InboundMessage<V>, id: int, instance: Id, now: Time)
    ensures InboundOfRow(InboxRowOf(m, id, instance, now)) == Ok(m)
  {
    SplitJoinHeaders(m.headers);
  }

  function NewInboxRows<V(==)>(ms: seq<InboundMessage<V>>, firstId: int, instance: Id, now: Time): (r: seq<InboxRow<V>>)
    ensures |r| == |ms|
    ensures forall k :: 0 <= k < |ms| ==> r[k] == InboxRowOf(ms[k], firstId + k, instance, now)
  {
    seq(|ms|, k requires 0 <= k < |ms| => InboxRowOf(ms[k], firstId + k, instance, now))
  }

  /** `addInboxMessages`: every message becomes a pending row with a fresh
      id, in the given order; nothing else changes, and an empty list
      changes nothing at all. */
  function AddInboxMessages<V(==)>(st: Store<V>, instance: Id, ms: seq<InboundMessage<V>>, now: Time): (r: Store<V>)
    ensures |ms| == 0 ==> r == st
    ensures r.outbox == st.outbox && r.nextOutboxId == st.nextOutboxId
    ensures r.nextInboxId == st.nextInboxId + |ms|
    ensures |r.inbox| == |st.inbox| + |ms| && r.inbox[..|st.inbox|] == st.inbox
    ensures forall k :: 0 <= k < |ms| ==>
      && r.inbox[|st.inbox| + k].id == st.nextInboxId + k
      && r.inbox[|st.inbox| + k].status == InboxPending
      && InboundOfRow(r.inbox[|st.inbox| + k]) == Ok(ms[k])
  {
    if |ms| == 0 then st
    else
      var rows := NewInboxRows(ms, st.nextInboxId, instance, now);
      assert forall k :: 0 <= k < |ms| ==> InboundOfRow(rows[k]) == Ok(ms[k]) by {
        forall k | 0 <= k < |ms| ensures InboundOfRow(rows[k]) == Ok(ms[k]) {
          InboxRowRoundTrip(ms[k], st.nextInboxId + k, instance, now);
        }
      }
      st.(inbox := st.inbox + rows, nextInboxId := st.nextInboxId + |ms|)
  }

  // ---------------------------------------------------------------------------
  // Choosing the next inbox message

  predicate Unprocessed<V(==)>(r: InboxRow<V>) {
    r.status != InboxProcessed
  }

  /** A segment is one key of one partition of one topic; Kafka orders
      messages only within a partition, and the inbox keeps the order of a
      key. */
  predicate SameSegment<V(==)>(a: InboxRow<V>, b: InboxRow<V>) {
    a.topic == b.topic && a.partition == b.partition && a.key == b.key
  }

  /** `h` is the unprocessed row with the least offset of its segment. */
  predicate IsInboxHead<V(==)>(rows: seq<InboxRow<V>>, h: InboxRow<V>) {
    && Unprocessed(h)
    && forall s :: s in rows && Unprocessed(s) && SameSegment(s, h) ==> h.offset <= s.offset
  }

  /** The first query of `nextInboxMessage`: the unprocessed rows at the
      topic, partition and offset of some segment's head. */
  predicate InboxCandidate<V(==)>(rows: seq<InboxRow<V>>, r: InboxRow<V>) {
    && Unprocessed(r)
    && exists h :: h in rows && IsInboxHead(rows, h) && h.topic == r.topic && h.partition == r.partition && h.offset == r.offset
  }

  function InboxCandidates<V(==)>(rows: seq<InboxRow<V>>): (r: seq<InboxRow<V>>)
    ensures forall i :: 0 <= i < |r| ==> r[i] in rows && InboxCandidate(rows, r[i])
    ensures forall i :: 0 <= i < |rows| && InboxCandidate(rows, rows[i]) ==> rows[i] in r
  {
    Filter((x: InboxRow<V>) => InboxCandidate(rows, x), rows)
  }

  function Ids<V(==)>(rows: seq<InboxRow<V>>): (r: seq<int>)
    ensures |r| == |rows|
    ensures forall i :: 0 <= i < |rows| ==> r[i] == rows[i].id
  {
    Map((x: InboxRow<V>) => x.id, rows)
  }

  /** The second query of `nextInboxMessage`: of the pending rows whose id
      is among `ids`, the one with the oldest status time. */
  function OldestPending<V(==)>(rows: seq<InboxRow<V>>, ids: seq<int>): (r: Option<InboxRow<V>>)
    ensures r.Some? ==> r.value in rows && Unprocessed(r.value) && r.value.status == InboxPending && r.value.id in ids
    ensures forall s :: s in rows && Unprocessed(s) && s.id in ids && s.status == InboxPending ==>
      r.Some? && r.value.statusTs <= s.statusTs
  {
    var eligible := Filter((x: InboxRow<V>) => Unprocessed(x) && x.id in ids && x.status == InboxPending, rows);
    var next := FirstMin(eligible, (x: InboxRow<V>) => x.statusTs);
    assert forall s :: s in rows && Unprocessed(s) && s.id in ids && s.status == InboxPending ==> s in eligible;
    next
  }

  /** `nextInboxMessage`'s choice of row. When `random` is given (after a
      failed attempt), only the candidate it picks is considered; the
      random index of the source is the number given, reduced into range.
      Of the considered candidates the pending one with the oldest status
      time is chosen. The database returns candidates in no particular
      order; the model uses table order. */
  function NextInboxRow<V(==)>(rows: seq<InboxRow<V>>, random: Option<nat>): (r: Option<InboxRow<V>>)
    ensures (forall i :: 0 <= i < |rows| ==> !Unprocessed(rows[i])) ==> r.None?
    ensures r.Some? ==> r.value in rows && Unprocessed(r.value) && r.value.status == InboxPending
    ensures r.Some? ==> exists c :: c in rows && InboxCandidate(rows, c) && c.id == r.value.id
    ensures r.Some? && random.None? ==>
      forall s :: s in rows && InboxCandidate(rows, s) && s.status == InboxPending ==> r.value.statusTs <= s.statusTs
  {
    var candidates := InboxCandidates(rows);
    if |candidates| == 0 then None
    else
      var chosen := if random.Some? then [candidates[random.value % |candidates|]] else candidates;
      var ids := Ids(chosen);
      var next := OldestPending(rows, ids);
      assert next.Some? ==> exists c :: c in rows && InboxCandidate(rows, c) && c.id == next.value.id by {
        if next.Some? {
          var k :| 0 <= k < |ids| && ids[k] == next.value.id;
          assert chosen[k] in candidates;
        }
      }
      assert random.None? ==>
        forall s :: s in rows && InboxCandidate(rows, s) && s.status == InboxPending ==> s.id in ids
      by {
        if random.None? {
          forall s | s in rows && InboxCandidate(rows, s) && s.status == InboxPending ensures s.id in ids {
            var j :| 0 <= j < |rows| && rows[j] == s;
            assert InboxCandidate(rows, rows[j]);
            assert s in candidates;
            var i :| 0 <= i < |candidates| && candidates[i] == s;
            assert ids[i] == s.id;
          }
        }
      }
      next
  }

  /** The inbox as the connector keeps it: ids are unique, a Kafka message
      (topic, partition, offset) is stored once, and rows are only ever
      pending or processed. */
  predicate InboxWellFormed<V(==)>(rows: seq<InboxRow<V>>) {
    && (forall i, j :: 0 <= i < |rows| && 0 <= j < |rows| && i != j ==> rows[i].id != rows[j].id)
    && (forall i, j :: 0 <= i < |rows| && 0 <= j < |rows| && i != j ==>
          !(rows[i].topic == rows[j].topic && rows[i].partition == rows[j].partition && rows[i].offset == rows[j].offset))
    && (forall i :: 0 <= i < |rows| ==> rows[i].status == InboxPending || rows[i].status == InboxProcessed)
  }

  /** Per-key order: the chosen row is the oldest unprocessed message of its
      segment, whether or not the choice was random. */
  lemma {:induction false} NextInboxIsSegmentHead<V>(rows: seq<InboxRow<V>>, random: Option<nat>)
    requires InboxWellFormed(rows)
    requires NextInboxRow(rows, random).Some?
    ensures IsInboxHead(rows, NextInboxRow(rows, random).value)
  {
    var r := NextInboxRow(rows, random).value;
    var c :| c in rows && InboxCandidate(rows, c) && c.id == r.id;
    var h :| h in rows && IsInboxHead(rows, h) && h.topic == c.topic && h.partition == c.partition && h.offset == c.offset;
    var i :| 0 <= i < |rows| && rows[i] == r;
    var j :| 0 <= j < |rows| && rows[j] == c;
    var k :| 0 <= k < |rows| && rows[k] == h;
    assert i == j;
    assert j == k;
  }

  /** The unprocessed row with the least offset in the segment of `u`. */
  lemma {:induction false} SegmentHasHead<V>(rows: seq<InboxRow<V>>, u: InboxRow<V>) returns (h: InboxRow<V>)
    requires u in rows && Unprocessed(u)
    ensures h in rows && IsInboxHead(rows, h) && SameSegment(h, u)
  {
    var segment := Filter((x: InboxRow<V>) => Unprocessed(x) && SameSegment(x, u), rows);
    assert u in segment;
    h := FirstMin(segment, (x: InboxRow<V>) => x.offset).value;
    forall s | s in rows && Unprocessed(s) && SameSegment(s, h) ensures h.offset <= s.offset {
      assert s in segment;
    }
  }

  /** No message is stuck: as long as anything is unprocessed, some row is
      chosen, whichever candidate a random choice picks. */
  lemma {:induction false} InboxProgress<V>(rows: seq<InboxRow<V>>, random: Option<nat>, u: InboxRow<V>)
    requires InboxWellFormed(rows)
    requires u in rows && Unprocessed(u)
    ensures NextInboxRow(rows, random).Some?
  {
    var h := SegmentHasHead(rows, u);
    assert InboxCandidate(rows, h);
    var candidates := InboxCandidates(rows);
    assert h in candidates;
    var chosen := if random.Some? then [candidates[random.value % |candidates|]] else candidates;
    var c := if random.Some? then chosen[0] else h;
    assert c in chosen;
    var ids := Ids(chosen);
    var k :| 0 <= k < |chosen| && chosen[k] == c;
    assert ids[k] == c.id;
    assert OldestPending(rows, ids).Some?;
  }

  /** `setInboxMessageStatus`: every row with the id that is not yet
      processed gets the status; a processed row never changes again. When
      no row qualifies the message is not found. */
  function SetInboxMessageStatus<V(==)>(st: Store<V>, instance: Id, id: int, status: int, now: Time): (r: Result<Store<V>>)
    ensures r.Ok? <==> exists i :: 0 <= i < |st.inbox| && st.inbox[i].id == id && Unprocessed(st.inbox[i])
    ensures r.Err? ==> r.code == NotFound
    ensures r.Ok? ==>
      && r.value.outbox == st.outbox && r.value.nextInboxId == st.nextInboxId && r.value.nextOutboxId == st.nextOutboxId
      && |r.value.inbox| == |st.inbox|
      && (forall i :: 0 <= i < |st.inbox| && (st.inbox[i].id != id || !Unprocessed(st.inbox[i])) ==> r.value.inbox[i] == st.inbox[i])
      && (forall i :: 0 <= i < |st.inbox| && st.inbox[i].id == id && Unprocessed(st.inbox[i]) ==>
            && r.value.inbox[i].status == status && r.value.inbox[i].statusTs == now
            && InboundOfRow(r.value.inbox[i]) == InboundOfRow(st.inbox[i]))
  {
    if !exists i :: 0 <= i < |st.inbox| && st.inbox[i].id == id && Unprocessed(st.inbox[i]) then Err(NotFound)
    else
      var rows := seq(|st.inbox|, i requires 0 <= i < |st.inbox| =>
        if st.inbox[i].id == id && Unprocessed(st.inbox[i])
        then st.inbox[i].(status := status, statusTs := now, statusBy := instance)
        else st.inbox[i]);
      Ok(st.(inbox := rows))
  }

  /** Once processed, a message cannot be set to anything else. */
  lemma ProcessedIsFinal<V>(st: Store<V>, instance: Id, id: int, now: Time, status: int, later: Time)
    requires SetInboxMessageStatus(st, instance, id, InboxProcessed, now).Ok?
    ensures SetInboxMessageStatus(SetInboxMessageStatus(st, instance, id, InboxProcessed, now).value, instance, id, status, later) == Err(NotFound)
  {
  }

  // ---------------------------------------------------------------------------
  // Outbox rows

  function OutboxRowOf<V(==)>(m: OutboundMessage<V>, id: int, instance: Id, now: Time): OutboxRow<V> {
    OutboxRow(id, m.topic, now, m.key, m.value, m.eventType, HeaderKeys(m.headers), HeaderValues(m.headers),
              OutboxPending, now, instance)
  }

  /** The message a selected outbox row is read back as: its value is the
      stored JSON, which is never nil, even when the original value was. */
  function OutboundOfRow<V(==)>(row: OutboxRow<V>): (r: Result<OutboundMessage<Option<V>>>)
    ensures r.Ok? <==> |row.headerKeys| == |row.headerValues|
    ensures r.Err? ==> r.code == Internal
    ensures r.Ok? ==>
      && r.value.topic == row.topic && r.value.key == row.key && r.value.eventType == row.eventType
      && r.value.value == Some(row.value)
      && r.value.headers == JoinHeaders(row.headerKeys, row.headerValues).value
  {
    var headers :- JoinHeaders(row.headerKeys, row.headerValues);
    Ok(OutboundMessage(row.topic, row.key, row.eventType, Some(row.value), headers))
  }

  /** An outbound message as the outbox gives it back: the value is the
      stored JSON, a nil value becoming JSON null. */
  function Stored<V(==)>(m: OutboundMessage<V>): OutboundMessage<Option<V>> {
    OutboundMessage(m.topic, m.key, m.eventType, Some(m.value), m.headers)
  }

  function NewOutboxRows<V(==)>(ms: seq<OutboundMessage<V>>, firstId: int, instance: Id, now: Time): (r: seq<OutboxRow<V>>)
    ensures |r| == |ms|
    ensures forall k :: 0 <= k < |ms| ==> r[k] == OutboxRowOf(ms[k], firstId + k, instance, now)
    ensures forall k :: 0 <= k < |ms| ==> r[k].id == firstId + k && r[k].status == OutboxPending
    ensures forall k :: 0 <= k < |ms| ==> OutboundOfRow(r[k]) == Ok(Stored(ms[k]))
  {
    var rows := seq(|ms|, k requires 0 <= k < |ms| => OutboxRowOf(ms[k], firstId + k, instance, now));
    assert forall k :: 0 <= k < |ms| ==> OutboundOfRow(rows[k]) == Ok(Stored(ms[k])) by {
      forall k | 0 <= k < |ms| ensures OutboundOfRow(rows[k]) == Ok(Stored(ms[k])) {
        SplitJoinHeaders(ms[k].headers);
      }
    }
    rows
  }

  /** `addOutboxMessages`: every message becomes a pending row with a fresh
      id, in the given order; a value that cannot be marshalled is an
      internal error and adds nothing. A nil value is stored as JSON null. */
  function AddOutboxMessages<V(==)>(st: Store<V>, instance: Id, ms: seq<OutboundMessage<V>>, marshallable: V -> bool, now: Time): (r: Result<Store<V>>)
    ensures |ms| == 0 ==> r == Ok(st)
    ensures r.Ok? <==> forall k :: 0 <= k < |ms| && ms[k].value.Some? ==> marshallable(ms[k].value.value)
    ensures r.Err? ==> r.code == Internal
    ensures r.Ok? ==>
      && r.value.inbox == st.inbox && r.value.nextInboxId == st.nextInboxId
      && r.value.nextOutboxId == st.nextOutboxId + |ms|
      && |r.value.outbox| == |st.outbox| + |ms| && r.value.outbox[..|st.outbox|] == st.outbox
    ensures r.Ok? ==> forall k :: 0 <= k < |ms| ==>
      && r.value.outbox[|st.outbox| + k].id == st.nextOutboxId + k
      && r.value.outbox[|st.outbox| + k].status == OutboxPending
      && OutboundOfRow(r.value.outbox[|st.outbox| + k]) == Ok(Stored(ms[k]))
  {
    if |ms| == 0 then Ok(st)
    else if exists k :: 0 <= k < |ms| && ms[k].value.Some? && !marshallable(ms[k].value.value) then Err(Internal)
    else
      var rows := NewOutboxRows(ms, st.nextOutboxId, instance, now);
      var outbox := st.outbox + rows;
      assert outbox[..|st.outbox|] == st.outbox;
      assert forall k :: 0 <= k < |ms| ==> outbox[|st.outbox| + k] == rows[k];
      Ok(st.(outbox := outbox, nextOutboxId := st.nextOutboxId + |ms|))
  }

  // ---------------------------------------------------------------------------
  // Choosing the next outbox message

  predicate Unsent<V(==)>(r: OutboxRow<V>) {
    r.status != OutboxSent
  }

  /** `h` has the least id among the unsent rows of its topic and key. */
  predicate IsOutboxHead<V(==)>(rows: seq<OutboxRow<V>>, h: OutboxRow<V>) {
    && Unsent(h)
    && forall s :: s in rows && Unsent(s) && s.topic == h.topic && s.key == h.key ==> h.id <= s.id
  }

  /** The rows both queries of `nextOutboxMessage` let through: pending,
      with the id of some segment's head. */
  predicate OutboxCandidate<V(==)>(rows: seq<OutboxRow<V>>, r: OutboxRow<V>) {
    && Unsent(r) && r.status == OutboxPending
    && exists h :: h in rows && IsOutboxHead(rows, h) && h.id == r.id
  }

  /** `nextOutboxMessage`'s choice of row: the candidate with the least
      id. */
  function NextOutboxRow<V(==)>(rows: seq<OutboxRow<V>>): (r: Option<OutboxRow<V>>)
    ensures r.None? <==> forall i :: 0 <= i < |rows| ==> !OutboxCandidate(rows, rows[i])
    ensures r.Some? ==> r.value in rows && OutboxCandidate(rows, r.value)
    ensures r.Some? ==> forall s :: s in rows && OutboxCandidate(rows, s) ==> r.value.id <= s.id
  {
    var candidates := Filter((x: OutboxRow<V>) => OutboxCandidate(rows, x), rows);
    FirstMin(candidates, (x: OutboxRow<V>) => x.id)
  }

  /** The outbox as the connector keeps it: ids are unique and rows are
      only ever pending or sent. */
  predicate OutboxWellFormed<V(==)>(rows: seq<OutboxRow<V>>) {
    && (forall i, j :: 0 <= i < |rows| && 0 <= j < |rows| && i != j ==> rows[i].id != rows[j].id)
    && (forall i :: 0 <= i < |rows| ==> rows[i].status == OutboxPending || rows[i].status == OutboxSent)
  }

  /** The least-id unsent row heads its segment and is pending, so it is a
      candidate. */
  lemma OldestUnsentIsCandidate<V>(rows: seq<OutboxRow<V>>, u: OutboxRow<V>)
    requires OutboxWellFormed(rows)
    requires u in rows && Unsent(u)
    requires forall s :: s in rows && Unsent(s) ==> u.id <= s.id
    ensures OutboxCandidate(rows, u)
  {
    var i :| 0 <= i < |rows| && rows[i] == u;
    assert IsOutboxHead(rows, u);
  }

  /** With a well-formed outbox the per-segment query changes nothing about
      the order: the next row is exactly the unsent row with the least id,
      and there is none only when everything was sent. */
  lemma {:induction false} NextOutboxIsOldestUnsent<V>(rows: seq<OutboxRow<V>>)
    requires OutboxWellFormed(rows)
    ensures NextOutboxRow(rows).None? <==> forall i :: 0 <= i < |rows| ==> !Unsent(rows[i])
    ensures NextOutboxRow(rows).Some? ==>
      && Unsent(NextOutboxRow(rows).value)
      && forall s :: s in rows && Unsent(s) ==> NextOutboxRow(rows).value.id <= s.id
  {
    var unsent := Filter((x: OutboxRow<V>) => Unsent(x), rows);
    if |unsent| > 0 {
      var u := FirstMin(unsent, (x: OutboxRow<V>) => x.id).value;
      forall s | s in rows && Unsent(s) ensures u.id <= s.id {
        assert s in unsent;
      }
      OldestUnsentIsCandidate(rows, u);
      var i :| 0 <= i < |rows| && rows[i] == u;
      assert OutboxCandidate(rows, rows[i]);
      var r := NextOutboxRow(rows).value;
      assert r.id <= u.id;
    }
  }

  /** Ids come from the table's serial column: every id is below the next
      one to hand out. */
  predicate OutboxIdsIssued<V>(st: Store<V>) {
    forall i :: 0 <= i < |st.outbox| ==> st.outbox[i].id < st.nextOutboxId
  }

  /** Adding messages keeps the outbox well formed. */
  lemma {:induction false} AddOutboxKeepsWellFormed<V>(st: Store<V>, instance: Id, ms: seq<OutboundMessage<V>>, marshallable: V -> bool, now: Time)
    requires OutboxWellFormed(st.outbox) && OutboxIdsIssued(st)
    requires AddOutboxMessages(st, instance, ms, marshallable, now).Ok?
    ensures var r := AddOutboxMessages(st, instance, ms, marshallable, now).value;
      OutboxWellFormed(r.outbox) && OutboxIdsIssued(r)
  {
    var r := AddOutboxMessages(st, instance, ms, marshallable, now).value;
    var n := |st.outbox|;
    forall i | 0 <= i < |r.outbox| ensures r.outbox[i].id < r.nextOutboxId && (i < n ==> r.outbox[i].id < st.nextOutboxId)
      && (i >= n ==> r.outbox[i].id == st.nextOutboxId + (i - n))
    {
      if i < n {
        assert r.outbox[i] == r.outbox[..n][i];
      }
    }
    forall i | 0 <= i < |r.outbox| ensures r.outbox[i].status == OutboxPending || r.outbox[i].status == OutboxSent {
      if i < n {
        assert r.outbox[i] == r.outbox[..n][i];
      }
    }
    forall i, j | 0 <= i < |r.outbox| && 0 <= j < |r.outbox| && i != j ensures r.outbox[i].id != r.outbox[j].id {
      if i < n && j < n {
        assert r.outbox[i] == r.outbox[..n][i];
        assert r.outbox[j] == r.outbox[..n][j];
      }
    }
  }

  /** Marking a row as sent keeps the outbox well formed. */
  lemma SetSentKeepsWellFormed<V>(st: Store<V>, instance: Id, id: int, now: Time)
    requires OutboxWellFormed(st.outbox) && OutboxIdsIssued(st)
    requires SetOutboxMessageStatus(st, instance, id, OutboxSent, now).Ok?
    ensures var r := SetOutboxMessageStatus(st, instance, id, OutboxSent, now).value;
      OutboxWellFormed(r.outbox) && OutboxIdsIssued(r)
  {
  }

  /** `nextOutboxMessage`: the chosen row and the message it is read back
      as; a row with mismatched header arrays is an internal error. */
  function NextOutboxMessage<V(==)>(st: Store<V>): (r: Result<Option<(OutboxRow<V>, OutboundMessage<Option<V>>)>>)
    ensures NextOutboxRow(st.outbox).None? ==> r == Ok(None)
    ensures r.Err? <==> NextOutboxRow(st.outbox).Some? && OutboundOfRow(NextOutboxRow(st.outbox).value).Err?
    ensures r.Err? ==> r.code == Internal
    ensures r.Ok? && r.value.Some? ==>
      && NextOutboxRow(st.outbox) == Some(r.value.value.0)
      && OutboundOfRow(r.value.value.0) == Ok(r.value.value.1)
  {
    match NextOutboxRow(st.outbox)
    case None => Ok(None)
    case Some(row) =>
      var m :- OutboundOfRow(row);
      Ok(Some((row, m)))
  }

  /** `setOutboxMessageStatus`: every row with the id gets the status; no
      such row means the message is not found. */
  function SetOutboxMessageStatus<V(==)>(st: Store<V>, instance: Id, id: int, status: int, now: Time): (r: Result<Store<V>>)
    ensures r.Ok? <==> exists i :: 0 <= i < |st.outbox| && st.outbox[i].id == id
    ensures r.Err? ==> r.code == NotFound
    ensures r.Ok? ==>
      && r.value.inbox == st.inbox && r.value.nextInboxId == st.nextInboxId && r.value.nextOutboxId == st.nextOutboxId
      && |r.value.outbox| == |st.outbox|
      && (forall i :: 0 <= i < |st.outbox| && st.outbox[i].id != id ==> r.value.outbox[i] == st.outbox[i])
      && (forall i :: 0 <= i < |st.outbox| && st.outbox[i].id == id ==>
            && r.value.outbox[i].status == status && r.value.outbox[i].statusTs == now
            && OutboundOfRow(r.value.outbox[i]) == OutboundOfRow(st.outbox[i]))
  {
    if !exists i :: 0 <= i < |st.outbox| && st.outbox[i].id == id then Err(NotFound)
    else
      var rows := seq(|st.outbox|, i requires 0 <= i < |st.outbox| =>
        if st.outbox[i].id == id
        then st.outbox[i].(status := status, statusTs := now, statusBy := instance)
        else st.outbox[i]);
      Ok(st.(outbox := rows))
  }

  // ---------------------------------------------------------------------------
  // The loops, one iteration each

  datatype PumpOutcome<V> = PumpOutcome(st: Store<V>, written: seq<KafkaMessage<Option<V>>>, wait: Time)

  /** Writing a single message that converts hands exactly that message to
      the writer. */
  lemma WriteSingle<V>(m: OutboundMessage<V>, marshallable: V -> bool, writerFails: bool)
    requires KafkaMessageFromOutboundMessage(m, marshallable).Ok?
    ensures WriteMessages([m], marshallable, writerFails)
      == ([KafkaMessageFromOutboundMessage(m, marshallable).value], if writerFails then Err(Internal) else Ok(()))
  {
    var k := KafkaMessageFromOutboundMessage(m, marshallable).value;
    var batch := KafkaMessagesFromOutboundMessages([m], marshallable);
    assert batch.Ok? && |batch.value| == 1 && Ok(batch.value[0]) == Ok(k);
    assert batch.value == [k];
  }

  /** The stored JSON of an outbox row always marshals again. */
  function StoredJson<V(==)>(v: Option<V>): bool {
    true
  }

  /** The part of `pumpOutgoing` after a row was chosen: the message is
      written, and the row is marked as sent only when the write
      succeeded. */
  function PumpSend<V(==)>(st: Store<V>, instance: Id, row: OutboxRow<V>, m: OutboundMessage<Option<V>>, writerFails: bool, now: Time): (r: PumpOutcome<V>)
    requires row in st.outbox && OutboundOfRow(row) == Ok(m)
    ensures r.written != [] <==> !writerFails
    ensures r.written == [] ==> r.st == st && r.wait == PumpErrorCooldown
    ensures r.written != [] ==>
      && |r.written| == 1 && r.wait == 0
      && SetOutboxMessageStatus(st, instance, row.id, OutboxSent, now) == Ok(r.st)
      && r.written[0].topic == row.topic && r.written[0].key == row.key
      && r.written[0].value == Encoded(row.value)
      && r.written[0].headers == KafkaHeadersFromHeaders(JoinHeaders(row.headerKeys, row.headerValues).value, row.eventType)
  {
    WriteSingle(m, StoredJson, writerFails);
    var (batch, res) := WriteMessages([m], StoredJson, writerFails);
    if res.Err? then PumpOutcome(st, [], PumpErrorCooldown)
    else PumpOutcome(SetOutboxMessageStatus(st, instance, row.id, OutboxSent, now).value, batch, 0)
  }

  /** One iteration of `pumpOutgoing`, in one transaction: the next message
      is written to Kafka and only then marked as sent. Nothing to send
      means a poll wait; any failure rolls the transaction back and means a
      cooldown. */
  function PumpOutgoingStep<V(==)>(st: Store<V>, instance: Id, writerFails: bool, now: Time): (r: PumpOutcome<V>)
    ensures r.written == [] ==> r.st == st
    ensures r.wait == 0 <==> r.written != []
    ensures r.wait == PumpPollWait <==> NextOutboxRow(st.outbox).None?
    ensures r.written != [] ==>
      && !writerFails && |r.written| == 1
      && NextOutboxRow(st.outbox).Some?
      && var row := NextOutboxRow(st.outbox).value;
         && SetOutboxMessageStatus(st, instance, row.id, OutboxSent, now) == Ok(r.st)
         && r.written[0].topic == row.topic && r.written[0].key == row.key
         && r.written[0].value == Encoded(row.value)
         && JoinHeaders(row.headerKeys, row.headerValues).Ok?
         && r.written[0].headers == KafkaHeadersFromHeaders(JoinHeaders(row.headerKeys, row.headerValues).value, row.eventType)
    ensures !writerFails && NextOutboxMessage(st).Ok? && NextOutboxRow(st.outbox).Some? ==> r.written != []
  {
    match NextOutboxMessage(st)
    case Err(_) => PumpOutcome(st, [], PumpErrorCooldown)
    case Ok(None) => PumpOutcome(st, [], PumpPollWait)
    case Ok(Some((row, m))) => PumpSend(st, instance, row, m, writerFails, now)
  }

  /** An outbound message that goes through the outbox reaches Kafka with
      the topic, key and headers a direct write gives it, but its value is
      always JSON: a nil value arrives as `null`, not as an empty value. */
  lemma OutboxWriteMatchesDirectWrite<V>(st: Store<V>, instance: Id, m: OutboundMessage<V>, marshallable: V -> bool, now: Time, later: Time)
    requires forall s :: s in st.outbox ==> !Unsent(s)
    requires forall s :: s in st.outbox ==> s.id < st.nextOutboxId
    requires m.value.Some? ==> marshallable(m.value.value)
    ensures var added := AddOutboxMessages(st, instance, [m], marshallable, now).value;
      var pumped := PumpOutgoingStep(added, instance, false, later);
      var direct := KafkaMessageFromOutboundMessage(m, marshallable).value;
      && pumped.written != []
      && pumped.written[0].topic == direct.topic && pumped.written[0].key == direct.key
      && pumped.written[0].headers == direct.headers
      && pumped.written[0].value == Encoded(m.value)
  {
    var added := AddOutboxMessages(st, instance, [m], marshallable, now).value;
    var row := added.outbox[|st.outbox|];
    var rows := added.outbox;
    forall s | s in rows && Unsent(s) ensures s == row {
      var i :| 0 <= i < |rows| && rows[i] == s;
      assert i == |st.outbox|;
    }
    assert IsOutboxHead(rows, row);
    assert OutboxCandidate(rows, row);
    assert NextOutboxRow(rows) == Some(row);
    SplitJoinHeaders(m.headers);
  }

  /** Where `Read` stands between iterations: ready to fetch the next
      message, or retrying one that was fetched but not yet stored and
      committed. */
  datatype ReadState<V> = Ready | Retrying(message: KafkaMessage<V>)

  datatype ReadOutcome<V> = ReadOutcome(state: ReadState<V>, st: Store<V>, committed: seq<KafkaMessage<V>>, wait: Time)

  /** One iteration of `Read`. A message is fetched (`fetch`) only when the
      previous one was stored; storing it in the inbox and committing it to
      Kafka happen in one transaction, which `txFails` makes fail as a
      whole. */
  function ReadStep<V(==)>(s: ReadState<V>, st: Store<V>, instance: Id, fetch: Result<KafkaMessage<V>>, txFails: bool, now: Time): (r: ReadOutcome<V>)
    ensures r.committed == [] ==> r.st == st
    ensures r.wait == 0 <==> r.committed != []
    ensures r.state.Ready? <==> r.committed != [] || (s.Ready? && fetch.Err?)
    ensures s.Retrying? && r.state.Retrying? ==> r.state == s
    ensures s.Retrying? && r.committed != [] ==> r.committed == [s.message]
    ensures s.Ready? && r.state.Retrying? ==> fetch == Ok(r.state.message)
    ensures s.Ready? && r.committed != [] ==> fetch.Ok? && r.committed == [fetch.value]
    ensures r.committed != [] ==> r.st == AddInboxMessages(st, instance, [InboundMessageFromKafkaMessage(r.committed[0])], now)
  {
    if s.Ready? && fetch.Err? then ReadOutcome(Ready, st, [], ReadErrorCooldown)
    else
      var m := if s.Ready? then fetch.value else s.message;
      if txFails then ReadOutcome(Retrying(m), st, [], ReadErrorCooldown)
      else ReadOutcome(Ready, AddInboxMessages(st, instance, [InboundMessageFromKafkaMessage(m)], now), [m], 0)
  }

  /** The input of one `Read` iteration. */
  datatype ReadInput<V> = ReadInput(fetch: Result<KafkaMessage<V>>, txFails: bool)

  /** The message a read state still owes to the inbox. */
  function Owed<V(==)>(s: ReadState<V>): seq<KafkaMessage<V>> {
    if s.Retrying? then [s.message] else []
  }

  /** One iteration keeps the balance of fetched and committed messages. */
  lemma ReadStepOwes<V>(s: ReadState<V>, st: Store<V>, instance: Id, fetch: Result<KafkaMessage<V>>, txFails: bool, now: Time)
    ensures var step := ReadStep(s, st, instance, fetch, txFails, now);
      Owed(s) + (if s.Ready? && fetch.Ok? then [fetch.value] else []) == step.committed + Owed(step.state)
  {
  }

  /** Iterates `Read`; the result's second part holds the messages fetched
      from Kafka. */
  function ReadRun<V(==)>(s: ReadState<V>, st: Store<V>, instance: Id, inputs: seq<ReadInput<V>>, now: Time): (r: (ReadOutcome<V>, seq<KafkaMessage<V>>))
    decreases |inputs|
  {
    if |inputs| == 0 then (ReadOutcome(s, st, [], 0), [])
    else
      var step := ReadStep(s, st, instance, inputs[0].fetch, inputs[0].txFails, now);
      var fetched := if s.Ready? && inputs[0].fetch.Ok? then [inputs[0].fetch.value] else [];
      var (rest, restFetched) := ReadRun(step.state, step.st, instance, inputs[1..], now);
      (ReadOutcome(rest.state, rest.st, step.committed + rest.committed, rest.wait), fetched + restFetched)
  }

  /** Two balanced steps make a balanced run. */
  lemma Rebalance<T>(owed: seq<T>, fetched: seq<T>, later: seq<T>, committed: seq<T>, owing: seq<T>, laterCommitted: seq<T>, left: seq<T>)
    requires owed + fetched == committed + owing
    requires owing + later == laterCommitted + left
    ensures owed + (fetched + later) == (committed + laterCommitted) + left
  {
    calc {
      owed + (fetched + later);
      (committed + owing) + later;
      committed + (laterCommitted + left);
    }
  }

  /** No fetched message is lost or duplicated: what was owed plus what was
      fetched is exactly what was committed plus what is still owed, in
      order. */
  lemma {:induction false} ReadCommitsEveryFetchedMessage<V>(s: ReadState<V>, st: Store<V>, instance: Id, inputs: seq<ReadInput<V>>, now: Time)
    ensures var (out, fetched) := ReadRun(s, st, instance, inputs, now);
      Owed(s) + fetched == out.committed + Owed(out.state)
    decreases |inputs|
  {
    if |inputs| > 0 {
      var step := ReadStep(s, st, instance, inputs[0].fetch, inputs[0].txFails, now);
      var fetched := if s.Ready? && inputs[0].fetch.Ok? then [inputs[0].fetch.value] else [];
      ReadCommitsEveryFetchedMessage(step.state, step.st, instance, inputs[1..], now);
      var (rest, restFetched) := ReadRun(step.state, step.st, instance, inputs[1..], now);
      ReadStepOwes(s, st, instance, inputs[0].fetch, inputs[0].txFails, now);
      Rebalance(Owed(s), fetched, restFetched, step.committed, Owed(step.state), rest.committed, Owed(rest.state));
    }
  }

  datatype ProcessOutcome<V> = ProcessOutcome(st: Store<V>, lastFailed: bool, handled: Option<InboundMessage<V>>, wait: Time)

  /** `nextInboxMessage`: the chosen row's id and the message it is read
      back as; a row with mismatched header arrays is an internal error. */
  function NextInboxMessage<V(==)>(st: Store<V>, random: Option<nat>): (r: Result<Option<(int, InboundMessage<V>)>>)
    ensures NextInboxRow(st.inbox, random).None? ==> r == Ok(None)
    ensures r.Err? <==> NextInboxRow(st.inbox, random).Some? && InboundOfRow(NextInboxRow(st.inbox, random).value).Err?
    ensures r.Err? ==> r.code == Internal
    ensures r.Ok? && r.value.Some? ==>
      && NextInboxRow(st.inbox, random).Some?
      && r.value.value.0 == NextInboxRow(st.inbox, random).value.id
      && InboundOfRow(NextInboxRow(st.inbox, random).value) == Ok(r.value.value.1)
  {
    match NextInboxRow(st.inbox, random)
    case None => Ok(None)
    case Some(row) =>
      var m :- InboundOfRow(row);
      Ok(Some((row.id, m)))
  }

  /** One iteration of `ProcessIncoming`, in one transaction: the next
      message is handled (`handlerFails` says whether the handler returns an
      error) and only then marked processed. After a failed iteration the
      next one picks a random candidate (`pick`). */
  function ProcessIncomingStep<V(==)>(st: Store<V>, instance: Id, lastFailed: bool, pick: nat, handlerFails: InboundMessage<V> -> bool, now: Time): (r: ProcessOutcome<V>)
    ensures r.handled.None? ==> r.st == st
    ensures r.wait == 0 <==> r.handled.Some?
    ensures r.lastFailed <==> r.wait == ProcessErrorCooldown
    ensures r.handled.Some? ==>
      && !handlerFails(r.handled.value)
      && NextInboxRow(st.inbox, if lastFailed then Some(pick) else None).Some?
      && var row := NextInboxRow(st.inbox, if lastFailed then Some(pick) else None).value;
         && InboundOfRow(row) == Ok(r.handled.value)
         && SetInboxMessageStatus(st, instance, row.id, InboxProcessed, now) == Ok(r.st)
    ensures NextInboxRow(st.inbox, if lastFailed then Some(pick) else None).None? ==> !r.lastFailed && r.wait == ProcessPollWait
  {
    var random := if lastFailed then Some(pick) else None;
    match NextInboxMessage(st, random)
    case Err(_) => ProcessOutcome(st, true, None, ProcessErrorCooldown)
    case Ok(None) => ProcessOutcome(st, false, None, ProcessPollWait)
    case Ok(Some((id, m))) =>
      if handlerFails(m) then ProcessOutcome(st, true, None, ProcessErrorCooldown)
      else
        var row := NextInboxRow(st.inbox, random).value;
        assert row in st.inbox;
        ProcessOutcome(SetInboxMessageStatus(st, instance, id, InboxProcessed, now).value, false, Some(m), 0)
  }

  /** A handled message is the oldest unprocessed one of its key, and it is
      never handed to the handler again once processed. */
  lemma HandledInKeyOrder<V>(st: Store<V>, instance: Id, lastFailed: bool, pick: nat, handlerFails: InboundMessage<V> -> bool, now: Time)
    requires InboxWellFormed(st.inbox)
    requires ProcessIncomingStep(st, instance, lastFailed, pick, handlerFails, now).handled.Some?
    ensures var row := NextInboxRow(st.inbox, if lastFailed then Some(pick) else None).value;
      && IsInboxHead(st.inbox, row)
      && SetInboxMessageStatus(ProcessIncomingStep(st, instance, lastFailed, pick, handlerFails, now).st, instance, row.id, InboxPending, now) == Err(NotFound)
  {
    var random := if lastFailed then Some(pick) else None;
    NextInboxIsSegmentHead(st.inbox, random);
    var row := NextInboxRow(st.inbox, random).value;
    var out := ProcessIncomingStep(st, instance, lastFailed, pick, handlerFails, now);
    assert SetInboxMessageStatus(st, instance, row.id, InboxProcessed, now) == Ok(out.st);
    ProcessedIsFinal(st, instance, row.id, now, InboxPending, now);
  }
}
