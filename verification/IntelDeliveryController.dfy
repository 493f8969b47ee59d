/** The delivery logic of the logistics service
    (logistics-svc/controller/intel_delivery.go): looking after a delivery,
    timing out attempts, creating attempts on the next channel, status updates
    and the manual delivery confirmation. Every operation maps a store to a
    new store and the events it publishes, in order. */
module IntelDeliveryController {
  import opened Common
  import opened IntelDeliveries

  /** What the controller hands to the notifier. */
  datatype Event =
    | DeliveryCreated(delivery: Delivery)
    | DeliveryStatusUpdated(deliveryId: Id, isActive: bool, success: bool, note: Option<string>)
    | AttemptCreated(attempt: Attempt, delivery: Delivery)
    | AttemptStatusUpdated(attempt: Attempt)

  datatype Outcome = Outcome(st: Store, events: seq<Event>)

  const NoMoreChannelsNote: string := "no more channels to try"
  /** The note of a timed-out attempt, without the channel's timeout that the
      service appends to it. */
  const TimedOutNote: string := "delivery attempt timed out"
  const ManualConfirmationNote: string := "canceled due to manual delivery-confirmation"
  const ChannelDeletionNote: string := "canceled because of channel deletion"
  const DeliveredNote: string := "delivered"

  // ---------------------------------------------------------------------------
  // Closing a list of attempts

  predicate InIds(ts: seq<Attempt>, id: Id) {
    exists k :: 0 <= k < |ts| && ts[k].id == id
  }

  /** The row of an attempt after every attempt listed in `ts` has been closed
      with the status and note `outcome` chooses for its id. */
  function Closed(a: Attempt, ts: seq<Attempt>, outcome: Id -> (string, Option<string>), now: Time): Attempt {
    if InIds(ts, a.id) then SetStatus(a, false, outcome(a.id).0, outcome(a.id).1, now) else a
  }

  /** Sets each listed attempt inactive with the status `outcome` chooses,
      re-reads it and publishes its new state. Not-found as soon as a listed
      attempt is missing. */
  function CloseAttempts(st: Store, ts: seq<Attempt>, outcome: Id -> (string, Option<string>), now: Time): (r: Result<Outcome>)
    ensures r.Ok? <==> AllPresent(st.attempts, ts)
    ensures r.Err? ==> r.code == NotFound
    ensures r.Ok? ==> r.value.st == st.(attempts := r.value.st.attempts) && |r.value.st.attempts| == |st.attempts|
    ensures r.Ok? ==> forall i :: 0 <= i < |st.attempts| ==> r.value.st.attempts[i] == Closed(st.attempts[i], ts, outcome, now)
    ensures r.Ok? ==> ClosedEvents(r.value.events, ts, outcome)
    decreases |ts|
  {
    if |ts| == 0 then Ok(Outcome(st, []))
    else if !HasAttempt(st.attempts, ts[0].id) then Err(NotFound)
    else
      var st1 := UpdateIntelDeliveryAttemptStatusByID(st, ts[0].id, false, outcome(ts[0].id).0, outcome(ts[0].id).1, now).value;
      var updated := IntelDeliveryAttemptByID(st1, ts[0].id).value;
      UpdatedAttemptReadsBack(st, ts[0].id, false, outcome(ts[0].id).0, outcome(ts[0].id).1, now);
      match CloseAttempts(st1, ts[1..], outcome, now)
      case Err(e) =>
        AllPresentStep(st.attempts, st1.attempts, ts);
        Err(e)
      case Ok(rest) =>
        AllPresentStep(st.attempts, st1.attempts, ts);
        CloseStep(st.attempts, st1.attempts, rest.st.attempts, ts, outcome, now);
        ClosedEventsStep(updated, rest.events, ts, outcome);
        Ok(Outcome(rest.st, [AttemptStatusUpdated(updated)] + rest.events))
  }

  /** The events of closing the head of `ts` and then the rest describe
      every attempt of `ts` in order. */
  predicate ClosedEvents(events: seq<Event>, ts: seq<Attempt>, outcome: Id -> (string, Option<string>)) {
    && |events| == |ts|
    && forall k :: 0 <= k < |ts| ==>
      && events[k].AttemptStatusUpdated?
      && events[k].attempt.id == ts[k].id
      && !events[k].attempt.isActive
      && events[k].attempt.status == outcome(ts[k].id).0
  }

  lemma ClosedEventsStep(head: Attempt, rest: seq<Event>, ts: seq<Attempt>, outcome: Id -> (string, Option<string>))
    requires |ts| > 0 && head.id == ts[0].id && !head.isActive && head.status == outcome(ts[0].id).0
    requires ClosedEvents(rest, ts[1..], outcome)
    ensures ClosedEvents([AttemptStatusUpdated(head)] + rest, ts, outcome)
  {
    var events := [AttemptStatusUpdated(head)] + rest;
    assert forall k :: 1 <= k < |ts| ==> events[k] == rest[k - 1] && ts[k] == ts[1..][k - 1];
  }

  /** Every listed attempt's id is in the table. */
  predicate AllPresent(attempts: seq<Attempt>, ts: seq<Attempt>) {
    forall k :: 0 <= k < |ts| ==> HasAttempt(attempts, ts[k].id)
  }

  lemma AllPresentStep(a: seq<Attempt>, a1: seq<Attempt>, ts: seq<Attempt>)
    requires |ts| > 0 && HasAttempt(a, ts[0].id)
    requires forall x :: HasAttempt(a1, x) <==> HasAttempt(a, x)
    ensures AllPresent(a, ts) <==> AllPresent(a1, ts[1..])
  {
    assert forall k :: 1 <= k < |ts| ==> ts[k] == ts[1..][k - 1];
  }

  lemma InIdsCons(ts: seq<Attempt>, id: Id)
    requires |ts| > 0
    ensures InIds(ts, id) <==> ts[0].id == id || InIds(ts[1..], id)
  {
    if InIds(ts, id) && ts[0].id != id {
      var k :| 0 <= k < |ts| && ts[k].id == id;
      assert ts[1..][k - 1].id == id;
    }
    if InIds(ts[1..], id) {
      var k :| 0 <= k < |ts[1..]| && ts[1..][k].id == id;
      assert ts[k + 1].id == id;
    }
  }

  /** Closing the head of `ts` and then the rest closes all of `ts`. */
  lemma CloseStep(a: seq<Attempt>, a1: seq<Attempt>, b: seq<Attempt>, ts: seq<Attempt>, outcome: Id -> (string, Option<string>), now: Time)
    requires |ts| > 0 && |a1| == |a| && |b| == |a1|
    requires forall i :: 0 <= i < |a| ==>
      a1[i] == if a[i].id == ts[0].id then SetStatus(a[i], false, outcome(ts[0].id).0, outcome(ts[0].id).1, now) else a[i]
    requires forall i :: 0 <= i < |a1| ==> b[i] == Closed(a1[i], ts[1..], outcome, now)
    ensures forall i :: 0 <= i < |a| ==> b[i] == Closed(a[i], ts, outcome, now)
  {
    forall i | 0 <= i < |a| ensures b[i] == Closed(a[i], ts, outcome, now) {
      InIdsCons(ts, a[i].id);
    }
  }

  // ---------------------------------------------------------------------------
  // Timeouts

  /** `handleTimedOutDeliveryAttempts`: every timed-out attempt of the
      delivery that is still active is closed with status timeout. The
      channel lookup in between only supplies the note's duration. */
  function HandleTimedOutDeliveryAttempts(st: Store, delivery: Id, now: Time): (r: Result<Outcome>)
    ensures r.Ok?
    ensures r.value.st == st.(attempts := r.value.st.attempts) && |r.value.st.attempts| == |st.attempts|
    ensures forall i :: 0 <= i < |st.attempts| ==>
      r.value.st.attempts[i] == st.attempts[i] || r.value.st.attempts[i] == SetStatus(st.attempts[i], false, StatusTimeout, Some(TimedOutNote), now)
    ensures forall x :: HasAttempt(r.value.st.attempts, x) <==> HasAttempt(st.attempts, x)
    ensures forall k :: 0 <= k < |r.value.events| ==>
      r.value.events[k].AttemptStatusUpdated? && r.value.events[k].attempt.status == StatusTimeout && !r.value.events[k].attempt.isActive
  {
    var active := ActiveTimedOutAttempts(st, delivery, now);
    assert AllPresent(st.attempts, active);
    var r := CloseAttempts(st, active, TimeoutOutcome, now);
    SameIdsSameAttempts(st.attempts, r.value.st.attempts);
    r
  }

  const TimeoutOutcome: Id -> (string, Option<string>) := (id: Id) => (StatusTimeout, Some(TimedOutNote))

  /** The timed-out attempts of the delivery that the loop does not skip. */
  function ActiveTimedOutAttempts(st: Store, delivery: Id, now: Time): (r: seq<Attempt>)
    ensures forall k :: 0 <= k < |r| ==> HasAttempt(st.attempts, r[k].id)
    ensures forall k :: 0 <= k < |r| ==> r[k] in st.attempts && r[k].isActive && r[k].delivery == delivery && IsTimedOut(st, r[k], now)
    ensures forall i :: 0 <= i < |st.attempts| && st.attempts[i].isActive && st.attempts[i].delivery == delivery && IsTimedOut(st, st.attempts[i], now) ==>
      st.attempts[i] in r
  {
    var r := Filter((a: Attempt) => a.isActive, TimedOutIntelDeliveryAttemptsByDelivery(st, delivery, now));
    assert forall k :: 0 <= k < |r| ==> HasAttempt(st.attempts, r[k].id) by {
      forall k | 0 <= k < |r| ensures HasAttempt(st.attempts, r[k].id) {
        var j :| 0 <= j < |st.attempts| && st.attempts[j] == r[k];
      }
    }
    r
  }

  /** Attempt tables whose rows carry the same ids hold the same ids. */
  lemma SameIdsSameAttempts(a: seq<Attempt>, b: seq<Attempt>)
    requires |a| == |b| && forall i :: 0 <= i < |a| ==> a[i].id == b[i].id
    ensures forall x :: HasAttempt(b, x) <==> HasAttempt(a, x)
  {
    forall x | HasAttempt(a, x) ensures HasAttempt(b, x) {
      var i :| 0 <= i < |a| && a[i].id == x;
      assert b[i].id == x;
    }
  }

  /** With unique attempt ids, timeout handling closes exactly the attempts of
      the delivery that are active and timed out, and leaves the rest. */
  lemma TimeoutClosesExactlyTimedOutActive(st: Store, delivery: Id, now: Time, i: int)
    requires Valid(st) && 0 <= i < |st.attempts|
    ensures var a := st.attempts[i];
            HandleTimedOutDeliveryAttempts(st, delivery, now).value.st.attempts[i] ==
              if a.delivery == delivery && a.isActive && IsTimedOut(st, a, now)
              then SetStatus(a, false, StatusTimeout, Some(TimedOutNote), now)
              else a
  {
    var a := st.attempts[i];
    var active := ActiveTimedOutAttempts(st, delivery, now);
    assert HandleTimedOutDeliveryAttempts(st, delivery, now).value.st.attempts[i] == Closed(a, active, TimeoutOutcome, now);
    if a.delivery == delivery && a.isActive && IsTimedOut(st, a, now) {
      var k :| 0 <= k < |active| && active[k] == a;
      assert InIds(active, a.id);
    } else {
      UniqueIdsPinRow(st, active, i);
    }
  }

  /** With unique ids, a listed row that shares the id of row `i` is row `i`
      itself. */
  lemma UniqueIdsPinRow(st: Store, ts: seq<Attempt>, i: int)
    requires Valid(st) && 0 <= i < |st.attempts|
    requires forall k :: 0 <= k < |ts| ==> ts[k] in st.attempts
    ensures InIds(ts, st.attempts[i].id) ==> st.attempts[i] in ts
  {
    if InIds(ts, st.attempts[i].id) {
      var k :| 0 <= k < |ts| && ts[k].id == st.attempts[i].id;
      var j :| 0 <= j < |st.attempts| && st.attempts[j] == ts[k];
    }
  }

  // ---------------------------------------------------------------------------
  // Creating attempts and failing deliveries

  /** `createIntelDeliveryAttempt`: the delivery must exist and be active;
      the new attempt is active and open on the given channel. The intel and
      the recipient entry are read for the event. */
  function CreateAttemptFor(st: Store, deliveryId: Id, channel: Id, now: Time, newId: Id): (r: Result<(Attempt, Outcome)>)
    requires !HasAttempt(st.attempts, newId)
    ensures deliveryId !in st.deliveries ==> r == Err(NotFound)
    ensures deliveryId in st.deliveries && !st.deliveries[deliveryId].isActive ==> r == Err(BadInput)
    ensures r.Ok? <==>
      && deliveryId in st.deliveries && st.deliveries[deliveryId].isActive
      && st.deliveries[deliveryId].intel in st.importance
      && st.deliveries[deliveryId].to in st.entries
    ensures r.Err? ==> r.code in {NotFound, BadInput}
    ensures r.Ok? ==>
      var (a, o) := r.value;
      && a == Attempt(newId, deliveryId, channel, now, true, StatusOpen, now, None)
      && o.st == st.(attempts := st.attempts + [a])
      && o.events == [AttemptCreated(a, st.deliveries[deliveryId])]
  {
    var d :- IntelDeliveryByID(st, deliveryId);
    if !d.isActive then Err(BadInput)
    else
      var (a, st1) := IntelDeliveries.CreateIntelDeliveryAttempt(st, Attempt(newId, deliveryId, channel, now, true, StatusOpen, now, None), newId, now);
      if d.intel !in st1.importance then Err(NotFound)
      else if d.to !in st1.entries then Err(NotFound)
      else Ok((a, Outcome(st1, [AttemptCreated(a, d)])))
  }

  /** `markDeliveryAsFailed`: the delivery becomes inactive and unsuccessful
      with the reason as note, and this is published. */
  function MarkDeliveryAsFailed(st: Store, deliveryId: Id, reason: string): (r: Result<Outcome>)
    ensures r.Ok? <==> deliveryId in st.deliveries
    ensures r.Err? ==> r.code == NotFound
    ensures r.Ok? ==>
      && r.value.st == st.(deliveries := st.deliveries[deliveryId := st.deliveries[deliveryId].(isActive := false, success := false, note := Some(reason))])
      && r.value.events == [DeliveryStatusUpdated(deliveryId, false, false, Some(reason))]
    ensures r.Ok? ==> SameTargets(st.deliveries, r.value.st.deliveries)
  {
    var st1 :- UpdateIntelDeliveryStatusByDelivery(st, deliveryId, false, false, Some(reason));
    Ok(Outcome(st1, [DeliveryStatusUpdated(deliveryId, false, false, Some(reason))]))
  }

  // ---------------------------------------------------------------------------
  // Looking after a delivery

  /** The active attempts of a delivery as `lookAfterDelivery` sees them:
      with the store query as written (every attempt) or as documented (only
      the active ones). */
  function ActiveAttemptsSeen(st: Store, deliveryId: Id, asWritten: bool): seq<Attempt> {
    if asWritten then ActiveIntelDeliveryAttemptsByDeliveryAsWritten(st, deliveryId)
    else ActiveIntelDeliveryAttemptsByDelivery(st, deliveryId)
  }

  /** `lookAfterDelivery`. A missing delivery is an internal error and an
      inactive one is left alone. Otherwise timed-out attempts are closed
      first and `DecideNextAttempt` takes over. */
  function LookAfterDelivery(st: Store, deliveryId: Id, now: Time, newId: Id, asWritten: bool): (r: Result<Outcome>)
    requires !HasAttempt(st.attempts, newId)
    ensures deliveryId !in st.deliveries ==> r == Err(Internal)
    ensures deliveryId in st.deliveries && !st.deliveries[deliveryId].isActive ==> r == Ok(Outcome(st, []))
    ensures r.Err? ==> r.code in {Internal, NotFound}
    ensures r.Ok? ==> SameTargets(st.deliveries, r.value.st.deliveries)
    ensures r.Ok? ==> forall x :: HasAttempt(r.value.st.attempts, x) ==> HasAttempt(st.attempts, x) || x == newId
    ensures deliveryId in st.deliveries && st.deliveries[deliveryId].isActive ==>
      var timedOut := HandleTimedOutDeliveryAttempts(st, deliveryId, now).value;
      var next := DecideNextAttempt(timedOut.st, deliveryId, now, newId, asWritten);
      && (r.Ok? <==> next.Ok?)
      && (r.Ok? ==> r.value == Outcome(next.value.st, timedOut.events + next.value.events))
  {
    if deliveryId !in st.deliveries then Err(Internal)
    else if !st.deliveries[deliveryId].isActive then Ok(Outcome(st, []))
    else
      var timedOut := HandleTimedOutDeliveryAttempts(st, deliveryId, now).value;
      match DecideNextAttempt(timedOut.st, deliveryId, now, newId, asWritten)
      case Err(e) => Err(e)
      case Ok(next) => Ok(Outcome(next.st, timedOut.events + next.events))
  }

  /** The part of `lookAfterDelivery` after the timeouts. While an attempt is
      seen as active, or the recipient has auto-delivery disabled, nothing
      happens. Otherwise one active, open attempt is created on the
      highest-priority candidate channel, or, with no candidate left, the
      delivery becomes inactive and unsuccessful. */
  function DecideNextAttempt(st: Store, deliveryId: Id, now: Time, newId: Id, asWritten: bool): (r: Result<Outcome>)
    requires deliveryId in st.deliveries && st.deliveries[deliveryId].isActive
    requires !HasAttempt(st.attempts, newId)
    ensures var d := st.deliveries[deliveryId];
      |ActiveAttemptsSeen(st, deliveryId, asWritten)| > 0 || d.to !in st.autoDelivery ==> r == Ok(Outcome(st, []))
    ensures var d := st.deliveries[deliveryId];
      |ActiveAttemptsSeen(st, deliveryId, asWritten)| == 0 && d.to in st.autoDelivery && NextChannelForDeliveryAttempt(st, deliveryId).None? ==>
        && r.Ok?
        && r.value.st == st.(deliveries := st.deliveries[deliveryId := d.(isActive := false, success := false, note := Some(NoMoreChannelsNote))])
        && r.value.events == [DeliveryStatusUpdated(deliveryId, false, false, Some(NoMoreChannelsNote))]
    ensures var d := st.deliveries[deliveryId];
      var next := NextChannelForDeliveryAttempt(st, deliveryId);
      |ActiveAttemptsSeen(st, deliveryId, asWritten)| == 0 && d.to in st.autoDelivery && next.Some? ==>
        && (r.Ok? <==> d.intel in st.importance && d.to in st.entries)
        && (r.Ok? ==>
              var a := Attempt(newId, deliveryId, next.value.id, now, true, StatusOpen, now, None);
              r.value == Outcome(st.(attempts := st.attempts + [a]), [AttemptCreated(a, d)]))
    ensures r.Err? ==> r.code == NotFound
    ensures r.Ok? ==> SameTargets(st.deliveries, r.value.st.deliveries)
    ensures r.Ok? ==> forall x :: HasAttempt(r.value.st.attempts, x) ==> HasAttempt(st.attempts, x) || x == newId
  {
    var d := st.deliveries[deliveryId];
    if |ActiveAttemptsSeen(st, deliveryId, asWritten)| > 0 then Ok(Outcome(st, []))
    else if d.to !in st.autoDelivery then Ok(Outcome(st, []))
    else match NextChannelForDeliveryAttempt(st, deliveryId)
      case None => MarkDeliveryAsFailed(st, deliveryId, NoMoreChannelsNote)
      case Some(c) =>
        match CreateAttemptFor(st, deliveryId, c.id, now, newId)
        case Err(e) => Err(e)
        case Ok((a, created)) =>
          AppendedIds(st.attempts, a);
          Ok(created)
  }

  /** The same deliveries, each still for the same intel and recipient. */
  predicate SameTargets(a: map<Id, Delivery>, b: map<Id, Delivery>) {
    && a.Keys == b.Keys
    && forall id :: id in a ==> b[id].intel == a[id].intel && b[id].to == a[id].to
  }

  /** Appending an attempt adds its id and no other. */
  lemma AppendedIds(attempts: seq<Attempt>, a: Attempt)
    ensures forall x :: HasAttempt(attempts + [a], x) ==> HasAttempt(attempts, x) || x == a.id
  {
    forall x | HasAttempt(attempts + [a], x) ensures HasAttempt(attempts, x) || x == a.id {
      var i :| 0 <= i < |attempts + [a]| && (attempts + [a])[i].id == x;
      if i < |attempts| { assert attempts[i].id == x; }
    }
  }

  /** The state `lookAfterDelivery` decides on: after timeouts, with no
      attempt seen as active and auto-delivery enabled. */
  predicate WantsNewAttempt(st: Store, deliveryId: Id, now: Time, asWritten: bool)
    requires deliveryId in st.deliveries
  {
    var st1 := HandleTimedOutDeliveryAttempts(st, deliveryId, now).value.st;
    && st.deliveries[deliveryId].isActive
    && |ActiveAttemptsSeen(st1, deliveryId, asWritten)| == 0
    && st.deliveries[deliveryId].to in st.autoDelivery
  }

  /** While an attempt is seen as active, nothing but timeouts happens: no
      attempt is created and the delivery keeps its state. */
  lemma NoNewAttemptWhileActive(st: Store, deliveryId: Id, now: Time, newId: Id, asWritten: bool)
    requires !HasAttempt(st.attempts, newId) && deliveryId in st.deliveries
    requires |ActiveAttemptsSeen(HandleTimedOutDeliveryAttempts(st, deliveryId, now).value.st, deliveryId, asWritten)| > 0
    ensures LookAfterDelivery(st, deliveryId, now, newId, asWritten).Ok?
    ensures var o := LookAfterDelivery(st, deliveryId, now, newId, asWritten).value;
            o.st.deliveries == st.deliveries && |o.st.attempts| == |st.attempts|
  {
  }

  /** With auto-delivery disabled for the recipient, the delivery stays as it
      is and no attempt is created. */
  lemma NoAttemptWithoutAutoDelivery(st: Store, deliveryId: Id, now: Time, newId: Id, asWritten: bool)
    requires !HasAttempt(st.attempts, newId) && deliveryId in st.deliveries
    requires st.deliveries[deliveryId].to !in st.autoDelivery
    ensures LookAfterDelivery(st, deliveryId, now, newId, asWritten).Ok?
    ensures var o := LookAfterDelivery(st, deliveryId, now, newId, asWritten).value;
            o.st.deliveries == st.deliveries && |o.st.attempts| == |st.attempts|
  {
  }

  /** When a new attempt is wanted but no channel is left, the delivery
      becomes inactive and unsuccessful with the matching note. */
  lemma NoChannelLeftFailsDelivery(st: Store, deliveryId: Id, now: Time, newId: Id, asWritten: bool)
    requires !HasAttempt(st.attempts, newId) && deliveryId in st.deliveries
    requires WantsNewAttempt(st, deliveryId, now, asWritten)
    requires NextChannelForDeliveryAttempt(HandleTimedOutDeliveryAttempts(st, deliveryId, now).value.st, deliveryId).None?
    ensures LookAfterDelivery(st, deliveryId, now, newId, asWritten).Ok?
    ensures var d := LookAfterDelivery(st, deliveryId, now, newId, asWritten).value.st.deliveries[deliveryId];
            !d.isActive && !d.success && d.note == Some(NoMoreChannelsNote)
  {
  }

  /** When a new attempt is wanted and a channel is left, exactly one new
      active, open attempt is created on the highest-priority candidate, and
      it is the last event published. */
  lemma NextChannelGetsNewAttempt(st: Store, deliveryId: Id, now: Time, newId: Id, asWritten: bool)
    requires !HasAttempt(st.attempts, newId) && deliveryId in st.deliveries
    requires WantsNewAttempt(st, deliveryId, now, asWritten)
    requires st.deliveries[deliveryId].intel in st.importance && st.deliveries[deliveryId].to in st.entries
    requires NextChannelForDeliveryAttempt(HandleTimedOutDeliveryAttempts(st, deliveryId, now).value.st, deliveryId).Some?
    ensures LookAfterDelivery(st, deliveryId, now, newId, asWritten).Ok?
    ensures var st1 := HandleTimedOutDeliveryAttempts(st, deliveryId, now).value.st;
            var c := NextChannelForDeliveryAttempt(st1, deliveryId).value;
            var o := LookAfterDelivery(st, deliveryId, now, newId, asWritten).value;
            && o.st.attempts == st1.attempts + [Attempt(newId, deliveryId, c.id, now, true, StatusOpen, now, None)]
            && o.st.deliveries == st.deliveries
            && o.events[|o.events| - 1] == AttemptCreated(Attempt(newId, deliveryId, c.id, now, true, StatusOpen, now, None), st.deliveries[deliveryId])
  {
  }

  /** With the store query as written, a delivery that has any attempt at
      all, even one that has long finished, never gets another one: looking
      after it changes neither the delivery nor the number of attempts. */
  lemma AsWrittenNeverRetries(st: Store, deliveryId: Id, now: Time, newId: Id, i: int)
    requires !HasAttempt(st.attempts, newId) && deliveryId in st.deliveries
    requires 0 <= i < |st.attempts| && st.attempts[i].delivery == deliveryId
    ensures LookAfterDelivery(st, deliveryId, now, newId, true).Ok?
    ensures var o := LookAfterDelivery(st, deliveryId, now, newId, true).value;
            o.st.deliveries == st.deliveries && |o.st.attempts| == |st.attempts|
  {
    if st.deliveries[deliveryId].isActive {
      var st1 := HandleTimedOutDeliveryAttempts(st, deliveryId, now).value.st;
      assert st1.attempts[i].delivery == deliveryId;
      assert st1.attempts[i] in AttemptsOf(st1.attempts, deliveryId);
      AttemptsByDeliveryMembers(st1, deliveryId, st1.attempts[i]);
      NoNewAttemptWhileActive(st, deliveryId, now, newId, true);
    }
  }

  /** The corrected query lets a delivery whose only attempt has timed out
      move on to its next channel. */
  lemma CorrectedRetriesAfterTimeout(st: Store, deliveryId: Id, now: Time)
    requires Valid(st) && deliveryId in st.deliveries
    requires forall i :: 0 <= i < |st.attempts| && st.attempts[i].delivery == deliveryId ==>
      !st.attempts[i].isActive || IsTimedOut(st, st.attempts[i], now)
    ensures ActiveAttemptsSeen(HandleTimedOutDeliveryAttempts(st, deliveryId, now).value.st, deliveryId, false) == []
  {
    var st1 := HandleTimedOutDeliveryAttempts(st, deliveryId, now).value.st;
    var r := ActiveAttemptsSeen(st1, deliveryId, false);
    if |r| > 0 {
      var j :| 0 <= j < |st1.attempts| && st1.attempts[j] == r[0];
      TimeoutClosesExactlyTimedOutActive(st, deliveryId, now, j);
      assert false;
    }
  }

  // ---------------------------------------------------------------------------
  // Manual attempts and status updates

  /** `CreateIntelDeliveryAttempt`: a missing delivery is not-found; while an
      attempt of the delivery is seen as active no other may be created.
      `asWritten` selects the store query as written, which sees every
      attempt of the delivery, or the corrected one. */
  function CreateIntelDeliveryAttempt(st: Store, deliveryId: Id, channel: Id, now: Time, newId: Id, asWritten: bool): (r: Result<(Attempt, Outcome)>)
    requires !HasAttempt(st.attempts, newId)
    ensures deliveryId !in st.deliveries ==> r == Err(NotFound)
    ensures deliveryId in st.deliveries && |ActiveAttemptsSeen(st, deliveryId, asWritten)| > 0 ==> r == Err(BadInput)
    ensures r.Ok? ==> |ActiveAttemptsSeen(st, deliveryId, asWritten)| == 0 && r == CreateAttemptFor(st, deliveryId, channel, now, newId)
  {
    var _ :- LockIntelDeliveryByIDOrSkip(st, deliveryId);
    if |ActiveAttemptsSeen(st, deliveryId, asWritten)| > 0 then Err(BadInput)
    else CreateAttemptFor(st, deliveryId, channel, now, newId)
  }

  /** As written, any earlier attempt of the delivery, even a finished one,
      makes a manual attempt bad input; with the corrected query only an
      active one does. */
  lemma AsWrittenRefusesAfterAnyAttempt(st: Store, deliveryId: Id, channel: Id, now: Time, newId: Id, i: int)
    requires !HasAttempt(st.attempts, newId) && deliveryId in st.deliveries
    requires 0 <= i < |st.attempts| && st.attempts[i].delivery == deliveryId
    ensures CreateIntelDeliveryAttempt(st, deliveryId, channel, now, newId, true) == Err(BadInput)
  {
    assert st.attempts[i] in AttemptsOf(st.attempts, deliveryId);
    AttemptsByDeliveryMembers(st, deliveryId, st.attempts[i]);
  }

  /** With the corrected query, a delivery whose attempts are all inactive
      takes a manual attempt exactly as `CreateAttemptFor` allows. */
  lemma CorrectedAcceptsAfterFinishedAttempts(st: Store, deliveryId: Id, channel: Id, now: Time, newId: Id)
    requires !HasAttempt(st.attempts, newId) && deliveryId in st.deliveries
    requires forall i :: 0 <= i < |st.attempts| && st.attempts[i].delivery == deliveryId ==> !st.attempts[i].isActive
    ensures CreateIntelDeliveryAttempt(st, deliveryId, channel, now, newId, false) == CreateAttemptFor(st, deliveryId, channel, now, newId)
  {
    NoActiveRowsNoActiveAttempts(st, deliveryId);
  }

  /** `UpdateIntelDeliveryAttemptStatusForActive`: skipped for an attempt
      that is inactive or canceled; otherwise the attempt stays active with
      the new status and note, and this is published. */
  function UpdateIntelDeliveryAttemptStatusForActive(st: Store, attemptId: Id, status: string, note: Option<string>, now: Time): (r: Result<Outcome>)
    ensures !HasAttempt(st.attempts, attemptId) ==> r == Err(NotFound)
    ensures r.Err? ==> r.code == NotFound
    ensures r.Ok? ==> r.value.st.deliveries == st.deliveries
    ensures r.Ok? ==>
      var a := IntelDeliveryAttemptByID(st, attemptId).value;
      if !a.isActive || a.status == StatusCanceled then r.value == Outcome(st, [])
      else
        && |r.value.st.attempts| == |st.attempts|
        && (forall i :: 0 <= i < |st.attempts| && st.attempts[i].id == attemptId ==>
              r.value.st.attempts[i] == SetStatus(st.attempts[i], true, status, note, now))
        && (forall i :: 0 <= i < |st.attempts| && st.attempts[i].id != attemptId ==> r.value.st.attempts[i] == st.attempts[i])
        && |r.value.events| == 1 && r.value.events[0].AttemptStatusUpdated?
        && r.value.events[0].attempt.isActive && r.value.events[0].attempt.status == status
  {
    var a :- IntelDeliveryAttemptByID(st, attemptId);
    var _ :- LockIntelDeliveryByIDOrSkip(st, a.delivery);
    if !a.isActive || a.status == StatusCanceled then Ok(Outcome(st, []))
    else
      var st1 := UpdateIntelDeliveryAttemptStatusByID(st, attemptId, true, status, note, now).value;
      var updated := IntelDeliveryAttemptByID(st1, attemptId).value;
      UpdatedAttemptReadsBack(st, attemptId, true, status, note, now);
      Ok(Outcome(st1, [AttemptStatusUpdated(updated)]))
  }

  /** `MarkIntelDeliveryAttemptAsFailed`: an attempt that is still active is
      closed as failed, published, and its delivery is looked after with the
      active-attempt query as written or corrected. As written, the failed
      attempt itself keeps the delivery from moving on. */
  function MarkIntelDeliveryAttemptAsFailed(st: Store, attemptId: Id, note: Option<string>, now: Time, newId: Id, asWritten: bool): (r: Result<Outcome>)
    requires !HasAttempt(st.attempts, newId)
    ensures !HasAttempt(st.attempts, attemptId) ==> r == Err(NotFound)
    ensures r.Ok? ==>
      var a := IntelDeliveryAttemptByID(st, attemptId).value;
      && a.delivery in st.deliveries
      && (!a.isActive ==> r.value == Outcome(st, []))
      && (a.isActive ==>
            && 1 <= |r.value.events| && r.value.events[0].AttemptStatusUpdated?
            && r.value.events[0].attempt.status == StatusFailed && !r.value.events[0].attempt.isActive)
    ensures r.Ok? ==> r.value.st.deliveries.Keys == st.deliveries.Keys
    ensures r.Ok? && asWritten ==> r.value.st.deliveries == st.deliveries && |r.value.st.attempts| == |st.attempts|
  {
    var a :- IntelDeliveryAttemptByID(st, attemptId);
    var _ :- IntelDeliveryByID(st, a.delivery);
    if !a.isActive then Ok(Outcome(st, []))
    else
      var st1 := UpdateIntelDeliveryAttemptStatusByID(st, attemptId, false, StatusFailed, note, now).value;
      var updated := IntelDeliveryAttemptByID(st1, attemptId).value;
      UpdatedAttemptReadsBack(st, attemptId, false, StatusFailed, note, now);
      var looked :- LookAfterDelivery(st1, updated.delivery, now, newId, asWritten);
      assert asWritten ==> looked.st.deliveries == st1.deliveries && |looked.st.attempts| == |st1.attempts| by {
        if asWritten {
          FailedAttemptBlocksAsWritten(st1, updated, now, newId);
        }
      }
      Ok(Outcome(looked.st, [AttemptStatusUpdated(updated)] + looked.events))
  }

  lemma FailedAttemptBlocksAsWritten(st: Store, updated: Attempt, now: Time, newId: Id)
    requires !HasAttempt(st.attempts, newId) && updated in st.attempts && updated.delivery in st.deliveries
    ensures LookAfterDelivery(st, updated.delivery, now, newId, true).Ok?
    ensures var o := LookAfterDelivery(st, updated.delivery, now, newId, true).value;
            o.st.deliveries == st.deliveries && |o.st.attempts| == |st.attempts|
  {
    var j :| 0 <= j < |st.attempts| && st.attempts[j] == updated;
    AsWrittenNeverRetries(st, updated.delivery, now, newId, j);
  }

  /** With the corrected query, failing the last active attempt of an active
      delivery whose recipient has auto-delivery moves the delivery on:
      either a new attempt is created or the delivery fails for lack of
      channels. */
  lemma {:induction false} CorrectedFailureMovesOn(st: Store, attemptId: Id, note: Option<string>, now: Time, newId: Id)
    requires Valid(st) && !HasAttempt(st.attempts, newId) && HasAttempt(st.attempts, attemptId)
    requires var a := IntelDeliveryAttemptByID(st, attemptId).value;
      && a.isActive && a.delivery in st.deliveries && st.deliveries[a.delivery].isActive
      && st.deliveries[a.delivery].to in st.autoDelivery
      && forall i :: 0 <= i < |st.attempts| && st.attempts[i].delivery == a.delivery && st.attempts[i].isActive ==>
           st.attempts[i].id == attemptId
    ensures var a := IntelDeliveryAttemptByID(st, attemptId).value;
      var r := MarkIntelDeliveryAttemptAsFailed(st, attemptId, note, now, newId, false);
      r.Ok? ==> |r.value.st.attempts| == |st.attempts| + 1 || !r.value.st.deliveries[a.delivery].isActive
  {
    var a := IntelDeliveryAttemptByID(st, attemptId).value;
    var d := a.delivery;
    var st1 := UpdateIntelDeliveryAttemptStatusByID(st, attemptId, false, StatusFailed, note, now).value;
    FailedLeavesNoneActive(st, attemptId, note, now);
    var st2 := HandleTimedOutDeliveryAttempts(st1, d, now).value.st;
    assert WantsNewAttempt(st1, d, now, false);
    if NextChannelForDeliveryAttempt(st2, d).None? {
      NoChannelLeftFailsDelivery(st1, d, now, newId, false);
    } else if st1.deliveries[d].intel in st1.importance && st1.deliveries[d].to in st1.entries {
      NextChannelGetsNewAttempt(st1, d, now, newId, false);
    }
  }

  /** Failing the last active attempt of a delivery leaves it, after the
      timeouts, without an active attempt; the failed row is the one read
      back. */
  lemma {:induction false} FailedLeavesNoneActive(st: Store, attemptId: Id, note: Option<string>, now: Time)
    requires Valid(st) && HasAttempt(st.attempts, attemptId)
    requires var a := IntelDeliveryAttemptByID(st, attemptId).value;
      forall i :: 0 <= i < |st.attempts| && st.attempts[i].delivery == a.delivery && st.attempts[i].isActive ==>
        st.attempts[i].id == attemptId
    ensures var a := IntelDeliveryAttemptByID(st, attemptId).value;
      var st1 := UpdateIntelDeliveryAttemptStatusByID(st, attemptId, false, StatusFailed, note, now).value;
      && IntelDeliveryAttemptByID(st1, attemptId).Ok?
      && IntelDeliveryAttemptByID(st1, attemptId).value.delivery == a.delivery
      && |ActiveIntelDeliveryAttemptsByDelivery(HandleTimedOutDeliveryAttempts(st1, a.delivery, now).value.st, a.delivery)| == 0
  {
    var a := IntelDeliveryAttemptByID(st, attemptId).value;
    var d := a.delivery;
    var st1 := UpdateIntelDeliveryAttemptStatusByID(st, attemptId, false, StatusFailed, note, now).value;
    UpdatedAttemptReadsBack(st, attemptId, false, StatusFailed, note, now);
    var updated := IntelDeliveryAttemptByID(st1, attemptId).value;
    assert updated.delivery == d by {
      var j :| 0 <= j < |st1.attempts| && st1.attempts[j] == updated;
      var k :| 0 <= k < |st.attempts| && st.attempts[k] == a;
      assert st.attempts[j].id == attemptId;
    }
    forall i | 0 <= i < |st1.attempts| && st1.attempts[i].delivery == d ensures !st1.attempts[i].isActive {
      if st.attempts[i].id != attemptId {
        assert st1.attempts[i] == st.attempts[i];
      }
    }
    TimeoutsKeepNoneActive(st1, d, now);
  }

  /** Closing timed-out attempts activates none, so a delivery without an
      active attempt has none afterwards. */
  lemma TimeoutsKeepNoneActive(st: Store, d: Id, now: Time)
    requires forall i :: 0 <= i < |st.attempts| && st.attempts[i].delivery == d ==> !st.attempts[i].isActive
    ensures |ActiveIntelDeliveryAttemptsByDelivery(HandleTimedOutDeliveryAttempts(st, d, now).value.st, d)| == 0
  {
    var st2 := HandleTimedOutDeliveryAttempts(st, d, now).value.st;
    forall i | 0 <= i < |st2.attempts| && st2.attempts[i].delivery == d ensures !st2.attempts[i].isActive {
      assert st.attempts[i].delivery == d;
    }
    NoActiveRowsNoActiveAttempts(st2, d);
  }

  lemma NoActiveRowsNoActiveAttempts(st: Store, d: Id)
    requires forall i :: 0 <= i < |st.attempts| && st.attempts[i].delivery == d ==> !st.attempts[i].isActive
    ensures |ActiveIntelDeliveryAttemptsByDelivery(st, d)| == 0
  {
    var active := ActiveIntelDeliveryAttemptsByDelivery(st, d);
    if |active| > 0 {
      IndexOfMember(active[0], st.attempts);
      assert false;
    }
  }

  // ---------------------------------------------------------------------------
  // Manual delivery confirmation

  /** The permission check of `MarkIntelDeliveryAndAttemptAsDelivered` as
      written: the caller's user id is compared with the id of the address
      book entry the delivery goes to. */
  predicate MayMarkDeliveredAsWritten(d: Delivery, marker: Option<Id>) {
    marker.None? || marker.value == d.to
  }

  /** The check as intended: the caller must be the user the recipient entry
      belongs to. */
  predicate MayMarkDelivered(st: Store, d: Delivery, marker: Option<Id>) {
    marker.None? || (d.to in st.entryUser && st.entryUser[d.to] == marker.value)
  }

  /** A user confirming a delivery to their own entry is refused by the
      check as written and accepted by the intended one. */
  lemma OwnerIsRefusedAsWritten()
    ensures var st := Store.Store(map[], [], [], map[], map[], {IdB}, map[IdB := IdA], {});
            var d := Delivery(IdC, IdC, IdB, true, false, None);
            !MayMarkDeliveredAsWritten(d, Some(IdA)) && MayMarkDelivered(st, d, Some(IdA))
  {
    assert IdA[35] != IdB[35];
  }

  /** The outcome of each active attempt on manual confirmation. */
  function ConfirmationOutcome(attemptId: Option<Id>): Id -> (string, Option<string>) {
    (id: Id) => if attemptId == Some(id) then (StatusDelivered, None) else (StatusCanceled, Some(ManualConfirmationNote))
  }

  /** `MarkIntelDeliveryAndAttemptAsDelivered`: not-found for a missing
      delivery, forbidden for a caller who is not the recipient; otherwise
      every active attempt of the delivery is closed, as delivered when it is
      the given attempt and as canceled otherwise, and the delivery becomes
      inactive and successful. */
  function MarkIntelDeliveryAndAttemptAsDelivered(st: Store, deliveryId: Id, attemptId: Option<Id>, marker: Option<Id>, now: Time): (r: Result<Outcome>)
    ensures deliveryId !in st.deliveries ==> r == Err(NotFound)
    ensures deliveryId in st.deliveries && !MayMarkDelivered(st, st.deliveries[deliveryId], marker) ==> r == Err(Forbidden)
    ensures r.Ok? <==> deliveryId in st.deliveries && MayMarkDelivered(st, st.deliveries[deliveryId], marker)
    ensures r.Ok? ==> deliveryId in r.value.st.deliveries && |r.value.events| > 0
    ensures r.Ok? ==>
      var d := r.value.st.deliveries[deliveryId];
      && !d.isActive && d.success && d.note == Some(DeliveredNote)
      && r.value.st.deliveries == st.deliveries[deliveryId := d]
      && |r.value.st.attempts| == |st.attempts|
      && r.value.events[|r.value.events| - 1] == DeliveryStatusUpdated(deliveryId, false, true, Some(DeliveredNote))
    ensures r.Ok? ==> forall i :: 0 <= i < |st.attempts| ==>
      var a := st.attempts[i];
      r.value.st.attempts[i] == Closed(a, ActiveIntelDeliveryAttemptsByDelivery(st, deliveryId), ConfirmationOutcome(attemptId), now)
  {
    var d :- IntelDeliveryByID(st, deliveryId);
    if !MayMarkDelivered(st, d, marker) then Err(Forbidden)
    else
      var active := ActiveIntelDeliveryAttemptsByDelivery(st, deliveryId);
      assert forall k :: 0 <= k < |active| ==> HasAttempt(st.attempts, active[k].id) by {
        forall k | 0 <= k < |active| ensures HasAttempt(st.attempts, active[k].id) {
          var j :| 0 <= j < |st.attempts| && st.attempts[j] == active[k];
        }
      }
      var closed := CloseAttempts(st, active, ConfirmationOutcome(attemptId), now).value;
      var failed := MarkDeliveryFinished(closed.st, deliveryId);
      Ok(Outcome(failed, closed.events + [DeliveryStatusUpdated(deliveryId, false, true, Some(DeliveredNote))]))
  }

  function MarkDeliveryFinished(st: Store, deliveryId: Id): (r: Store)
    requires deliveryId in st.deliveries
    ensures r == UpdateIntelDeliveryStatusByDelivery(st, deliveryId, false, true, Some(DeliveredNote)).value
  {
    UpdateIntelDeliveryStatusByDelivery(st, deliveryId, false, true, Some(DeliveredNote)).value
  }

  /** With unique attempt ids, manual confirmation closes exactly the active
      attempts of the delivery: the confirmed one as delivered, the others as
      canceled; every other attempt is left as it was. */
  lemma ConfirmationClosesActiveAttempts(st: Store, deliveryId: Id, attemptId: Option<Id>, marker: Option<Id>, now: Time, i: int)
    requires Valid(st) && 0 <= i < |st.attempts|
    requires MarkIntelDeliveryAndAttemptAsDelivered(st, deliveryId, attemptId, marker, now).Ok?
    ensures var a := st.attempts[i];
            var b := MarkIntelDeliveryAndAttemptAsDelivered(st, deliveryId, attemptId, marker, now).value.st.attempts[i];
            && (a.delivery == deliveryId && a.isActive ==> !b.isActive && (b.status == StatusDelivered <==> attemptId == Some(a.id)))
            && (a.delivery == deliveryId && a.isActive && attemptId != Some(a.id) ==> b.status == StatusCanceled)
            && (a.delivery != deliveryId || !a.isActive ==> b == a)
  {
    var a := st.attempts[i];
    var active := ActiveIntelDeliveryAttemptsByDelivery(st, deliveryId);
    if a.delivery == deliveryId && a.isActive {
      var k :| 0 <= k < |active| && active[k] == a;
      assert InIds(active, a.id);
    } else {
      UniqueIdsPinRow(st, active, i);
    }
  }

  /** `MarkIntelDeliveryAttemptAsDeliveredTx`: the attempt's own delivery is
      confirmed with the attempt as the delivered one. */
  function MarkIntelDeliveryAttemptAsDelivered(st: Store, attemptId: Id, marker: Option<Id>, now: Time): (r: Result<Outcome>)
    ensures !HasAttempt(st.attempts, attemptId) ==> r == Err(NotFound)
    ensures r.Ok? ==> HasAttempt(st.attempts, attemptId)
    ensures r.Ok? ==> var d := IntelDeliveryAttemptByID(st, attemptId).value.delivery;
      r == MarkIntelDeliveryAndAttemptAsDelivered(st, d, Some(attemptId), marker, now)
  {
    var a :- IntelDeliveryAttemptByID(st, attemptId);
    MarkIntelDeliveryAndAttemptAsDelivered(st, a.delivery, Some(attemptId), marker, now)
  }

  /** An attempt confirmed while active ends delivered and inactive, and so
      does its delivery, successfully. */
  lemma ConfirmedAttemptIsDelivered(st: Store, attemptId: Id, marker: Option<Id>, now: Time, i: int)
    requires Valid(st) && 0 <= i < |st.attempts| && st.attempts[i].id == attemptId && st.attempts[i].isActive
    requires MarkIntelDeliveryAttemptAsDelivered(st, attemptId, marker, now).Ok?
    ensures var o := MarkIntelDeliveryAttemptAsDelivered(st, attemptId, marker, now).value;
      && !o.st.attempts[i].isActive && o.st.attempts[i].status == StatusDelivered
      && st.attempts[i].delivery in o.st.deliveries
      && !o.st.deliveries[st.attempts[i].delivery].isActive && o.st.deliveries[st.attempts[i].delivery].success
  {
    var a := IntelDeliveryAttemptByID(st, attemptId).value;
    var j :| 0 <= j < |st.attempts| && st.attempts[j] == a;
    assert j == i;
    ConfirmationClosesActiveAttempts(st, a.delivery, Some(attemptId), marker, now, i);
  }

  /** `MarkIntelDeliveryAsDelivered`: the delivery is confirmed without a
      delivered attempt, so every active attempt of it is canceled. */
  function MarkIntelDeliveryAsDelivered(st: Store, deliveryId: Id, marker: Option<Id>, now: Time): (r: Result<Outcome>)
    ensures r == MarkIntelDeliveryAndAttemptAsDelivered(st, deliveryId, None, marker, now)
  {
    MarkIntelDeliveryAndAttemptAsDelivered(st, deliveryId, None, marker, now)
  }

  /** Confirming a whole delivery leaves none of its attempts delivered by
      this confirmation: each active one is canceled. */
  lemma ConfirmedDeliveryCancelsAttempts(st: Store, deliveryId: Id, marker: Option<Id>, now: Time, i: int)
    requires Valid(st) && 0 <= i < |st.attempts| && st.attempts[i].delivery == deliveryId && st.attempts[i].isActive
    requires MarkIntelDeliveryAsDelivered(st, deliveryId, marker, now).Ok?
    ensures var b := MarkIntelDeliveryAsDelivered(st, deliveryId, marker, now).value.st.attempts[i];
      !b.isActive && b.status == StatusCanceled
  {
    ConfirmationClosesActiveAttempts(st, deliveryId, None, marker, now, i);
  }

  // ---------------------------------------------------------------------------
  // Deleted channels

  /** The attempt as published when its channel is deleted. The store row is
      not updated, because it is deleted right after. */
  function CanceledByDeletion(a: Attempt, now: Time): Attempt {
    SetStatus(a, false, StatusCanceled, Some(ChannelDeletionNote), now)
  }

  /** Deletes the attempts on each of the channels in turn. */
  function DeleteAttemptsOfChannels(st: Store, channels: seq<Id>): (r: Store)
    ensures r == st.(attempts := r.attempts)
    ensures forall i :: 0 <= i < |r.attempts| ==> r.attempts[i].channel !in channels && r.attempts[i] in st.attempts
    ensures forall i :: 0 <= i < |st.attempts| && st.attempts[i].channel !in channels ==> st.attempts[i] in r.attempts
    decreases |channels|
  {
    if |channels| == 0 then st
    else
      var rest := DeleteAttemptsOfChannels(DeleteIntelDeliveryAttemptsByChannel(st, channels[0]), channels[1..]);
      assert forall c :: c in channels <==> c == channels[0] || c in channels[1..];
      rest
  }

  /** `handleDeletedChannelsForDeliveryAttempts`: every active attempt on a
      deleted channel is published as canceled, all attempts on the deleted
      channels are removed, and the deliveries of the canceled attempts are
      returned for a later look-after. */
  function HandleDeletedChannelsForDeliveryAttempts(st: Store, deleted: seq<Id>, now: Time): (r: (Store, seq<Event>, set<Id>))
    ensures r.0 == st.(attempts := r.0.attempts)
    ensures forall i :: 0 <= i < |r.0.attempts| ==> r.0.attempts[i].channel !in deleted && r.0.attempts[i] in st.attempts
    ensures forall i :: 0 <= i < |st.attempts| && st.attempts[i].channel !in deleted ==> st.attempts[i] in r.0.attempts
    ensures forall k :: 0 <= k < |r.1| ==>
      && r.1[k].AttemptStatusUpdated?
      && !r.1[k].attempt.isActive && r.1[k].attempt.status == StatusCanceled
      && r.1[k].attempt.channel in deleted
    ensures forall i :: 0 <= i < |st.attempts| && st.attempts[i].isActive && st.attempts[i].channel in deleted ==>
      AttemptStatusUpdated(CanceledByDeletion(st.attempts[i], now)) in r.1
    ensures forall id :: id in r.2 <==>
      exists i :: 0 <= i < |st.attempts| && st.attempts[i].isActive && st.attempts[i].channel in deleted && st.attempts[i].delivery == id
  {
    var affected := ActiveIntelDeliveryAttemptsByChannels(st, deleted);
    var events := Map((a: Attempt) => AttemptStatusUpdated(CanceledByDeletion(a, now)), affected);
    var deliveries := set k | 0 <= k < |affected| :: affected[k].delivery;
    CanceledAttemptsPublished(st, deleted, now, affected, events, deliveries);
    (DeleteAttemptsOfChannels(st, deleted), events, deliveries)
  }

  lemma CanceledAttemptsPublished(st: Store, deleted: seq<Id>, now: Time, affected: seq<Attempt>, events: seq<Event>, deliveries: set<Id>)
    requires forall k :: 0 <= k < |affected| ==> affected[k] in st.attempts && affected[k].isActive && affected[k].channel in deleted
    requires forall i :: 0 <= i < |st.attempts| && st.attempts[i].isActive && st.attempts[i].channel in deleted ==> st.attempts[i] in affected
    requires |events| == |affected| && forall k :: 0 <= k < |affected| ==> events[k] == AttemptStatusUpdated(CanceledByDeletion(affected[k], now))
    requires deliveries == set k | 0 <= k < |affected| :: affected[k].delivery
    ensures forall i :: 0 <= i < |st.attempts| && st.attempts[i].isActive && st.attempts[i].channel in deleted ==>
      AttemptStatusUpdated(CanceledByDeletion(st.attempts[i], now)) in events
    ensures forall id :: id in deliveries <==>
      exists i :: 0 <= i < |st.attempts| && st.attempts[i].isActive && st.attempts[i].channel in deleted && st.attempts[i].delivery == id
  {
    forall id | id in deliveries
      ensures exists i :: 0 <= i < |st.attempts| && st.attempts[i].isActive && st.attempts[i].channel in deleted && st.attempts[i].delivery == id
    {
      var k :| 0 <= k < |affected| && affected[k].delivery == id;
      var i :| 0 <= i < |st.attempts| && st.attempts[i] == affected[k];
    }
    forall i | 0 <= i < |st.attempts| && st.attempts[i].isActive && st.attempts[i].channel in deleted
      ensures st.attempts[i].delivery in deliveries && AttemptStatusUpdated(CanceledByDeletion(st.attempts[i], now)) in events
    {
      var k :| 0 <= k < |affected| && affected[k] == st.attempts[i];
      assert events[k] == AttemptStatusUpdated(CanceledByDeletion(st.attempts[i], now));
    }
  }

  // ---------------------------------------------------------------------------
  // Scheduling

  /** The database's new ids from position `k` on are unused. */
  predicate FreshFrom(st: Store, deliveryIds: seq<Id>, attemptIds: seq<Id>, k: nat)
    requires |deliveryIds| == |attemptIds|
  {
    forall j :: k <= j < |deliveryIds| ==> deliveryIds[j] !in st.deliveries && !HasAttempt(st.attempts, attemptIds[j])
  }

  /** There is a delivery of the intel to each recipient from position `k`
      on, under its id. */
  predicate ScheduledFrom(deliveries: map<Id, Delivery>, intel: Id, recipients: seq<Id>, deliveryIds: seq<Id>, k: nat)
    requires |deliveryIds| == |recipients|
  {
    forall j :: k <= j < |recipients| ==>
      && deliveryIds[j] in deliveries
      && deliveries[deliveryIds[j]].intel == intel
      && deliveries[deliveryIds[j]].to == recipients[j]
  }

  /** Each recipient from position `k` on has its new delivery announced. */
  predicate AnnouncedFrom(events: seq<Event>, intel: Id, recipients: seq<Id>, deliveryIds: seq<Id>, k: nat)
    requires |deliveryIds| == |recipients|
  {
    forall j :: k <= j < |recipients| ==> DeliveryCreated(Delivery(deliveryIds[j], intel, recipients[j], true, false, None)) in events
  }

  /** The deliveries of `a` are still in `b`, for the same intel and
      recipient. */
  predicate KeepsTargets(a: map<Id, Delivery>, b: map<Id, Delivery>) {
    forall id :: id in a ==> id in b && b[id].intel == a[id].intel && b[id].to == a[id].to
  }

  /** `scheduleDeliveriesForIntel`: not-found for missing intel; otherwise a
      delivery is created, published and looked after for each recipient in
      turn. The database's new ids are supplied up front: one delivery id
      and one attempt id per recipient. */
  function ScheduleDeliveriesForIntel(st: Store, intel: Id, recipients: seq<Id>, deliveryIds: seq<Id>, attemptIds: seq<Id>, now: Time): (r: Result<Outcome>)
    requires |deliveryIds| == |recipients| == |attemptIds|
    requires NoDuplicates(deliveryIds) && NoDuplicates(attemptIds)
    requires FreshFrom(st, deliveryIds, attemptIds, 0)
    ensures intel !in st.importance ==> r == Err(NotFound)
    ensures r.Ok? ==> ScheduledFrom(r.value.st.deliveries, intel, recipients, deliveryIds, 0)
    ensures r.Ok? ==> AnnouncedFrom(r.value.events, intel, recipients, deliveryIds, 0)
    ensures r.Ok? ==> KeepsTargets(st.deliveries, r.value.st.deliveries)
    ensures r.Ok? && |recipients| > 0 ==> |r.value.events| > 0 && r.value.events[0] == DeliveryCreated(Delivery(deliveryIds[0], intel, recipients[0], true, false, None))
  {
    if intel !in st.importance then Err(NotFound)
    else CreateAndLookAfter(st, intel, recipients, deliveryIds, attemptIds, now, 0)
  }

  /** The loop of `scheduleDeliveriesForIntel` from recipient `k` on. */
  function CreateAndLookAfter(st: Store, intel: Id, recipients: seq<Id>, deliveryIds: seq<Id>, attemptIds: seq<Id>, now: Time, k: nat): (r: Result<Outcome>)
    requires |deliveryIds| == |recipients| == |attemptIds| && k <= |recipients|
    requires NoDuplicates(deliveryIds) && NoDuplicates(attemptIds)
    requires FreshFrom(st, deliveryIds, attemptIds, k)
    ensures r.Ok? ==> ScheduledFrom(r.value.st.deliveries, intel, recipients, deliveryIds, k)
    ensures r.Ok? ==> AnnouncedFrom(r.value.events, intel, recipients, deliveryIds, k)
    ensures r.Ok? ==> KeepsTargets(st.deliveries, r.value.st.deliveries)
    ensures r.Ok? && k < |recipients| ==> |r.value.events| > 0 && r.value.events[0] == DeliveryCreated(Delivery(deliveryIds[k], intel, recipients[k], true, false, None))
    decreases |recipients| - k
  {
    if k == |recipients| then Ok(Outcome(st, []))
    else
      var d := Delivery(deliveryIds[k], intel, recipients[k], true, false, None);
      var st1 := CreateIntelDelivery(st, d, deliveryIds[k]).1;
      match LookAfterDelivery(st1, d.id, now, attemptIds[k], false)
      case Err(e) => Err(e)
      case Ok(looked) =>
        FreshAfterStep(st, looked.st, deliveryIds, attemptIds, k);
        match CreateAndLookAfter(looked.st, intel, recipients, deliveryIds, attemptIds, now, k + 1)
        case Err(e) => Err(e)
        case Ok(rest) =>
          KeepsTargetsThroughStep(st.deliveries, deliveryIds[k], d, looked.st.deliveries, rest.st.deliveries);
          ScheduledThroughStep(st1.deliveries, rest.st.deliveries, intel, recipients, deliveryIds, k);
          AnnouncedThroughStep(d, looked.events, rest.events, intel, recipients, deliveryIds, k);
          Ok(Outcome(rest.st, [DeliveryCreated(d)] + looked.events + rest.events))
  }

  /** The delivery created at step `k` survives the later steps, so the
      schedule from `k + 1` on extends to `k`. */
  lemma ScheduledThroughStep(created: map<Id, Delivery>, later: map<Id, Delivery>, intel: Id, recipients: seq<Id>, deliveryIds: seq<Id>, k: nat)
    requires |deliveryIds| == |recipients| && k < |recipients|
    requires deliveryIds[k] in created
    requires created[deliveryIds[k]].intel == intel && created[deliveryIds[k]].to == recipients[k]
    requires KeepsTargets(created, later)
    requires ScheduledFrom(later, intel, recipients, deliveryIds, k + 1)
    ensures ScheduledFrom(later, intel, recipients, deliveryIds, k)
  {
  }

  /** The announcement of step `k` followed by the later ones announces
      every recipient from `k` on. */
  lemma AnnouncedThroughStep(d: Delivery, looked: seq<Event>, later: seq<Event>, intel: Id, recipients: seq<Id>, deliveryIds: seq<Id>, k: nat)
    requires |deliveryIds| == |recipients| && k < |recipients|
    requires d == Delivery(deliveryIds[k], intel, recipients[k], true, false, None)
    requires AnnouncedFrom(later, intel, recipients, deliveryIds, k + 1)
    ensures AnnouncedFrom([DeliveryCreated(d)] + looked + later, intel, recipients, deliveryIds, k)
  {
    var all := [DeliveryCreated(d)] + looked + later;
    forall j | k < j < |recipients|
      ensures DeliveryCreated(Delivery(deliveryIds[j], intel, recipients[j], true, false, None)) in all
    {
      var e := DeliveryCreated(Delivery(deliveryIds[j], intel, recipients[j], true, false, None));
      var i :| 0 <= i < |later| && later[i] == e;
      assert all[1 + |looked| + i] == e;
    }
    assert all[0] == DeliveryCreated(d);
  }

  /** A new delivery, then a step that keeps targets, then later steps that
      keep them: the deliveries before and the new one all survive. */
  lemma KeepsTargetsThroughStep(a: map<Id, Delivery>, id: Id, x: Delivery, c: map<Id, Delivery>, d: map<Id, Delivery>)
    requires id !in a
    requires SameTargets(a[id := x], c) && KeepsTargets(c, d)
    ensures KeepsTargets(a, d) && KeepsTargets(a[id := x], d)
  {
  }

  lemma FreshAfterStep(st: Store, st2: Store, deliveryIds: seq<Id>, attemptIds: seq<Id>, k: nat)
    requires |deliveryIds| == |attemptIds| && k < |deliveryIds|
    requires NoDuplicates(deliveryIds) && NoDuplicates(attemptIds)
    requires FreshFrom(st, deliveryIds, attemptIds, k)
    requires st2.deliveries.Keys == st.deliveries.Keys + {deliveryIds[k]}
    requires forall x :: HasAttempt(st2.attempts, x) ==> HasAttempt(st.attempts, x) || x == attemptIds[k]
    ensures FreshFrom(st2, deliveryIds, attemptIds, k + 1)
  {
  }
}
