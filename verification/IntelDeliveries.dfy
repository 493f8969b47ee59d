/** The intel-delivery tables of the logistics service
    (logistics-svc/store/intel_delivery.go): deliveries of intel to
    address-book entries, the attempts made for them over the entries'
    channels, and the queries the delivery controller is built on. */
module IntelDeliveries {
  import opened Common
  import opened Channels

  // ---------------------------------------------------------------------------
  // Statuses

  const StatusOpen: string := "open"
  const StatusAwaitingDelivery: string := "awaiting-delivery"
  const StatusDelivering: string := "delivering"
  const StatusAwaitingAck: string := "awaiting-ack"
  const StatusDelivered: string := "delivered"
  const StatusTimeout: string := "timeout"
  const StatusCanceled: string := "canceled"
  const StatusFailed: string := "failed"

  /** The eight declared attempt statuses; the status column is free text. */
  const KnownStatuses: set<string> :=
    {StatusOpen, StatusAwaitingDelivery, StatusDelivering, StatusAwaitingAck,
     StatusDelivered, StatusTimeout, StatusCanceled, StatusFailed}

  lemma KnownStatusesAreDistinct()
    ensures |KnownStatuses| == 8
  {
    assert StatusOpen[0] == 'o' && StatusAwaitingDelivery[0] == 'a' && StatusDelivering[0] == 'd';
    assert StatusAwaitingAck[0] == 'a' && StatusDelivered[0] == 'd' && StatusTimeout[0] == 't';
    assert StatusCanceled[0] == 'c' && StatusFailed[0] == 'f';
    assert StatusAwaitingDelivery[9] != StatusAwaitingAck[9];
    assert StatusDelivering[7] != StatusDelivered[7];
  }

  // ---------------------------------------------------------------------------
  // Records and tables

  datatype Delivery = Delivery(id: Id, intel: Id, to: Id, isActive: bool, success: bool, note: Option<string>)

  datatype Attempt = Attempt(
    id: Id,
    delivery: Id,
    channel: Id,
    createdAt: Time,
    isActive: bool,
    status: string,
    statusTs: Time,
    note: Option<string>)

  /** The logistics database as far as deliveries are concerned: deliveries by
      id, the attempt table, the channel table, importance and operation of
      each intel, the existing address-book entries, the user each entry
      belongs to (if any) and the entries with auto-delivery enabled. */
  datatype Store = Store(
    deliveries: map<Id, Delivery>,
    attempts: seq<Attempt>,
    channels: seq<Channel>,
    importance: map<Id, int>,
    intelOperation: map<Id, Id>,
    entries: set<Id>,
    entryUser: map<Id, Id>,
    autoDelivery: set<Id>)

  predicate HasAttempt(attempts: seq<Attempt>, id: Id) {
    exists i :: 0 <= i < |attempts| && attempts[i].id == id
  }

  /** Deliveries are stored under their id and attempt ids are unique. */
  predicate Valid(st: Store) {
    && (forall id :: id in st.deliveries ==> st.deliveries[id].id == id)
    && (forall i, j :: 0 <= i < j < |st.attempts| ==> st.attempts[i].id != st.attempts[j].id)
  }

  // ---------------------------------------------------------------------------
  // Deliveries

  /** `CreateIntelDelivery`; the database assigns `newId`. */
  function CreateIntelDelivery(st: Store, create: Delivery, newId: Id): (r: (Delivery, Store))
    requires newId !in st.deliveries
    ensures r.0 == create.(id := newId)
    ensures r.1.deliveries == st.deliveries[newId := r.0]
    ensures r.1.attempts == st.attempts
    ensures Valid(st) ==> Valid(r.1)
  {
    var d := create.(id := newId);
    (d, st.(deliveries := st.deliveries[newId := d]))
  }

  /** `IntelDeliveryByID` (also `IntelDeliveryByIDAndLockOrWait`, whose lock
      is not modelled). */
  function IntelDeliveryByID(st: Store, id: Id): (r: Result<Delivery>)
    ensures r.Ok? <==> id in st.deliveries
    ensures r.Err? ==> r.code == NotFound
    ensures r.Ok? ==> r.value == st.deliveries[id]
  {
    if id in st.deliveries then Ok(st.deliveries[id]) else Err(NotFound)
  }

  /** `LockIntelDeliveryByIDOrSkip`: not-found for a missing delivery; a
      delivery locked by someone else is not modelled. */
  function LockIntelDeliveryByIDOrSkip(st: Store, id: Id): (r: Result<()>)
    ensures r.Ok? <==> id in st.deliveries
    ensures r.Err? ==> r.code == NotFound
  {
    if id in st.deliveries then Ok(()) else Err(NotFound)
  }

  /** `UpdateIntelDeliveryStatusByDelivery`: not-found when no row matches. */
  function UpdateIntelDeliveryStatusByDelivery(st: Store, id: Id, isActive: bool, success: bool, note: Option<string>): (r: Result<Store>)
    ensures r.Ok? <==> id in st.deliveries
    ensures r.Err? ==> r.code == NotFound
    ensures r.Ok? ==>
      && r.value.deliveries == st.deliveries[id := st.deliveries[id].(isActive := isActive, success := success, note := note)]
      && r.value == st.(deliveries := r.value.deliveries)
  {
    if id !in st.deliveries then Err(NotFound)
    else Ok(st.(deliveries := st.deliveries[id := st.deliveries[id].(isActive := isActive, success := success, note := note)]))
  }

  /** `ActiveIntelDeliveriesAndLockOrSkip`: every active delivery. */
  function ActiveIntelDeliveries(st: Store): (r: set<Delivery>)
    ensures forall d :: d in r <==> d in st.deliveries.Values && d.isActive
  {
    set d | d in st.deliveries.Values && d.isActive
  }

  /** `ActiveIntelDeliveriesForOperation`: active deliveries of intel that
      belongs to the operation. */
  function ActiveIntelDeliveriesForOperation(st: Store, operation: Id): (r: set<Delivery>)
    ensures forall d :: d in r <==>
      && d in st.deliveries.Values && d.isActive
      && d.intel in st.intelOperation && st.intelOperation[d.intel] == operation
  {
    set d | d in st.deliveries.Values && d.isActive && d.intel in st.intelOperation && st.intelOperation[d.intel] == operation
  }

  /** `IntelDeliveriesByIntel`. */
  function IntelDeliveriesByIntel(st: Store, intel: Id): (r: set<Delivery>)
    ensures forall d :: d in r <==> d in st.deliveries.Values && d.intel == intel
  {
    set d | d in st.deliveries.Values && d.intel == intel
  }

  // ---------------------------------------------------------------------------
  // Attempts

  /** `CreateIntelDeliveryAttempt`: whatever status and timestamps the caller
      gives, the attempt starts open with both timestamps at `now`. */
  function CreateIntelDeliveryAttempt(st: Store, create: Attempt, newId: Id, now: Time): (r: (Attempt, Store))
    requires !HasAttempt(st.attempts, newId)
    ensures r.0.status == StatusOpen && r.0.createdAt == now && r.0.statusTs == now
    ensures r.0 == create.(id := newId, createdAt := now, status := StatusOpen, statusTs := now)
    ensures r.1 == st.(attempts := st.attempts + [r.0])
    ensures Valid(st) ==> Valid(r.1)
  {
    var a := create.(id := newId, createdAt := now, status := StatusOpen, statusTs := now);
    (a, st.(attempts := st.attempts + [a]))
  }

  /** The first attempt with the given id. */
  function FindAttempt(attempts: seq<Attempt>, id: Id): (r: Option<Attempt>)
    ensures r.Some? <==> HasAttempt(attempts, id)
    ensures r.Some? ==> r.value in attempts && r.value.id == id
  {
    if |attempts| == 0 then None
    else if attempts[0].id == id then Some(attempts[0])
    else
      assert HasAttempt(attempts, id) ==> HasAttempt(attempts[1..], id) by {
        if HasAttempt(attempts, id) {
          var k :| 0 <= k < |attempts| && attempts[k].id == id;
          assert attempts[1..][k - 1].id == id;
        }
      }
      FindAttempt(attempts[1..], id)
  }

  /** `IntelDeliveryAttemptByID`. */
  function IntelDeliveryAttemptByID(st: Store, id: Id): (r: Result<Attempt>)
    ensures r.Ok? <==> HasAttempt(st.attempts, id)
    ensures r.Err? ==> r.code == NotFound
    ensures r.Ok? ==> r.value in st.attempts && r.value.id == id
  {
    match FindAttempt(st.attempts, id)
    case None => Err(NotFound)
    case Some(a) => Ok(a)
  }

  function SetStatus(a: Attempt, isActive: bool, status: string, note: Option<string>, now: Time): Attempt {
    a.(isActive := isActive, status := status, statusTs := now, note := note)
  }

  /** `UpdateIntelDeliveryAttemptStatusByID`: not-found when no row matches;
      otherwise the matching row gets the new state stamped with `now` and
      every other row is untouched. */
  function UpdateIntelDeliveryAttemptStatusByID(st: Store, id: Id, isActive: bool, status: string, note: Option<string>, now: Time): (r: Result<Store>)
    ensures r.Ok? <==> HasAttempt(st.attempts, id)
    ensures r.Err? ==> r.code == NotFound
    ensures r.Ok? ==>
      && |r.value.attempts| == |st.attempts|
      && (forall i :: 0 <= i < |st.attempts| ==>
            r.value.attempts[i] == if st.attempts[i].id == id then SetStatus(st.attempts[i], isActive, status, note, now) else st.attempts[i])
      && r.value == st.(attempts := r.value.attempts)
    ensures r.Ok? ==> forall x :: HasAttempt(r.value.attempts, x) <==> HasAttempt(st.attempts, x)
    ensures r.Ok? && Valid(st) ==> Valid(r.value)
  {
    if !HasAttempt(st.attempts, id) then Err(NotFound)
    else
      var f := (a: Attempt) => if a.id == id then SetStatus(a, isActive, status, note, now) else a;
      Ok(st.(attempts := Map(f, st.attempts)))
  }

  /** The updated attempt reads back with the state it was given. */
  lemma UpdatedAttemptReadsBack(st: Store, id: Id, isActive: bool, status: string, note: Option<string>, now: Time)
    requires HasAttempt(st.attempts, id)
    ensures var st1 := UpdateIntelDeliveryAttemptStatusByID(st, id, isActive, status, note, now).value;
      && IntelDeliveryAttemptByID(st1, id).Ok?
      && IntelDeliveryAttemptByID(st1, id).value.id == id
      && IntelDeliveryAttemptByID(st1, id).value.isActive == isActive
      && IntelDeliveryAttemptByID(st1, id).value.status == status
  {
    var st1 := UpdateIntelDeliveryAttemptStatusByID(st, id, isActive, status, note, now).value;
    var a := IntelDeliveryAttemptByID(st1, id).value;
    var j :| 0 <= j < |st1.attempts| && st1.attempts[j] == a;
    assert st1.attempts[j] == SetStatus(st.attempts[j], isActive, status, note, now);
  }

  /** An attempt of the delivery has timed out when it was created more than
      its channel's timeout before `now`. Attempts without a channel row do
      not take part in the join. */
  predicate IsTimedOut(st: Store, a: Attempt, now: Time) {
    exists k :: 0 <= k < |st.channels| && st.channels[k].id == a.channel && a.createdAt < now - st.channels[k].timeout
  }

  /** `TimedOutIntelDeliveryAttemptsByDelivery`: active or not, every attempt
      of the delivery that has timed out. */
  function TimedOutIntelDeliveryAttemptsByDelivery(st: Store, delivery: Id, now: Time): (r: seq<Attempt>)
    ensures forall i :: 0 <= i < |r| ==> r[i] in st.attempts && r[i].delivery == delivery && IsTimedOut(st, r[i], now)
    ensures forall i :: 0 <= i < |st.attempts| && st.attempts[i].delivery == delivery && IsTimedOut(st, st.attempts[i], now) ==> st.attempts[i] in r
  {
    Filter((a: Attempt) => a.delivery == delivery && IsTimedOut(st, a, now), st.attempts)
  }

  // ---------------------------------------------------------------------------
  // Listing attempts of a delivery

  predicate SortedByCreation(s: seq<Attempt>) {
    forall i, j :: 0 <= i < j < |s| ==> s[i].createdAt <= s[j].createdAt
  }

  /** A sorted sequence stays sorted with an element in front that is in
      order with its first. */
  lemma ConsByCreation(x: Attempt, s: seq<Attempt>)
    requires SortedByCreation(s)
    requires |s| > 0 ==> x.createdAt <= s[0].createdAt
    ensures SortedByCreation([x] + s)
  {
    assert forall k :: 0 <= k < |s| ==> x.createdAt <= s[k].createdAt;
  }

  function InsertByCreation(a: Attempt, sorted: seq<Attempt>): (r: seq<Attempt>)
    requires SortedByCreation(sorted)
    ensures SortedByCreation(r)
    ensures multiset(r) == multiset(sorted) + multiset{a}
    ensures |r| > 0 && (r[0] == a || (|sorted| > 0 && r[0] == sorted[0]))
  {
    if |sorted| == 0 then [a]
    else if a.createdAt <= sorted[0].createdAt then [a] + sorted
    else
      var tail := InsertByCreation(a, sorted[1..]);
      assert sorted == [sorted[0]] + sorted[1..];
      ConsByCreation(sorted[0], tail);
      [sorted[0]] + tail
  }

  function SortByCreation(s: seq<Attempt>): (r: seq<Attempt>)
    ensures SortedByCreation(r)
    ensures multiset(r) == multiset(s)
  {
    if |s| == 0 then []
    else
      assert s == [s[0]] + s[1..];
      InsertByCreation(s[0], SortByCreation(s[1..]))
  }

  /** The attempts of one delivery in table order. */
  function AttemptsOf(attempts: seq<Attempt>, delivery: Id): (r: seq<Attempt>)
    ensures forall i :: 0 <= i < |r| ==> r[i] in attempts && r[i].delivery == delivery
    ensures forall i :: 0 <= i < |attempts| && attempts[i].delivery == delivery ==> attempts[i] in r
  {
    Filter((a: Attempt) => a.delivery == delivery, attempts)
  }

  /** `IntelDeliveryAttemptsByDelivery`: the delivery's attempts, oldest
      first. */
  function IntelDeliveryAttemptsByDelivery(st: Store, delivery: Id): (r: seq<Attempt>)
    ensures SortedByCreation(r)
    ensures multiset(r) == multiset(AttemptsOf(st.attempts, delivery))
  {
    SortByCreation(AttemptsOf(st.attempts, delivery))
  }

  /** The listing holds exactly the delivery's attempts. */
  lemma AttemptsByDeliveryMembers(st: Store, delivery: Id, a: Attempt)
    ensures a in IntelDeliveryAttemptsByDelivery(st, delivery) <==> a in st.attempts && a.delivery == delivery
  {
    var r := IntelDeliveryAttemptsByDelivery(st, delivery);
    assert a in r <==> a in multiset(r);
    assert a in AttemptsOf(st.attempts, delivery) <==> a in multiset(AttemptsOf(st.attempts, delivery));
  }

  /** `ActiveIntelDeliveryAttemptsByDelivery` as its documentation describes
      it: the delivery's attempts that are still active, oldest first. */
  function ActiveIntelDeliveryAttemptsByDelivery(st: Store, delivery: Id): (r: seq<Attempt>)
    ensures forall i :: 0 <= i < |r| ==> r[i].isActive && r[i].delivery == delivery && r[i] in st.attempts
    ensures forall i :: 0 <= i < |st.attempts| && st.attempts[i].delivery == delivery && st.attempts[i].isActive ==> st.attempts[i] in r
  {
    var all := IntelDeliveryAttemptsByDelivery(st, delivery);
    forall a | a in all ensures a in st.attempts && a.delivery == delivery {
      AttemptsByDeliveryMembers(st, delivery, a);
    }
    forall i | 0 <= i < |st.attempts| && st.attempts[i].delivery == delivery
      ensures st.attempts[i] in all
    {
      AttemptsByDeliveryMembers(st, delivery, st.attempts[i]);
    }
    Filter((a: Attempt) => a.isActive, all)
  }

  /** `ActiveIntelDeliveryAttemptsByDelivery` as written: the active attempts
      are collected, but the unfiltered list is returned. */
  function ActiveIntelDeliveryAttemptsByDeliveryAsWritten(st: Store, delivery: Id): (r: seq<Attempt>)
    ensures r == IntelDeliveryAttemptsByDelivery(st, delivery)
  {
    var all := IntelDeliveryAttemptsByDelivery(st, delivery);
    var active := Filter((a: Attempt) => a.isActive, all);
    all
  }

  /** A delivery whose only attempt has finished: the as-written query still
      reports that attempt, the corrected one reports none. */
  function FinishedAttemptScenario(): Store {
    var a := Attempt(IdB, IdA, IdC, 0, false, StatusTimeout, 5, None);
    Store.Store(map[IdA := Delivery(IdA, IdC, IdC, true, false, None)], [a], [], map[], map[], {}, map[], {})
  }

  lemma ActiveAttemptsAsWrittenReportsInactive()
    ensures |ActiveIntelDeliveryAttemptsByDeliveryAsWritten(FinishedAttemptScenario(), IdA)| == 1
    ensures !ActiveIntelDeliveryAttemptsByDeliveryAsWritten(FinishedAttemptScenario(), IdA)[0].isActive
    ensures ActiveIntelDeliveryAttemptsByDelivery(FinishedAttemptScenario(), IdA) == []
  {
    var st := FinishedAttemptScenario();
    var a := st.attempts[0];
    assert AttemptsOf(st.attempts, IdA) == [a];
    assert multiset(IntelDeliveryAttemptsByDelivery(st, IdA)) == multiset{a};
    var r := IntelDeliveryAttemptsByDelivery(st, IdA);
    assert |r| == |multiset(r)| == 1;
    assert r[0] in multiset(r);
  }

  // ---------------------------------------------------------------------------
  // Channels and attempts

  /** `ActiveIntelDeliveryAttemptsByChannelsAndLockOrWait`: active attempts
      on one of the channels; an empty channel list selects nothing. */
  function ActiveIntelDeliveryAttemptsByChannels(st: Store, channels: seq<Id>): (r: seq<Attempt>)
    ensures |channels| == 0 ==> r == []
    ensures forall i :: 0 <= i < |r| ==> r[i] in st.attempts && r[i].isActive && r[i].channel in channels
    ensures forall i :: 0 <= i < |st.attempts| && st.attempts[i].isActive && st.attempts[i].channel in channels ==> st.attempts[i] in r
  {
    if |channels| == 0 then []
    else Filter((a: Attempt) => a.isActive && a.channel in channels, st.attempts)
  }

  /** `DeleteIntelDeliveryAttemptsByChannel`. */
  function DeleteIntelDeliveryAttemptsByChannel(st: Store, channel: Id): (r: Store)
    ensures forall i :: 0 <= i < |r.attempts| ==> r.attempts[i].channel != channel && r.attempts[i] in st.attempts
    ensures forall i :: 0 <= i < |st.attempts| && st.attempts[i].channel != channel ==> st.attempts[i] in r.attempts
    ensures r == st.(attempts := r.attempts)
  {
    st.(attempts := Filter((a: Attempt) => a.channel != channel, st.attempts))
  }

  // ---------------------------------------------------------------------------
  // Next channel

  /** A channel the delivery may try next: it belongs to the recipient, is
      active, has not been used by an attempt of this delivery, and the
      intel is important enough for it. */
  predicate IsCandidate(st: Store, d: Delivery, c: Channel)
    requires d.intel in st.importance
  {
    && c.entry == d.to
    && c.isActive
    && !(exists i :: 0 <= i < |st.attempts| && st.attempts[i].delivery == d.id && st.attempts[i].channel == c.id)
    && st.importance[d.intel] >= c.minImportance
  }

  /** The first candidate of the highest priority among `cs`. */
  function BestCandidate(st: Store, d: Delivery, cs: seq<Channel>): (r: Option<Channel>)
    requires d.intel in st.importance
    ensures r.Some? <==> exists i :: 0 <= i < |cs| && IsCandidate(st, d, cs[i])
    ensures r.Some? ==> r.value in cs && IsCandidate(st, d, r.value)
    ensures r.Some? ==> forall i :: 0 <= i < |cs| && IsCandidate(st, d, cs[i]) ==> cs[i].priority <= r.value.priority
  {
    if |cs| == 0 then None
    else
      var rest := BestCandidate(st, d, cs[1..]);
      assert forall i :: 1 <= i < |cs| ==> cs[i] == cs[1..][i - 1];
      if !IsCandidate(st, d, cs[0]) then
        assert (exists i :: 0 <= i < |cs| && IsCandidate(st, d, cs[i])) ==> exists i :: 0 <= i < |cs[1..]| && IsCandidate(st, d, cs[1..][i]);
        rest
      else if rest.Some? && rest.value.priority > cs[0].priority then rest
      else Some(cs[0])
  }

  /** `NextChannelForDeliveryAttempt`: the highest-priority candidate, or
      none when the delivery, its intel or any candidate is missing. */
  function NextChannelForDeliveryAttempt(st: Store, delivery: Id): (r: Option<Channel>)
    ensures r.Some? ==> delivery in st.deliveries && st.deliveries[delivery].intel in st.importance
    ensures r.Some? ==> r.value in st.channels && IsCandidate(st, st.deliveries[delivery], r.value)
    ensures r.Some? ==> forall i :: 0 <= i < |st.channels| && IsCandidate(st, st.deliveries[delivery], st.channels[i]) ==>
              st.channels[i].priority <= r.value.priority
    ensures delivery in st.deliveries && st.deliveries[delivery].intel in st.importance ==>
              (r.None? <==> forall i :: 0 <= i < |st.channels| ==> !IsCandidate(st, st.deliveries[delivery], st.channels[i]))
  {
    if delivery !in st.deliveries then None
    else
      var d := st.deliveries[delivery];
      if d.intel !in st.importance then None
      else BestCandidate(st, d, st.channels)
  }

  /** Once a channel has been tried for a delivery, it is never chosen again
      for that delivery. */
  lemma TriedChannelIsNotChosenAgain(st: Store, delivery: Id, a: Attempt, now: Time, newId: Id)
    requires !HasAttempt(st.attempts, newId) && a.delivery == delivery
    requires Valid(st) && delivery in st.deliveries
    ensures var st' := CreateIntelDeliveryAttempt(st, a, newId, now).1;
            var next := NextChannelForDeliveryAttempt(st', delivery);
            next.Some? ==> next.value.id != a.channel
  {
    var st' := CreateIntelDeliveryAttempt(st, a, newId, now).1;
    assert st'.attempts[|st.attempts|].channel == a.channel;
    assert st'.attempts[|st.attempts|].delivery == st'.deliveries[delivery].id;
  }

  // ---------------------------------------------------------------------------
  // Attempt listing (logistics-svc/store/intel.go)

  /** `IntelDeliveryAttemptFilters`: every set filter must match. */
  datatype AttemptFilters = AttemptFilters(
    byOperation: Option<Id>,
    byDelivery: Option<Id>,
    byChannel: Option<Id>,
    byActive: Option<bool>)

  const NoAttemptFilters := AttemptFilters(None, None, None, None)

  /** An attempt is listed when its delivery and the delivery's intel exist
      (the query joins both) and it passes every set filter. */
  predicate AttemptQualifies(st: Store, f: AttemptFilters, a: Attempt) {
    && a.delivery in st.deliveries
    && st.deliveries[a.delivery].intel in st.intelOperation
    && (f.byOperation.None? || st.intelOperation[st.deliveries[a.delivery].intel] == f.byOperation.value)
    && (f.byDelivery.None? || a.delivery == f.byDelivery.value)
    && (f.byChannel.None? || a.channel == f.byChannel.value)
    && (f.byActive.None? || a.isActive == f.byActive.value)
  }

  function Reversed(s: seq<Attempt>): (r: seq<Attempt>)
    ensures |r| == |s|
    ensures forall i :: 0 <= i < |s| ==> r[i] == s[|s| - 1 - i]
    ensures multiset(r) == multiset(s)
  {
    if |s| == 0 then []
    else
      assert s == s[..|s| - 1] + [s[|s| - 1]];
      [s[|s| - 1]] + Reversed(s[..|s| - 1])
  }

  predicate NewestFirst(s: seq<Attempt>) {
    forall i, j :: 0 <= i < j < |s| ==> s[i].createdAt >= s[j].createdAt
  }

  lemma ReversedOldestFirst(s: seq<Attempt>)
    requires SortedByCreation(s)
    ensures NewestFirst(Reversed(s))
  {
    var r := Reversed(s);
    forall i, j | 0 <= i < j < |r| ensures r[i].createdAt >= r[j].createdAt {
      assert r[i] == s[|s| - 1 - i] && r[j] == s[|s| - 1 - j];
    }
  }

  /** `IntelDeliveryAttempts` (pagination aside): every qualifying attempt,
      as often as it is stored, newest first. */
  function IntelDeliveryAttempts(st: Store, f: AttemptFilters): (r: seq<Attempt>)
    ensures NewestFirst(r)
    ensures multiset(r) == multiset(Filter((a: Attempt) => AttemptQualifies(st, f, a), st.attempts))
    ensures forall a :: a in r <==> a in st.attempts && AttemptQualifies(st, f, a)
  {
    var kept := Filter((a: Attempt) => AttemptQualifies(st, f, a), st.attempts);
    var sorted := SortByCreation(kept);
    ReversedOldestFirst(sorted);
    SameMultisetSameMembers(Reversed(sorted), kept);
    Reversed(sorted)
  }

  /** Without filters, every attempt whose delivery and intel exist is
      listed. */
  lemma UnfilteredListsAllJoinedAttempts(st: Store, a: Attempt)
    requires a in st.attempts && a.delivery in st.deliveries && st.deliveries[a.delivery].intel in st.intelOperation
    ensures a in IntelDeliveryAttempts(st, NoAttemptFilters)
  {
  }
}
