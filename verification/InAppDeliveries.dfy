/** The store of the in-app notifier (in-app-notifier-svc/store/intel_delivery.go):
    the attempts it accepted, the history of notifications sent for them,
    which attempt a connecting user is to be notified of next, and the
    notification assembled for an attempt. */
module InAppDeliveries {
  import opened Common
  import Json
  import opened ChannelMirror

  /** `AcceptedIntelDeliveryAttempt`; `acceptedAt` is none while it holds
      Go's zero time. */
  datatype AcceptedAttempt = AcceptedAttempt(
    id: Id,
    assignedTo: Id,
    assignedToLabel: string,
    assignedToUser: Option<Id>,
    delivery: Id,
    channel: Id,
    createdAt: Time,
    isActive: bool,
    statusTs: Time,
    note: Option<string>,
    acceptedAt: Option<Time>)

  /** `AcceptedIntelDeliveryAttemptStatus`. */
  datatype AttemptStatus = AttemptStatus(id: Id, isActive: bool, statusTs: Time, note: Option<string>)

  /** `IntelToDeliver`, stored per attempt. */
  datatype IntelToDeliver = IntelToDeliver(
    attempt: Id,
    id: Id,
    createdAt: Time,
    createdBy: Id,
    operation: Id,
    intelType: string,
    content: Json.Raw,
    importance: int)

  datatype User = User(id: Id, username: string, firstName: string, lastName: string, isActive: bool)

  /** A row of `intel_notification_history`. */
  datatype HistoryEntry = HistoryEntry(attempt: Id, ts: Time)

  /** `OutgoingIntelDeliveryNotification`. */
  datatype Outgoing = Outgoing(
    intel: IntelToDeliver,
    attempt: AcceptedAttempt,
    channel: MirroredChannel,
    creator: User,
    recipient: Option<User>)

  /** The tables: attempts and history in their physical order; the intel
      to deliver by attempt, the notification channels and the users by
      their ids. */
  datatype Store = Store(
    attempts: seq<AcceptedAttempt>,
    history: seq<HistoryEntry>,
    intel: map<Id, IntelToDeliver>,
    channels: map<Id, MirroredChannel>,
    users: map<Id, User>)

  predicate HasAttempt(st: Store, id: Id) {
    exists i :: 0 <= i < |st.attempts| && st.attempts[i].id == id
  }

  /** Whether a notification was already sent for the attempt. */
  predicate HasHistory(st: Store, attempt: Id) {
    exists i :: 0 <= i < |st.history| && st.history[i].attempt == attempt
  }

  // ---------------------------------------------------------------------------
  // Changes

  /** `CreateAcceptedIntelDeliveryAttempt`. */
  function CreateAcceptedIntelDeliveryAttempt(st: Store, a: AcceptedAttempt): (r: Store)
    ensures HasAttempt(r, a.id) && a in r.attempts
    ensures |r.attempts| == |st.attempts| + 1 && r.attempts[..|st.attempts|] == st.attempts
    ensures r.history == st.history && r.intel == st.intel && r.channels == st.channels && r.users == st.users
  {
    var r := st.(attempts := st.attempts + [a]);
    assert r.attempts[|st.attempts|] == a;
    r
  }

  function WithStatus(a: AcceptedAttempt, s: AttemptStatus): AcceptedAttempt {
    if a.id == s.id then a.(isActive := s.isActive, statusTs := s.statusTs, note := s.note) else a
  }

  /** `UpdateAcceptedIntelDeliveryAttemptStatus`: not-found unless an
      attempt has the id; otherwise its active flag, status time and note
      are replaced and nothing else changes. */
  function UpdateAcceptedIntelDeliveryAttemptStatus(st: Store, s: AttemptStatus): (r: Result<Store>)
    ensures r.Ok? <==> HasAttempt(st, s.id)
    ensures r.Err? ==> r.code == NotFound
    ensures r.Ok? ==> |r.value.attempts| == |st.attempts|
    ensures r.Ok? ==> forall i :: 0 <= i < |st.attempts| ==>
      var a := st.attempts[i];
      r.value.attempts[i] == (if a.id == s.id then a.(isActive := s.isActive, statusTs := s.statusTs, note := s.note) else a)
    ensures r.Ok? ==> r.value.history == st.history && r.value.intel == st.intel
  {
    if !HasAttempt(st, s.id) then Err(NotFound)
    else Ok(st.(attempts := Map((a: AcceptedAttempt) => WithStatus(a, s), st.attempts)))
  }

  /** `CreateIntelNotificationHistoryEntry`. */
  function CreateIntelNotificationHistoryEntry(st: Store, attempt: Id, ts: Time): (r: Store)
    ensures HasHistory(r, attempt)
    ensures forall x :: HasHistory(st, x) ==> HasHistory(r, x)
    ensures r.attempts == st.attempts && r.intel == st.intel && r.channels == st.channels && r.users == st.users
  {
    var r := st.(history := st.history + [HistoryEntry(attempt, ts)]);
    assert r.history[|st.history|].attempt == attempt;
    assert forall i :: 0 <= i < |st.history| ==> r.history[i] == st.history[i];
    r
  }

  // ---------------------------------------------------------------------------
  // Pending notifications

  /** Whether the user is still to be notified of the attempt: it is active,
      assigned to the user, and nothing was sent for it yet. */
  predicate IsPending(st: Store, user: Id, a: AcceptedAttempt) {
    a.isActive && a.assignedToUser == Some(user) && !HasHistory(st, a.id)
  }

  /** Whether the attempt is pending and none pending was created earlier. */
  predicate IsOldestPending(st: Store, user: Id, a: AcceptedAttempt) {
    && a in st.attempts && IsPending(st, user, a)
    && forall b :: b in st.attempts && IsPending(st, user, b) ==> a.createdAt <= b.createdAt
  }

  /** `OldestPendingAttemptToNotifyByUser`: the earliest-created pending
      attempt of the user, none when there is none. */
  function OldestPendingAttemptToNotifyByUser(st: Store, user: Id): (r: Option<Id>)
    ensures r.None? <==> forall a :: a in st.attempts ==> !IsPending(st, user, a)
    ensures r.Some? ==> exists a :: IsOldestPending(st, user, a) && a.id == r.value
  {
    var pending := Filter((a: AcceptedAttempt) => IsPending(st, user, a), st.attempts);
    var oldest := FirstMin(pending, (a: AcceptedAttempt) => a.createdAt);
    if oldest.None? then
      assert forall a :: a in st.attempts ==> !IsPending(st, user, a) by {
        forall a | a in st.attempts ensures !IsPending(st, user, a) {
          var i :| 0 <= i < |st.attempts| && st.attempts[i] == a;
        }
      }
      None
    else
      var a := oldest.value;
      assert a in st.attempts && IsPending(st, user, a) by {
        var k :| 0 <= k < |pending| && pending[k] == a;
      }
      forall b | b in st.attempts && IsPending(st, user, b) ensures a.createdAt <= b.createdAt {
        var i :| 0 <= i < |st.attempts| && st.attempts[i] == b;
        var k :| 0 <= k < |pending| && pending[k] == b;
      }
      assert IsOldestPending(st, user, a);
      Some(a.id)
  }

  /** Once a notification for an attempt is recorded, the attempt is never
      again the next one to notify of. */
  lemma HistoryEndsPending(st: Store, user: Id, attempt: Id, ts: Time)
    ensures OldestPendingAttemptToNotifyByUser(CreateIntelNotificationHistoryEntry(st, attempt, ts), user) != Some(attempt)
  {
  }

  /** An attempt that became inactive is never the next one to notify of. */
  lemma InactiveEndsPending(st: Store, user: Id, s: AttemptStatus)
    requires !s.isActive
    requires UpdateAcceptedIntelDeliveryAttemptStatus(st, s).Ok?
    ensures OldestPendingAttemptToNotifyByUser(UpdateAcceptedIntelDeliveryAttemptStatus(st, s).value, user) != Some(s.id)
  {
    var st' := UpdateAcceptedIntelDeliveryAttemptStatus(st, s).value;
    forall a | a in st'.attempts && a.id == s.id ensures !a.isActive {
      var i :| 0 <= i < |st'.attempts| && st'.attempts[i] == a;
    }
  }

  // ---------------------------------------------------------------------------
  // Outgoing notifications

  /** Whether an outgoing notification may be assembled for the attempt. */
  predicate IsDeliverable(st: Store, a: AcceptedAttempt, attemptId: Id) {
    a.id == attemptId && a.isActive && !HasHistory(st, attemptId)
  }

  /** `OutgoingNotificationByAttemptWithoutTriesAndLockOrSkip`, without the
      row lock: not-found unless an active attempt with the id has no
      history; a missing intel, channel, creator or recipient is an internal
      error; recipient details are present iff the attempt has a user. */
  function OutgoingNotificationByAttempt(st: Store, attemptId: Id): (r: Result<Outgoing>)
    ensures r == Err(NotFound) <==> forall a :: a in st.attempts ==> !IsDeliverable(st, a, attemptId)
    ensures r.Err? ==> r.code in {NotFound, Internal}
    ensures r.Ok? ==> r.value.attempt in st.attempts && IsDeliverable(st, r.value.attempt, attemptId)
    ensures r.Ok? ==> attemptId in st.intel && r.value.intel == st.intel[attemptId]
    ensures r.Ok? ==> r.value.attempt.channel in st.channels && r.value.channel == st.channels[r.value.attempt.channel]
    ensures r.Ok? ==> r.value.intel.createdBy in st.users && r.value.creator == st.users[r.value.intel.createdBy]
    ensures r.Ok? ==> (r.value.recipient.Some? <==> r.value.attempt.assignedToUser.Some?)
    ensures r.Ok? && r.value.recipient.Some? ==>
      r.value.attempt.assignedToUser.value in st.users && r.value.recipient.value == st.users[r.value.attempt.assignedToUser.value]
  {
    var found := Filter((a: AcceptedAttempt) => IsDeliverable(st, a, attemptId), st.attempts);
    if |found| == 0 then
      assert forall a :: a in st.attempts ==> !IsDeliverable(st, a, attemptId) by {
        forall a | a in st.attempts ensures !IsDeliverable(st, a, attemptId) {
          var i :| 0 <= i < |st.attempts| && st.attempts[i] == a;
        }
      }
      Err(NotFound)
    else
      var a := found[0];
      if attemptId !in st.intel || a.channel !in st.channels || st.intel[attemptId].createdBy !in st.users then Err(Internal)
      else
        var intel := st.intel[attemptId];
        match a.assignedToUser
        case None => Ok(Outgoing(intel, a, st.channels[a.channel], st.users[intel.createdBy], None))
        case Some(u) =>
          if u !in st.users then Err(Internal)
          else Ok(Outgoing(intel, a, st.channels[a.channel], st.users[intel.createdBy], Some(st.users[u])))
  }

  /** Once a notification for an attempt is recorded, none is assembled for
      it again. */
  lemma HistoryEndsNotification(st: Store, attempt: Id, ts: Time)
    ensures OutgoingNotificationByAttempt(CreateIntelNotificationHistoryEntry(st, attempt, ts), attempt) == Err(NotFound)
  {
  }
}
