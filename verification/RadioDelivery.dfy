/** Radio-delivery pickup scheduling (radio-delivery-svc/controller and its
    store): operators pick up the next open radio delivery of an operation,
    release it, finish it, or lose it after a pickup timeout. */
module RadioDelivery {
  import opened Common

  /** A row of `radio_deliveries` joined with the accepted attempt it belongs
      to (operation, importance and creation time of the attempt). */
  datatype Row = Row(
    attempt: Id,
    pickedUpBy: Option<Id>,
    pickedUpAt: Option<Time>,
    success: Option<bool>,
    successTs: Time,
    note: string,
    operation: Id,
    importance: int,
    attemptCreatedAt: Time)

  /** Radio deliveries in table order and the operations each user is a member
      of. */
  datatype Store = Store(rows: seq<Row>, operationsOf: map<Id, set<Id>>)

  /** There is at most one radio delivery per attempt. */
  predicate Valid(st: Store) {
    forall i, j :: 0 <= i < j < |st.rows| ==> st.rows[i].attempt != st.rows[j].attempt
  }

  predicate IsActive(r: Row) { r.success.None? }

  predicate IsOpen(r: Row) { IsActive(r) && r.pickedUpAt.None? }

  function OperationsOf(st: Store, user: Id): set<Id> {
    if user in st.operationsOf then st.operationsOf[user] else {}
  }

  /** `ActiveRadioDeliveriesAndLockOrWait`: deliveries without a success value,
      optionally restricted to one operation. */
  predicate ActiveFor(x: Row, byOperation: Option<Id>) {
    IsActive(x) && (byOperation.Some? ==> x.operation == byOperation.value)
  }

  function Active(rows: seq<Row>, byOperation: Option<Id>): (r: seq<Row>)
    ensures forall i :: 0 <= i < |r| ==> r[i] in rows && ActiveFor(r[i], byOperation)
    ensures forall i :: 0 <= i < |rows| && ActiveFor(rows[i], byOperation) ==> rows[i] in r
  {
    if |rows| == 0 then []
    else
      assert rows == [rows[0]] + rows[1..];
      var rest := Active(rows[1..], byOperation);
      if ActiveFor(rows[0], byOperation) then [rows[0]] + rest
      else rest
  }

  // ---------------------------------------------------------------------------
  // Choosing the next delivery

  function CountInProgress(active: seq<Row>): (n: nat)
    ensures n <= |active|
  {
    if |active| == 0 then 0
    else CountInProgress(active[1..]) + (if active[0].pickedUpAt.Some? then 1 else 0)
  }

  datatype PriorityMode = ByImportance | ByOldestAttempt

  /** The priority mode alternates with the parity of deliveries in progress. */
  function ModeFor(active: seq<Row>): PriorityMode {
    if CountInProgress(active) % 2 == 0 then ByImportance else ByOldestAttempt
  }

  /** `a` is served no later than `b` under `mode`. */
  predicate Precedes(mode: PriorityMode, a: Row, b: Row) {
    match mode
    case ByImportance => a.importance >= b.importance
    case ByOldestAttempt => a.attemptCreatedAt <= b.attemptCreatedAt
  }

  predicate IsBestOpen(mode: PriorityMode, active: seq<Row>, k: int) {
    && 0 <= k < |active|
    && IsOpen(active[k])
    && forall j :: 0 <= j < |active| && IsOpen(active[j]) ==> Precedes(mode, active[k], active[j])
  }

  /** The selection of `PickUpNextRadioDelivery`: among the deliveries not yet
      picked up, the one with the highest importance (even number in progress)
      or the oldest attempt (odd number in progress). Ties are unspecified in
      the source; this scan keeps the first. */
  method SelectNext(active: seq<Row>) returns (k: Option<nat>)
    ensures k.None? <==> forall j :: 0 <= j < |active| ==> !IsOpen(active[j])
    ensures k.Some? ==> IsBestOpen(ModeFor(active), active, k.value)
  {
    var mode := ModeFor(active);
    k := None;
    var i := 0;
    while i < |active|
      invariant 0 <= i <= |active|
      invariant k.None? ==> forall j :: 0 <= j < i ==> !IsOpen(active[j])
      invariant k.Some? ==> k.value < i && IsOpen(active[k.value])
      invariant k.Some? ==> forall j :: 0 <= j < i && IsOpen(active[j]) ==> Precedes(mode, active[k.value], active[j])
    {
      if IsOpen(active[i]) {
        if k.None? || !Precedes(mode, active[k.value], active[i]) {
          k := Some(i);
        }
      }
      i := i + 1;
    }
  }

  function SetRow(rows: seq<Row>, attempt: Id, f: Row -> Row): (r: seq<Row>)
    ensures |r| == |rows|
    ensures forall i :: 0 <= i < |rows| ==> r[i] == if rows[i].attempt == attempt then f(rows[i]) else rows[i]
  {
    if |rows| == 0 then []
    else [if rows[0].attempt == attempt then f(rows[0]) else rows[0]] + SetRow(rows[1..], attempt, f)
  }

  function PickedUp(picker: Id, now: Time): Row -> Row {
    (r: Row) => r.(pickedUpBy := Some(picker), pickedUpAt := Some(now), note := "picked up")
  }

  /** `attempt` is the delivery of `operation` that the priority rule puts
      first. */
  predicate IsNextFor(st: Store, operation: Id, attempt: Id) {
    var active := Active(st.rows, Some(operation));
    exists k :: 0 <= k < |active| && IsBestOpen(ModeFor(active), active, k) && active[k].attempt == attempt
  }

  /** `PickUpNextRadioDelivery`: forbidden for non-members of the operation;
      `None` when no delivery is open; otherwise the chosen attempt, now marked
      as picked up by the caller. */
  method PickUpNextRadioDelivery(st: Store, operation: Id, picker: Id, now: Time) returns (r: Result<(Option<Id>, Store)>)
    ensures operation !in OperationsOf(st, picker) ==> r == Err(Forbidden)
    ensures operation in OperationsOf(st, picker) ==> r.Ok?
    ensures r.Ok? && r.value.0.None? ==>
              && r.value.1 == st
              && forall i :: 0 <= i < |st.rows| && ActiveFor(st.rows[i], Some(operation)) ==> st.rows[i].pickedUpAt.Some?
    ensures r.Ok? && r.value.0.Some? ==>
              && IsNextFor(st, operation, r.value.0.value)
              && r.value.1.rows == SetRow(st.rows, r.value.0.value, PickedUp(picker, now))
  {
    if operation !in OperationsOf(st, picker) {
      return Err(Forbidden);
    }
    var active := Active(st.rows, Some(operation));
    var k := SelectNext(active);
    if k.None? {
      forall i | 0 <= i < |st.rows| && ActiveFor(st.rows[i], Some(operation))
        ensures st.rows[i].pickedUpAt.Some?
      {
        var x := st.rows[i];
        assert x in active;
        var j :| 0 <= j < |active| && active[j] == x;
        assert !IsOpen(active[j]);
      }
      return Ok((None, st));
    }
    var attempt := active[k.value].attempt;
    assert IsBestOpen(ModeFor(active), active, k.value) && active[k.value].attempt == attempt;
    assert IsNextFor(st, operation, attempt);
    var st' := st.(rows := SetRow(st.rows, attempt, PickedUp(picker, now)));
    return Ok((Some(attempt), st'));
  }

  // ---------------------------------------------------------------------------
  // Release and finish

  function FindRow(rows: seq<Row>, attempt: Id): (r: Option<Row>)
    ensures r.Some? ==> r.value in rows && r.value.attempt == attempt
    ensures r.None? ==> forall x :: x in rows ==> x.attempt != attempt
  {
    if |rows| == 0 then None
    else if rows[0].attempt == attempt then Some(rows[0])
    else FindRow(rows[1..], attempt)
  }

  function Released(note: string): Row -> Row {
    (r: Row) => r.(pickedUpBy := None, pickedUpAt := None, note := note)
  }

  const ReleasedNote: string := "waiting for pickup (released)"

  /** `ReleasePickedUpRadioDelivery`: returns the operation to notify about. */
  function ReleasePickedUpRadioDelivery(st: Store, attempt: Id, limitToPickedUpBy: Option<Id>): (r: Result<(Id, Store)>)
    ensures FindRow(st.rows, attempt).None? ==> r == Err(NotFound)
    ensures FindRow(st.rows, attempt).Some? ==>
      var d := FindRow(st.rows, attempt).value;
      && (d.success.Some? ==> r == Err(BadInput))
      && (d.success.None? && d.pickedUpBy.None? ==> r == Err(BadInput))
      && (d.success.None? && d.pickedUpBy.Some? && limitToPickedUpBy.Some? && limitToPickedUpBy != d.pickedUpBy ==>
            r == Err(Forbidden))
      && (r.Ok? ==> r.value.0 == d.operation && r.value.1.rows == SetRow(st.rows, attempt, Released(ReleasedNote))
                    && r.value.1.operationsOf == st.operationsOf)
    ensures r.Ok? <==>
      && FindRow(st.rows, attempt).Some?
      && FindRow(st.rows, attempt).value.success.None?
      && FindRow(st.rows, attempt).value.pickedUpBy.Some?
      && (limitToPickedUpBy.None? || limitToPickedUpBy == FindRow(st.rows, attempt).value.pickedUpBy)
  {
    match FindRow(st.rows, attempt)
    case None => Err(NotFound)
    case Some(d) =>
      if d.success.Some? then Err(BadInput)
      else if d.pickedUpBy.None? then Err(BadInput)
      else if limitToPickedUpBy.Some? && d.pickedUpBy.value != limitToPickedUpBy.value then Err(Forbidden)
      else Ok((d.operation, st.(rows := SetRow(st.rows, attempt, Released(ReleasedNote)))))
  }

  function Finished(success: bool, note: string, now: Time): Row -> Row {
    (r: Row) => r.(success := Some(success), successTs := now, note := note)
  }

  /** `FinishRadioDelivery`: the delivery must be picked up (by the limit user,
      if one is given); the success value, timestamp and note are then set. */
  function FinishRadioDelivery(st: Store, attempt: Id, success: bool, note: string, limitToPickedUpBy: Option<Id>,
                               now: Time): (r: Result<Store>)
    ensures FindRow(st.rows, attempt).None? ==> r == Err(NotFound)
    ensures FindRow(st.rows, attempt).Some? ==>
      var d := FindRow(st.rows, attempt).value;
      && (d.pickedUpBy.None? ==> r == Err(BadInput))
      && (d.pickedUpBy.Some? && limitToPickedUpBy.Some? && limitToPickedUpBy != d.pickedUpBy ==> r == Err(Forbidden))
      && (d.pickedUpBy.Some? && (limitToPickedUpBy.None? || limitToPickedUpBy == d.pickedUpBy) ==> r.Ok?)
    ensures r.Ok? ==> r.value.rows == SetRow(st.rows, attempt, Finished(success, note, now))
  {
    match FindRow(st.rows, attempt)
    case None => Err(NotFound)
    case Some(d) =>
      if d.pickedUpBy.None? then Err(BadInput)
      else if limitToPickedUpBy.Some? && d.pickedUpBy.value != limitToPickedUpBy.value then Err(Forbidden)
      else Ok(st.(rows := SetRow(st.rows, attempt, Finished(success, note, now))))
  }

  /** Finishing records the success value on exactly that delivery. */
  lemma FinishSetsSuccess(st: Store, attempt: Id, success: bool, note: string, limit: Option<Id>, now: Time)
    requires Valid(st)
    requires FinishRadioDelivery(st, attempt, success, note, limit, now).Ok?
    ensures var st' := FinishRadioDelivery(st, attempt, success, note, limit, now).value;
      forall i :: 0 <= i < |st'.rows| ==>
        if st.rows[i].attempt == attempt then st'.rows[i].success == Some(success) && st'.rows[i].note == note
        else st'.rows[i] == st.rows[i]
  {
  }

  // ---------------------------------------------------------------------------
  // Timeouts

  predicate TimedOut(r: Row, now: Time, timeout: Time) {
    IsActive(r) && r.pickedUpAt.Some? && now - r.pickedUpAt.value >= timeout
  }

  function ReleaseEach(rows: seq<Row>, now: Time, timeout: Time, note: string): (r: seq<Row>)
    ensures |r| == |rows|
    ensures forall i :: 0 <= i < |rows| ==>
      r[i] == if TimedOut(rows[i], now, timeout) then Released(note)(rows[i]) else rows[i]
  {
    if |rows| == 0 then []
    else
      var head := if TimedOut(rows[0], now, timeout) then Released(note)(rows[0]) else rows[0];
      [head] + ReleaseEach(rows[1..], now, timeout, note)
  }

  /** `releaseTimedOutRadioDeliveries`: every active delivery picked up at
      least `timeout` ago is released with the timeout note; the operations of
      the released deliveries are each scheduled for an update once. */
  function ReleaseTimedOutRadioDeliveries(st: Store, now: Time, timeout: Time, note: string): (r: (Store, set<Id>))
    ensures r.0.operationsOf == st.operationsOf
    ensures |r.0.rows| == |st.rows|
    ensures forall i :: 0 <= i < |st.rows| ==>
      (TimedOut(st.rows[i], now, timeout) ==>
         r.0.rows[i].pickedUpBy.None? && r.0.rows[i].pickedUpAt.None? && r.0.rows[i].note == note
         && r.0.rows[i].attempt == st.rows[i].attempt && r.0.rows[i].success.None?)
      && (!TimedOut(st.rows[i], now, timeout) ==> r.0.rows[i] == st.rows[i])
    ensures forall op :: op in r.1 <==> exists i :: 0 <= i < |st.rows| && TimedOut(st.rows[i], now, timeout)
                                                   && st.rows[i].operation == op
  {
    var affected := set i | 0 <= i < |st.rows| && TimedOut(st.rows[i], now, timeout) :: st.rows[i].operation;
    (st.(rows := ReleaseEach(st.rows, now, timeout, note)), affected)
  }

  /** After the timeout check, no active delivery remains picked up for longer
      than the timeout. */
  lemma NoTimedOutAfterRelease(st: Store, now: Time, timeout: Time, note: string)
    ensures var st' := ReleaseTimedOutRadioDeliveries(st, now, timeout, note).0;
      forall i :: 0 <= i < |st'.rows| ==> !TimedOut(st'.rows[i], now, timeout)
  {
  }
}
