/** The store of the open-intel-delivery notifier
    (open-intel-delivery-notifier-svc/store/intel_delivery.go): the active
    deliveries and attempts it mirrors, the address book entries with
    automatic delivery, and the deliveries that are open for manual
    delivery. */
module OpenIntelDeliveries {
  import opened Common

  /** `ActiveIntelDelivery`. */
  datatype Delivery = Delivery(id: Id, intel: Id, to: Id, note: Option<string>)

  /** `ActiveIntelDeliveryAttempt`. */
  datatype Attempt = Attempt(id: Id, delivery: Id)

  /** The service's copy of an intel. */
  datatype Intel = Intel(id: Id, createdAt: Time, createdBy: Id, operation: Id, importance: int, isValid: bool)

  /** `OpenIntelDeliverySummary`. */
  datatype Summary = Summary(delivery: Delivery, intel: Intel)

  /** The tables: deliveries and attempts in their physical order, intel by
      its key, and the entries with automatic delivery. */
  datatype Store = Store(deliveries: seq<Delivery>, attempts: seq<Attempt>, intel: map<Id, Intel>, auto: set<Id>)

  predicate HasDelivery(st: Store, id: Id) {
    exists i :: 0 <= i < |st.deliveries| && st.deliveries[i].id == id
  }

  predicate HasAttempt(st: Store, id: Id) {
    exists i :: 0 <= i < |st.attempts| && st.attempts[i].id == id
  }

  /** Whether an attempt for the delivery is active. */
  predicate HasActiveAttempt(st: Store, deliveryId: Id) {
    exists i :: 0 <= i < |st.attempts| && st.attempts[i].delivery == deliveryId
  }

  // ---------------------------------------------------------------------------
  // Deliveries and attempts

  /** `CreateActiveIntelDelivery`. */
  function CreateActiveIntelDelivery(st: Store, d: Delivery): (r: Store)
    ensures HasDelivery(r, d.id) && d in r.deliveries
    ensures |r.deliveries| == |st.deliveries| + 1 && r.deliveries[..|st.deliveries|] == st.deliveries
    ensures r.attempts == st.attempts && r.intel == st.intel && r.auto == st.auto
  {
    var r := st.(deliveries := st.deliveries + [d]);
    assert r.deliveries[|st.deliveries|] == d;
    r
  }

  /** `DeleteActiveIntelDeliveryByID`: not-found when no delivery has the
      id; otherwise every delivery with it is gone and nothing else changes. */
  function DeleteActiveIntelDeliveryById(st: Store, id: Id): (r: Result<Store>)
    ensures r.Ok? <==> HasDelivery(st, id)
    ensures r.Err? ==> r.code == NotFound
    ensures r.Ok? ==> !HasDelivery(r.value, id)
    ensures r.Ok? ==> forall d :: d in r.value.deliveries <==> d in st.deliveries && d.id != id
    ensures r.Ok? ==> r.value.attempts == st.attempts && r.value.intel == st.intel && r.value.auto == st.auto
  {
    if !HasDelivery(st, id) then Err(NotFound)
    else
      var ds := Filter((d: Delivery) => d.id != id, st.deliveries);
      Ok(st.(deliveries := ds))
  }

  /** `CreateActiveIntelDeliveryAttempt`. */
  function CreateActiveIntelDeliveryAttempt(st: Store, a: Attempt): (r: Store)
    ensures HasAttempt(r, a.id) && HasActiveAttempt(r, a.delivery)
    ensures |r.attempts| == |st.attempts| + 1 && r.attempts[..|st.attempts|] == st.attempts
    ensures r.deliveries == st.deliveries && r.intel == st.intel && r.auto == st.auto
  {
    var r := st.(attempts := st.attempts + [a]);
    assert r.attempts[|st.attempts|] == a;
    r
  }

  /** `DeleteActiveIntelDeliveryAttemptByID`: not-found when no attempt has
      the id; otherwise every attempt with it is gone and nothing else
      changes. */
  function DeleteActiveIntelDeliveryAttemptById(st: Store, id: Id): (r: Result<Store>)
    ensures r.Ok? <==> HasAttempt(st, id)
    ensures r.Err? ==> r.code == NotFound
    ensures r.Ok? ==> !HasAttempt(r.value, id)
    ensures r.Ok? ==> forall a :: a in r.value.attempts <==> a in st.attempts && a.id != id
    ensures r.Ok? ==> r.value.deliveries == st.deliveries && r.value.intel == st.intel && r.value.auto == st.auto
  {
    if !HasAttempt(st, id) then Err(NotFound)
    else
      var as_ := Filter((a: Attempt) => a.id != id, st.attempts);
      Ok(st.(attempts := as_))
  }

  /** Creating an attempt and deleting it again leaves the attempts as they
      were when no attempt had its id before. */
  lemma CreateThenDeleteAttempt(st: Store, a: Attempt)
    requires !HasAttempt(st, a.id)
    ensures DeleteActiveIntelDeliveryAttemptById(CreateActiveIntelDeliveryAttempt(st, a), a.id).Ok?
    ensures forall x ::
      (x in DeleteActiveIntelDeliveryAttemptById(CreateActiveIntelDeliveryAttempt(st, a), a.id).value.attempts <==> x in st.attempts)
  {
    var r := CreateActiveIntelDeliveryAttempt(st, a);
    forall x | x in st.attempts ensures x.id != a.id {
      var i :| 0 <= i < |st.attempts| && st.attempts[i] == x;
    }
    forall x | x in r.attempts ensures x in st.attempts || x == a {
      var i :| 0 <= i < |r.attempts| && r.attempts[i] == x;
      if i < |st.attempts| { assert r.attempts[..|st.attempts|][i] == x; }
    }
  }

  /** `IntelOperationByDelivery`: the operation of the intel an active
      delivery is for; not-found when the delivery or its intel is
      missing. */
  function IntelOperationByDelivery(st: Store, deliveryId: Id): (r: Result<Id>)
    ensures r.Ok? <==> exists d :: d in st.deliveries && d.id == deliveryId && d.intel in st.intel
    ensures r.Err? ==> r.code == NotFound
    ensures r.Ok? ==>
      exists d :: d in st.deliveries && d.id == deliveryId && d.intel in st.intel && st.intel[d.intel].operation == r.value
  {
    var hits := Filter((d: Delivery) => d.id == deliveryId && d.intel in st.intel, st.deliveries);
    if |hits| == 0 then
      assert forall d :: d in st.deliveries && d.id == deliveryId ==> d.intel !in st.intel by {
        forall d | d in st.deliveries && d.id == deliveryId ensures d.intel !in st.intel {
          var i :| 0 <= i < |st.deliveries| && st.deliveries[i] == d;
        }
      }
      Err(NotFound)
    else
      assert hits[0] in st.deliveries;
      Ok(st.intel[hits[0].intel].operation)
  }

  /** `IntelOperationByDeliveryAttempt`: the operation of the intel an
      active attempt's delivery is for; not-found when any link is
      missing. */
  function IntelOperationByDeliveryAttempt(st: Store, attemptId: Id): (r: Result<Id>)
    ensures r.Ok? <==> exists a :: a in st.attempts && a.id == attemptId && IntelOperationByDelivery(st, a.delivery).Ok?
    ensures r.Err? ==> r.code == NotFound
    ensures r.Ok? ==> exists a :: a in st.attempts && a.id == attemptId && IntelOperationByDelivery(st, a.delivery) == r
  {
    var hits := Filter((a: Attempt) => a.id == attemptId && IntelOperationByDelivery(st, a.delivery).Ok?, st.attempts);
    if |hits| == 0 then
      assert forall a :: a in st.attempts && a.id == attemptId ==> IntelOperationByDelivery(st, a.delivery).Err? by {
        forall a | a in st.attempts && a.id == attemptId ensures IntelOperationByDelivery(st, a.delivery).Err? {
          var i :| 0 <= i < |st.attempts| && st.attempts[i] == a;
        }
      }
      Err(NotFound)
    else
      assert hits[0] in st.attempts;
      IntelOperationByDelivery(st, hits[0].delivery)
  }

  // ---------------------------------------------------------------------------
  // Automatic delivery

  /** `IsAutoIntelDeliveryEnabledForEntry`. */
  function IsAutoIntelDeliveryEnabledForEntry(st: Store, entry: Id): (enabled: bool)
    ensures enabled <==> entry in st.auto
  {
    entry in st.auto
  }

  /** `SetAutoIntelDeliveryEnabledForEntry` as written: it looks whether the
      entry is already enabled and then inserts or deletes it, without
      looking at `enabled`. */
  function SetAutoIntelDeliveryEnabledForEntryAsWritten(st: Store, entry: Id, enabled: bool): (r: Store)
    ensures IsAutoIntelDeliveryEnabledForEntry(r, entry) != IsAutoIntelDeliveryEnabledForEntry(st, entry)
    ensures r.auto - {entry} == st.auto - {entry}
    ensures r.deliveries == st.deliveries && r.attempts == st.attempts && r.intel == st.intel
  {
    if !IsAutoIntelDeliveryEnabledForEntry(st, entry) then st.(auto := st.auto + {entry})
    else st.(auto := st.auto - {entry})
  }

  /** Enabling automatic delivery for an entry that has it already turns it
      off. */
  lemma EnablingTwiceDisablesAsWritten(st: Store, entry: Id)
    requires IsAutoIntelDeliveryEnabledForEntry(st, entry)
    ensures !IsAutoIntelDeliveryEnabledForEntry(SetAutoIntelDeliveryEnabledForEntryAsWritten(st, entry, true), entry)
  {
  }

  /** Setting the flag for an entry, as its name promises. */
  function SetAutoIntelDeliveryEnabledForEntry(st: Store, entry: Id, enabled: bool): (r: Store)
    ensures IsAutoIntelDeliveryEnabledForEntry(r, entry) == enabled
    ensures r.auto - {entry} == st.auto - {entry}
    ensures r.deliveries == st.deliveries && r.attempts == st.attempts && r.intel == st.intel
  {
    if enabled then st.(auto := st.auto + {entry}) else st.(auto := st.auto - {entry})
  }

  /** Setting the flag is idempotent, and the version as written agrees with
      it exactly when the flag is asked to change. */
  lemma SetAutoIsIdempotent(st: Store, entry: Id, enabled: bool)
    ensures var once := SetAutoIntelDeliveryEnabledForEntry(st, entry, enabled);
      SetAutoIntelDeliveryEnabledForEntry(once, entry, enabled) == once
    ensures SetAutoIntelDeliveryEnabledForEntryAsWritten(st, entry, enabled) == SetAutoIntelDeliveryEnabledForEntry(st, entry, enabled)
      <==> IsAutoIntelDeliveryEnabledForEntry(st, entry) != enabled
  {
    var once := SetAutoIntelDeliveryEnabledForEntry(st, entry, enabled);
    assert once.auto == (if enabled then st.auto + {entry} else st.auto - {entry});
    if IsAutoIntelDeliveryEnabledForEntry(st, entry) == enabled {
      var w := SetAutoIntelDeliveryEnabledForEntryAsWritten(st, entry, enabled);
      assert (entry in w.auto) != (entry in once.auto);
    }
  }

  // ---------------------------------------------------------------------------
  // Open deliveries

  /** Whether `OpenIntelDeliveriesByOperation` returns a delivery: its intel
      belongs to the operation, no attempt for it is active and its
      recipient has no automatic delivery. */
  predicate IsOpen(st: Store, operation: Id, d: Delivery) {
    && d.intel in st.intel
    && st.intel[d.intel].operation == operation
    && !HasActiveAttempt(st, d.id)
    && d.to !in st.auto
  }

  /** `OpenIntelDeliveriesByOperation`. */
  function OpenIntelDeliveriesByOperation(st: Store, operation: Id): (r: seq<Summary>)
    ensures |r| <= |st.deliveries|
    ensures forall s :: s in r <==> s.delivery in st.deliveries && IsOpen(st, operation, s.delivery) && s.intel == st.intel[s.delivery.intel]
  {
    var open := Filter((d: Delivery) => IsOpen(st, operation, d), st.deliveries);
    var r := seq(|open|, k requires 0 <= k < |open| => Summary(open[k], st.intel[open[k].intel]));
    assert forall s :: s in r <==> s.delivery in open && s.intel == st.intel[s.delivery.intel] by {
      forall s | s in r ensures s.delivery in open && s.intel == st.intel[s.delivery.intel] {
        var k :| 0 <= k < |r| && r[k] == s;
      }
      forall d | d in open ensures Summary(d, st.intel[d.intel]) in r {
        var k :| 0 <= k < |open| && open[k] == d;
        assert r[k] == Summary(d, st.intel[d.intel]);
      }
    }
    assert forall d :: d in open <==> d in st.deliveries && IsOpen(st, operation, d) by {
      forall d | d in open ensures d in st.deliveries && IsOpen(st, operation, d) {
        var k :| 0 <= k < |open| && open[k] == d;
      }
      forall d | d in st.deliveries && IsOpen(st, operation, d) ensures d in open {
        var k :| 0 <= k < |st.deliveries| && st.deliveries[k] == d;
      }
    }
    r
  }

  /** Enabling automatic delivery for an entry takes its deliveries out of the
      open ones; disabling it puts back those without an active attempt. */
  lemma AutoDeliveryClosesDeliveries(st: Store, operation: Id, entry: Id, d: Delivery, i: Intel)
    requires d in st.deliveries && d.to == entry
    ensures Summary(d, i) !in OpenIntelDeliveriesByOperation(SetAutoIntelDeliveryEnabledForEntry(st, entry, true), operation)
    ensures (&& d.intel in st.intel && i == st.intel[d.intel] && i.operation == operation && !HasActiveAttempt(st, d.id))
      ==> Summary(d, i) in OpenIntelDeliveriesByOperation(SetAutoIntelDeliveryEnabledForEntry(st, entry, false), operation)
  {
  }

  /** An active attempt for a delivery takes it out of the open ones. */
  lemma AttemptClosesDelivery(st: Store, operation: Id, a: Attempt, d: Delivery, i: Intel)
    requires a.delivery == d.id
    ensures Summary(d, i) !in OpenIntelDeliveriesByOperation(CreateActiveIntelDeliveryAttempt(st, a), operation)
  {
  }

  // ---------------------------------------------------------------------------
  // Affected operations

  /** The elements of `s` without repetitions, in the order of their first
      occurrence. */
  function Distinct(s: seq<Id>): (r: seq<Id>)
    ensures NoDuplicates(r)
    ensures forall x :: x in r <==> x in s
    ensures |r| <= |s|
  {
    if |s| == 0 then []
    else
      var rest := Distinct(s[..|s| - 1]);
      assert forall x :: x in s <==> x in s[..|s| - 1] || x == s[|s| - 1] by {
        assert s == s[..|s| - 1] + [s[|s| - 1]];
      }
      if s[|s| - 1] in rest then rest else rest + [s[|s| - 1]]
  }

  /** `IntelOperationsByActiveIntelDeliveryRecipient`: each operation with
      intel actively delivered to the entry, once. */
  function IntelOperationsByActiveIntelDeliveryRecipient(st: Store, entry: Id): (r: seq<Id>)
    ensures NoDuplicates(r)
    ensures forall op :: op in r <==>
      exists d :: d in st.deliveries && d.to == entry && d.intel in st.intel && st.intel[d.intel].operation == op
  {
    var ds := Filter((d: Delivery) => d.to == entry && d.intel in st.intel, st.deliveries);
    var ops := seq(|ds|, k requires 0 <= k < |ds| => st.intel[ds[k].intel].operation);
    assert forall op :: op in ops <==>
      exists d :: d in st.deliveries && d.to == entry && d.intel in st.intel && st.intel[d.intel].operation == op by {
      forall op | op in ops
        ensures exists d :: d in st.deliveries && d.to == entry && d.intel in st.intel && st.intel[d.intel].operation == op {
        var k :| 0 <= k < |ops| && ops[k] == op;
        assert ds[k] in st.deliveries;
      }
      forall op | exists d :: d in st.deliveries && d.to == entry && d.intel in st.intel && st.intel[d.intel].operation == op
        ensures op in ops {
        var d :| d in st.deliveries && d.to == entry && d.intel in st.intel && st.intel[d.intel].operation == op;
        var j :| 0 <= j < |st.deliveries| && st.deliveries[j] == d;
        assert d in ds;
        var k :| 0 <= k < |ds| && ds[k] == d;
        assert ops[k] == op;
      }
    }
    Distinct(ops)
  }
}
