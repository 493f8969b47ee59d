/** The address-book operations of the logistics controller
    (logistics-svc/controller/address_book.go). Each runs in one
    transaction, so an error changes nothing and publishes nothing. */
module AddressBookController {
  import opened Common
  import opened AddressBook
  import LogisticsNotifiers
  import Events

  /** The address book together with the entries that have auto-delivery
      enabled. */
  datatype State = State(book: AddressBook.Store, autoDelivery: set<Id>)

  /** `CreateAddressBookEntry`: the stored entry with its details, announced
      under its new id. The search document is the store's own write and is
      stated by `AddressBook.Create`. */
  function CreateAddressBookEntry(st: AddressBook.Store, e: Entry, newId: Id): (r: Result<(AddressBook.Store, Detailed, seq<Events.Outbound>)>)
    requires newId !in st.entries
    ensures r.Ok? <==> (e.user.None? || e.user.value in st.users) && (e.operation.None? || e.operation.value in st.operations)
    ensures r.Err? ==> r.code == Internal
    ensures r.Ok? ==>
      && r.value.0.entries == st.entries[newId := e.(id := newId)]
      && r.value.1.entry == e.(id := newId)
      && r.value.2 == [LogisticsNotifiers.AddressBookEntryCreated(e.(id := newId))]
  {
    var (st2, created, _) :- Create(st, e, newId);
    Ok((st2, created, [LogisticsNotifiers.AddressBookEntryCreated(created.entry)]))
  }

  /** A created entry is read back unchanged, by anyone when it has no
      user. */
  lemma CreatedEntryIsReadBack(st: AddressBook.Store, e: Entry, newId: Id)
    requires newId !in st.entries && e.user.None?
    requires e.operation.None? || e.operation.value in st.operations
    ensures var (st2, created, _) := CreateAddressBookEntry(st, e, newId).value;
      forall v :: EntryById(st2, newId, v) == Ok(created)
  {
  }

  /** The limit of the update and delete operations: a limited caller may
      only touch entries of their own user. */
  predicate MayChange(st: AddressBook.Store, id: Id, limitToUser: Option<Id>)
    requires id in st.entries
  {
    limitToUser.None? || st.entries[id].user == Some(limitToUser.value)
  }

  /** `UpdateAddressBookEntry`: the entry must exist and, when limited,
      belong to the user; an entry of another user is reported as not found,
      like a missing one. */
  function UpdateAddressBookEntry(st: AddressBook.Store, update: Entry, limitToUser: Option<Id>): (r: Result<(AddressBook.Store, seq<Events.Outbound>)>)
    ensures update.id !in st.entries ==> r == Err(NotFound)
    ensures EntryById(st, update.id, None).Ok? && !MayChange(st, update.id, limitToUser) ==> r == Err(NotFound)
    ensures r.Ok? <==> EntryById(st, update.id, None).Ok? && MayChange(st, update.id, limitToUser)
    ensures r.Err? ==> r.code in {NotFound, Internal}
    ensures r.Ok? ==>
      && Ok(r.value.0) == Update(st, update)
      && r.value.1 == [LogisticsNotifiers.AddressBookEntryUpdated(update)]
  {
    var current :- EntryById(st, update.id, None);
    if limitToUser.Some? && current.entry.user != Some(limitToUser.value) then Err(NotFound)
    else
      var st2 := Update(st, update).value;
      Ok((st2, [LogisticsNotifiers.AddressBookEntryUpdated(update)]))
  }

  /** `DeleteAddressBookEntryByID`: the same checks as the update. */
  function DeleteAddressBookEntryByID(st: AddressBook.Store, id: Id, limitToUser: Option<Id>): (r: Result<(AddressBook.Store, seq<Events.Outbound>)>)
    ensures id !in st.entries ==> r == Err(NotFound)
    ensures EntryById(st, id, None).Ok? && !MayChange(st, id, limitToUser) ==> r == Err(NotFound)
    ensures r.Ok? <==> EntryById(st, id, None).Ok? && MayChange(st, id, limitToUser)
    ensures r.Err? ==> r.code in {NotFound, Internal}
    ensures r.Ok? ==>
      && Ok(r.value.0) == Delete(st, id)
      && r.value.1 == [LogisticsNotifiers.AddressBookEntryDeleted(id)]
  {
    var current :- EntryById(st, id, None);
    if limitToUser.Some? && current.entry.user != Some(limitToUser.value) then Err(NotFound)
    else
      var st2 := Delete(st, id).value;
      Ok((st2, [LogisticsNotifiers.AddressBookEntryDeleted(id)]))
  }

  /** A limited caller leaves every entry of other users untouched. */
  lemma LimitedChangesKeepForeignEntries(st: AddressBook.Store, update: Entry, id: Id, user: Id, other: Id)
    requires other in st.entries && st.entries[other].user != Some(user)
    ensures UpdateAddressBookEntry(st, update, Some(user)).Ok? ==>
      other in UpdateAddressBookEntry(st, update, Some(user)).value.0.entries
      && UpdateAddressBookEntry(st, update, Some(user)).value.0.entries[other] == st.entries[other]
    ensures DeleteAddressBookEntryByID(st, id, Some(user)).Ok? ==>
      other in DeleteAddressBookEntryByID(st, id, Some(user)).value.0.entries
      && DeleteAddressBookEntryByID(st, id, Some(user)).value.0.entries[other] == st.entries[other]
  {
    if UpdateAddressBookEntry(st, update, Some(user)).Ok? {
      assert other != update.id;
    }
    if DeleteAddressBookEntryByID(st, id, Some(user)).Ok? {
      assert other != id;
    }
  }

  // ---------------------------------------------------------------------------
  // Auto-delivery. The store queries behind these operations are not part of
  // this model; an entry's auto-delivery flag is modelled as membership in a
  // set.

  /** `IsAutoIntelDeliveryEnabledForAddressBookEntry`. */
  function IsAutoIntelDeliveryEnabled(s: State, id: Id): (r: Result<bool>)
    ensures r.Ok? <==> id in s.book.entries
    ensures r.Err? ==> r.code == NotFound
    ensures r.Ok? ==> (r.value <==> id in s.autoDelivery)
  {
    if id !in s.book.entries then Err(NotFound) else Ok(id in s.autoDelivery)
  }

  /** `SetAutoIntelDeliveryEnabledForAddressBookEntry`: the flag of one entry
      changes and the new value is announced. */
  function SetAutoIntelDeliveryEnabled(s: State, id: Id, enabled: bool): (r: Result<(State, seq<Events.Outbound>)>)
    ensures r.Ok? <==> id in s.book.entries
    ensures r.Err? ==> r.code == NotFound
    ensures r.Ok? ==>
      && r.value.0.book == s.book
      && (id in r.value.0.autoDelivery <==> enabled)
      && (forall e :: e != id ==> (e in r.value.0.autoDelivery <==> e in s.autoDelivery))
      && r.value.1 == [LogisticsNotifiers.AddressBookEntryAutoDeliveryUpdated(id, enabled)]
  {
    if id !in s.book.entries then Err(NotFound)
    else
      var auto := if enabled then s.autoDelivery + {id} else s.autoDelivery - {id};
      Ok((s.(autoDelivery := auto), [LogisticsNotifiers.AddressBookEntryAutoDeliveryUpdated(id, enabled)]))
  }

  /** Setting the flag and reading it gives the value set. */
  lemma SetThenIsAutoDeliveryEnabled(s: State, id: Id, enabled: bool)
    requires id in s.book.entries
    ensures IsAutoIntelDeliveryEnabled(SetAutoIntelDeliveryEnabled(s, id, enabled).value.0, id) == Ok(enabled)
  {
  }

  function EnabledMessages(ids: seq<Id>, enabled: bool): (r: seq<Events.Outbound>)
    ensures |r| == |ids|
    ensures forall k :: 0 <= k < |ids| ==> r[k] == LogisticsNotifiers.AddressBookEntryAutoDeliveryUpdated(ids[k], enabled)
  {
    Map((id: Id) => LogisticsNotifiers.AddressBookEntryAutoDeliveryUpdated(id, enabled), ids)
  }

  /** `SetAddressBookEntriesWithAutoDeliveryEnabled`: exactly the given
      entries have auto-delivery afterwards. Every given entry is announced as
      enabled, then every entry the store reports as disabled by the change
      (`disabled`, in the store's order) as disabled. */
  function SetEntriesWithAutoDeliveryEnabled(s: State, ids: seq<Id>, disabled: seq<Id>): (r: (State, seq<Events.Outbound>))
    requires forall e :: e in disabled <==> e in s.autoDelivery && e !in ids
    ensures r.0.book == s.book
    ensures forall e :: e in r.0.autoDelivery <==> e in ids
    ensures |r.1| == |ids| + |disabled|
    ensures forall k :: 0 <= k < |ids| ==> r.1[k] == LogisticsNotifiers.AddressBookEntryAutoDeliveryUpdated(ids[k], true)
    ensures forall k :: 0 <= k < |disabled| ==>
      r.1[|ids| + k] == LogisticsNotifiers.AddressBookEntryAutoDeliveryUpdated(disabled[k], false)
  {
    (s.(autoDelivery := set e | e in ids), EnabledMessages(ids, true) + EnabledMessages(disabled, false))
  }

  /** Every entry whose flag the change flips is announced with its new
      value. */
  lemma EveryFlippedEntryIsAnnounced(s: State, ids: seq<Id>, disabled: seq<Id>, e: Id)
    requires forall x :: x in disabled <==> x in s.autoDelivery && x !in ids
    requires (e in s.autoDelivery) != (e in SetEntriesWithAutoDeliveryEnabled(s, ids, disabled).0.autoDelivery)
    ensures var (s2, messages) := SetEntriesWithAutoDeliveryEnabled(s, ids, disabled);
      LogisticsNotifiers.AddressBookEntryAutoDeliveryUpdated(e, e in s2.autoDelivery) in messages
  {
    var (s2, messages) := SetEntriesWithAutoDeliveryEnabled(s, ids, disabled);
    if e in s2.autoDelivery {
      var k :| 0 <= k < |ids| && ids[k] == e;
      assert messages[k] == LogisticsNotifiers.AddressBookEntryAutoDeliveryUpdated(e, true);
    } else {
      var k :| 0 <= k < |disabled| && disabled[k] == e;
      assert messages[|ids| + k] == LogisticsNotifiers.AddressBookEntryAutoDeliveryUpdated(e, false);
    }
  }
}
