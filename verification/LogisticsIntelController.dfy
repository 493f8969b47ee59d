/** The intel operations of the logistics controller
    (logistics-svc/controller/intel.go). Each runs in one transaction: an
    error leaves the store as it was and publishes nothing, so only a
    successful outcome carries a new store and the messages to publish. */
module LogisticsIntelController {
  import opened Common
  import opened Search
  import opened LogisticsIntel
  import AddressBook
  import LogisticsNotifiers
  import IntelDeliveries
  import IntelDeliveryController
  import Events
  import IntelContent

  /** The intel tables and the address book of the logistics service. */
  datatype State = State(intel: LogisticsIntel.Store, book: AddressBook.Store)

  /** `IsUserOperationMember`. */
  predicate IsUserOperationMember(s: State, user: Id, operation: Id) {
    AddressBook.Membership(operation, user) in s.book.members
  }

  // ---------------------------------------------------------------------------
  // Creation and invalidation

  /** What a controller operation hands to the notifiers, in order: the
      delivery controller's events and the intel service's own messages. */
  datatype Notice =
    | DeliveryNotice(event: IntelDeliveryController.Event)
    | IntelNotice(message: Events.Outbound)

  function DeliveryNotices(events: seq<IntelDeliveryController.Event>): (r: seq<Notice>)
    ensures |r| == |events| && forall k :: 0 <= k < |events| ==> r[k] == DeliveryNotice(events[k])
  {
    if |events| == 0 then [] else [DeliveryNotice(events[0])] + DeliveryNotices(events[1..])
  }

  /** The database's new ids for the initial deliveries of `create`: one
      delivery id and one attempt id per recipient, none in use yet. */
  predicate FreshDeliveryIds(s: State, create: CreateIntel, deliveryIds: seq<Id>, attemptIds: seq<Id>) {
    && |deliveryIds| == |create.initialDeliverTo| == |attemptIds|
    && NoDuplicates(deliveryIds) && NoDuplicates(attemptIds)
    && IntelDeliveryController.FreshFrom(s.intel.delivery, deliveryIds, attemptIds, 0)
  }

  /** The intel row `CreateIntel` stores. */
  function CreatedRow(s: State, create: CreateIntel, searchText: Option<string>, newId: Id, now: Time): (r: (Intel, LogisticsIntel.Store))
    requires !HasIntel(s.intel.intel, newId)
    ensures r.0.id == newId && r.0.createdAt == now && r.0.isValid && r.0.searchText == searchText
    ensures r.1.intel == s.intel.intel + [r.0]
    ensures r.1.delivery.deliveries == s.intel.delivery.deliveries && r.1.delivery.attempts == s.intel.delivery.attempts
    ensures newId in r.1.delivery.importance
  {
    Create(s.intel, create.(searchText := searchText), newId, now)
  }

  /** `CreateIntel`: the creator must be a member of the operation; the
      generated search text replaces the given one; a delivery is created,
      announced and looked after for each initial recipient; then the
      creation is announced. It fails exactly where the transaction does: a
      creator outside the operation, a failing schedule or intel the
      notifier cannot announce. The search-text generator is a parameter. */
  function CreateIntel(s: State, create: CreateIntel, searchText: Option<string>, newId: Id,
                       deliveryIds: seq<Id>, attemptIds: seq<Id>, now: Time): (r: Result<(Intel, State, seq<Notice>)>)
    requires !HasIntel(s.intel.intel, newId)
    requires FreshDeliveryIds(s, create, deliveryIds, attemptIds)
    ensures !IsUserOperationMember(s, create.createdBy, create.operation) ==> r == Err(Forbidden)
    ensures r.Ok? <==>
      && IsUserOperationMember(s, create.createdBy, create.operation)
      && IntelDeliveryController.ScheduleDeliveriesForIntel(CreatedRow(s, create, searchText, newId, now).1.delivery, newId,
                                                            create.initialDeliverTo, deliveryIds, attemptIds, now).Ok?
      && create.intelType in IntelContent.KnownTypes
      && IntelContent.DecodeContent(create.intelType, create.content).Ok?
    ensures r.Ok? ==>
      && var (created, s2, notices) := r.value;
      && created.id == newId && created.createdAt == now && created.isValid
      && created.createdBy == create.createdBy && created.operation == create.operation
      && created.intelType == create.intelType && created.content == create.content
      && created.importance == create.importance && created.searchText == searchText
      && s2.book == s.book
      && s2.intel.intel == s.intel.intel + [created]
      && IntelDeliveryController.ScheduledFrom(s2.intel.delivery.deliveries, newId, create.initialDeliverTo, deliveryIds, 0)
      && IntelDeliveryController.KeepsTargets(s.intel.delivery.deliveries, s2.intel.delivery.deliveries)
      && |notices| > 0 && notices[|notices| - 1] == IntelNotice(LogisticsNotifiers.IntelCreated(created).value)
      && (forall k :: 0 <= k < |notices| - 1 ==> notices[k].DeliveryNotice?)
  {
    if !IsUserOperationMember(s, create.createdBy, create.operation) then Err(Forbidden)
    else
      var (created, st2) := CreatedRow(s, create, searchText, newId, now);
      var scheduled :- IntelDeliveryController.ScheduleDeliveriesForIntel(st2.delivery, newId, create.initialDeliverTo,
                                                                          deliveryIds, attemptIds, now);
      var message :- LogisticsNotifiers.IntelCreated(created);
      Ok((created, s.(intel := st2.(delivery := scheduled.st)), DeliveryNotices(scheduled.events) + [IntelNotice(message)]))
  }

  /** Every initial recipient gets a delivery of the new intel, announced
      before the intel itself. */
  lemma CreateIntelSchedulesEachRecipient(s: State, create: CreateIntel, searchText: Option<string>, newId: Id,
                                          deliveryIds: seq<Id>, attemptIds: seq<Id>, now: Time, j: int)
    requires !HasIntel(s.intel.intel, newId)
    requires FreshDeliveryIds(s, create, deliveryIds, attemptIds)
    requires CreateIntel(s, create, searchText, newId, deliveryIds, attemptIds, now).Ok?
    requires 0 <= j < |create.initialDeliverTo|
    ensures var (_, s2, notices) := CreateIntel(s, create, searchText, newId, deliveryIds, attemptIds, now).value;
      var d := IntelDeliveries.Delivery(deliveryIds[j], newId, create.initialDeliverTo[j], true, false, None);
      && deliveryIds[j] in s2.intel.delivery.deliveries
      && s2.intel.delivery.deliveries[deliveryIds[j]].intel == newId
      && s2.intel.delivery.deliveries[deliveryIds[j]].to == create.initialDeliverTo[j]
      && exists k :: 0 <= k < |notices| - 1 && notices[k] == DeliveryNotice(IntelDeliveryController.DeliveryCreated(d))
  {
    var (created, st2) := CreatedRow(s, create, searchText, newId, now);
    var scheduled := IntelDeliveryController.ScheduleDeliveriesForIntel(st2.delivery, newId, create.initialDeliverTo,
                                                                       deliveryIds, attemptIds, now).value;
    var notices := CreateIntel(s, create, searchText, newId, deliveryIds, attemptIds, now).value.2;
    var prefix := DeliveryNotices(scheduled.events);
    assert notices == prefix + [IntelNotice(LogisticsNotifiers.IntelCreated(created).value)];
    var d := IntelDeliveries.Delivery(deliveryIds[j], newId, create.initialDeliverTo[j], true, false, None);
    var i :| 0 <= i < |scheduled.events| && scheduled.events[i] == IntelDeliveryController.DeliveryCreated(d);
    assert prefix[i] == DeliveryNotice(IntelDeliveryController.DeliveryCreated(d));
    assert notices[i] == prefix[i];
  }

  /** Intel created by the controller can be fetched again by its creator's
      unlimited request. */
  lemma CreatedIntelIsRetrievable(s: State, create: CreateIntel, searchText: Option<string>, newId: Id,
                                  deliveryIds: seq<Id>, attemptIds: seq<Id>, now: Time)
    requires LogisticsIntel.Valid(s.intel) && !HasIntel(s.intel.intel, newId)
    requires FreshDeliveryIds(s, create, deliveryIds, attemptIds)
    requires CreateIntel(s, create, searchText, newId, deliveryIds, attemptIds, now).Ok?
    ensures var (created, s2, _) := CreateIntel(s, create, searchText, newId, deliveryIds, attemptIds, now).value;
      IntelByID(s2, newId, None) == Ok(created)
  {
    var (created, s2, _) := CreateIntel(s, create, searchText, newId, deliveryIds, attemptIds, now).value;
    IntelByIDFindsRow(s2.intel, |s.intel.intel|);
  }

  /** `InvalidateIntelByID`: the intel must exist (not found otherwise) and the
      invalidating user must be a member of its operation (forbidden
      otherwise); the invalidation is announced. */
  function InvalidateIntelByID(s: State, id: Id, invalidatedBy: Id): (r: Result<(State, seq<Events.Outbound>)>)
    ensures !HasIntel(s.intel.intel, id) ==> r == Err(NotFound)
    ensures r.Ok? <==>
      && HasIntel(s.intel.intel, id)
      && IsUserOperationMember(s, invalidatedBy, LogisticsIntel.IntelByID(s.intel, id).value.operation)
    ensures r.Err? ==> r.code in {NotFound, Forbidden}
    ensures r.Ok? ==>
      && r.value.0.book == s.book
      && Ok(r.value.0.intel) == LogisticsIntel.InvalidateIntelByID(s.intel, id)
      && r.value.1 == [LogisticsNotifiers.IntelInvalidated(id, invalidatedBy)]
  {
    var toInvalidate :- LogisticsIntel.IntelByID(s.intel, id);
    if !IsUserOperationMember(s, invalidatedBy, toInvalidate.operation) then Err(Forbidden)
    else
      var st2 := LogisticsIntel.InvalidateIntelByID(s.intel, id).value;
      Ok((s.(intel := st2), [LogisticsNotifiers.IntelInvalidated(id, invalidatedBy)]))
  }

  /** After a successful invalidation the intel reads as invalid. */
  lemma InvalidatedIntelReadsInvalid(s: State, id: Id, invalidatedBy: Id)
    requires LogisticsIntel.Valid(s.intel)
    requires InvalidateIntelByID(s, id, invalidatedBy).Ok?
    ensures var s2 := InvalidateIntelByID(s, id, invalidatedBy).value.0;
      IntelByID(s2, id, None).Ok? && !IntelByID(s2, id, None).value.isValid
  {
    var s2 := InvalidateIntelByID(s, id, invalidatedBy).value.0;
    var st2 := s2.intel;
    assert Ok(st2) == LogisticsIntel.InvalidateIntelByID(s.intel, id);
    var k :| 0 <= k < |s.intel.intel| && s.intel.intel[k].id == id;
    assert st2.intel[k] == s.intel.intel[k].(isValid := false);
    IntelByIDFindsRow(st2, k);
    assert IntelByID(s2, id, None) == LogisticsIntel.IntelByID(st2, id);
  }

  // ---------------------------------------------------------------------------
  // Limiting to a user

  /** The entries of the address book that belong to the user. */
  function UserEntryIds(book: AddressBook.Store, user: Id): (r: set<Id>)
    ensures forall e :: e in r <==> e in book.entries && book.entries[e].user == Some(user)
  {
    set e | e in book.entries && book.entries[e].user == Some(user)
  }

  /** The address-book filters `limitIntelFiltersToUser` lists the user's
      entries with: only the user filter is set, so entries of inactive users
      stay out. */
  function UserEntriesFilter(user: Id): (f: AddressBook.Filters)
    ensures f.byUser == Some(user) && f.forOperation.None? && !f.excludeGlobal && f.visibleBy.None?
    ensures !f.includeForInactiveUsers && f.autoDeliveryEnabled.None?
  {
    AddressBook.NoFilters.(byUser := Some(user))
  }

  predicate IsActiveUser(s: State, user: Id) {
    user in s.book.users && s.book.users[user].isActive
  }

  /** The entries that listing returns: all of the user's entries while the
      user is active, none otherwise. */
  function ListedUserEntryIds(s: State, user: Id): (r: set<Id>)
    ensures IsActiveUser(s, user) ==> r == UserEntryIds(s.book, user)
    ensures !IsActiveUser(s, user) ==> r == {}
  {
    set id | id in s.book.entries && AddressBook.ListQualifies(s.book, UserEntriesFilter(user), s.book.entries[id])
  }

  /** The listing of the user's entries never fails, and with entries stored
      under their ids it returns exactly the listed ids. */
  lemma UserEntriesListingSucceeds(s: State, user: Id)
    requires AddressBook.WellKeyed(s.book)
    ensures AddressBook.Entries(s.book, UserEntriesFilter(user)).Ok?
    ensures forall id :: id in ListedUserEntryIds(s, user) <==>
      exists d :: d in AddressBook.Entries(s.book, UserEntriesFilter(user)).value && d.entry.id == id
  {
    var listed := AddressBook.Entries(s.book, UserEntriesFilter(user)).value;
    forall id | id in ListedUserEntryIds(s, user)
      ensures exists d :: d in listed && d.entry.id == id
    {
      var d := AddressBook.DetailedOf(s.book, s.book.entries[id]).value;
      assert d in listed;
    }
  }

  /** `userEntries` is the store's listing of the user's entries, in its own
      order. */
  predicate ListsUserEntries(s: State, user: Id, userEntries: seq<Id>) {
    Elems(userEntries) == ListedUserEntryIds(s, user)
  }

  /** An entry of the user that receives the intel makes the user one of the
      users with deliveries of it. */
  lemma SharedEntryMeansDelivered(s: State, user: Id, userEntries: seq<Id>, id: Id)
    requires ListsUserEntries(s, user, userEntries)
    requires SharesEntry(userEntries, DeliveryForEntries(s.intel, id))
    ensures user in UsersWithDeliveriesByIntel(s, id)
  {
    var k :| 0 <= k < |userEntries| && userEntries[k] in DeliveryForEntries(s.intel, id);
    assert userEntries[k] in Elems(userEntries);
    assert userEntries[k] in UserEntryIds(s.book, user);
    ByIDAgreesWithLimit(s, id, user);
  }

  /** The entries of the filter list that belong to the user, in filter order. */
  function Kept(list: seq<Id>, userEntries: seq<Id>): (r: seq<Id>)
    ensures forall k :: 0 <= k < |r| ==> r[k] in userEntries
    ensures forall e :: e in r <==> e in list && e in userEntries
  {
    Filter((e: Id) => e in userEntries, list)
  }

  /** `limitIntelFiltersToUser`, given the user's entries as the store lists
      them: without entries nothing may be shown, which the `false` result
      says; otherwise the delivery-for filter keeps only the user's entries
      and falls back to all of them when none remains. No other filter
      changes. */
  function LimitIntelFiltersToUser(f: IntelFilters, userEntries: seq<Id>): (r: (IntelFilters, bool))
    ensures r.1 <==> |userEntries| > 0
    ensures !r.1 ==> r.0 == NoFilters
    ensures r.1 ==> r.0 == f.(oneOfDeliveryForEntries := r.0.oneOfDeliveryForEntries)
    ensures r.1 ==> |r.0.oneOfDeliveryForEntries| > 0
    ensures r.1 ==> forall k :: 0 <= k < |r.0.oneOfDeliveryForEntries| ==> r.0.oneOfDeliveryForEntries[k] in userEntries
    ensures r.1 && SharesEntry(f.oneOfDeliveryForEntries, Elems(userEntries)) ==>
      forall e :: e in r.0.oneOfDeliveryForEntries <==> e in f.oneOfDeliveryForEntries && e in userEntries
    ensures r.1 && !SharesEntry(f.oneOfDeliveryForEntries, Elems(userEntries)) ==>
      r.0.oneOfDeliveryForEntries == userEntries
  {
    if |userEntries| == 0 then (NoFilters, false)
    else
      var kept := Kept(f.oneOfDeliveryForEntries, userEntries);
      if |kept| == 0 then
        assert !SharesEntry(f.oneOfDeliveryForEntries, Elems(userEntries));
        (f.(oneOfDeliveryForEntries := userEntries), true)
      else
        assert kept[0] in f.oneOfDeliveryForEntries;
        (f.(oneOfDeliveryForEntries := kept), true)
  }

  /** Keeping the user's entries from a list that holds only those changes
      nothing. */
  lemma {:induction false} KeptAll(list: seq<Id>, userEntries: seq<Id>)
    requires forall k :: 0 <= k < |list| ==> list[k] in userEntries
    ensures Kept(list, userEntries) == list
  {
    if |list| > 0 {
      KeptAll(list[1..], userEntries);
    }
  }

  /** A filter the user is entitled to passes the limit unchanged. */
  lemma EntitledFilterIsKept(f: IntelFilters, userEntries: seq<Id>)
    requires |userEntries| > 0
    requires forall k :: 0 <= k < |f.oneOfDeliveryForEntries| ==> f.oneOfDeliveryForEntries[k] in userEntries
    requires |f.oneOfDeliveryForEntries| > 0
    ensures LimitIntelFiltersToUser(f, userEntries) == (f, true)
  {
    KeptAll(f.oneOfDeliveryForEntries, userEntries);
  }

  /** Limiting a limited filter again changes nothing. */
  lemma LimitIsIdempotent(f: IntelFilters, userEntries: seq<Id>)
    requires LimitIntelFiltersToUser(f, userEntries).1
    ensures var g := LimitIntelFiltersToUser(f, userEntries).0;
      LimitIntelFiltersToUser(g, userEntries) == (g, true)
  {
    EntitledFilterIsKept(LimitIntelFiltersToUser(f, userEntries).0, userEntries);
  }

  /** The point of the limit: intel admitted by a limited filter has a
      delivery to one of the user's entries. */
  lemma LimitedFilterAdmitsOnlyDeliveredIntel(st: LogisticsIntel.Store, f: IntelFilters, userEntries: seq<Id>, i: Intel)
    requires LimitIntelFiltersToUser(f, userEntries).1
    requires PassesSafetyFilter(st, LimitIntelFiltersToUser(f, userEntries).0, i)
    ensures SharesEntry(userEntries, DeliveryForEntries(st, i.id))
  {
    var g := LimitIntelFiltersToUser(f, userEntries).0;
    var k :| 0 <= k < |g.oneOfDeliveryForEntries| && g.oneOfDeliveryForEntries[k] in DeliveryForEntries(st, i.id);
    var e := g.oneOfDeliveryForEntries[k];
    var j :| 0 <= j < |userEntries| && userEntries[j] == e;
  }

  // ---------------------------------------------------------------------------
  // Retrieval

  /** `UsersWithDeliveriesByIntel`: the users owning an entry that is the
      recipient of a delivery of the intel. */
  function UsersWithDeliveriesByIntel(s: State, intel: Id): (r: set<Id>)
    ensures forall u :: u in r <==> exists d :: (d in s.intel.delivery.deliveries && s.intel.delivery.deliveries[d].intel == intel
      && s.intel.delivery.deliveries[d].to in s.book.entries && s.book.entries[s.intel.delivery.deliveries[d].to].user == Some(u))
  {
    set d | d in s.intel.delivery.deliveries && s.intel.delivery.deliveries[d].intel == intel
      && s.intel.delivery.deliveries[d].to in s.book.entries && s.book.entries[s.intel.delivery.deliveries[d].to].user.Some?
      :: s.book.entries[s.intel.delivery.deliveries[d].to].user.value
  }

  /** `IntelByID`: with a user limit, the permission check comes first, so a
      limited user cannot tell missing intel from intel not delivered to
      them. */
  function IntelByID(s: State, id: Id, limitToUser: Option<Id>): (r: Result<Intel>)
    ensures limitToUser.Some? && limitToUser.value !in UsersWithDeliveriesByIntel(s, id) ==> r == Err(Forbidden)
    ensures r.Ok? <==> (limitToUser.None? || limitToUser.value in UsersWithDeliveriesByIntel(s, id)) && HasIntel(s.intel.intel, id)
    ensures r.Err? ==> r.code in {Forbidden, NotFound}
    ensures r.Ok? ==> r.value.id == id && r.value in s.intel.intel
  {
    if limitToUser.Some? && limitToUser.value !in UsersWithDeliveriesByIntel(s, id) then Err(Forbidden)
    else LogisticsIntel.IntelByID(s.intel, id)
  }

  /** Single retrieval and the limited list agree on what a user may see:
      a user is among the users with deliveries iff one of the user's
      entries is a recipient. */
  lemma ByIDAgreesWithLimit(s: State, id: Id, user: Id)
    ensures user in UsersWithDeliveriesByIntel(s, id) <==>
      exists e :: e in UserEntryIds(s.book, user) && e in DeliveryForEntries(s.intel, id)
  {
    if e :| e in UserEntryIds(s.book, user) && e in DeliveryForEntries(s.intel, id) {
      var d :| d in s.intel.delivery.deliveries.Values && d.intel == id && d.to == e;
      var key :| key in s.intel.delivery.deliveries && s.intel.delivery.deliveries[key] == d;
    }
    if user in UsersWithDeliveriesByIntel(s, id) {
      var key :| key in s.intel.delivery.deliveries && s.intel.delivery.deliveries[key].intel == id
        && s.intel.delivery.deliveries[key].to in s.book.entries && s.book.entries[s.intel.delivery.deliveries[key].to].user == Some(user);
      var d := s.intel.delivery.deliveries[key];
      assert d in s.intel.delivery.deliveries.Values;
      assert d.to in DeliveryForEntries(s.intel, id);
    }
  }

  /** `Intel`: a limited user without entries sees nothing; otherwise the
      limited filter is applied. */
  function Intel(s: State, f: IntelFilters, limitToUser: Option<Id>, userEntries: seq<Id>): (r: seq<Intel>)
    requires limitToUser.Some? ==> ListsUserEntries(s, limitToUser.value, userEntries)
    ensures limitToUser.Some? && ListedUserEntryIds(s, limitToUser.value) == {} ==> r == []
    ensures limitToUser.None? ==> r == IntelList(s.intel, f)
    ensures NewestFirst(r)
    ensures forall i :: i in r ==> i in s.intel.intel
  {
    if limitToUser.None? then
      Listed(s.intel, f)
    else
      assert |userEntries| > 0 ==> userEntries[0] in Elems(userEntries);
      var (g, ok) := LimitIntelFiltersToUser(f, userEntries);
      if !ok then [] else Listed(s.intel, g)
  }

  function Listed(st: LogisticsIntel.Store, f: IntelFilters): (r: seq<Intel>)
    ensures r == IntelList(st, f)
    ensures forall i :: i in r ==> i in st.intel && Qualifies(st, f, i)
  {
    var r := IntelList(st, f);
    assert forall i :: i in r ==> i in st.intel && Qualifies(st, f, i) by {
      forall i | i in r ensures i in st.intel && Qualifies(st, f, i) {
        IntelListMembers(st, f, i);
      }
    }
    r
  }

  /** A limited user only ever lists intel delivered to one of their entries,
      which is intel they may also read by its id. */
  lemma LimitedListShowsOnlyDeliveredIntel(s: State, f: IntelFilters, user: Id, userEntries: seq<Id>, i: Intel)
    requires ListsUserEntries(s, user, userEntries)
    requires i in Intel(s, f, Some(user), userEntries)
    ensures SharesEntry(userEntries, DeliveryForEntries(s.intel, i.id))
    ensures user in UsersWithDeliveriesByIntel(s, i.id)
    ensures IntelByID(s, i.id, Some(user)).Ok?
  {
    var (g, ok) := LimitIntelFiltersToUser(f, userEntries);
    IntelListMembers(s.intel, g, i);
    LimitedFilterAdmitsOnlyDeliveredIntel(s.intel, f, userEntries, i);
    SharedEntryMeansDelivered(s, user, userEntries, i.id);
    var k :| 0 <= k < |s.intel.intel| && s.intel.intel[k] == i;
  }

  /** `SearchIntel`: a limited user without entries gets the empty result;
      otherwise the store search runs with the limited filter. The search
      engine's answer is a parameter. */
  function SearchIntel(s: State, f: IntelFilters, limitToUser: Option<Id>, userEntries: seq<Id>,
                       answer: Result<SearchResult<Id>>): (r: Result<SearchResult<Intel>>)
    requires limitToUser.Some? ==> ListsUserEntries(s, limitToUser.value, userEntries)
    ensures limitToUser.Some? && ListedUserEntryIds(s, limitToUser.value) == {} ==> r == Ok(SearchResult([], 0, 0, 0, 0, ""))
    ensures limitToUser.None? ==> r == LogisticsIntel.SearchIntel(s.intel, f, answer)
    ensures (limitToUser.None? || ListedUserEntryIds(s, limitToUser.value) != {}) ==> (r.Ok? <==> answer.Ok?)
    ensures r.Ok? && limitToUser.Some? ==>
      forall k :: 0 <= k < |r.value.hits| ==> SharesEntry(userEntries, DeliveryForEntries(s.intel, r.value.hits[k].id))
    ensures r.Ok? && limitToUser.Some? ==>
      forall k :: 0 <= k < |r.value.hits| ==> limitToUser.value in UsersWithDeliveriesByIntel(s, r.value.hits[k].id)
  {
    if limitToUser.None? then LogisticsIntel.SearchIntel(s.intel, f, answer)
    else
      assert |userEntries| > 0 ==> userEntries[0] in Elems(userEntries);
      var (g, ok) := LimitIntelFiltersToUser(f, userEntries);
      if !ok then Ok(SearchResult([], 0, 0, 0, 0, ""))
      else
        var r := LogisticsIntel.SearchIntel(s.intel, g, answer);
        LimitedHitsAreDelivered(s, f, limitToUser.value, userEntries, r);
        r
  }

  lemma LimitedHitsAreDelivered(s: State, f: IntelFilters, user: Id, userEntries: seq<Id>, r: Result<SearchResult<Intel>>)
    requires ListsUserEntries(s, user, userEntries)
    requires LimitIntelFiltersToUser(f, userEntries).1
    requires r.Ok? ==> forall k :: 0 <= k < |r.value.hits| ==> PassesSafetyFilter(s.intel, LimitIntelFiltersToUser(f, userEntries).0, r.value.hits[k])
    ensures r.Ok? ==> forall k :: 0 <= k < |r.value.hits| ==> SharesEntry(userEntries, DeliveryForEntries(s.intel, r.value.hits[k].id))
    ensures r.Ok? ==> forall k :: 0 <= k < |r.value.hits| ==> user in UsersWithDeliveriesByIntel(s, r.value.hits[k].id)
  {
    if r.Ok? {
      forall k | 0 <= k < |r.value.hits|
        ensures SharesEntry(userEntries, DeliveryForEntries(s.intel, r.value.hits[k].id))
        ensures user in UsersWithDeliveriesByIntel(s, r.value.hits[k].id)
      {
        LimitedFilterAdmitsOnlyDeliveredIntel(s.intel, f, userEntries, r.value.hits[k]);
        SharedEntryMeansDelivered(s, user, userEntries, r.value.hits[k].id);
      }
    }
  }
}
