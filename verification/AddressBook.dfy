/** The address book of the logistics service
    (logistics-svc/store/address_book.go): entries, their visibility among
    operation members, the search documents and the list and search filters. */
module AddressBook {
  import opened Common
  import opened Search

  datatype Entry = Entry(id: Id, labelText: string, description: string, operation: Option<Id>, user: Option<Id>)

  datatype User = User(id: Id, username: string, firstName: string, lastName: string, isActive: bool)

  datatype Operation = Operation(id: Id, title: string, description: string, start: Time, end: Option<Time>, isArchived: bool)

  /** `AddressBookEntryDetailed`: the entry with the details of its user. */
  datatype Detailed = Detailed(entry: Entry, userDetails: Option<User>)

  /** A row of `operation_members`. */
  datatype Membership = Membership(operation: Id, user: Id)

  datatype Store = Store(
    entries: map<Id, Entry>,
    users: map<Id, User>,
    operations: map<Id, Operation>,
    members: set<Membership>)

  /** Every entry, user and operation is stored under its own identifier. */
  predicate WellKeyed(st: Store) {
    && (forall id :: id in st.entries ==> st.entries[id].id == id)
    && (forall id :: id in st.users ==> st.users[id].id == id)
    && (forall id :: id in st.operations ==> st.operations[id].id == id)
  }

  // ---------------------------------------------------------------------------
  // Validation

  const EmptyLabelError: string := "label must not be empty"

  /** `AddressBookEntry.Validate`. */
  function Validate(e: Entry): (errors: seq<string>)
    ensures |errors| > 0 <==> e.labelText == ""
    ensures errors != [] ==> errors == [EmptyLabelError]
  {
    if e.labelText == "" then [EmptyLabelError] else []
  }

  // ---------------------------------------------------------------------------
  // Visibility

  function OperationsOf(st: Store, user: Id): set<Id> {
    set m | m in st.members && m.user == user :: m.operation
  }

  /** `isUserVisibleBy`: the two users share an operation. */
  predicate IsUserVisibleBy(st: Store, user: Id, visibleBy: Id) {
    exists m :: m in st.members && m.user == user && Membership(m.operation, visibleBy) in st.members
  }

  /** `visibleByForUser`: the other members of the user's operations. */
  function VisibleByForUser(st: Store, user: Id): (r: set<Id>)
    ensures user !in r
  {
    set m, n | m in st.members && n in st.members && m.user == user && n.operation == m.operation && n.user != user :: n.user
  }

  /** The users an entry's user is visible by are exactly the other users who
      share an operation with that user. */
  lemma VisibleByAgreesWithIsUserVisibleBy(st: Store, user: Id, v: Id)
    ensures v in VisibleByForUser(st, user) <==> v != user && IsUserVisibleBy(st, user, v)
  {
    if v != user && IsUserVisibleBy(st, user, v) {
      var m :| m in st.members && m.user == user && Membership(m.operation, v) in st.members;
      var n := Membership(m.operation, v);
      assert n.user in VisibleByForUser(st, user);
    }
  }

  /** Visibility is symmetric. */
  lemma IsUserVisibleBySymmetric(st: Store, u: Id, v: Id)
    ensures IsUserVisibleBy(st, u, v) <==> IsUserVisibleBy(st, v, u)
  {
    if IsUserVisibleBy(st, u, v) {
      var m :| m in st.members && m.user == u && Membership(m.operation, v) in st.members;
      assert Membership(m.operation, v).user == v;
      assert Membership(Membership(m.operation, v).operation, u) == m;
    }
    if IsUserVisibleBy(st, v, u) {
      var m :| m in st.members && m.user == v && Membership(m.operation, u) in st.members;
      assert Membership(m.operation, u).user == u;
      assert Membership(Membership(m.operation, u).operation, v) == m;
    }
  }

  // ---------------------------------------------------------------------------
  // Search documents

  const AttrId: string := "id"
  const AttrLabel: string := "label"
  const AttrDescription: string := "description"
  const AttrOperationId: string := "operation_id"
  const AttrOperationTitle: string := "operation_title"
  const AttrOperationIsArchived: string := "operation_is_archived"
  const AttrUserId: string := "user_id"
  const AttrUserUsername: string := "user_username"
  const AttrUserFirstName: string := "user_first_name"
  const AttrUserLastName: string := "user_last_name"
  const AttrVisibleBy: string := "visible_by"
  const AttrUserIsActive: string := "use_is_active"

  const UserAttrs: set<string> := {AttrUserId, AttrUserUsername, AttrUserFirstName, AttrUserLastName, AttrUserIsActive, AttrVisibleBy}
  const OperationAttrs: set<string> := {AttrOperationId, AttrOperationTitle, AttrOperationIsArchived}

  /** `documentFromAddressBookEntry`. */
  function DocumentFromEntry(e: Entry, user: Option<User>, operation: Option<Operation>, visibleBy: set<Id>): (d: Document)
    ensures d.Keys == {AttrId, AttrLabel, AttrDescription}
                      + (if user.Some? then UserAttrs else {})
                      + (if operation.Some? then OperationAttrs else {})
    ensures d[AttrId] == DId(e.id) && d[AttrLabel] == DStr(e.labelText) && d[AttrDescription] == DStr(e.description)
    ensures user.Some? ==>
      && d[AttrUserId] == DId(user.value.id) && d[AttrUserUsername] == DStr(user.value.username)
      && d[AttrUserFirstName] == DStr(user.value.firstName) && d[AttrUserLastName] == DStr(user.value.lastName)
      && d[AttrUserIsActive] == DBool(user.value.isActive) && d[AttrVisibleBy] == DIds(visibleBy)
    ensures operation.Some? ==>
      && d[AttrOperationId] == DId(operation.value.id) && d[AttrOperationTitle] == DStr(operation.value.title)
      && d[AttrOperationIsArchived] == DBool(operation.value.isArchived)
  {
    var base := map[AttrId := DId(e.id), AttrLabel := DStr(e.labelText), AttrDescription := DStr(e.description)];
    var withUser :=
      if user.Some? then
        base[AttrUserId := DId(user.value.id)][AttrUserUsername := DStr(user.value.username)]
            [AttrUserFirstName := DStr(user.value.firstName)][AttrUserLastName := DStr(user.value.lastName)]
            [AttrUserIsActive := DBool(user.value.isActive)][AttrVisibleBy := DIds(visibleBy)]
      else base;
    if operation.Some? then
      withUser[AttrOperationId := DId(operation.value.id)][AttrOperationTitle := DStr(operation.value.title)]
              [AttrOperationIsArchived := DBool(operation.value.isArchived)]
    else withUser
  }

  /** `documentFromAddressBookEntryByID`: the document of a stored entry; a
      user or operation the entry names but the store lacks is an internal
      error. */
  function DocumentOf(st: Store, e: Entry): (r: Result<Document>)
    ensures r.Ok? <==> (e.user.Some? ==> e.user.value in st.users) && (e.operation.Some? ==> e.operation.value in st.operations)
    ensures r.Err? ==> r.code == Internal
    ensures r.Ok? ==> r.value == DocumentFromEntry(e,
      if e.user.Some? then Some(st.users[e.user.value]) else None,
      if e.operation.Some? then Some(st.operations[e.operation.value]) else None,
      if e.user.Some? then VisibleByForUser(st, e.user.value) else {})
  {
    if e.user.Some? && e.user.value !in st.users then Err(Internal)
    else if e.operation.Some? && e.operation.value !in st.operations then Err(Internal)
    else
      Ok(DocumentFromEntry(e,
        if e.user.Some? then Some(st.users[e.user.value]) else None,
        if e.operation.Some? then Some(st.operations[e.operation.value]) else None,
        if e.user.Some? then VisibleByForUser(st, e.user.value) else {}))
  }

  // ---------------------------------------------------------------------------
  // Retrieval by id and changes

  /** `AddressBookEntryByID`: not-found for an unknown entry and, with
      `visibleBy` set, for an entry whose user shares no operation with
      `visibleBy`; entries without a user are visible to everyone. */
  function EntryById(st: Store, id: Id, visibleBy: Option<Id>): (r: Result<Detailed>)
    ensures id !in st.entries ==> r == Err(NotFound)
    ensures (&& id in st.entries && visibleBy.Some? && st.entries[id].user.Some?
             && !IsUserVisibleBy(st, st.entries[id].user.value, visibleBy.value)) ==> r == Err(NotFound)
    ensures r.Ok? ==> id in st.entries && r.value.entry == st.entries[id]
    ensures r.Ok? ==> (r.value.userDetails.Some? <==> st.entries[id].user.Some?)
    ensures r.Ok? && st.entries[id].user.Some? ==>
      st.entries[id].user.value in st.users && r.value.userDetails == Some(st.users[st.entries[id].user.value])
    ensures r.Err? ==> r.code in {NotFound, Internal}
    ensures id in st.entries && st.entries[id].user.None? ==> r.Ok?
  {
    if id !in st.entries then Err(NotFound)
    else
      var e := st.entries[id];
      if visibleBy.Some? && e.user.Some? && !IsUserVisibleBy(st, e.user.value, visibleBy.value) then Err(NotFound)
      else DetailedOf(st, e)
  }

  /** The entry with its user's details; a missing user is an internal error. */
  function DetailedOf(st: Store, e: Entry): (r: Result<Detailed>)
    ensures r.Ok? <==> e.user.None? || e.user.value in st.users
    ensures r.Err? ==> r.code == Internal
    ensures r.Ok? ==> r.value.entry == e
    ensures r.Ok? ==> r.value.userDetails == (if e.user.Some? then Some(st.users[e.user.value]) else None)
  {
    if e.user.None? then Ok(Detailed(e, None))
    else if e.user.value in st.users then Ok(Detailed(e, Some(st.users[e.user.value])))
    else Err(Internal)
  }

  /** `CreateAddressBookEntry`, with the identifier the database assigns as an
      input: the entry is stored, its user's details are read (an unknown
      user is an internal error) and the document for the search index is
      built from the stored entry (an unknown operation is an internal
      error). */
  function Create(st: Store, e: Entry, newId: Id): (r: Result<(Store, Detailed, Document)>)
    requires newId !in st.entries
    ensures r.Ok? <==> (e.user.None? || e.user.value in st.users) && (e.operation.None? || e.operation.value in st.operations)
    ensures r.Err? ==> r.code == Internal
    ensures r.Ok? ==> r.value.0.entries == st.entries[newId := e.(id := newId)]
    ensures r.Ok? ==> r.value.1.entry == e.(id := newId)
    ensures r.Ok? ==> r.value.1.userDetails == (if e.user.Some? then Some(st.users[e.user.value]) else None)
    ensures r.Ok? ==> Ok(r.value.1) == DetailedOf(r.value.0, r.value.0.entries[newId])
    ensures r.Ok? ==> r.value.0.users == st.users && r.value.0.operations == st.operations && r.value.0.members == st.members
    ensures r.Ok? ==> Ok(r.value.2) == DocumentOf(r.value.0, r.value.0.entries[newId])
  {
    var created := e.(id := newId);
    var d :- DetailedOf(st, created);
    var st2 := st.(entries := st.entries[newId := created]);
    var document :- DocumentOf(st2, created);
    Ok((st2, d, document))
  }

  /** `UpdateAddressBookEntry`: not-found unless the entry exists; only that
      entry changes. */
  function Update(st: Store, e: Entry): (r: Result<Store>)
    ensures r.Ok? <==> e.id in st.entries
    ensures r.Err? ==> r.code == NotFound
    ensures r.Ok? ==> r.value.entries.Keys == st.entries.Keys && r.value.entries[e.id] == e
    ensures r.Ok? ==> forall id :: id in st.entries && id != e.id ==> r.value.entries[id] == st.entries[id]
  {
    if e.id !in st.entries then Err(NotFound) else Ok(st.(entries := st.entries[e.id := e]))
  }

  /** `DeleteAddressBookEntryByID`: not-found unless the entry exists. */
  function Delete(st: Store, id: Id): (r: Result<Store>)
    ensures r.Ok? <==> id in st.entries
    ensures r.Err? ==> r.code == NotFound
    ensures r.Ok? ==> r.value.entries.Keys == st.entries.Keys - {id}
    ensures r.Ok? ==> forall k :: k in r.value.entries ==> r.value.entries[k] == st.entries[k]
  {
    if id !in st.entries then Err(NotFound) else Ok(st.(entries := st.entries - {id}))
  }

  /** A deleted entry is gone; an updated one is read back as written. */
  lemma DeleteThenByIdIsNotFound(st: Store, id: Id, visibleBy: Option<Id>)
    requires id in st.entries
    ensures EntryById(Delete(st, id).value, id, visibleBy) == Err(NotFound)
  {
  }

  // ---------------------------------------------------------------------------
  // Filters

  /** `AddressBookEntryFilters`. The auto-delivery filter is set by the HTTP
      layer; the store's queries do not read it. */
  datatype Filters = Filters(
    byUser: Option<Id>,
    forOperation: Option<Id>,
    excludeGlobal: bool,
    visibleBy: Option<Id>,
    includeForInactiveUsers: bool,
    autoDeliveryEnabled: Option<bool>)

  const NoFilters: Filters := Filters(None, None, false, None, false, None)

  /** The condition all filters but the operation filter put on an entry in
      `AddressBookEntries`. */
  predicate ListOtherFiltersHold(st: Store, f: Filters, e: Entry) {
    && (f.byUser.Some? ==> e.user == f.byUser)
    && (f.excludeGlobal ==> e.operation.Some?)
    && (f.visibleBy.Some? ==> e.user.None? || IsUserVisibleBy(st, e.user.value, f.visibleBy.value))
    && (!f.includeForInactiveUsers ==> e.user.None? || (e.user.value in st.users && st.users[e.user.value].isActive))
  }

  /** The operation filter of `AddressBookEntries` as written: the alternative
      `operation IS NULL` lands beside the OR instead of inside it, so both
      conditions must hold. */
  predicate ListForOperationAsWritten(f: Filters, e: Entry) {
    f.forOperation.Some? ==> (e.operation == f.forOperation && e.operation.None?)
  }

  /** The operation filter as documented: entries of another operation are
      excluded, global entries are kept. */
  predicate ListForOperation(f: Filters, e: Entry) {
    f.forOperation.Some? ==> (e.operation.None? || e.operation == f.forOperation)
  }

  predicate ListQualifiesAsWritten(st: Store, f: Filters, e: Entry) {
    ListForOperationAsWritten(f, e) && ListOtherFiltersHold(st, f, e)
  }

  predicate ListQualifies(st: Store, f: Filters, e: Entry) {
    ListForOperation(f, e) && ListOtherFiltersHold(st, f, e)
  }

  /** As written, an operation filter makes every listing empty. */
  lemma ForOperationListIsEmptyAsWritten(st: Store, f: Filters, e: Entry)
    requires f.forOperation.Some?
    ensures !ListQualifiesAsWritten(st, f, e)
  {
  }

  /** The global entry and the entry of the filtered operation that the
      listing as written drops. */
  lemma ForOperationListDropsEntriesAsWritten()
    ensures var f := NoFilters.(forOperation := Some(IdA), includeForInactiveUsers := true);
      var st := Store(map[], map[], map[], {});
      && ListQualifies(st, f, Entry(IdB, "l", "", Some(IdA), None))
      && !ListQualifiesAsWritten(st, f, Entry(IdB, "l", "", Some(IdA), None))
      && ListQualifies(st, f, Entry(IdC, "l", "", None, None))
      && !ListQualifiesAsWritten(st, f, Entry(IdC, "l", "", None, None))
  {
  }

  /** `AddressBookEntries` with the documented operation filter: the
      qualifying entries with their user details; a qualifying entry whose
      user the store lacks is an internal error. */
  function Entries(st: Store, f: Filters): (r: Result<set<Detailed>>)
    ensures r.Err? ==> r.code == Internal
    ensures r.Ok? <==> forall id :: id in st.entries && ListQualifies(st, f, st.entries[id]) ==> DetailedOf(st, st.entries[id]).Ok?
    ensures r.Ok? ==> forall d :: d in r.value <==>
      exists id :: id in st.entries && ListQualifies(st, f, st.entries[id]) && DetailedOf(st, st.entries[id]) == Ok(d)
  {
    var qualifying := set id | id in st.entries && ListQualifies(st, f, st.entries[id]);
    if exists id :: id in qualifying && DetailedOf(st, st.entries[id]).Err? then Err(Internal)
    else Ok(set id | id in qualifying :: DetailedOf(st, st.entries[id]).value)
  }

  /** Without the inactive-users option, a listing never fails: every
      qualifying entry with a user has its user in the store. */
  lemma ActiveOnlyEntriesSucceed(st: Store, f: Filters)
    requires !f.includeForInactiveUsers
    ensures Entries(st, f).Ok?
  {
  }

  // ---------------------------------------------------------------------------
  // Search

  /** The filter `SearchAddressBookEntries` hands to Meilisearch, as written:
      entries without a user have no `visible_by` attribute, so the
      visibility group hides them. */
  function SearchFilterAsWritten(f: Filters): (filter: seq<seq<Cond>>)
    ensures |filter| <= 5
  {
    (if f.byUser.Some? then [[Eq(AttrUserId, DId(f.byUser.value))]] else [])
    + (if f.forOperation.Some? then [[IsNull(AttrOperationId), Eq(AttrOperationId, DId(f.forOperation.value))]] else [])
    + (if f.excludeGlobal then [[NotNull(AttrOperationId)]] else [])
    + (if f.visibleBy.Some? then [[Eq(AttrVisibleBy, DId(f.visibleBy.value))]] else [])
    + (if !f.includeForInactiveUsers then [[IsNull(AttrUserId), Eq(AttrUserIsActive, DBool(true))]] else [])
  }

  /** The search filter with the visibility group documented for the filter:
      entries without a user stay visible. */
  function SearchFilter(f: Filters): (filter: seq<seq<Cond>>)
    ensures |filter| <= 5
  {
    (if f.byUser.Some? then [[Eq(AttrUserId, DId(f.byUser.value))]] else [])
    + (if f.forOperation.Some? then [[IsNull(AttrOperationId), Eq(AttrOperationId, DId(f.forOperation.value))]] else [])
    + (if f.excludeGlobal then [[NotNull(AttrOperationId)]] else [])
    + (if f.visibleBy.Some? then [[Eq(AttrVisibleBy, DId(f.visibleBy.value)), IsNull(AttrUserId)]] else [])
    + (if !f.includeForInactiveUsers then [[IsNull(AttrUserId), Eq(AttrUserIsActive, DBool(true))]] else [])
  }

  /** As written, a search with a visibility filter never finds an entry
      without a user, although such entries are visible to everyone. */
  lemma SearchHidesUserlessEntriesAsWritten(st: Store, f: Filters, e: Entry)
    requires f.visibleBy.Some? && e.user.None?
    requires DocumentOf(st, e).Ok?
    ensures !Matches(DocumentOf(st, e).value, SearchFilterAsWritten(f))
    ensures EntryById(st.(entries := st.entries[e.id := e]), e.id, f.visibleBy).Ok?
  {
    var d := DocumentOf(st, e).value;
    var filter := SearchFilterAsWritten(f);
    var g := (if f.byUser.Some? then 1 else 0) + (if f.forOperation.Some? then 1 else 0) + (if f.excludeGlobal then 1 else 0);
    assert filter[g] == [Eq(AttrVisibleBy, DId(f.visibleBy.value))];
    assert AttrVisibleBy !in d;
    assert !Holds(d, filter[g][0]);
  }

  /** What the search document of a stored entry says about the attributes
      the filters read. */
  predicate DescribesEntry(st: Store, e: Entry, d: Document) {
    && (AttrUserId in d <==> e.user.Some?)
    && (AttrOperationId in d <==> e.operation.Some?)
    && (AttrVisibleBy in d <==> e.user.Some?)
    && (AttrUserIsActive in d <==> e.user.Some?)
    && (e.user.Some? ==> && e.user.value in st.users
                         && d[AttrUserId] == DId(e.user.value)
                         && d[AttrVisibleBy] == DIds(VisibleByForUser(st, e.user.value))
                         && d[AttrUserIsActive] == DBool(st.users[e.user.value].isActive))
    && (e.operation.Some? ==> d[AttrOperationId] == DId(e.operation.value))
  }

  lemma DocumentOfDescribesEntry(st: Store, e: Entry)
    requires WellKeyed(st) && DocumentOf(st, e).Ok?
    ensures DescribesEntry(st, e, DocumentOf(st, e).value)
  {
  }

  lemma ByUserGroup(st: Store, e: Entry, d: Document, u: Id)
    requires DescribesEntry(st, e, d)
    ensures GroupHolds(d, [Eq(AttrUserId, DId(u))]) <==> e.user == Some(u)
  {
    if e.user == Some(u) { assert Holds(d, [Eq(AttrUserId, DId(u))][0]); }
  }

  lemma ForOperationGroup(st: Store, e: Entry, d: Document, op: Id)
    requires DescribesEntry(st, e, d)
    ensures GroupHolds(d, [IsNull(AttrOperationId), Eq(AttrOperationId, DId(op))]) <==> e.operation.None? || e.operation == Some(op)
  {
    var g := [IsNull(AttrOperationId), Eq(AttrOperationId, DId(op))];
    if e.operation.None? { assert Holds(d, g[0]); }
    else if e.operation == Some(op) { assert Holds(d, g[1]); }
  }

  lemma ExcludeGlobalGroup(st: Store, e: Entry, d: Document)
    requires DescribesEntry(st, e, d)
    ensures GroupHolds(d, [NotNull(AttrOperationId)]) <==> e.operation.Some?
  {
    if e.operation.Some? { assert Holds(d, [NotNull(AttrOperationId)][0]); }
  }

  lemma VisibleByGroup(st: Store, e: Entry, d: Document, v: Id)
    requires DescribesEntry(st, e, d)
    ensures GroupHolds(d, [Eq(AttrVisibleBy, DId(v)), IsNull(AttrUserId)])
            <==> e.user.None? || v in VisibleByForUser(st, e.user.value)
  {
    var g := [Eq(AttrVisibleBy, DId(v)), IsNull(AttrUserId)];
    if e.user.None? { assert Holds(d, g[1]); }
    else if v in VisibleByForUser(st, e.user.value) { assert Holds(d, g[0]); }
  }

  lemma ActiveUserGroup(st: Store, e: Entry, d: Document)
    requires DescribesEntry(st, e, d)
    ensures GroupHolds(d, [IsNull(AttrUserId), Eq(AttrUserIsActive, DBool(true))])
            <==> e.user.None? || st.users[e.user.value].isActive
  {
    var g := [IsNull(AttrUserId), Eq(AttrUserIsActive, DBool(true))];
    if e.user.None? { assert Holds(d, g[0]); }
    else if st.users[e.user.value].isActive { assert Holds(d, g[1]); }
  }

  /** Search and listing select the same entries, with one exception: the
      search never finds a user's own entry for that user, because
      `visible_by` never names the entry's own user, while the listing shows
      it when the user is a member of some operation. */
  lemma SearchAgreesWithList(st: Store, f: Filters, e: Entry)
    requires WellKeyed(st) && DocumentOf(st, e).Ok?
    ensures !(f.visibleBy.Some? && e.user == f.visibleBy) ==>
      (Matches(DocumentOf(st, e).value, SearchFilter(f)) <==> ListQualifies(st, f, e))
    ensures f.visibleBy.Some? && e.user == f.visibleBy ==> !Matches(DocumentOf(st, e).value, SearchFilter(f))
  {
    var d := DocumentOf(st, e).value;
    DocumentOfDescribesEntry(st, e);
    if f.byUser.Some? { ByUserGroup(st, e, d, f.byUser.value); }
    if f.forOperation.Some? { ForOperationGroup(st, e, d, f.forOperation.value); }
    ExcludeGlobalGroup(st, e, d);
    if f.visibleBy.Some? { VisibleByGroup(st, e, d, f.visibleBy.value); }
    ActiveUserGroup(st, e, d);
    if f.visibleBy.Some? && e.user.Some? {
      VisibleByAgreesWithIsUserVisibleBy(st, e.user.value, f.visibleBy.value);
    }
    var g1: seq<seq<Cond>> := if f.byUser.Some? then [[Eq(AttrUserId, DId(f.byUser.value))]] else [];
    var g2: seq<seq<Cond>> := if f.forOperation.Some? then [[IsNull(AttrOperationId), Eq(AttrOperationId, DId(f.forOperation.value))]] else [];
    var g3: seq<seq<Cond>> := if f.excludeGlobal then [[NotNull(AttrOperationId)]] else [];
    var g4: seq<seq<Cond>> := if f.visibleBy.Some? then [[Eq(AttrVisibleBy, DId(f.visibleBy.value)), IsNull(AttrUserId)]] else [];
    var g5: seq<seq<Cond>> := if !f.includeForInactiveUsers then [[IsNull(AttrUserId), Eq(AttrUserIsActive, DBool(true))]] else [];
    assert SearchFilter(f) == g1 + g2 + g3 + g4 + g5;
    MatchesConcat(d, g1 + g2 + g3 + g4, g5);
    MatchesConcat(d, g1 + g2 + g3, g4);
    MatchesConcat(d, g1 + g2, g3);
    MatchesConcat(d, g1, g2);
    if f.byUser.Some? { OptionalGroup(d, true, [Eq(AttrUserId, DId(f.byUser.value))]); } else { MatchesEmpty(d); }
    if f.forOperation.Some? { OptionalGroup(d, true, [IsNull(AttrOperationId), Eq(AttrOperationId, DId(f.forOperation.value))]); } else { MatchesEmpty(d); }
    OptionalGroup(d, f.excludeGlobal, [NotNull(AttrOperationId)]);
    if f.visibleBy.Some? { OptionalGroup(d, true, [Eq(AttrVisibleBy, DId(f.visibleBy.value)), IsNull(AttrUserId)]); } else { MatchesEmpty(d); }
    OptionalGroup(d, !f.includeForInactiveUsers, [IsNull(AttrUserId), Eq(AttrUserIsActive, DBool(true))]);
  }

  /** The exception is real: an operation member lists their own entry but
      does not find it. */
  lemma OwnEntryListedButNotFound()
    ensures var st := Store(map[IdB := Entry(IdB, "l", "", None, Some(IdA))], map[IdA := User(IdA, "u", "", "", true)],
                            map[], {Membership(IdC, IdA)});
      var f := NoFilters.(visibleBy := Some(IdA));
      && WellKeyed(st) && DocumentOf(st, st.entries[IdB]).Ok?
      && ListQualifies(st, f, st.entries[IdB])
      && !Matches(DocumentOf(st, st.entries[IdB]).value, SearchFilter(f))
  {
    var st := Store(map[IdB := Entry(IdB, "l", "", None, Some(IdA))], map[IdA := User(IdA, "u", "", "", true)],
                    map[], {Membership(IdC, IdA)});
    assert IsUserVisibleBy(st, IdA, IdA) by {
      assert Membership(IdC, IdA) in st.members;
    }
    SearchAgreesWithList(st, NoFilters.(visibleBy := Some(IdA)), st.entries[IdB]);
  }

  /** The document a creation indexes describes the new entry, so the search
      finds the new entry exactly when the listing shows it, apart from the
      user's own entry for that user. */
  lemma CreateThenSearchAgreesWithList(st: Store, e: Entry, newId: Id, f: Filters)
    requires WellKeyed(st) && newId !in st.entries
    requires Create(st, e, newId).Ok?
    ensures var (st2, _, document) := Create(st, e, newId).value;
      && WellKeyed(st2)
      && DescribesEntry(st2, st2.entries[newId], document)
      && (!(f.visibleBy.Some? && e.user == f.visibleBy) ==>
            (Matches(document, SearchFilter(f)) <==> ListQualifies(st2, f, st2.entries[newId])))
  {
    var (st2, _, document) := Create(st, e, newId).value;
    DocumentOfDescribesEntry(st2, st2.entries[newId]);
    SearchAgreesWithList(st2, f, st2.entries[newId]);
  }

  /** `SearchAddressBookEntries` on the identifiers the search returned: the
      stored entries among them in hit order, each with its user's details as
      the join reads them (empty texts and an inactive user for a user row
      the store lacks). */
  function SearchEntries(st: Store, ids: Result<SearchResult<Id>>): (r: Result<SearchResult<Detailed>>)
    ensures ids.Err? ==> r == Err(ids.code)
    ensures r.Ok? ==> ids.Ok? && SameMetadata(ids.value, r.value)
    ensures r.Ok? ==> |r.value.hits| <= |ids.value.hits|
    ensures r.Ok? ==> r.value.hits == StoredHits(st, ids.value.hits)
  {
    match ids
    case Err(code) => Err(code)
    case Ok(res) =>
      Ok(ResultFromResult(res, StoredHits(st, res.hits)))
  }

  /** The stored entries among `ids`, in order, as the query with ordinality
      returns them. */
  function StoredHits(st: Store, ids: seq<Id>): (r: seq<Detailed>)
    ensures |r| <= |ids|
    ensures forall d :: d in r ==> d.entry in st.entries.Values && d == JoinedDetailed(st, d.entry)
    ensures WellKeyed(st) ==> forall d :: d in r ==> d.entry.id in ids
    ensures WellKeyed(st) ==> forall id :: id in ids && id in st.entries ==> JoinedDetailed(st, st.entries[id]) in r
  {
    if |ids| == 0 then []
    else if ids[0] in st.entries then [JoinedDetailed(st, st.entries[ids[0]])] + StoredHits(st, ids[1..])
    else StoredHits(st, ids[1..])
  }

  /** An entry with the user columns of the left join. */
  function JoinedDetailed(st: Store, e: Entry): (d: Detailed)
    ensures d.entry == e
    ensures d.userDetails.Some? <==> e.user.Some?
    ensures e.user.Some? && e.user.value in st.users ==> d.userDetails == Some(st.users[e.user.value])
  {
    if e.user.None? then Detailed(e, None)
    else if e.user.value in st.users then Detailed(e, Some(st.users[e.user.value]))
    else Detailed(e, Some(User(e.user.value, "", "", "", false)))
  }
}
