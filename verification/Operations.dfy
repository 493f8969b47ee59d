/** The operation store of the operation service
    (operation-svc/store/operations.go): operations, their validation, their
    search documents with the member list, and the list and search filters. */
module Operations {
  import opened Common
  import opened Search

  datatype Operation = Operation(id: Id, title: string, description: string, start: Time, end: Option<Time>, isArchived: bool)

  /** The `operations` table in its physical order, and the members of each
      operation in the order the store reads them. */
  datatype Store = Store(operations: seq<Operation>, members: map<Id, seq<Id>>)

  predicate HasOperation(st: Store, id: Id) {
    exists i :: 0 <= i < |st.operations| && st.operations[i].id == id
  }

  /** The members of an operation; none for an operation without rows in
      `operation_members`. */
  function MembersOf(st: Store, id: Id): seq<Id> {
    if id in st.members then st.members[id] else []
  }

  // ---------------------------------------------------------------------------
  // Validation

  const TitleEmpty: string := "title must not be empty"
  const EndBeforeStart: string := "end-time must not be before start-time"

  /** `Operation.Validate`: the title must be set, and a set end must not lie
      before the start. */
  function Validate(o: Operation): (errors: seq<string>)
    ensures TitleEmpty in errors <==> o.title == ""
    ensures EndBeforeStart in errors <==> o.end.Some? && o.end.value < o.start
    ensures forall e :: e in errors ==> e in {TitleEmpty, EndBeforeStart}
    ensures NoDuplicates(errors)
    ensures errors == [] <==> o.title != "" && (o.end.None? || o.start <= o.end.value)
  {
    (if o.title == "" then [TitleEmpty] else [])
    + (if o.end.Some? && o.end.value < o.start then [EndBeforeStart] else [])
  }

  /** An operation that ends when it starts is valid. */
  lemma InstantOperationIsValid(o: Operation)
    requires o.title != "" && o.end == Some(o.start)
    ensures Validate(o) == []
  {
  }

  // ---------------------------------------------------------------------------
  // Search documents

  const SearchIndex: string := "operations"
  const AttrId: string := "id"
  const AttrTitle: string := "title"
  const AttrDescription: string := "description"
  const AttrStartTs: string := "start_ts"
  const AttrEndTs: string := "end_ts"
  const AttrIsArchived: string := "is_archived"
  const AttrMembers: string := "members"

  /** `operationSearchIndexConfig`. */
  const SearchIndexConfig: IndexConfig :=
    IndexConfig(AttrId, [AttrTitle, AttrDescription, AttrId], None, [AttrStartTs, AttrEndTs, AttrIsArchived, AttrMembers], [])

  /** `documentFromOperation`: the members as texts, in order; the end as
      null when the operation has none. */
  function DocumentFromOperation(o: Operation, members: seq<Id>): (d: Document)
    ensures d.Keys == {AttrId, AttrTitle, AttrDescription, AttrStartTs, AttrEndTs, AttrIsArchived, AttrMembers}
    ensures d[AttrId] == DId(o.id) && d[AttrTitle] == DStr(o.title) && d[AttrDescription] == DStr(o.description)
    ensures d[AttrStartTs] == DInt(o.start) && d[AttrIsArchived] == DBool(o.isArchived)
    ensures d[AttrEndTs].DNull? <==> o.end.None?
    ensures o.end.Some? ==> d[AttrEndTs] == DInt(o.end.value)
    ensures d[AttrMembers].DTexts? && |d[AttrMembers].items| == |members|
    ensures forall k :: 0 <= k < |members| ==> d[AttrMembers].items[k] == members[k]
  {
    map[AttrId := DId(o.id), AttrTitle := DStr(o.title), AttrDescription := DStr(o.description),
        AttrStartTs := DInt(o.start), AttrEndTs := if o.end.Some? then DInt(o.end.value) else DNull,
        AttrIsArchived := DBool(o.isArchived), AttrMembers := DTexts(members)]
  }

  /** The document keys every attribute the index filters on. */
  lemma DocumentFitsIndexConfig(o: Operation, members: seq<Id>)
    ensures SearchIndexConfig.primaryKey in DocumentFromOperation(o, members)
    ensures forall a :: a in SearchIndexConfig.searchable ==> a in DocumentFromOperation(o, members)
    ensures forall a :: a in SearchIndexConfig.filterable ==> a in DocumentFromOperation(o, members)
  {
  }

  // ---------------------------------------------------------------------------
  // Lookup and changes

  function IndexById(ops: seq<Operation>, id: Id): (r: Option<nat>)
    ensures r.None? <==> forall i :: 0 <= i < |ops| ==> ops[i].id != id
    ensures r.Some? ==> r.value < |ops| && ops[r.value].id == id
  {
    if |ops| == 0 then None
    else if ops[0].id == id then Some(0)
    else
      var rest := IndexById(ops[1..], id);
      if rest.None? then None else Some(rest.value + 1)
  }

  /** `OperationByID`: not-found unless an operation has the id. */
  function OperationById(st: Store, id: Id): (r: Result<Operation>)
    ensures r.Ok? <==> HasOperation(st, id)
    ensures r.Err? ==> r.code == NotFound
    ensures r.Ok? ==> r.value.id == id && r.value in st.operations
  {
    match IndexById(st.operations, id)
    case None => Err(NotFound)
    case Some(i) => Ok(st.operations[i])
  }

  /** `CreateOperation`, with the identifier the database assigns as an
      input: the operation is stored under the new id and its document, with
      the members the store has for that id, goes to the search. */
  function CreateOperation(st: Store, o: Operation, newId: Id): (r: (Store, Operation, Document))
    requires !HasOperation(st, newId)
    ensures r.1 == Operation(newId, o.title, o.description, o.start, o.end, o.isArchived)
    ensures OperationById(r.0, newId) == Ok(r.1)
    ensures r.0.members == st.members
    ensures |r.0.operations| == |st.operations| + 1 && r.0.operations[..|st.operations|] == st.operations
    ensures r.2 == DocumentFromOperation(r.1, MembersOf(st, newId))
  {
    var created := o.(id := newId);
    var st' := st.(operations := st.operations + [created]);
    assert st'.operations[|st.operations|] == created;
    (st', created, DocumentFromOperation(created, MembersOf(st, newId)))
  }

  /** `UpdateOperation`: not-found unless the operation exists; otherwise it
      is replaced and its new document goes to the search. */
  function UpdateOperation(st: Store, o: Operation): (r: Result<(Store, Document)>)
    ensures r.Ok? <==> HasOperation(st, o.id)
    ensures r.Err? ==> r.code == NotFound
    ensures r.Ok? ==> OperationById(r.value.0, o.id) == Ok(o)
    ensures r.Ok? ==> r.value.0.members == st.members && |r.value.0.operations| == |st.operations|
    ensures r.Ok? ==> forall i :: 0 <= i < |st.operations| && st.operations[i].id != o.id ==>
      r.value.0.operations[i] == st.operations[i]
    ensures r.Ok? ==> r.value.1 == DocumentFromOperation(o, MembersOf(st, o.id))
  {
    if !HasOperation(st, o.id) then Err(NotFound)
    else
      var ops := Map((p: Operation) => if p.id == o.id then o else p, st.operations);
      var st' := st.(operations := ops);
      assert HasOperation(st', o.id);
      Ok((st', DocumentFromOperation(o, MembersOf(st, o.id))))
  }

  // ---------------------------------------------------------------------------
  // Listing

  /** `OperationRetrievalFilters`. */
  datatype Filters = Filters(onlyOngoing: bool, includeArchived: bool, forUser: Option<Id>)

  /** Whether `Operations` lists an operation at database time `now`: an
      ongoing-only listing keeps operations without end or ending after
      `now`; archived ones only on request; for a user only those the user is
      a member of. */
  predicate ListQualifies(st: Store, f: Filters, now: Time, o: Operation) {
    && (f.onlyOngoing ==> o.end.None? || o.end.value > now)
    && (!f.includeArchived ==> !o.isArchived)
    && (f.forUser.Some? ==> f.forUser.value in MembersOf(st, o.id))
  }

  /** `Operations`: the qualifying operations. */
  function ListOperations(st: Store, f: Filters, now: Time): (r: seq<Operation>)
    ensures forall o :: o in r <==> o in st.operations && ListQualifies(st, f, now, o)
  {
    Filter((o: Operation) => ListQualifies(st, f, now, o), st.operations)
  }

  /** Without any filter option, only archived operations are left out. */
  lemma DefaultListingHidesArchived(st: Store, now: Time, o: Operation)
    requires o in st.operations
    ensures o in ListOperations(st, Filters(false, false, None), now) <==> !o.isArchived
  {
  }

  // ---------------------------------------------------------------------------
  // Search

  function ArchivedGroup(f: Filters): seq<seq<Cond>> {
    if !f.includeArchived then [[Eq(AttrIsArchived, DBool(false))]] else []
  }

  function MemberGroup(f: Filters): seq<seq<Cond>> {
    if f.forUser.Some? then [[Eq(AttrMembers, DStr(f.forUser.value))]] else []
  }

  /** The filter `SearchOperations` hands to Meilisearch, as written: the
      ongoing conditions share one group, so either suffices and an operation
      that started before `now` matches however long ago it ended. */
  function SearchFilterAsWritten(f: Filters, now: Time): (filter: seq<seq<Cond>>)
    ensures |filter| == (if f.onlyOngoing then 1 else 0) + |ArchivedGroup(f)| + |MemberGroup(f)|
  {
    (if f.onlyOngoing then [[AtMost(AttrStartTs, now), AtLeast(AttrEndTs, now)]] else [])
    + ArchivedGroup(f) + MemberGroup(f)
  }

  /** The ongoing-only search filter as the listing applies it: no end, or an
      end after `now`. */
  function SearchFilter(f: Filters, now: Time): (filter: seq<seq<Cond>>)
    ensures |filter| == (if f.onlyOngoing then 1 else 0) + |ArchivedGroup(f)| + |MemberGroup(f)|
  {
    (if f.onlyOngoing then [[IsNull(AttrEndTs), AtLeast(AttrEndTs, now + 1)]] else [])
    + ArchivedGroup(f) + MemberGroup(f)
  }

  /** An operation that ended before `now` is found by the ongoing-only search
      as written, while the listing leaves it out. */
  lemma EndedOperationFoundAsWritten()
    ensures var o := Operation(IdA, "t", "", 0, Some(5), false);
      var st := Store([o], map[]);
      var f := Filters(true, true, None);
      && Matches(DocumentFromOperation(o, []), SearchFilterAsWritten(f, 10))
      && !ListQualifies(st, f, 10, o)
      && !Matches(DocumentFromOperation(o, []), SearchFilter(f, 10))
  {
    var o := Operation(IdA, "t", "", 0, Some(5), false);
    var d := DocumentFromOperation(o, []);
    var f := Filters(true, true, None);
    assert SearchFilterAsWritten(f, 10) == [[AtMost(AttrStartTs, 10), AtLeast(AttrEndTs, 10)]];
    assert Holds(d, SearchFilterAsWritten(f, 10)[0][0]);
    assert SearchFilter(f, 10) == [[IsNull(AttrEndTs), AtLeast(AttrEndTs, 11)]];
    assert !GroupHolds(d, SearchFilter(f, 10)[0]);
  }

  /** The member condition holds exactly for the operation's members. */
  lemma MemberCondHolds(o: Operation, members: seq<Id>, u: Id)
    ensures Holds(DocumentFromOperation(o, members), Eq(AttrMembers, DStr(u))) <==> u in members
  {
    var d := DocumentFromOperation(o, members);
    if u in members {
      var k :| 0 <= k < |members| && members[k] == u;
      assert d[AttrMembers].items[k] == u;
    }
  }

  /** The search filter admits an operation's document exactly when the
      listing admits the operation. */
  lemma SearchAgreesWithList(st: Store, f: Filters, now: Time, o: Operation)
    ensures Matches(DocumentFromOperation(o, MembersOf(st, o.id)), SearchFilter(f, now)) <==> ListQualifies(st, f, now, o)
  {
    var d := DocumentFromOperation(o, MembersOf(st, o.id));
    var g1: seq<seq<Cond>> := if f.onlyOngoing then [[IsNull(AttrEndTs), AtLeast(AttrEndTs, now + 1)]] else [];
    assert SearchFilter(f, now) == g1 + ArchivedGroup(f) + MemberGroup(f);
    MatchesConcat(d, g1 + ArchivedGroup(f), MemberGroup(f));
    MatchesConcat(d, g1, ArchivedGroup(f));
    OptionalGroup(d, f.onlyOngoing, [IsNull(AttrEndTs), AtLeast(AttrEndTs, now + 1)]);
    if f.onlyOngoing {
      var g := [IsNull(AttrEndTs), AtLeast(AttrEndTs, now + 1)];
      if o.end.None? { assert Holds(d, g[0]); }
      else if o.end.value > now { assert Holds(d, g[1]); }
    }
    OptionalGroup(d, !f.includeArchived, [Eq(AttrIsArchived, DBool(false))]);
    if !f.includeArchived && !o.isArchived {
      assert Holds(d, [Eq(AttrIsArchived, DBool(false))][0]);
    }
    if f.forUser.Some? {
      var u := f.forUser.value;
      OptionalGroup(d, true, [Eq(AttrMembers, DStr(u))]);
      MemberCondHolds(o, MembersOf(st, o.id), u);
      if u in MembersOf(st, o.id) {
        assert Holds(d, [Eq(AttrMembers, DStr(u))][0]);
      }
    } else {
      MatchesEmpty(d);
    }
  }

  /** The stored operations among the identifiers, in order, restricted to
      those `forUser` is a member of when set. */
  function StoredHits(st: Store, forUser: Option<Id>, ids: seq<Id>): (r: seq<Operation>)
    ensures |r| <= |ids|
    ensures forall o :: o in r ==> o in st.operations && o.id in ids
    ensures forall o :: o in r && forUser.Some? ==> forUser.value in MembersOf(st, o.id)
    ensures forall id :: id in ids && HasOperation(st, id) && (forUser.None? || forUser.value in MembersOf(st, id)) ==>
              OperationById(st, id).value in r
  {
    if |ids| == 0 then []
    else
      var rest := StoredHits(st, forUser, ids[1..]);
      match OperationById(st, ids[0])
      case Ok(o) =>
        if forUser.None? || forUser.value in MembersOf(st, o.id) then [o] + rest else rest
      case Err(_) => rest
  }

  /** `SearchOperations` on the identifiers the search returned: whatever
      the search answers, an operation the filtered user is not a member of
      is never returned. */
  function SearchOperations(st: Store, f: Filters, ids: Result<SearchResult<Id>>): (r: Result<SearchResult<Operation>>)
    ensures ids.Err? ==> r == Err(ids.code)
    ensures r.Ok? ==> ids.Ok? && SameMetadata(ids.value, r.value)
    ensures r.Ok? ==> forall o :: o in r.value.hits ==> o in st.operations && o.id in ids.value.hits
    ensures r.Ok? && f.forUser.Some? ==> forall o :: o in r.value.hits ==> f.forUser.value in MembersOf(st, o.id)
    ensures r.Ok? ==> forall id :: id in ids.value.hits && HasOperation(st, id) && (f.forUser.None? || f.forUser.value in MembersOf(st, id)) ==>
              OperationById(st, id).value in r.value.hits
  {
    match ids
    case Err(code) => Err(code)
    case Ok(res) => Ok(ResultFromResult(res, StoredHits(st, f.forUser, res.hits)))
  }
}
