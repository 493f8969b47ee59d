/** Intel in the logistics store (logistics-svc/store/intel.go): creation,
    validation, invalidation, retrieval, the search document of an intel and
    the list and search queries with their filters. */
module LogisticsIntel {
  import opened Common
  import opened Json
  import opened Search
  import IntelDeliveries

  type Delivery = IntelDeliveries.Delivery

  // ---------------------------------------------------------------------------
  // Search index

  const IntelIndex: string := "intel"

  const AttrId: string := "id"
  const AttrCreatedAt: string := "created_at"
  const AttrCreatedBy: string := "created_by"
  const AttrOperation: string := "operation"
  const AttrType: string := "intel_type"
  const AttrContent: string := "content"
  const AttrSearchText: string := "search_text"
  const AttrImportance: string := "importance"
  const AttrIsValid: string := "is_valid"
  const AttrDeliveryForEntries: string := "delivery_for_entries"
  const AttrDeliveredToEntries: string := "delivered_to_entries"

  const IntelIndexConfig: IndexConfig := IndexConfig(
    AttrId,
    [AttrSearchText, AttrContent, AttrType, AttrOperation],
    None,
    [AttrCreatedAt, AttrCreatedBy, AttrOperation, AttrType, AttrContent, AttrSearchText,
     AttrImportance, AttrIsValid, AttrDeliveryForEntries, AttrDeliveredToEntries],
    [AttrCreatedAt])

  // ---------------------------------------------------------------------------
  // Records and tables

  datatype CreateIntel = CreateIntel(
    createdBy: Id,
    operation: Id,
    intelType: string,
    content: Raw,
    searchText: Option<string>,
    importance: int,
    initialDeliverTo: seq<Id>)

  datatype Intel = Intel(
    id: Id,
    createdAt: Time,
    createdBy: Id,
    operation: Id,
    intelType: string,
    content: Raw,
    searchText: Option<string>,
    importance: int,
    isValid: bool)

  /** The intel table in insertion order and the delivery side of the same
      database, whose importance and operation maps are the intel table's
      columns as the delivery queries read them. */
  datatype Store = Store(intel: seq<Intel>, delivery: IntelDeliveries.Store)

  predicate HasIntel(rows: seq<Intel>, id: Id) {
    exists k :: 0 <= k < |rows| && rows[k].id == id
  }

  /** Intel ids are unique. */
  predicate Valid(st: Store) {
    forall j, k :: 0 <= j < k < |st.intel| ==> st.intel[j].id != st.intel[k].id
  }

  // ---------------------------------------------------------------------------
  // Validation

  const DuplicateDeliverToPrefix: string := "duplicate entry in deliver-to "

  /** The entries of `s` that occur earlier in `s` as well, in order: one per
      repetition. */
  function Repeats(s: seq<Id>): seq<Id> {
    if |s| == 0 then []
    else Repeats(s[..|s| - 1]) + (if s[|s| - 1] in s[..|s| - 1] then [s[|s| - 1]] else [])
  }

  function Elems(s: seq<Id>): set<Id> {
    set x | x in s
  }

  /** Every repetition is counted once: the repeats and the distinct entries
      together make up the whole list. */
  lemma {:induction false} RepeatsCount(s: seq<Id>)
    ensures |Repeats(s)| + |Elems(s)| == |s|
  {
    if |s| > 0 {
      var init := s[..|s| - 1];
      var x := s[|s| - 1];
      RepeatsCount(init);
      assert s == init + [x];
      assert Elems(s) == Elems(init) + {x};
      if x in init {
        assert Elems(s) == Elems(init);
      } else {
        assert x !in Elems(init);
      }
    }
  }

  /** There are no repeats iff the list is free of duplicates. */
  lemma {:induction false} RepeatsEmptyIffNoDuplicates(s: seq<Id>)
    ensures Repeats(s) == [] <==> NoDuplicates(s)
  {
    if |s| > 0 {
      var init := s[..|s| - 1];
      var x := s[|s| - 1];
      RepeatsEmptyIffNoDuplicates(init);
      if x in init {
        var j :| 0 <= j < |init| && init[j] == x;
        assert s[j] == s[|s| - 1];
        assert !NoDuplicates(s);
      } else if NoDuplicates(init) {
        forall i, j | 0 <= i < j < |s| ensures s[i] != s[j] {
          if j == |s| - 1 { assert s[i] == init[i]; } else { assert s[i] == init[i] && s[j] == init[j]; }
        }
      } else {
        var i, j :| 0 <= i < j < |init| && init[i] == init[j];
        assert s[i] == s[j];
      }
    }
  }

  function DuplicateMessage(to: Id): string {
    DuplicateDeliverToPrefix + to
  }

  /** `CreateIntel.Validate`: the report of the type and content check (an
      error of that check is passed on), followed by one error per repeated
      deliver-to entry. */
  method Validate(c: CreateIntel, typeAndContent: Result<seq<string>>) returns (r: Result<seq<string>>)
    ensures typeAndContent.Err? ==> r == Err(typeAndContent.code)
    ensures typeAndContent.Ok? ==> r.Ok? && r.value == typeAndContent.value + Map(DuplicateMessage, Repeats(c.initialDeliverTo))
  {
    if typeAndContent.Err? {
      return Err(typeAndContent.code);
    }
    var s := c.initialDeliverTo;
    var seen: set<Id> := {};
    var errors: seq<string> := [];
    var i := 0;
    while i < |s|
      invariant 0 <= i <= |s|
      invariant seen == Elems(s[..i])
      invariant errors == Map(DuplicateMessage, Repeats(s[..i]))
    {
      assert s[..i + 1][..i] == s[..i];
      if s[i] in seen {
        errors := errors + [DuplicateMessage(s[i])];
      } else {
        seen := seen + {s[i]};
      }
      i := i + 1;
    }
    assert s[..|s|] == s;
    return Ok(typeAndContent.value + errors);
  }

  /** A deliver-to list adds errors to the report iff it repeats an entry. */
  lemma ValidateReportsDuplicates(c: CreateIntel)
    ensures |Map(DuplicateMessage, Repeats(c.initialDeliverTo))| == |c.initialDeliverTo| - |Elems(c.initialDeliverTo)|
    ensures Map(DuplicateMessage, Repeats(c.initialDeliverTo)) == [] <==> NoDuplicates(c.initialDeliverTo)
  {
    RepeatsCount(c.initialDeliverTo);
    RepeatsEmptyIffNoDuplicates(c.initialDeliverTo);
  }

  // ---------------------------------------------------------------------------
  // Creation, invalidation, retrieval

  function FindIntel(rows: seq<Intel>, id: Id): (r: Option<Intel>)
    ensures r.Some? <==> HasIntel(rows, id)
    ensures r.Some? ==> r.value in rows && r.value.id == id
  {
    if |rows| == 0 then None
    else if rows[0].id == id then Some(rows[0])
    else
      var r := FindIntel(rows[1..], id);
      assert r.Some? ==> HasIntel(rows, id) by {
        if r.Some? { var k :| 0 <= k < |rows[1..]| && rows[1..][k].id == id; assert rows[k + 1].id == id; }
      }
      assert HasIntel(rows, id) ==> r.Some? by {
        if HasIntel(rows, id) { var k :| 0 <= k < |rows| && rows[k].id == id; assert k > 0 && rows[1..][k - 1].id == id; }
      }
      r
  }

  /** `IntelByID`: not-found for an unknown id. */
  function IntelByID(st: Store, id: Id): (r: Result<Intel>)
    ensures r.Ok? <==> HasIntel(st.intel, id)
    ensures r.Err? ==> r.code == NotFound
    ensures r.Ok? ==> r.value in st.intel && r.value.id == id
  {
    match FindIntel(st.intel, id)
    case None => Err(NotFound)
    case Some(i) => Ok(i)
  }

  /** With unique ids, the row found is the row holding the id. */
  lemma IntelByIDFindsRow(st: Store, k: int)
    requires Valid(st) && 0 <= k < |st.intel|
    ensures IntelByID(st, st.intel[k].id) == Ok(st.intel[k])
  {
    var r := IntelByID(st, st.intel[k].id).value;
    var j :| 0 <= j < |st.intel| && st.intel[j] == r;
  }

  /** `CreateIntel`: the database assigns `newId` and the current time; new
      intel is valid. */
  function Create(st: Store, c: CreateIntel, newId: Id, now: Time): (r: (Intel, Store))
    requires !HasIntel(st.intel, newId)
    ensures r.0.id == newId && r.0.createdAt == now && r.0.isValid
    ensures r.0.createdBy == c.createdBy && r.0.operation == c.operation && r.0.intelType == c.intelType
    ensures r.0.content == c.content && r.0.searchText == c.searchText && r.0.importance == c.importance
    ensures r.1.intel == st.intel + [r.0]
    ensures r.1.delivery == st.delivery.(importance := st.delivery.importance[newId := c.importance],
                                         intelOperation := st.delivery.intelOperation[newId := c.operation])
    ensures Valid(st) ==> Valid(r.1)
  {
    var i := Intel(newId, now, c.createdBy, c.operation, c.intelType, c.content, c.searchText, c.importance, true);
    (i, Store(st.intel + [i], st.delivery.(importance := st.delivery.importance[newId := c.importance],
                                           intelOperation := st.delivery.intelOperation[newId := c.operation])))
  }

  /** Created intel is found under its new id. */
  lemma CreateThenByID(st: Store, c: CreateIntel, newId: Id, now: Time)
    requires Valid(st) && !HasIntel(st.intel, newId)
    ensures IntelByID(Create(st, c, newId, now).1, newId) == Ok(Create(st, c, newId, now).0)
  {
    var st2 := Create(st, c, newId, now).1;
    IntelByIDFindsRow(st2, |st.intel|);
  }

  function Invalidated(rows: seq<Intel>, id: Id): (r: seq<Intel>)
    ensures |r| == |rows|
    ensures forall k :: 0 <= k < |rows| ==> r[k] == (if rows[k].id == id then rows[k].(isValid := false) else rows[k])
  {
    if |rows| == 0 then []
    else [if rows[0].id == id then rows[0].(isValid := false) else rows[0]] + Invalidated(rows[1..], id)
  }

  /** `InvalidateIntelByID`: not-found when no row is affected; otherwise the
      intel is marked invalid and nothing else changes. */
  function InvalidateIntelByID(st: Store, id: Id): (r: Result<Store>)
    ensures r.Ok? <==> HasIntel(st.intel, id)
    ensures r.Err? ==> r.code == NotFound
    ensures r.Ok? ==> r.value.delivery == st.delivery && |r.value.intel| == |st.intel|
    ensures r.Ok? ==> forall k :: 0 <= k < |st.intel| ==>
      (st.intel[k].id == id ==> r.value.intel[k] == st.intel[k].(isValid := false))
      && (st.intel[k].id != id ==> r.value.intel[k] == st.intel[k])
    ensures r.Ok? && Valid(st) ==> Valid(r.value)
  {
    if !HasIntel(st.intel, id) then Err(NotFound)
    else Ok(st.(intel := Invalidated(st.intel, id)))
  }

  // ---------------------------------------------------------------------------
  // Delivery entries and the search document

  /** The recipients of all deliveries of the intel. */
  function DeliveryForEntries(st: Store, intel: Id): (r: set<Id>)
    ensures forall e :: e in r <==> exists d :: d in st.delivery.deliveries.Values && d.intel == intel && d.to == e
  {
    set d | d in st.delivery.deliveries.Values && d.intel == intel :: d.to
  }

  /** The recipients of the successful deliveries of the intel; a subset of
      the recipients of all of them. */
  function DeliveredToEntries(st: Store, intel: Id): (r: set<Id>)
    ensures forall e :: e in r <==> exists d :: d in st.delivery.deliveries.Values && d.intel == intel && d.success && d.to == e
    ensures r <= DeliveryForEntries(st, intel)
  {
    set d | d in st.delivery.deliveries.Values && d.intel == intel && d.success :: d.to
  }

  /** `documentFromIntel`: every attribute of the intel plus both entry
      lists. */
  function DocumentFromIntel(i: Intel, deliveryFor: set<Id>, deliveredTo: set<Id>): (d: Document)
    ensures d.Keys == {AttrId, AttrCreatedAt, AttrCreatedBy, AttrOperation, AttrType, AttrContent, AttrSearchText,
                       AttrImportance, AttrIsValid, AttrDeliveryForEntries, AttrDeliveredToEntries}
    ensures d[AttrId] == DId(i.id) && d[AttrCreatedBy] == DId(i.createdBy) && d[AttrOperation] == DId(i.operation)
    ensures d[AttrType] == DStr(i.intelType) && d[AttrImportance] == DInt(i.importance) && d[AttrIsValid] == DBool(i.isValid)
    ensures d[AttrDeliveryForEntries] == DIds(deliveryFor) && d[AttrDeliveredToEntries] == DIds(deliveredTo)
  {
    map[
      AttrId := DId(i.id),
      AttrCreatedAt := DInt(i.createdAt),
      AttrCreatedBy := DId(i.createdBy),
      AttrOperation := DId(i.operation),
      AttrType := DStr(i.intelType),
      AttrContent := DRaw(i.content),
      AttrSearchText := if i.searchText.Some? then DStr(i.searchText.value) else DNull,
      AttrImportance := DInt(i.importance),
      AttrIsValid := DBool(i.isValid),
      AttrDeliveryForEntries := DIds(deliveryFor),
      AttrDeliveredToEntries := DIds(deliveredTo)]
  }

  /** `documentFromIntelByID`: not-found for unknown intel. */
  function DocumentOfIntel(st: Store, id: Id): (r: Result<Document>)
    ensures r.Ok? <==> HasIntel(st.intel, id)
    ensures r.Err? ==> r.code == NotFound
    ensures r.Ok? ==> r.value == DocumentFromIntel(IntelByID(st, id).value, DeliveryForEntries(st, id), DeliveredToEntries(st, id))
  {
    var i :- IntelByID(st, id);
    Ok(DocumentFromIntel(i, DeliveryForEntries(st, id), DeliveredToEntries(st, id)))
  }

  // ---------------------------------------------------------------------------
  // Filters, listing and search

  datatype IntelFilters = IntelFilters(
    createdBy: Option<Id>,
    operation: Option<Id>,
    intelType: Option<string>,
    minImportance: Option<int>,
    includeInvalid: Option<bool>,
    oneOfDeliveryForEntries: seq<Id>,
    oneOfDeliveredToEntries: seq<Id>)

  const NoFilters: IntelFilters := IntelFilters(None, None, None, None, None, [], [])

  /** Invalid intel is included only when explicitly asked for. */
  predicate IncludesInvalid(f: IntelFilters) {
    f.includeInvalid == Some(true)
  }

  /** Some entry of the list is among the given entries. */
  predicate SharesEntry(list: seq<Id>, entries: set<Id>) {
    exists k :: 0 <= k < |list| && list[k] in entries
  }

  /** The conditions `Intel` puts on one row. */
  predicate Qualifies(st: Store, f: IntelFilters, i: Intel) {
    && (f.createdBy.Some? ==> i.createdBy == f.createdBy.value)
    && (f.operation.Some? ==> i.operation == f.operation.value)
    && (f.intelType.Some? ==> i.intelType == f.intelType.value)
    && (f.minImportance.Some? ==> i.importance >= f.minImportance.value)
    && (!IncludesInvalid(f) ==> i.isValid)
    && (|f.oneOfDeliveryForEntries| > 0 ==> SharesEntry(f.oneOfDeliveryForEntries, DeliveryForEntries(st, i.id)))
    && (|f.oneOfDeliveredToEntries| > 0 ==> SharesEntry(f.oneOfDeliveredToEntries, DeliveredToEntries(st, i.id)))
  }

  predicate NewestFirst(s: seq<Intel>) {
    forall j, k :: 0 <= j < k < |s| ==> s[j].createdAt >= s[k].createdAt
  }

  /** A sorted sequence stays sorted with an element in front that is in
      order with its first. */
  lemma ConsNewestFirst(x: Intel, s: seq<Intel>)
    requires NewestFirst(s)
    requires |s| > 0 ==> x.createdAt >= s[0].createdAt
    ensures NewestFirst([x] + s)
  {
    assert forall k :: 0 <= k < |s| ==> x.createdAt >= s[k].createdAt;
  }

  function InsertNewestFirst(i: Intel, sorted: seq<Intel>): (r: seq<Intel>)
    requires NewestFirst(sorted)
    ensures NewestFirst(r)
    ensures multiset(r) == multiset(sorted) + multiset{i}
    ensures |r| > 0 && (r[0] == i || (|sorted| > 0 && r[0] == sorted[0]))
    ensures forall k :: 0 <= k < |r| ==> r[k] == i || r[k] in sorted
  {
    if |sorted| == 0 then [i]
    else if i.createdAt >= sorted[0].createdAt then [i] + sorted
    else
      assert sorted == [sorted[0]] + sorted[1..];
      var tail := InsertNewestFirst(i, sorted[1..]);
      ConsNewestFirst(sorted[0], tail);
      [sorted[0]] + tail
  }

  function SortNewestFirst(s: seq<Intel>): (r: seq<Intel>)
    ensures NewestFirst(r)
    ensures multiset(r) == multiset(s)
  {
    if |s| == 0 then []
    else
      assert s == [s[0]] + s[1..];
      InsertNewestFirst(s[0], SortNewestFirst(s[1..]))
  }

  /** `Intel`: the qualifying rows, newest first. The caller's ordering is
      discarded, so there is no ordering parameter. */
  function IntelList(st: Store, f: IntelFilters): (r: seq<Intel>)
    ensures NewestFirst(r)
    ensures multiset(r) == multiset(Filter((i: Intel) => Qualifies(st, f, i), st.intel))
  {
    SortNewestFirst(Filter((i: Intel) => Qualifies(st, f, i), st.intel))
  }

  /** The list holds exactly the qualifying rows. */
  lemma IntelListMembers(st: Store, f: IntelFilters, i: Intel)
    ensures i in IntelList(st, f) <==> i in st.intel && Qualifies(st, f, i)
  {
    var q := Filter((i: Intel) => Qualifies(st, f, i), st.intel);
    assert i in IntelList(st, f) <==> i in multiset(IntelList(st, f));
    assert i in q <==> i in multiset(q);
    if i in st.intel && Qualifies(st, f, i) {
      var k :| 0 <= k < |st.intel| && st.intel[k] == i;
    }
  }

  /** Invalidated intel disappears from every listing that does not ask for
      invalid intel. */
  lemma InvalidatedIsNotListed(st: Store, id: Id, f: IntelFilters, i: Intel)
    requires InvalidateIntelByID(st, id).Ok? && !IncludesInvalid(f)
    requires i.id == id
    ensures i !in IntelList(InvalidateIntelByID(st, id).value, f)
  {
    var st2 := InvalidateIntelByID(st, id).value;
    IntelListMembers(st2, f, i);
    if i in st2.intel {
      var k :| 0 <= k < |st2.intel| && st2.intel[k] == i;
    }
  }

  /** The search document of an intel, with both entry lists of the store. */
  function DocumentIn(st: Store, i: Intel): Document {
    DocumentFromIntel(i, DeliveryForEntries(st, i.id), DeliveredToEntries(st, i.id))
  }

  /** The scalar filters: creator, operation, type, importance and the valid
      flag. */
  predicate ScalarsQualify(f: IntelFilters, i: Intel) {
    && (f.createdBy.Some? ==> i.createdBy == f.createdBy.value)
    && (f.operation.Some? ==> i.operation == f.operation.value)
    && (f.intelType.Some? ==> i.intelType == f.intelType.value)
    && (f.minImportance.Some? ==> i.importance >= f.minImportance.value)
    && (!IncludesInvalid(f) ==> i.isValid)
  }

  function ScalarGroups(f: IntelFilters): seq<seq<Cond>> {
    (if f.createdBy.Some? then [[Eq(AttrCreatedBy, DId(f.createdBy.value))]] else [])
    + (if f.operation.Some? then [[Eq(AttrOperation, DId(f.operation.value))]] else [])
    + (if f.intelType.Some? then [[Eq(AttrType, DStr(f.intelType.value))]] else [])
    + (if f.minImportance.Some? then [[AtLeast(AttrImportance, f.minImportance.value)]] else [])
    + (if !IncludesInvalid(f) then [[Eq(AttrIsValid, DBool(true))]] else [])
  }

  function EntryGroups(f: IntelFilters): seq<seq<Cond>> {
    (if |f.oneOfDeliveryForEntries| > 0 then [AnyOf(AttrDeliveryForEntries, f.oneOfDeliveryForEntries)] else [])
    + (if |f.oneOfDeliveredToEntries| > 0 then [AnyOf(AttrDeliveredToEntries, f.oneOfDeliveredToEntries)] else [])
  }

  lemma ScalarGroupsAgree(st: Store, f: IntelFilters, i: Intel)
    ensures Matches(DocumentIn(st, i), ScalarGroups(f)) <==> ScalarsQualify(f, i)
  {
    var d := DocumentIn(st, i);
    var g1: seq<seq<Cond>> := if f.createdBy.Some? then [[Eq(AttrCreatedBy, DId(f.createdBy.value))]] else [];
    var g2: seq<seq<Cond>> := if f.operation.Some? then [[Eq(AttrOperation, DId(f.operation.value))]] else [];
    var g3: seq<seq<Cond>> := if f.intelType.Some? then [[Eq(AttrType, DStr(f.intelType.value))]] else [];
    var g4: seq<seq<Cond>> := if f.minImportance.Some? then [[AtLeast(AttrImportance, f.minImportance.value)]] else [];
    var g5: seq<seq<Cond>> := if !IncludesInvalid(f) then [[Eq(AttrIsValid, DBool(true))]] else [];
    MatchesConcat(d, g1 + g2 + g3 + g4, g5);
    MatchesConcat(d, g1 + g2 + g3, g4);
    MatchesConcat(d, g1 + g2, g3);
    MatchesConcat(d, g1, g2);
    if f.createdBy.Some? { MatchesOne(d, Eq(AttrCreatedBy, DId(f.createdBy.value))); }
    if f.operation.Some? { MatchesOne(d, Eq(AttrOperation, DId(f.operation.value))); }
    if f.intelType.Some? { MatchesOne(d, Eq(AttrType, DStr(f.intelType.value))); }
    if f.minImportance.Some? { MatchesOne(d, AtLeast(AttrImportance, f.minImportance.value)); }
    if !IncludesInvalid(f) { MatchesOne(d, Eq(AttrIsValid, DBool(true))); }
  }

  lemma EntryGroupsAgree(st: Store, f: IntelFilters, i: Intel)
    ensures Matches(DocumentIn(st, i), EntryGroups(f)) <==>
      && (|f.oneOfDeliveryForEntries| > 0 ==> SharesEntry(f.oneOfDeliveryForEntries, DeliveryForEntries(st, i.id)))
      && (|f.oneOfDeliveredToEntries| > 0 ==> SharesEntry(f.oneOfDeliveredToEntries, DeliveredToEntries(st, i.id)))
  {
    var d := DocumentIn(st, i);
    var g6: seq<seq<Cond>> := if |f.oneOfDeliveryForEntries| > 0 then [AnyOf(AttrDeliveryForEntries, f.oneOfDeliveryForEntries)] else [];
    var g7: seq<seq<Cond>> := if |f.oneOfDeliveredToEntries| > 0 then [AnyOf(AttrDeliveredToEntries, f.oneOfDeliveredToEntries)] else [];
    MatchesConcat(d, g6, g7);
    OptionalGroup(d, |f.oneOfDeliveryForEntries| > 0, AnyOf(AttrDeliveryForEntries, f.oneOfDeliveryForEntries));
    OptionalGroup(d, |f.oneOfDeliveredToEntries| > 0, AnyOf(AttrDeliveredToEntries, f.oneOfDeliveredToEntries));
    AnyOfHolds(d, AttrDeliveryForEntries, f.oneOfDeliveryForEntries, DeliveryForEntries(st, i.id));
    AnyOfHolds(d, AttrDeliveredToEntries, f.oneOfDeliveredToEntries, DeliveredToEntries(st, i.id));
  }

  /** `SearchIntel`'s filter: one group per set filter, the valid flag unless
      invalid intel is included, and one any-of group per non-empty entry
      list. */
  function SearchFilter(f: IntelFilters): (filter: seq<seq<Cond>>)
    ensures |filter| <= 7
  {
    ScalarGroups(f) + EntryGroups(f)
  }

  /** Search and list agree: the search document of an intel matches the
      search filter iff the intel qualifies for the list with the same
      filters. */
  lemma SearchAgreesWithList(st: Store, f: IntelFilters, i: Intel)
    ensures Matches(DocumentIn(st, i), SearchFilter(f)) <==> Qualifies(st, f, i)
  {
    MatchesConcat(DocumentIn(st, i), ScalarGroups(f), EntryGroups(f));
    ScalarGroupsAgree(st, f, i);
    EntryGroupsAgree(st, f, i);
  }

  /** The extra condition `SearchIntel` puts on the rows of the hits: with a
      delivery-for list, only intel having a delivery for one of its
      entries. */
  predicate PassesSafetyFilter(st: Store, f: IntelFilters, i: Intel) {
    |f.oneOfDeliveryForEntries| > 0 ==> SharesEntry(f.oneOfDeliveryForEntries, DeliveryForEntries(st, i.id))
  }

  /** The stored rows of the hits, in hit order; hits without a row or failing
      the extra condition are dropped. */
  function RowsOfHits(st: Store, f: IntelFilters, hits: seq<Id>): (r: seq<Intel>)
    ensures |r| <= |hits|
    ensures forall k :: 0 <= k < |r| ==> r[k] in st.intel && r[k].id in hits && PassesSafetyFilter(st, f, r[k])
  {
    if |hits| == 0 then []
    else
      var rest := RowsOfHits(st, f, hits[1..]);
      match FindIntel(st.intel, hits[0])
      case Some(i) => if PassesSafetyFilter(st, f, i) then [i] + rest else rest
      case None => rest
  }

  /** `SearchIntel`: the stored rows of the hits in hit order, under the
      metadata of the search; a failed search fails. */
  function SearchIntel(st: Store, f: IntelFilters, answer: Result<SearchResult<Id>>): (r: Result<SearchResult<Intel>>)
    ensures answer.Err? ==> r == Err(answer.code)
    ensures answer.Ok? ==> r.Ok? && SameMetadata(r.value, answer.value)
    ensures answer.Ok? ==> r.value.hits == RowsOfHits(st, f, answer.value.hits)
  {
    match answer
    case Err(code) => Err(code)
    case Ok(ids) => Ok(ResultFromResult(ids, RowsOfHits(st, f, ids.hits)))
  }

  /** With unique ids, every stored intel among the hits that passes the
      safety filter is among the rows of the hits. */
  lemma {:induction false} RowsOfHitsComplete(st: Store, f: IntelFilters, hits: seq<Id>, k: int)
    requires Valid(st) && 0 <= k < |st.intel|
    requires st.intel[k].id in hits && PassesSafetyFilter(st, f, st.intel[k])
    ensures st.intel[k] in RowsOfHits(st, f, hits)
    decreases |hits|
  {
    if hits[0] == st.intel[k].id {
      IntelByIDFindsRow(st, k);
    } else {
      RowsOfHitsComplete(st, f, hits[1..], k);
    }
  }

  /** A successful search returns exactly the stored intel it hit that passes
      the safety filter. */
  lemma SearchIntelReturnsStoredHits(st: Store, f: IntelFilters, meta: SearchResult<Id>, k: int)
    requires Valid(st) && 0 <= k < |st.intel|
    ensures st.intel[k] in SearchIntel(st, f, Ok(meta)).value.hits
      <==> st.intel[k].id in meta.hits && PassesSafetyFilter(st, f, st.intel[k])
  {
    if st.intel[k].id in meta.hits && PassesSafetyFilter(st, f, st.intel[k]) {
      RowsOfHitsComplete(st, f, meta.hits, k);
    }
  }
}
