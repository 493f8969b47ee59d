/** Intel in the intelligence service's store
    (intelligence-svc/store/intel.go): validation of new intel, creation
    with one assignment per requested recipient, invalidation, and the
    lookups of intel and assignments. */
module IntelligenceStore {
  import opened Common
  import Json
  import LogisticsIntel

  /** The one intel type the store knows. The declaration of the store's
      type constants is not part of this model; its spelling is taken to be
      the public one. */
  const TypePlaintextMessage: string := "plaintext-message"

  /** `IntelAssignment`: the intel is assigned to the address-book entry
      `to`. */
  datatype IntelAssignment = IntelAssignment(id: Id, intel: Id, to: Id)

  datatype CreateIntel = CreateIntel(
    createdBy: Id,
    operation: Id,
    intelType: string,
    content: Json.Raw,
    searchText: Option<string>,
    importance: int,
    assignments: seq<IntelAssignment>)

  /** `Intel` with its assignments. */
  datatype Intel = Intel(
    id: Id,
    createdAt: Time,
    createdBy: Id,
    operation: Id,
    intelType: string,
    content: Json.Raw,
    searchText: Option<string>,
    importance: int,
    isValid: bool,
    assignments: seq<IntelAssignment>)

  /** A row of the `intel` table. */
  datatype IntelRow = IntelRow(
    id: Id,
    createdAt: Time,
    createdBy: Id,
    operation: Id,
    intelType: string,
    content: Json.Raw,
    searchText: Option<string>,
    importance: int,
    isValid: bool)

  /** The `intel` and `intel_assignments` tables in insertion order. */
  datatype Store = Store(intel: seq<IntelRow>, assignments: seq<IntelAssignment>)

  predicate HasIntel(st: Store, id: Id) {
    exists k :: 0 <= k < |st.intel| && st.intel[k].id == id
  }

  predicate HasAssignment(st: Store, id: Id) {
    exists k :: 0 <= k < |st.assignments| && st.assignments[k].id == id
  }

  predicate UniqueIntelIds(rows: seq<IntelRow>) {
    forall j, k :: 0 <= j < k < |rows| ==> rows[j].id != rows[k].id
  }

  /** Ids are unique in both tables and every assignment references stored
      intel. */
  predicate Valid(st: Store) {
    && UniqueIntelIds(st.intel)
    && (forall j, k :: 0 <= j < k < |st.assignments| ==> st.assignments[j].id != st.assignments[k].id)
    && (forall k :: 0 <= k < |st.assignments| ==> HasIntel(st, st.assignments[k].intel))
  }

  // ---------------------------------------------------------------------------
  // Validation

  const DuplicateAssignmentPrefix: string := "duplicate assignment to "

  function DuplicateMessage(to: Id): string {
    DuplicateAssignmentPrefix + to
  }

  function Recipients(assignments: seq<IntelAssignment>): (r: seq<Id>)
    ensures |r| == |assignments| && forall k :: 0 <= k < |r| ==> r[k] == assignments[k].to
  {
    Map((a: IntelAssignment) => a.to, assignments)
  }

  /** `CreateIntel.Validate`: the report of the type and content check (an
      error of that check is passed on), followed by one error per
      assignment to a recipient assigned before. */
  method Validate(c: CreateIntel, typeAndContent: Result<seq<string>>) returns (r: Result<seq<string>>)
    ensures typeAndContent.Err? ==> r == Err(typeAndContent.code)
    ensures typeAndContent.Ok? ==>
      r.Ok? && r.value == typeAndContent.value + Map(DuplicateMessage, LogisticsIntel.Repeats(Recipients(c.assignments)))
  {
    if typeAndContent.Err? {
      return Err(typeAndContent.code);
    }
    var errors := RepeatMessages(Recipients(c.assignments));
    return Ok(typeAndContent.value + errors);
  }

  /** The loop of `Validate`: one message per entry seen before. */
  method RepeatMessages(s: seq<Id>) returns (errors: seq<string>)
    ensures errors == Map(DuplicateMessage, LogisticsIntel.Repeats(s))
  {
    var seen: set<Id> := {};
    errors := [];
    var i := 0;
    while i < |s|
      invariant 0 <= i <= |s|
      invariant seen == LogisticsIntel.Elems(s[..i])
      invariant errors == Map(DuplicateMessage, LogisticsIntel.Repeats(s[..i]))
    {
      assert s[..i + 1][..i] == s[..i];
      if s[i] in seen {
        errors := errors + [DuplicateMessage(s[i])];
      } else {
        seen := seen + {s[i]};
      }
      i := i + 1;
    }
    assert s[..|s|] == s;
  }

  /** The assignments add errors to the report iff two of them name the same
      recipient, one error per surplus assignment. */
  lemma ValidateReportsDuplicates(c: CreateIntel)
    ensures |Map(DuplicateMessage, LogisticsIntel.Repeats(Recipients(c.assignments)))|
      == |c.assignments| - |LogisticsIntel.Elems(Recipients(c.assignments))|
    ensures Map(DuplicateMessage, LogisticsIntel.Repeats(Recipients(c.assignments))) == [] <==> NoDuplicates(Recipients(c.assignments))
  {
    LogisticsIntel.RepeatsCount(Recipients(c.assignments));
    LogisticsIntel.RepeatsEmptyIffNoDuplicates(Recipients(c.assignments));
  }

  // ---------------------------------------------------------------------------
  // Lookups

  /** `intelAssignmentsByIntel`: the assignments of the intel, in table order;
      empty, never absent, when there are none. */
  function AssignmentsByIntel(st: Store, intelId: Id): (r: seq<IntelAssignment>)
    ensures forall a :: a in r <==> a in st.assignments && a.intel == intelId
  {
    Filter((a: IntelAssignment) => a.intel == intelId, st.assignments)
  }

  function FindRow(rows: seq<IntelRow>, id: Id): (r: Option<IntelRow>)
    ensures r.Some? <==> exists k :: 0 <= k < |rows| && rows[k].id == id
    ensures r.Some? ==> r.value in rows && r.value.id == id
  {
    if |rows| == 0 then None
    else if rows[0].id == id then Some(rows[0])
    else
      var r := FindRow(rows[1..], id);
      assert (exists k :: 0 <= k < |rows| && rows[k].id == id) ==> r.Some? by {
        if exists k :: 0 <= k < |rows| && rows[k].id == id {
          var k :| 0 <= k < |rows| && rows[k].id == id;
          assert rows[1..][k - 1].id == id;
        }
      }
      r
  }

  function WithAssignments(row: IntelRow, assignments: seq<IntelAssignment>): Intel {
    Intel(row.id, row.createdAt, row.createdBy, row.operation, row.intelType, row.content,
          row.searchText, row.importance, row.isValid, assignments)
  }

  /** `IntelByID`: not-found for an unknown id; otherwise the row with all
      of the intel's assignments. */
  function IntelByID(st: Store, id: Id): (r: Result<Intel>)
    ensures r.Ok? <==> HasIntel(st, id)
    ensures r.Err? ==> r.code == NotFound
    ensures r.Ok? ==> r.value.id == id && exists k :: 0 <= k < |st.intel| && WithAssignments(st.intel[k], r.value.assignments) == r.value
    ensures r.Ok? ==> forall a :: a in r.value.assignments <==> a in st.assignments && a.intel == id
  {
    match FindRow(st.intel, id)
    case None => Err(NotFound)
    case Some(row) => Ok(WithAssignments(row, AssignmentsByIntel(st, id)))
  }

  /** `IntelAssignmentByID` as written: the row's columns are scanned into
      the intel field twice and into the recipient, so the id is never set
      and keeps its zero value. */
  function IntelAssignmentByIDAsWritten(st: Store, id: Id): (r: Result<IntelAssignment>)
    ensures r.Ok? <==> HasAssignment(st, id)
    ensures r.Ok? ==> r.value.id == NilId
  {
    var found := Filter((a: IntelAssignment) => a.id == id, st.assignments);
    if |found| == 0 then
      assert forall k :: 0 <= k < |st.assignments| ==> st.assignments[k].id != id;
      Err(NotFound)
    else Ok(IntelAssignment(NilId, found[0].intel, found[0].to))
  }

  /** The assignment the function promises: the stored row, id included. */
  function IntelAssignmentByID(st: Store, id: Id): (r: Result<IntelAssignment>)
    ensures r.Ok? <==> HasAssignment(st, id)
    ensures r.Err? ==> r.code == NotFound
    ensures r.Ok? ==> r.value in st.assignments && r.value.id == id
  {
    var found := Filter((a: IntelAssignment) => a.id == id, st.assignments);
    if |found| == 0 then
      assert forall k :: 0 <= k < |st.assignments| ==> st.assignments[k].id != id;
      Err(NotFound)
    else Ok(found[0])
  }

  /** Reading back any stored assignment as written loses its id, while the
      corrected lookup returns it. */
  lemma AssignmentIdIsLostAsWritten(st: Store, k: int)
    requires 0 <= k < |st.assignments| && st.assignments[k].id != NilId
    ensures IntelAssignmentByIDAsWritten(st, st.assignments[k].id).Ok?
    ensures IntelAssignmentByIDAsWritten(st, st.assignments[k].id).value.id != st.assignments[k].id
    ensures IntelAssignmentByID(st, st.assignments[k].id).value.id == st.assignments[k].id
  {
  }

  // ---------------------------------------------------------------------------
  // Changes

  /** The assignments `Create` stores: one per requested assignment, in
      order, under the database's ids, bound to the new intel. */
  function NewAssignments(c: CreateIntel, newId: Id, assignmentIds: seq<Id>): (r: seq<IntelAssignment>)
    requires |assignmentIds| == |c.assignments|
    ensures |r| == |c.assignments|
    ensures forall k :: 0 <= k < |r| ==> r[k].id == assignmentIds[k] && r[k].intel == newId && r[k].to == c.assignments[k].to
  {
    seq(|c.assignments|, k requires 0 <= k < |c.assignments| => IntelAssignment(assignmentIds[k], newId, c.assignments[k].to))
  }

  function NewRow(c: CreateIntel, newId: Id, now: Time): IntelRow {
    IntelRow(newId, now, c.createdBy, c.operation, c.intelType, c.content, c.searchText, c.importance, true)
  }

  /** The tables after creating the intel: its row and its assignments
      appended. */
  function AfterCreate(st: Store, c: CreateIntel, newId: Id, now: Time, assignmentIds: seq<Id>): Store
    requires |assignmentIds| == |c.assignments|
  {
    Store(st.intel + [NewRow(c, newId, now)], st.assignments + NewAssignments(c, newId, assignmentIds))
  }

  /** Creation keeps the tables valid when the database's ids are fresh. */
  lemma AfterCreateIsValid(st: Store, c: CreateIntel, newId: Id, now: Time, assignmentIds: seq<Id>)
    requires Valid(st) && !HasIntel(st, newId)
    requires |assignmentIds| == |c.assignments| && NoDuplicates(assignmentIds)
    requires forall k :: 0 <= k < |assignmentIds| ==> !HasAssignment(st, assignmentIds[k])
    ensures Valid(AfterCreate(st, c, newId, now, assignmentIds))
  {
    var st' := AfterCreate(st, c, newId, now, assignmentIds);
    var n := |st.intel|;
    var m := |st.assignments|;
    forall j, k | 0 <= j < k < |st'.intel| ensures st'.intel[j].id != st'.intel[k].id {
      if k == n { assert st'.intel[j] == st.intel[j]; }
    }
    forall j, k | 0 <= j < k < |st'.assignments| ensures st'.assignments[j].id != st'.assignments[k].id {
      if k >= m {
        if j < m {
          assert st'.assignments[j] == st.assignments[j];
          assert st'.assignments[k].id == assignmentIds[k - m];
        } else {
          assert st'.assignments[j].id == assignmentIds[j - m];
          assert st'.assignments[k].id == assignmentIds[k - m];
        }
      }
    }
    assert st'.intel[n].id == newId;
    forall k | 0 <= k < |st'.assignments| ensures HasIntel(st', st'.assignments[k].intel) {
      if k < m {
        assert st'.assignments[k] == st.assignments[k];
        var j :| 0 <= j < n && st.intel[j].id == st.assignments[k].intel;
        assert st'.intel[j] == st.intel[j];
      }
    }
  }

  /** After creation the new intel has exactly the new assignments, and every
      other intel keeps its own. */
  lemma AfterCreateAssignments(st: Store, c: CreateIntel, newId: Id, now: Time, assignmentIds: seq<Id>, id: Id)
    requires Valid(st) && !HasIntel(st, newId)
    requires |assignmentIds| == |c.assignments|
    ensures AssignmentsByIntel(AfterCreate(st, c, newId, now, assignmentIds), id)
      == if id == newId then NewAssignments(c, newId, assignmentIds) else AssignmentsByIntel(st, id)
  {
    var added := NewAssignments(c, newId, assignmentIds);
    var p := (a: IntelAssignment) => a.intel == id;
    FilterConcat(p, st.assignments, added);
    FilterAllOrNone(p, added);
    if id == newId {
      forall k | 0 <= k < |st.assignments| ensures !p(st.assignments[k]) {
        var j :| 0 <= j < |st.intel| && st.intel[j].id == st.assignments[k].intel;
      }
      FilterAllOrNone(p, st.assignments);
    }
  }

  /** `CreateIntel`: the database assigns `newId`, the current time and one
      fresh id per assignment; new intel is valid. The id and intel a
      requested assignment carries are ignored: only its recipient is
      stored, one assignment per loop round. */
  method Create(st: Store, c: CreateIntel, newId: Id, now: Time, assignmentIds: seq<Id>) returns (st': Store, created: Intel)
    requires Valid(st) && !HasIntel(st, newId)
    requires |assignmentIds| == |c.assignments| && NoDuplicates(assignmentIds)
    requires forall k :: 0 <= k < |assignmentIds| ==> !HasAssignment(st, assignmentIds[k])
    ensures Valid(st')
    ensures st'.intel == st.intel + [NewRow(c, newId, now)]
    ensures created.id == newId && created.createdAt == now && created.isValid
    ensures created.assignments == NewAssignments(c, newId, assignmentIds)
    ensures IntelByID(st', newId) == Ok(created)
    ensures forall id :: id != newId ==> AssignmentsByIntel(st', id) == AssignmentsByIntel(st, id)
  {
    var row := NewRow(c, newId, now);
    var expected := NewAssignments(c, newId, assignmentIds);
    st' := st.(intel := st.intel + [row]);
    var i := 0;
    while i < |c.assignments|
      invariant 0 <= i <= |c.assignments|
      invariant st' == Store(st.intel + [row], st.assignments + expected[..i])
    {
      assert expected[..i + 1] == expected[..i] + [IntelAssignment(assignmentIds[i], newId, c.assignments[i].to)];
      st' := st'.(assignments := st'.assignments + [IntelAssignment(assignmentIds[i], newId, c.assignments[i].to)]);
      i := i + 1;
    }
    assert expected[..i] == expected;
    assert st' == AfterCreate(st, c, newId, now, assignmentIds);
    AfterCreateIsValid(st, c, newId, now, assignmentIds);
    AfterCreateAssignments(st, c, newId, now, assignmentIds, newId);
    forall id | id != newId ensures AssignmentsByIntel(st', id) == AssignmentsByIntel(st, id) {
      AfterCreateAssignments(st, c, newId, now, assignmentIds, id);
    }
    created := WithAssignments(row, expected);
    IntelByIDFindsRow(st', |st.intel|);
  }

  function Invalidated(rows: seq<IntelRow>, id: Id): (r: seq<IntelRow>)
    ensures |r| == |rows|
    ensures forall k :: 0 <= k < |rows| ==> r[k] == (if rows[k].id == id then rows[k].(isValid := false) else rows[k])
  {
    Map((row: IntelRow) => if row.id == id then row.(isValid := false) else row, rows)
  }

  /** `InvalidateIntelByID`: not-found for an unknown id; otherwise the intel
      is marked invalid, and nothing else changes. */
  function InvalidateIntelByID(st: Store, id: Id): (r: Result<Store>)
    ensures r.Ok? <==> HasIntel(st, id)
    ensures r.Err? ==> r.code == NotFound
    ensures r.Ok? ==> r.value.assignments == st.assignments && |r.value.intel| == |st.intel|
    ensures r.Ok? ==> forall k :: 0 <= k < |st.intel| ==>
      r.value.intel[k] == (if st.intel[k].id == id then st.intel[k].(isValid := false) else st.intel[k])
  {
    if !HasIntel(st, id) then Err(NotFound)
    else Ok(st.(intel := Invalidated(st.intel, id)))
  }

  /** With unique ids, the intel found is the row holding the id. */
  lemma IntelByIDFindsRow(st: Store, k: int)
    requires UniqueIntelIds(st.intel) && 0 <= k < |st.intel|
    ensures IntelByID(st, st.intel[k].id) == Ok(WithAssignments(st.intel[k], AssignmentsByIntel(st, st.intel[k].id)))
  {
    var r := FindRow(st.intel, st.intel[k].id).value;
    var j :| 0 <= j < |st.intel| && st.intel[j] == r;
  }

  /** Invalidated intel reads back as invalid with its assignments. */
  lemma InvalidateThenByID(st: Store, id: Id)
    requires Valid(st) && HasIntel(st, id)
    ensures InvalidateIntelByID(st, id).Ok?
    ensures var r := IntelByID(InvalidateIntelByID(st, id).value, id);
      r.Ok? && !r.value.isValid && r.value.assignments == IntelByID(st, id).value.assignments
  {
    var st' := InvalidateIntelByID(st, id).value;
    var k :| 0 <= k < |st.intel| && st.intel[k].id == id;
    assert UniqueIntelIds(st'.intel) by {
      forall j, l | 0 <= j < l < |st'.intel| ensures st'.intel[j].id != st'.intel[l].id {
        assert st'.intel[j].id == st.intel[j].id && st'.intel[l].id == st.intel[l].id;
      }
    }
    IntelByIDFindsRow(st, k);
    IntelByIDFindsRow(st', k);
  }
}
