/** The group store of the group service (group-svc/store/groups.go): groups
    with an optional operation and a member list, kept in a `groups` table and
    a `members` table of (group, user) rows. */
module Groups {
  import opened Common

  datatype Group = Group(id: Id, title: string, description: string, operation: Option<Id>, members: seq<Id>)

  datatype GroupRow = GroupRow(title: string, description: string, operation: Option<Id>)

  datatype MemberRow = MemberRow(group: Id, user: Id)

  /** The relational state: group rows by id, member rows in insertion order
      and the known users. */
  datatype Store = Store(groups: map<Id, GroupRow>, memberRows: seq<MemberRow>, users: set<Id>)

  /** The foreign key of the `members` table: every row names a stored group. */
  predicate Valid(st: Store) {
    forall i :: 0 <= i < |st.memberRows| ==> st.memberRows[i].group in st.groups
  }

  // ---------------------------------------------------------------------------
  // Validation

  /** `Group.Validate`: one error message per violated rule. */
  function Validate(g: Group): (errors: seq<string>)
    ensures |errors| > 0 <==> g.title == ""
  {
    if g.title == "" then ["title must not be empty"] else []
  }

  /** `hasDuplicateMembers`: scans the list remembering visited ids. */
  method HasDuplicateMembers(members: seq<Id>) returns (dup: bool)
    ensures dup <==> !NoDuplicates(members)
  {
    var visited: set<Id> := {};
    var k := 0;
    while k < |members|
      invariant 0 <= k <= |members|
      invariant visited == set i | 0 <= i < k :: members[i]
      invariant NoDuplicates(members[..k])
    {
      if members[k] in visited {
        var i :| 0 <= i < k && members[i] == members[k];
        return true;
      }
      forall i, j | 0 <= i < j < k + 1
        ensures members[i] != members[j]
      {
        if j < k {
          assert members[..k][i] == members[i] && members[..k][j] == members[j];
        } else {
          assert members[i] in visited;
        }
      }
      assert forall i :: 0 <= i < k + 1 ==> members[..k + 1][i] == members[i];
      visited := visited + {members[k]};
      k := k + 1;
    }
    assert members[..k] == members;
    return false;
  }

  // ---------------------------------------------------------------------------
  // Reading

  function MembersOf(rows: seq<MemberRow>, group: Id): (users: seq<Id>)
    ensures forall u :: u in users <==> MemberRow(group, u) in rows
  {
    if |rows| == 0 then []
    else
      var rest := MembersOf(rows[..|rows| - 1], group);
      var last := rows[|rows| - 1];
      assert rows == rows[..|rows| - 1] + [last];
      if last.group == group then rest + [last.user] else rest
  }

  /** `GroupByID`: not-found for an unknown id; otherwise the group with its
      (possibly empty) member list. */
  function GroupByID(st: Store, id: Id): (r: Result<Group>)
    ensures r.Err? <==> id !in st.groups
    ensures r.Err? ==> r.code == NotFound
    ensures r.Ok? ==>
              && r.value.id == id
              && r.value.title == st.groups[id].title
              && r.value.description == st.groups[id].description
              && r.value.operation == st.groups[id].operation
              && forall u :: u in r.value.members <==> MemberRow(id, u) in st.memberRows
  {
    if id !in st.groups then Err(NotFound)
    else
      var row := st.groups[id];
      Ok(Group(id, row.title, row.description, row.operation, MembersOf(st.memberRows, id)))
  }

  function MemberSet(st: Store, group: Id): set<Id> {
    set r | r in st.memberRows && r.group == group :: r.user
  }

  // ---------------------------------------------------------------------------
  // Writing

  function MemberRowsFor(group: Id, users: seq<Id>): (rows: seq<MemberRow>)
    ensures |rows| == |users|
    ensures forall i :: 0 <= i < |users| ==> rows[i] == MemberRow(group, users[i])
  {
    if |users| == 0 then [] else [MemberRow(group, users[0])] + MemberRowsFor(group, users[1..])
  }

  /** `CreateGroup`: the database assigns the fresh id `newId`. A member list
      with duplicates is refused before anything is written. */
  function CreateGroup(st: Store, create: Group, newId: Id): (r: Result<(Group, Store)>)
    requires Valid(st) && newId !in st.groups
    ensures !NoDuplicates(create.members) ==> r == Err(BadInput)
    ensures NoDuplicates(create.members) ==> r.Ok?
    ensures r.Ok? ==>
      var (g, st') := r.value;
      && g == create.(id := newId)
      && st'.groups == st.groups[newId := GroupRow(create.title, create.description, create.operation)]
      && MemberSet(st', newId) == set u | u in create.members
      && (forall g :: g != newId ==> MemberSet(st', g) == MemberSet(st, g))
      && st'.users == st.users
  {
    if !NoDuplicates(create.members) then Err(BadInput)
    else
      var added := MemberRowsFor(newId, create.members);
      var st' := st.(groups := st.groups[newId := GroupRow(create.title, create.description, create.operation)],
                     memberRows := st.memberRows + added);
      assert forall u :: u in create.members ==> MemberRow(newId, u) in added;
      assert MemberSet(st', newId) == set u | u in create.members by {
        forall x | x in st'.memberRows && x.group == newId
          ensures x.user in create.members
        {
          assert x !in st.memberRows;
          assert x in added;
        }
      }
      Ok((create.(id := newId), st'))
  }

  predicate KeepRow(row: MemberRow, group: Id, keep: set<Id>) {
    row.group != group || row.user in keep
  }

  function DeleteMemberRows(rows: seq<MemberRow>, group: Id, keep: set<Id>): (r: seq<MemberRow>)
    ensures forall x :: x in r <==> x in rows && KeepRow(x, group, keep)
  {
    if |rows| == 0 then []
    else
      var rest := DeleteMemberRows(rows[1..], group, keep);
      assert rows == [rows[0]] + rows[1..];
      if KeepRow(rows[0], group, keep) then [rows[0]] + rest else rest
  }

  /** The users of `update` that are not yet members, in the order given. */
  function ToAdd(update: seq<Id>, current: set<Id>): (r: seq<Id>)
    ensures forall u :: u in r <==> u in update && u !in current
  {
    if |update| == 0 then []
    else if update[0] !in current then [update[0]] + ToAdd(update[1..], current)
    else ToAdd(update[1..], current)
  }

  /** Which rows `UpdateGroup` inserts and which users it deletes. */
  datatype UpdateEffect = UpdateEffect(inserted: seq<Id>, deleted: set<Id>, st': Store)

  /** `UpdateGroup`: refuses duplicates with bad-input, an unknown group with
      not-found, then inserts members wanted∖current and deletes current∖wanted. */
  function UpdateGroup(st: Store, update: Group): (r: Result<UpdateEffect>)
    ensures !NoDuplicates(update.members) ==> r == Err(BadInput)
    ensures NoDuplicates(update.members) && update.id !in st.groups ==> r == Err(NotFound)
    ensures r.Ok? ==>
      var current := MemberSet(st, update.id);
      var wanted := set u | u in update.members;
      && (forall u :: u in r.value.inserted <==> u in wanted - current)
      && r.value.deleted == current - wanted
      && MemberSet(r.value.st', update.id) == wanted
      && (forall g :: g != update.id ==> MemberSet(r.value.st', g) == MemberSet(st, g))
      && r.value.st'.users == st.users
      && r.value.st'.groups == st.groups[update.id := GroupRow(update.title, update.description, update.operation)]
  {
    if !NoDuplicates(update.members) then Err(BadInput)
    else if update.id !in st.groups then Err(NotFound)
    else
      var current := MemberSet(st, update.id);
      var wanted := set u | u in update.members;
      var toAdd := ToAdd(update.members, current);
      var rows' := UpdatedMemberRows(st, update.id, wanted, toAdd);
      Ok(UpdateEffect(toAdd, current - wanted,
        st.(groups := st.groups[update.id := GroupRow(update.title, update.description, update.operation)],
            memberRows := rows')))
  }

  /** The member rows after an update of `group`: the rows of `toAdd`
      inserted, then every row of the group whose user is not wanted
      deleted. */
  function UpdatedMemberRows(st: Store, group: Id, wanted: set<Id>, toAdd: seq<Id>): (rows': seq<MemberRow>)
    requires forall u :: u in toAdd ==> u in wanted
    requires forall u :: u in wanted ==> u in MemberSet(st, group) || u in toAdd
    ensures MemberSet(st.(memberRows := rows'), group) == wanted
    ensures forall g :: g != group ==> MemberSet(st.(memberRows := rows'), g) == MemberSet(st, g)
  {
    var added := st.memberRows + MemberRowsFor(group, toAdd);
    var rows' := DeleteMemberRows(added, group, wanted);
    var st' := st.(memberRows := rows');
    assert forall u :: u in toAdd ==> MemberRow(group, u) in added;
    assert MemberSet(st', group) == wanted by {
      forall u | u in wanted ensures u in MemberSet(st', group) {
        if u in MemberSet(st, group) {
          var x :| x in st.memberRows && x.group == group && x.user == u;
          assert x in added;
          assert x in rows';
        } else {
          assert MemberRow(group, u) in added;
          assert MemberRow(group, u) in rows';
        }
      }
    }
    forall g | g != group ensures MemberSet(st', g) == MemberSet(st, g) {
      OtherGroupsKept(st.memberRows, MemberRowsFor(group, toAdd), group, wanted, g);
    }
    rows'
  }

  /** Inserting rows of `group` and deleting some of its rows leaves the
      members of every other group as they were. */
  lemma OtherGroupsKept(rows: seq<MemberRow>, extra: seq<MemberRow>, group: Id, keep: set<Id>, g: Id)
    requires g != group && forall x :: x in extra ==> x.group == group
    ensures (set x | x in DeleteMemberRows(rows + extra, group, keep) && x.group == g :: x.user)
         == (set x | x in rows && x.group == g :: x.user)
  {
    var after := DeleteMemberRows(rows + extra, group, keep);
    forall x | x in after && x.group == g ensures x in rows {
      assert x in rows + extra;
    }
    forall x | x in rows && x.group == g ensures x in after {
      assert x in rows + extra;
    }
  }

  /** `DeleteGroupByID`: not-found for an unknown id. Member rows go with the
      group (the `members` table references `groups`). */
  function DeleteGroupByID(st: Store, id: Id): (r: Result<Store>)
    ensures r.Err? <==> id !in st.groups
    ensures r.Ok? ==> r.value.groups == st.groups - {id} && MemberSet(r.value, id) == {}
    ensures r.Ok? ==> forall g :: g != id ==> MemberSet(r.value, g) == MemberSet(st, g)
    ensures r.Ok? ==> r.value.users == st.users
  {
    if id !in st.groups then Err(NotFound)
    else Ok(st.(groups := st.groups - {id}, memberRows := DeleteMemberRows(st.memberRows, id, {})))
  }

  // ---------------------------------------------------------------------------
  // Listing

  datatype GroupFilters = GroupFilters(byUser: Option<Id>, forOperation: Option<Id>, excludeGlobal: bool)

  /** The alternatives that `Groups` collects for the operation column. */
  datatype OperationCond = OperationIs(op: Id) | OperationIsNull

  function OperationAlternatives(f: GroupFilters): (conds: seq<OperationCond>)
    ensures |conds| <= 2
  {
    (if f.forOperation.Some? then [OperationIs(f.forOperation.value)] else [])
      + (if !f.excludeGlobal then [OperationIsNull] else [])
  }

  predicate CondHolds(c: OperationCond, op: Option<Id>) {
    match c
    case OperationIs(x) => op == Some(x)
    case OperationIsNull => op.None?
  }

  /** The OR-group is only added when it has alternatives. */
  predicate OperationFilterHolds(conds: seq<OperationCond>, op: Option<Id>) {
    |conds| == 0 || exists i :: 0 <= i < |conds| && CondHolds(conds[i], op)
  }

  predicate GroupQualifies(st: Store, f: GroupFilters, id: Id)
    requires id in st.groups
  {
    && (f.byUser.Some? ==> f.byUser.value in MemberSet(st, id))
    && OperationFilterHolds(OperationAlternatives(f), st.groups[id].operation)
  }

  /** A group as the listing returns it: the stored header with its full
      member list, which is what `GroupByID` reads. */
  function Listed(st: Store, id: Id): (g: Group)
    requires id in st.groups
    ensures GroupByID(st, id) == Ok(g)
  {
    var row := st.groups[id];
    Group(id, row.title, row.description, row.operation, MembersOf(st.memberRows, id))
  }

  /** `Groups` with the listing it is meant to return: not-found for an
      unknown filter user; otherwise every group that meets the user and
      operation filters, once, with all its members. `order` is the order in
      which the database returns the stored groups (paging and sorting are
      not modelled). */
  function Groups(st: Store, f: GroupFilters, order: seq<Id>): (r: Result<seq<Group>>)
    requires forall i :: 0 <= i < |order| ==> order[i] in st.groups
    ensures r.Err? <==> f.byUser.Some? && f.byUser.value !in st.users
    ensures r.Err? ==> r.code == NotFound
    ensures r.Ok? ==> forall i :: 0 <= i < |r.value| ==> GroupByID(st, r.value[i].id) == Ok(r.value[i])
    ensures r.Ok? ==> forall id :: id in order ==> (id in Ids(r.value) <==> GroupQualifies(st, f, id))
    ensures r.Ok? && NoDuplicates(order) ==> NoDuplicates(Ids(r.value))
  {
    if f.byUser.Some? && f.byUser.value !in st.users then Err(NotFound)
    else
      var gs := QualifyingGroups(st, f, order);
      assert NoDuplicates(order) ==> NoDuplicates(Ids(gs)) by {
        if NoDuplicates(order) {
          QualifyingGroupsAreDistinct(st, f, order);
        }
      }
      Ok(gs)
  }

  function Ids(gs: seq<Group>): (ids: seq<Id>)
    ensures |ids| == |gs| && forall i :: 0 <= i < |gs| ==> ids[i] == gs[i].id
  {
    seq(|gs|, i requires 0 <= i < |gs| => gs[i].id)
  }

  lemma IdsCons(g: Group, gs: seq<Group>)
    ensures Ids([g] + gs) == [g.id] + Ids(gs)
  {
    assert forall i :: 1 <= i <= |gs| ==> ([g] + gs)[i] == gs[i - 1];
  }

  function QualifyingGroups(st: Store, f: GroupFilters, order: seq<Id>): (gs: seq<Group>)
    requires forall i :: 0 <= i < |order| ==> order[i] in st.groups
    ensures forall i :: 0 <= i < |gs| ==> gs[i].id in order && gs[i].id in st.groups && gs[i] == Listed(st, gs[i].id)
    ensures forall id :: id in order ==> (id in Ids(gs) <==> GroupQualifies(st, f, id))
  {
    if |order| == 0 then []
    else
      var rest := QualifyingGroups(st, f, order[1..]);
      assert forall id :: id in order <==> id == order[0] || id in order[1..];
      if GroupQualifies(st, f, order[0]) then
        var gs := [Listed(st, order[0])] + rest;
        IdsCons(Listed(st, order[0]), rest);
        gs
      else
        assert forall id :: id in Ids(rest) ==> id in order[1..];
        rest
  }

  lemma {:induction false} QualifyingGroupsAreDistinct(st: Store, f: GroupFilters, order: seq<Id>)
    requires forall i :: 0 <= i < |order| ==> order[i] in st.groups
    requires NoDuplicates(order)
    ensures NoDuplicates(Ids(QualifyingGroups(st, f, order)))
  {
    if |order| > 0 {
      var rest := QualifyingGroups(st, f, order[1..]);
      assert NoDuplicates(order[1..]) by {
        assert forall i :: 0 <= i < |order| - 1 ==> order[1..][i] == order[i + 1];
      }
      QualifyingGroupsAreDistinct(st, f, order[1..]);
      if GroupQualifies(st, f, order[0]) {
        assert QualifyingGroups(st, f, order) == [Listed(st, order[0])] + rest;
        IdsCons(Listed(st, order[0]), rest);
        assert order[0] !in order[1..];
        assert order[0] !in Ids(rest);
      }
    }
  }

  // ---------------------------------------------------------------------------
  // Listing as written

  /** How many rows the LEFT JOIN of `groups` with `members` yields for a
      stored group that passes the operation filter: with a user filter, one
      per member row naming that user; otherwise one per member row, or a
      single row with null member columns for a group without members. */
  function JoinCopies(st: Store, f: GroupFilters, id: Id): nat {
    var members := MembersOf(st.memberRows, id);
    if f.byUser.Some? then multiset(members)[f.byUser.value]
    else if |members| == 0 then 1
    else |members|
  }

  /** `rows` holds the group id of each joined row, in the order in which the
      database returns them: every qualifying group as often as the join
      yields it and nothing else. */
  predicate IsJoinResult(st: Store, f: GroupFilters, rows: seq<Id>) {
    && (forall i :: 0 <= i < |rows| ==> rows[i] in st.groups)
    && forall id :: id in st.groups ==>
         multiset(rows)[id]
           == if OperationFilterHolds(OperationAlternatives(f), st.groups[id].operation) then JoinCopies(st, f, id) else 0
  }

  /** The scan loop: one group per joined row, with an empty member list. */
  function ScanRows(st: Store, rows: seq<Id>): (gs: seq<Group>)
    requires forall i :: 0 <= i < |rows| ==> rows[i] in st.groups
    ensures |gs| == |rows|
    ensures forall i :: 0 <= i < |rows| ==> gs[i] == Listed(st, rows[i]).(members := [])
  {
    seq(|rows|, i requires 0 <= i < |rows| => Listed(st, rows[i]).(members := []))
  }

  /** `groupsInList` after the first `n` rows: a later row with the same id
      overwrites the index of an earlier one. */
  function IndexUpTo(gs: seq<Group>, n: nat): (index: map<Id, nat>)
    requires n <= |gs|
    ensures forall id :: id in index ==> index[id] < n
  {
    if n == 0 then map[] else IndexUpTo(gs, n - 1)[gs[n - 1].id := n - 1]
  }

  /** After `n` rows every id seen so far is indexed. */
  lemma {:induction false} IndexUpToCovers(gs: seq<Group>, n: nat)
    requires n <= |gs|
    ensures forall i :: 0 <= i < n ==> gs[i].id in IndexUpTo(gs, n)
  {
    if n > 0 {
      IndexUpToCovers(gs, n - 1);
      forall i | 0 <= i < n ensures gs[i].id in IndexUpTo(gs, n) {
        if i < n - 1 { assert gs[i].id in IndexUpTo(gs, n - 1); }
      }
    }
  }

  /** Every indexed id points at a row with that id. */
  lemma {:induction false} IndexUpToPointsAtId(gs: seq<Group>, n: nat)
    requires n <= |gs|
    ensures forall id :: id in IndexUpTo(gs, n) ==> gs[IndexUpTo(gs, n)[id]].id == id
  {
    if n > 0 {
      IndexUpToPointsAtId(gs, n - 1);
      var prev := IndexUpTo(gs, n - 1);
      var index := IndexUpTo(gs, n);
      forall id | id in index ensures gs[index[id]].id == id {
        if id != gs[n - 1].id { assert id in prev && index[id] == prev[id]; }
      }
    }
  }

  /** No later row carries an indexed id: the index is at the last such row. */
  lemma {:induction false} IndexUpToIsLastRow(gs: seq<Group>, n: nat)
    requires n <= |gs|
    ensures forall id, j :: id in IndexUpTo(gs, n) && IndexUpTo(gs, n)[id] < j < n ==> gs[j].id != id
  {
    if n > 0 {
      IndexUpToIsLastRow(gs, n - 1);
      var prev := IndexUpTo(gs, n - 1);
      var index := IndexUpTo(gs, n);
      forall id, j | id in index && index[id] < j < n ensures gs[j].id != id {
        if id != gs[n - 1].id {
          assert id in prev && index[id] == prev[id];
          if j < n - 1 { assert prev[id] < j < n - 1; }
        }
      }
    }
  }

  /** `groupsInList`: every listed id ends up at the index of its last row. */
  function IndexByID(gs: seq<Group>): (index: map<Id, nat>)
    ensures forall i :: 0 <= i < |gs| ==> gs[i].id in index
    ensures forall id :: id in index ==> index[id] < |gs| && gs[index[id]].id == id
    ensures forall id, j :: id in index && index[id] < j < |gs| ==> gs[j].id != id
  {
    IndexUpToCovers(gs, |gs|);
    IndexUpToPointsAtId(gs, |gs|);
    IndexUpToIsLastRow(gs, |gs|);
    IndexUpTo(gs, |gs|)
  }

  /** The member loop: each member row of a listed group is appended to the
      member list of the entry its group id is indexed at. */
  function AttachMembers(gs: seq<Group>, index: map<Id, nat>, rows: seq<MemberRow>): (r: seq<Group>)
    requires forall id :: id in index ==> index[id] < |gs| && gs[index[id]].id == id
    ensures |r| == |gs|
    ensures forall i :: 0 <= i < |gs| ==>
              r[i] == if gs[i].id in index && index[gs[i].id] == i
                      then gs[i].(members := gs[i].members + MembersOf(rows, gs[i].id))
                      else gs[i]
  {
    if |rows| == 0 then gs
    else
      var prev := AttachMembers(gs, index, rows[..|rows| - 1]);
      var last := rows[|rows| - 1];
      assert rows[..|rows| - 1] + [last] == rows;
      if last.group in index then
        var k := index[last.group];
        prev[k := prev[k].(members := prev[k].members + [last.user])]
      else prev
  }

  /** The listing as `Groups` computes it. */
  function GroupsAsWritten(st: Store, f: GroupFilters, rows: seq<Id>): (r: Result<seq<Group>>)
    requires IsJoinResult(st, f, rows)
    ensures r.Err? <==> f.byUser.Some? && f.byUser.value !in st.users
    ensures r.Err? ==> r.code == NotFound
    ensures r.Ok? ==> |r.value| == |rows|
    ensures r.Ok? ==> forall i :: 0 <= i < |rows| ==>
              r.value[i] == if IsLastRow(rows, i) then Listed(st, rows[i]) else Listed(st, rows[i]).(members := [])
  {
    if f.byUser.Some? && f.byUser.value !in st.users then Err(NotFound)
    else
      var gs := ScanRows(st, rows);
      var index := IndexByID(gs);
      var r := AttachMembers(gs, index, st.memberRows);
      forall i | 0 <= i < |rows| ensures IsLastRow(rows, i) <==> index[gs[i].id] == i {
        LastRowIsIndexed(gs, rows, i);
      }
      Ok(r)
  }

  predicate IsLastRow(rows: seq<Id>, i: int)
    requires 0 <= i < |rows|
  {
    forall j :: i < j < |rows| ==> rows[j] != rows[i]
  }

  /** The index keeps a row exactly when no later row has the same id. */
  lemma LastRowIsIndexed(gs: seq<Group>, rows: seq<Id>, i: int)
    requires |gs| == |rows| && 0 <= i < |rows|
    requires forall k :: 0 <= k < |rows| ==> gs[k].id == rows[k]
    ensures gs[i].id in IndexByID(gs)
    ensures IsLastRow(rows, i) <==> IndexByID(gs)[gs[i].id] == i
  {
    var k := IndexByID(gs)[gs[i].id];
    assert gs[k].id == rows[k];
  }

  /** A store holding one global group `g` with the two members `u1`, `u2`. */
  function TwoMemberGroup(g: Id, u1: Id, u2: Id): (st: Store)
    ensures MembersOf(st.memberRows, g) == [u1, u2]
  {
    var st := Store(map[g := GroupRow("t", "", None)], [MemberRow(g, u1), MemberRow(g, u2)], {});
    assert st.memberRows[..1] == [MemberRow(g, u1)];
    assert MembersOf(st.memberRows[..1], g) == [u1] by {
      assert st.memberRows[..1][..0] == [];
    }
    st
  }

  /** Unfiltered, the join yields that group twice and nothing else. */
  lemma TwoMemberGroupJoinsTwice(g: Id, u1: Id, u2: Id, rows: seq<Id>)
    requires IsJoinResult(TwoMemberGroup(g, u1, u2), GroupFilters(None, None, false), rows)
    ensures rows == [g, g]
  {
    var st := TwoMemberGroup(g, u1, u2);
    var f := GroupFilters(None, None, false);
    assert OperationAlternatives(f) == [OperationIsNull];
    assert CondHolds(OperationAlternatives(f)[0], None);
    assert multiset(rows)[g] == 2;
    assert forall i :: 0 <= i < |rows| ==> rows[i] == g;
    assert multiset(rows) == multiset{g, g};
  }

  /** Without a user filter, a group with two members is listed twice; the
      first copy has no members and only the second carries both. */
  lemma GroupsAsWrittenRepeatsGroups(g: Id, u1: Id, u2: Id, rows: seq<Id>)
    requires IsJoinResult(TwoMemberGroup(g, u1, u2), GroupFilters(None, None, false), rows)
    ensures var r := GroupsAsWritten(TwoMemberGroup(g, u1, u2), GroupFilters(None, None, false), rows);
            && r.Ok? && |r.value| == 2
            && r.value[0] == Group(g, "t", "", None, [])
            && r.value[1] == Group(g, "t", "", None, [u1, u2])
  {
    var st := TwoMemberGroup(g, u1, u2);
    TwoMemberGroupJoinsTwice(g, u1, u2, rows);
    assert rows[1] == rows[0];
    assert !IsLastRow(rows, 0) && IsLastRow(rows, 1);
    assert Listed(st, g) == Group(g, "t", "", None, [u1, u2]);
  }

  /** The copies the join yields do list exactly the qualifying groups, and
      the last copy of each is the group as it is meant to be listed. */
  lemma {:induction false} AsWrittenLastCopiesAreTheListing(st: Store, f: GroupFilters, rows: seq<Id>)
    requires IsJoinResult(st, f, rows)
    requires f.byUser.None? || f.byUser.value in st.users
    ensures GroupsAsWritten(st, f, rows).Ok?
    ensures forall id :: id in st.groups ==> (id in rows <==> GroupQualifies(st, f, id))
    ensures forall i :: 0 <= i < |rows| && IsLastRow(rows, i) ==>
              GroupsAsWritten(st, f, rows).value[i] == Listed(st, rows[i])
  {
    forall id | id in st.groups ensures id in rows <==> GroupQualifies(st, f, id) {
      var members := MembersOf(st.memberRows, id);
      assert id in rows <==> multiset(rows)[id] > 0;
      if f.byUser.Some? {
        var u := f.byUser.value;
        assert multiset(members)[u] > 0 <==> u in members;
        assert u in members <==> u in MemberSet(st, id) by {
          if u in members {
            assert MemberRow(id, u) in st.memberRows;
          }
        }
      }
    }
  }

  /** After `CreateGroup` the listing holds the new group exactly when the
      filters admit its members and operation, and admits every other
      group exactly as before. */
  lemma CreateGroupThenListed(st: Store, create: Group, newId: Id, f: GroupFilters, order: seq<Id>)
    requires Valid(st) && newId !in st.groups && NoDuplicates(create.members)
    requires f.byUser.None? || f.byUser.value in st.users
    requires forall i :: 0 <= i < |order| ==> order[i] in st.groups || order[i] == newId
    ensures var st' := CreateGroup(st, create, newId).value.1;
            var r := Groups(st', f, order);
            && r.Ok?
            && (newId in order ==>
                 (newId in Ids(r.value) <==>
                    (f.byUser.Some? ==> f.byUser.value in create.members)
                    && OperationFilterHolds(OperationAlternatives(f), create.operation)))
            && forall id :: id in order && id != newId ==> (id in Ids(r.value) <==> GroupQualifies(st, f, id))
  {
    var st' := CreateGroup(st, create, newId).value.1;
    forall id | id in order && id != newId ensures GroupQualifies(st', f, id) == GroupQualifies(st, f, id) {
      assert MemberSet(st', id) == MemberSet(st, id);
    }
  }

  /** With an operation filter, a group qualifies by its operation iff it
      belongs to that operation or is global and globals are not excluded. */
  lemma ForOperationSemantics(f: GroupFilters, op: Option<Id>)
    requires f.forOperation.Some?
    ensures OperationFilterHolds(OperationAlternatives(f), op)
        <==> op == f.forOperation || (op.None? && !f.excludeGlobal)
  {
    var conds := OperationAlternatives(f);
    assert conds[0] == OperationIs(f.forOperation.value);
    if op.None? && !f.excludeGlobal {
      assert CondHolds(conds[1], op);
    }
  }

  /** Without an operation filter the builder still adds the null alternative,
      so only global groups qualify unless globals are excluded, in which case
      nothing is filtered. */
  lemma NoOperationFilterSemantics(f: GroupFilters, op: Option<Id>)
    requires f.forOperation.None?
    ensures OperationFilterHolds(OperationAlternatives(f), op) <==> (f.excludeGlobal || op.None?)
  {
    if !f.excludeGlobal {
      assert OperationAlternatives(f) == [OperationIsNull];
      if op.None? {
        assert CondHolds(OperationAlternatives(f)[0], op);
      }
    } else {
      assert OperationAlternatives(f) == [];
    }
  }

  /** `AssureUserExists`. */
  function AssureUserExists(st: Store, user: Id): (r: Result<()>)
    ensures r.Ok? <==> user in st.users
    ensures r.Err? ==> r.code == NotFound
  {
    if user in st.users then Ok(()) else Err(NotFound)
  }
}
