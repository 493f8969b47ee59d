/** The user store of the user service (user-svc/store/users.go): users with
    their hashed passwords, their validation, their search documents, the
    list and search filters, and the changes that must find the user. */
module Users {
  import opened Common
  import opened Search

  datatype User = User(id: Id, username: string, firstName: string, lastName: string, isAdmin: bool, isActive: bool)

  /** `UserWithPass`; the password is the hash the store keeps. */
  datatype UserWithPass = UserWithPass(user: User, pass: string)

  /** The `users` table in its physical order. */
  datatype Store = Store(rows: seq<UserWithPass>)

  function AllUsers(st: Store): (r: seq<User>)
    ensures |r| == |st.rows|
    ensures forall i :: 0 <= i < |st.rows| ==> r[i] == st.rows[i].user
  {
    Map((row: UserWithPass) => row.user, st.rows)
  }

  predicate HasUser(st: Store, id: Id) {
    exists i :: 0 <= i < |st.rows| && st.rows[i].user.id == id
  }

  // ---------------------------------------------------------------------------
  // Validation

  const UsernameEmpty: string := "username must not be empty"
  const FirstNameEmpty: string := "first name must not be empty"
  const LastNameEmpty: string := "last name must not be empty"
  const PassEmpty: string := "password must not be empty"

  /** `User.Validate`: one error for each of the username, first name and
      last name that is empty, and nothing else. */
  function Validate(u: User): (errors: seq<string>)
    ensures UsernameEmpty in errors <==> u.username == ""
    ensures FirstNameEmpty in errors <==> u.firstName == ""
    ensures LastNameEmpty in errors <==> u.lastName == ""
    ensures forall e :: e in errors ==> e in {UsernameEmpty, FirstNameEmpty, LastNameEmpty}
    ensures NoDuplicates(errors)
    ensures errors == [] <==> u.username != "" && u.firstName != "" && u.lastName != ""
  {
    (if u.username == "" then [UsernameEmpty] else [])
    + (if u.firstName == "" then [FirstNameEmpty] else [])
    + (if u.lastName == "" then [LastNameEmpty] else [])
  }

  /** `UserWithPass.Validate`: an empty password is reported first, followed
      by every error of the user. */
  function ValidateWithPass(u: UserWithPass): (errors: seq<string>)
    ensures PassEmpty in errors <==> u.pass == ""
    ensures u.pass == "" ==> errors[0] == PassEmpty
    ensures forall e :: e in errors <==> (e == PassEmpty && u.pass == "") || e in Validate(u.user)
    ensures NoDuplicates(errors)
    ensures errors == [] <==> u.pass != "" && Validate(u.user) == []
  {
    (if u.pass == "" then [PassEmpty] else []) + Validate(u.user)
  }

  /** The password check only adds to the user's report: the report of the
      user alone is its tail. */
  lemma ValidateWithPassExtendsValidate(u: UserWithPass)
    ensures var all := ValidateWithPass(u);
      |all| >= |Validate(u.user)| && all[|all| - |Validate(u.user)|..] == Validate(u.user)
  {
  }

  // ---------------------------------------------------------------------------
  // Search documents

  const SearchIndex: string := "users"
  const AttrId: string := "id"
  const AttrUsername: string := "username"
  const AttrFirstName: string := "first_name"
  const AttrLastName: string := "last_name"
  const AttrIsActive: string := "is_active"

  /** `userSearchIndexConfig`. */
  const SearchIndexConfig: IndexConfig :=
    IndexConfig(AttrId, [AttrUsername, AttrFirstName, AttrLastName], None, [AttrIsActive], [])

  /** `documentFromUser`: id, names and the active flag; the admin flag is not
      part of the document. */
  function DocumentFromUser(u: User): (d: Document)
    ensures d.Keys == {AttrId, AttrUsername, AttrFirstName, AttrLastName, AttrIsActive}
    ensures d[AttrId] == DId(u.id) && d[AttrUsername] == DStr(u.username)
    ensures d[AttrFirstName] == DStr(u.firstName) && d[AttrLastName] == DStr(u.lastName)
    ensures d[AttrIsActive] == DBool(u.isActive)
  {
    map[AttrId := DId(u.id), AttrUsername := DStr(u.username), AttrFirstName := DStr(u.firstName),
        AttrLastName := DStr(u.lastName), AttrIsActive := DBool(u.isActive)]
  }

  /** The document keys the index's primary key and searchable attributes,
      and the admin flag never reaches the search: users differing only in it
      have the same document. */
  lemma DocumentFitsIndexConfig(u: User, admin: bool)
    ensures SearchIndexConfig.primaryKey in DocumentFromUser(u)
    ensures forall a :: a in SearchIndexConfig.searchable ==> a in DocumentFromUser(u)
    ensures forall a :: a in SearchIndexConfig.filterable ==> a in DocumentFromUser(u)
    ensures DocumentFromUser(u.(isAdmin := admin)) == DocumentFromUser(u)
  {
  }

  // ---------------------------------------------------------------------------
  // Lookup

  /** The first row with the given id, as a query on `id` reads it. */
  function RowIndexById(rows: seq<UserWithPass>, id: Id): (r: Option<nat>)
    ensures r.None? <==> forall i :: 0 <= i < |rows| ==> rows[i].user.id != id
    ensures r.Some? ==> r.value < |rows| && rows[r.value].user.id == id
    ensures r.Some? ==> forall j :: 0 <= j < r.value ==> rows[j].user.id != id
  {
    if |rows| == 0 then None
    else if rows[0].user.id == id then Some(0)
    else
      var rest := RowIndexById(rows[1..], id);
      if rest.None? then None else Some(rest.value + 1)
  }

  /** `UserByID`: not-found unless a user has the id. */
  function UserById(st: Store, id: Id): (r: Result<User>)
    ensures r.Ok? <==> HasUser(st, id)
    ensures r.Err? ==> r.code == NotFound
    ensures r.Ok? ==> r.value.id == id && r.value in AllUsers(st)
  {
    match RowIndexById(st.rows, id)
    case None => Err(NotFound)
    case Some(i) => Ok(st.rows[i].user)
  }

  /** `UserByUsername`: not-found unless a user has the name. */
  function UserByUsername(st: Store, username: string): (r: Result<User>)
    ensures r.Ok? <==> exists i :: 0 <= i < |st.rows| && st.rows[i].user.username == username
    ensures r.Err? ==> r.code == NotFound
    ensures r.Ok? ==> r.value.username == username && r.value in AllUsers(st)
  {
    var hits := Filter((u: User) => u.username == username, AllUsers(st));
    if |hits| == 0 then
      assert forall i :: 0 <= i < |st.rows| ==> st.rows[i].user.username != username by {
        forall i | 0 <= i < |st.rows| ensures st.rows[i].user.username != username {
          assert AllUsers(st)[i] == st.rows[i].user;
        }
      }
      Err(NotFound)
    else
      assert hits[0] in AllUsers(st);
      Ok(hits[0])
  }

  // ---------------------------------------------------------------------------
  // Listing

  /** `UserFilters`. */
  datatype Filters = Filters(includeInactive: bool)

  /** Whether a user belongs in a listing: inactive users only on request. */
  predicate Listed(f: Filters, u: User) {
    f.includeInactive || u.isActive
  }

  /** Text order by code point, as the listing orders usernames. */
  predicate TextLe(a: string, b: string) {
    if |a| == 0 then true
    else if |b| == 0 then false
    else a[0] < b[0] || (a[0] == b[0] && TextLe(a[1..], b[1..]))
  }

  /** Of two texts, one comes first. */
  lemma {:induction false} TextLeTotal(a: string, b: string)
    ensures TextLe(a, b) || TextLe(b, a)
  {
    if |a| > 0 && |b| > 0 && a[0] == b[0] {
      TextLeTotal(a[1..], b[1..]);
    }
  }

  /** Every user's name is at most the name of the user after it. */
  predicate SortedByUsername(s: seq<User>) {
    forall i :: 0 < i < |s| ==> TextLe(s[i - 1].username, s[i].username)
  }

  /** `u` placed before the first user of the sorted `s` whose name it does
      not exceed. */
  function InsertByUsername(u: User, s: seq<User>): (r: seq<User>)
    requires SortedByUsername(s)
    ensures SortedByUsername(r)
    ensures multiset(r) == multiset(s) + multiset{u}
    ensures |r| > 0 && (r[0] == u || (|s| > 0 && r[0] == s[0]))
  {
    if |s| == 0 || TextLe(u.username, s[0].username) then [u] + s
    else
      TextLeTotal(u.username, s[0].username);
      var rest := InsertByUsername(u, s[1..]);
      assert s == [s[0]] + s[1..];
      [s[0]] + rest
  }

  /** `ORDER BY username`: the users in name order. */
  function SortByUsername(s: seq<User>): (r: seq<User>)
    ensures SortedByUsername(r)
    ensures multiset(r) == multiset(s)
  {
    if |s| == 0 then []
    else
      assert s == [s[0]] + s[1..];
      InsertByUsername(s[0], SortByUsername(s[1..]))
  }

  /** `Users` as written: the condition on the active flag is built but its
      result is dropped, so every user is listed, in name order. */
  function UsersAsWritten(st: Store, f: Filters): (r: seq<User>)
    ensures SortedByUsername(r)
    ensures multiset(r) == multiset(AllUsers(st))
    ensures forall u :: u in r <==> u in AllUsers(st)
  {
    var r := SortByUsername(AllUsers(st));
    SameMultisetSameMembers(r, AllUsers(st));
    r
  }

  /** `Users` as documented: the users the filters admit, in name order. */
  function ListUsers(st: Store, f: Filters): (r: seq<User>)
    ensures SortedByUsername(r)
    ensures multiset(r) == multiset(Filter((u: User) => Listed(f, u), AllUsers(st)))
    ensures forall u :: u in r <==> u in AllUsers(st) && Listed(f, u)
  {
    var listed := Filter((u: User) => Listed(f, u), AllUsers(st));
    var r := SortByUsername(listed);
    assert forall u :: u in r <==> u in listed by {
      forall u ensures u in r <==> u in listed {
        assert u in r <==> u in multiset(r);
        assert u in listed <==> u in multiset(listed);
      }
    }
    r
  }

  /** Listing as written ignores the filters, and agrees with the documented
      listing only when inactive users are requested. */
  lemma UsersAsWrittenIgnoresFilters(st: Store, f: Filters)
    ensures UsersAsWritten(st, f) == UsersAsWritten(st, Filters(true))
    ensures f.includeInactive ==> multiset(ListUsers(st, f)) == multiset(UsersAsWritten(st, f))
  {
    if f.includeInactive {
      FilterAll(AllUsers(st), (u: User) => Listed(f, u));
    }
  }

  lemma {:induction false} FilterAll(s: seq<User>, p: User -> bool)
    requires forall u :: p(u)
    ensures Filter(p, s) == s
  {
    if |s| > 0 {
      FilterAll(s[1..], p);
    }
  }

  /** An inactive user shows up in the default listing as written, and not
      in the documented one. */
  lemma InactiveUserListedAsWritten()
    ensures var u := User(IdA, "a", "A", "A", false, false);
      var st := Store([UserWithPass(u, "h")]);
      u in UsersAsWritten(st, Filters(false)) && u !in ListUsers(st, Filters(false))
  {
    var u := User(IdA, "a", "A", "A", false, false);
    var st := Store([UserWithPass(u, "h")]);
    assert AllUsers(st)[0] == u;
    assert u in multiset(UsersAsWritten(st, Filters(false)));
  }

  // ---------------------------------------------------------------------------
  // Search

  /** The filter `SearchUsers` hands to Meilisearch. */
  function SearchFilter(f: Filters): (filter: seq<seq<Cond>>)
    ensures f.includeInactive <==> filter == []
  {
    if f.includeInactive then [] else [[Eq(AttrIsActive, DBool(true))]]
  }

  /** Search admits a user's document exactly when the listing admits the
      user. */
  lemma SearchAgreesWithList(u: User, f: Filters)
    ensures Matches(DocumentFromUser(u), SearchFilter(f)) <==> Listed(f, u)
  {
    var d := DocumentFromUser(u);
    OptionalGroup(d, !f.includeInactive, [Eq(AttrIsActive, DBool(true))]);
    if !f.includeInactive && GroupHolds(d, [Eq(AttrIsActive, DBool(true))]) {
      assert Holds(d, Eq(AttrIsActive, DBool(true)));
    }
    if u.isActive {
      assert Holds(d, [Eq(AttrIsActive, DBool(true))][0]);
    }
  }

  /** The stored users among the identifiers, in order, as the query with
      ordinality returns them. */
  function StoredHits(st: Store, ids: seq<Id>): (r: seq<User>)
    ensures |r| <= |ids|
    ensures forall u :: u in r ==> u in AllUsers(st) && u.id in ids
    ensures forall id :: id in ids && HasUser(st, id) ==> UserById(st, id).value in r
  {
    if |ids| == 0 then []
    else
      var rest := StoredHits(st, ids[1..]);
      match UserById(st, ids[0])
      case Ok(u) => [u] + rest
      case Err(_) => rest
  }

  /** `SearchUsers` on the identifiers the search returned. */
  function SearchUsers(st: Store, ids: Result<SearchResult<Id>>): (r: Result<SearchResult<User>>)
    ensures ids.Err? ==> r == Err(ids.code)
    ensures r.Ok? ==> ids.Ok? && SameMetadata(ids.value, r.value)
    ensures r.Ok? ==> forall u :: u in r.value.hits ==> u in AllUsers(st) && u.id in ids.value.hits
    ensures r.Ok? ==> forall id :: id in ids.value.hits && HasUser(st, id) ==> UserById(st, id).value in r.value.hits
  {
    match ids
    case Err(code) => Err(code)
    case Ok(res) => Ok(ResultFromResult(res, StoredHits(st, res.hits)))
  }

  // ---------------------------------------------------------------------------
  // Changes

  /** `CreateUser`, with the identifier the database assigns as an input: the
      user is stored with its password under the new id and its document goes
      to the search. */
  function CreateUser(st: Store, u: UserWithPass, newId: Id): (r: (Store, User, Document))
    requires !HasUser(st, newId)
    ensures r.1 == User(newId, u.user.username, u.user.firstName, u.user.lastName, u.user.isAdmin, u.user.isActive)
    ensures UserById(r.0, newId) == Ok(r.1)
    ensures |r.0.rows| == |st.rows| + 1 && r.0.rows[..|st.rows|] == st.rows
    ensures r.0.rows[|st.rows|].pass == u.pass
    ensures r.2 == DocumentFromUser(r.1)
  {
    var created := u.user.(id := newId);
    var st' := Store(st.rows + [UserWithPass(created, u.pass)]);
    assert st'.rows[|st.rows|].user.id == newId;
    (st', created, DocumentFromUser(created))
  }

  /** The rows with `u`'s id replaced by `u`, passwords kept. */
  function ReplaceUser(rows: seq<UserWithPass>, u: User): (r: seq<UserWithPass>)
    ensures |r| == |rows|
    ensures forall i :: 0 <= i < |rows| ==> r[i].pass == rows[i].pass
    ensures forall i :: 0 <= i < |rows| ==> r[i].user == (if rows[i].user.id == u.id then u else rows[i].user)
  {
    Map((row: UserWithPass) => if row.user.id == u.id then UserWithPass(u, row.pass) else row, rows)
  }

  /** `UpdateUser`: not-found unless the user exists; the user is replaced,
      every password is kept and the new document goes to the search. */
  function UpdateUser(st: Store, u: User): (r: Result<(Store, Document)>)
    ensures r.Ok? <==> HasUser(st, u.id)
    ensures r.Err? ==> r.code == NotFound
    ensures r.Ok? ==> UserById(r.value.0, u.id) == Ok(u)
    ensures r.Ok? ==> |r.value.0.rows| == |st.rows|
    ensures r.Ok? ==> forall i :: 0 <= i < |st.rows| ==> r.value.0.rows[i].pass == st.rows[i].pass
    ensures r.Ok? ==> forall i :: 0 <= i < |st.rows| && st.rows[i].user.id != u.id ==> r.value.0.rows[i] == st.rows[i]
    ensures r.Ok? ==> r.value.1 == DocumentFromUser(u)
  {
    if !HasUser(st, u.id) then Err(NotFound)
    else
      var st' := Store(ReplaceUser(st.rows, u));
      assert HasUser(st', u.id);
      Ok((st', DocumentFromUser(u)))
  }

  /** `UpdateUserPassByUserID`: not-found unless the user exists; only the
      password changes. */
  function UpdateUserPass(st: Store, id: Id, pass: string): (r: Result<Store>)
    ensures r.Ok? <==> HasUser(st, id)
    ensures r.Err? ==> r.code == NotFound
    ensures r.Ok? ==> AllUsers(r.value) == AllUsers(st)
    ensures r.Ok? ==> forall i :: 0 <= i < |st.rows| ==>
      r.value.rows[i].pass == (if st.rows[i].user.id == id then pass else st.rows[i].pass)
  {
    if !HasUser(st, id) then Err(NotFound)
    else
      var rows := Map((row: UserWithPass) => if row.user.id == id then UserWithPass(row.user, pass) else row, st.rows);
      assert AllUsers(Store(rows)) == AllUsers(st);
      Ok(Store(rows))
  }

  /** A password change is invisible to listing, lookup and search. */
  lemma PassChangeKeepsUsers(st: Store, id: Id, pass: string, f: Filters, other: Id)
    requires HasUser(st, id)
    ensures ListUsers(UpdateUserPass(st, id, pass).value, f) == ListUsers(st, f)
    ensures UserById(UpdateUserPass(st, id, pass).value, other) == UserById(st, other)
  {
    var st' := UpdateUserPass(st, id, pass).value;
    assert forall i :: 0 <= i < |st.rows| ==> st'.rows[i].user == AllUsers(st')[i] == AllUsers(st)[i] == st.rows[i].user;
    RowIndexByIdOnlyReadsUsers(st.rows, st'.rows, other);
  }

  lemma {:induction false} RowIndexByIdOnlyReadsUsers(a: seq<UserWithPass>, b: seq<UserWithPass>, id: Id)
    requires |a| == |b| && forall i :: 0 <= i < |a| ==> a[i].user == b[i].user
    ensures RowIndexById(a, id) == RowIndexById(b, id)
  {
    if |a| > 0 {
      RowIndexByIdOnlyReadsUsers(a[1..], b[1..], id);
    }
  }
}
