/** Database schema migrations (shared/pgmigrate): choosing the current schema
    version from the migration log, choosing and ordering the migrations still
    to run, and running them until the first failure. */
module Pgmigrate {
  import opened Common

  /** Version reported when no migration has succeeded yet. */
  const ZeroVersion: int := -1

  datatype Migration = Migration(name: string, targetVersion: int, sql: string)

  datatype LogEntry = LogEntry(name: string, targetVersion: int, success: bool)

  datatype Migrator = Migrator(migrations: seq<Migration>, logTable: string)

  // ---------------------------------------------------------------------------
  // Current version

  predicate HasSuccessfulEntry(log: seq<LogEntry>) {
    exists i :: 0 <= i < |log| && log[i].success
  }

  /** The highest target version among successful log entries, never below
      `ZeroVersion`. */
  function CurrentVersion(log: seq<LogEntry>): (v: int)
    ensures v >= ZeroVersion
    ensures forall i :: 0 <= i < |log| && log[i].success ==> log[i].targetVersion <= v
    ensures v == ZeroVersion || exists i :: 0 <= i < |log| && log[i].success && log[i].targetVersion == v
  {
    if |log| == 0 then ZeroVersion
    else
      var rest := CurrentVersion(log[..|log| - 1]);
      var last := log[|log| - 1];
      if last.success && last.targetVersion > rest then last.targetVersion else rest
  }

  /** Without any successful entry the schema is at `ZeroVersion`. */
  lemma CurrentVersionWithoutSuccess(log: seq<LogEntry>)
    requires !HasSuccessfulEntry(log)
    ensures CurrentVersion(log) == ZeroVersion
  {
  }

  function Successful(log: seq<LogEntry>): (r: seq<LogEntry>)
    ensures forall i :: 0 <= i < |r| ==> r[i].success
    ensures forall i :: 0 <= i < |log| && log[i].success ==> log[i] in r
    ensures forall e :: e in r ==> e in log
  {
    if |log| == 0 then []
    else if log[|log| - 1].success then Successful(log[..|log| - 1]) + [log[|log| - 1]]
    else Successful(log[..|log| - 1])
  }

  /** Failed entries have no influence on the current version. */
  lemma {:induction false} CurrentVersionIgnoresFailures(log: seq<LogEntry>)
    ensures CurrentVersion(Successful(log)) == CurrentVersion(log)
  {
    if |log| > 0 {
      var init := log[..|log| - 1];
      CurrentVersionIgnoresFailures(init);
      if log[|log| - 1].success {
        assert Successful(log)[..|Successful(log)| - 1] == Successful(init);
      }
    }
  }

  // ---------------------------------------------------------------------------
  // Migrations to do

  predicate SortedByVersion(ms: seq<Migration>) {
    forall i, j :: 0 <= i < j < |ms| ==> ms[i].targetVersion <= ms[j].targetVersion
  }

  function Pending(current: int, ms: seq<Migration>): (r: seq<Migration>)
    ensures forall i :: 0 <= i < |r| ==> r[i].targetVersion > current
    ensures multiset(r) <= multiset(ms)
    ensures forall j :: 0 <= j < |ms| && ms[j].targetVersion > current ==> ms[j] in r
  {
    if |ms| == 0 then []
    else
      assert ms == [ms[0]] + ms[1..];
      if ms[0].targetVersion > current then [ms[0]] + Pending(current, ms[1..])
      else Pending(current, ms[1..])
  }

  /** A sorted sequence stays sorted with an element in front that is in
      order with its first. */
  lemma ConsByVersion(x: Migration, s: seq<Migration>)
    requires SortedByVersion(s)
    requires |s| > 0 ==> x.targetVersion <= s[0].targetVersion
    ensures SortedByVersion([x] + s)
  {
    assert forall k :: 0 <= k < |s| ==> x.targetVersion <= s[k].targetVersion;
  }

  /** Inserts `m` into a list sorted by target version. */
  function InsertByVersion(m: Migration, sorted: seq<Migration>): (r: seq<Migration>)
    requires SortedByVersion(sorted)
    ensures SortedByVersion(r)
    ensures multiset(r) == multiset(sorted) + multiset{m}
    ensures |r| > 0 && (r[0] == m || (|sorted| > 0 && r[0] == sorted[0]))
    ensures forall i :: 0 <= i < |r| ==> r[i] == m || r[i] in sorted
  {
    if |sorted| == 0 then [m]
    else if m.targetVersion <= sorted[0].targetVersion then [m] + sorted
    else
      var tail := InsertByVersion(m, sorted[1..]);
      assert sorted == [sorted[0]] + sorted[1..];
      ConsByVersion(sorted[0], tail);
      [sorted[0]] + tail
  }

  function SortByVersion(ms: seq<Migration>): (r: seq<Migration>)
    ensures SortedByVersion(r)
    ensures multiset(r) == multiset(ms)
  {
    if |ms| == 0 then []
    else
      assert ms == [ms[0]] + ms[1..];
      InsertByVersion(ms[0], SortByVersion(ms[1..]))
  }

  /** `migrationsToDoOrdered`: the migrations above the current version,
      ascending by target version. */
  function MigrationsToDoOrdered(current: int, ms: seq<Migration>): (r: seq<Migration>)
    ensures SortedByVersion(r)
    ensures forall i :: 0 <= i < |r| ==> r[i].targetVersion > current
    ensures forall j :: 0 <= j < |ms| && ms[j].targetVersion > current ==> ms[j] in r
    ensures multiset(r) <= multiset(ms)
  {
    var p := Pending(current, ms);
    var r := SortByVersion(p);
    assert forall i :: 0 <= i < |r| ==> r[i].targetVersion > current by {
      forall i | 0 <= i < |r| ensures r[i].targetVersion > current {
        assert r[i] in multiset(r);
        var k :| 0 <= k < |p| && p[k] == r[i];
      }
    }
    assert forall j :: 0 <= j < |ms| && ms[j].targetVersion > current ==> ms[j] in r by {
      forall j | 0 <= j < |ms| && ms[j].targetVersion > current ensures ms[j] in r {
        assert ms[j] in multiset(p);
        assert ms[j] in multiset(r);
      }
    }
    r
  }

  // ---------------------------------------------------------------------------
  // Construction

  predicate HasDuplicateVersions(ms: seq<Migration>) {
    exists i, j :: 0 <= i < j < |ms| && ms[i].targetVersion == ms[j].targetVersion
  }

  /** `NewMigrator`: refuses a migration list holding two migrations with the
      same target version. */
  method NewMigrator(ms: seq<Migration>, logTable: string) returns (r: Result<Migrator>)
    ensures r.Err? <==> HasDuplicateVersions(ms)
    ensures r.Err? ==> r.code == Internal
    ensures r.Ok? ==> r.value == Migrator(ms, logTable)
  {
    var seen: set<int> := {};
    var k := 0;
    while k < |ms|
      invariant 0 <= k <= |ms|
      invariant seen == set i | 0 <= i < k :: ms[i].targetVersion
      invariant !HasDuplicateVersions(ms[..k])
    {
      if ms[k].targetVersion in seen {
        var i :| 0 <= i < k && ms[i].targetVersion == ms[k].targetVersion;
        assert ms[i].targetVersion == ms[k].targetVersion;
        return Err(Internal);
      }
      assert !HasDuplicateVersions(ms[..k + 1]) by {
        forall i, j | 0 <= i < j < k + 1
          ensures ms[i].targetVersion != ms[j].targetVersion
        {
          if j < k {
            assert ms[..k][i] == ms[i] && ms[..k][j] == ms[j];
          } else {
            assert ms[i].targetVersion in seen;
          }
        }
        assert forall i :: 0 <= i < k + 1 ==> ms[..k + 1][i] == ms[i];
      }
      seen := seen + {ms[k].targetVersion};
      k := k + 1;
    }
    assert ms[..k] == ms;
    return Ok(Migrator(ms, logTable));
  }

  // ---------------------------------------------------------------------------
  // Running

  /** The migration log table name is spliced into SQL text and must not hold
      quotes. */
  predicate TableNameAllowed(table: string) {
    '\'' !in table && '"' !in table
  }

  /** Outcome of `Up`: the migrations attempted in order, the log entries
      written and whether everything succeeded. */
  datatype UpOutcome = UpOutcome(attempted: seq<Migration>, written: seq<LogEntry>, result: Result<()>)

  function LogOf(m: Migration, ok: bool): LogEntry {
    LogEntry(m.name, m.targetVersion, ok)
  }

  /** Runs the given migrations in order, writing one log entry per attempt,
      and stops at the first one the database rejects. */
  function RunInOrder(todo: seq<Migration>, rejected: set<Migration>): (o: UpOutcome)
    ensures |o.attempted| == |o.written| <= |todo|
    ensures o.attempted <= todo
    ensures forall i :: 0 <= i < |o.written| ==> o.written[i] == LogOf(o.attempted[i], o.attempted[i] !in rejected)
    ensures o.result.Ok? <==> |o.attempted| == |todo| && forall i :: 0 <= i < |todo| ==> todo[i] !in rejected
    ensures o.result.Err? ==>
              && |o.attempted| > 0
              && o.attempted[|o.attempted| - 1] in rejected
              && forall i :: 0 <= i < |o.attempted| - 1 ==> o.attempted[i] !in rejected
  {
    if |todo| == 0 then UpOutcome([], [], Ok(()))
    else if todo[0] in rejected then UpOutcome([todo[0]], [LogOf(todo[0], false)], Err(Internal))
    else
      var rest := RunInOrder(todo[1..], rejected);
      UpOutcome([todo[0]] + rest.attempted, [LogOf(todo[0], true)] + rest.written, rest.result)
  }

  /** `Migrator.Up` against a migration log: the table-name guard, then the
      pending migrations in ascending version order. */
  function Up(m: Migrator, log: seq<LogEntry>, rejected: set<Migration>): (o: UpOutcome)
    ensures !TableNameAllowed(m.logTable) ==> o == UpOutcome([], [], Err(Internal))
    ensures TableNameAllowed(m.logTable) ==>
      o.attempted <= MigrationsToDoOrdered(CurrentVersion(log), m.migrations)
  {
    if !TableNameAllowed(m.logTable) then UpOutcome([], [], Err(Internal))
    else
      var todo := MigrationsToDoOrdered(CurrentVersion(log), m.migrations);
      RunInOrder(todo, rejected)
  }

  lemma {:induction false} CurrentVersionAppend(log: seq<LogEntry>, more: seq<LogEntry>)
    ensures CurrentVersion(log + more) >= CurrentVersion(log)
    ensures forall i :: 0 <= i < |more| && more[i].success ==> more[i].targetVersion <= CurrentVersion(log + more)
  {
    assert forall i :: 0 <= i < |more| ==> (log + more)[|log| + i] == more[i];
    if CurrentVersion(log) != ZeroVersion {
      var i :| 0 <= i < |log| && log[i].success && log[i].targetVersion == CurrentVersion(log);
      assert (log + more)[i] == log[i];
    }
  }

  lemma NothingPending(current: int, ms: seq<Migration>)
    requires forall j :: 0 <= j < |ms| ==> ms[j].targetVersion <= current
    ensures MigrationsToDoOrdered(current, ms) == []
  {
  }

  /** Every migration of `ms` targets at most version `v`. */
  predicate AllAtMost(ms: seq<Migration>, v: int) {
    forall x :: x in ms ==> x.targetVersion <= v
  }

  /** Logging a successful run of `todo` brings the current version up to
      every version in `todo`. */
  lemma {:induction false} LoggedVersionsReached(log: seq<LogEntry>, todo: seq<Migration>, written: seq<LogEntry>)
    requires |written| == |todo|
    requires forall i :: 0 <= i < |todo| ==> written[i] == LogOf(todo[i], true)
    ensures CurrentVersion(log) <= CurrentVersion(log + written)
    ensures AllAtMost(todo, CurrentVersion(log + written))
  {
    CurrentVersionAppend(log, written);
    forall x | x in todo ensures x.targetVersion <= CurrentVersion(log + written) {
      var i :| 0 <= i < |todo| && todo[i] == x;
      assert written[i].success && written[i].targetVersion == x.targetVersion;
    }
  }

  /** A successful `Up` writes one successful log entry for each pending
      migration, in order. */
  lemma {:induction false} SuccessfulUpLogsEvery(m: Migrator, log: seq<LogEntry>, rejected: set<Migration>)
    requires Up(m, log, rejected).result.Ok?
    ensures var todo := MigrationsToDoOrdered(CurrentVersion(log), m.migrations);
      && |Up(m, log, rejected).written| == |todo|
      && forall i :: 0 <= i < |todo| ==> Up(m, log, rejected).written[i] == LogOf(todo[i], true)
  {
    var todo := MigrationsToDoOrdered(CurrentVersion(log), m.migrations);
    assert Up(m, log, rejected) == RunInOrder(todo, rejected);
  }

  /** Once a successful run of `todo` is logged, where `todo` held every
      migration above the earlier version, nothing is left to choose. */
  lemma {:induction false} NothingLeftAfterLogging(ms: seq<Migration>, todo: seq<Migration>, log: seq<LogEntry>, written: seq<LogEntry>)
    requires forall j :: 0 <= j < |ms| && ms[j].targetVersion > CurrentVersion(log) ==> ms[j] in todo
    requires |written| == |todo|
    requires forall i :: 0 <= i < |todo| ==> written[i] == LogOf(todo[i], true)
    ensures MigrationsToDoOrdered(CurrentVersion(log + written), ms) == []
  {
    LoggedVersionsReached(log, todo, written);
    NothingPending(CurrentVersion(log + written), ms);
  }

  /** After a fully successful `Up`, a second `Up` on the extended log has
      nothing left to do. */
  lemma {:induction false} UpIsIdempotent(m: Migrator, log: seq<LogEntry>, rejected: set<Migration>)
    requires Up(m, log, rejected).result.Ok?
    ensures MigrationsToDoOrdered(CurrentVersion(log + Up(m, log, rejected).written), m.migrations) == []
  {
    SuccessfulUpLogsEvery(m, log, rejected);
    NothingLeftAfterLogging(m.migrations, MigrationsToDoOrdered(CurrentVersion(log), m.migrations), log, Up(m, log, rejected).written);
  }
}
