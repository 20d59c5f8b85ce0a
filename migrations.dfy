/** The schema migration runner (lib/database/migrations.ts). Statements are
    opaque texts: each one succeeds or fails, and which ones fail is given by a
    fault oracle over the runner's steps. A migration runs inside a
    transaction: its statements are buffered and reach the committed schema
    log, together with the version record, only at COMMIT; on a failure the
    ROLLBACK discards them. */
module Migrations {
  import opened Wrappers
  import opened DatabaseTypes
  import opened Connection
  import Sorting

  /** The steps of the runner that talk to the engine. */
  datatype Step =
    | ReadVersion
    | RunUp(version: nat, index: nat)
    | Record(version: nat)
    | RunDown(version: nat, index: nat)
    | Unrecord(version: nat)

  /** The errors the runner throws, each naming the migration's version. */
  datatype MigrationError =
    | ApplyFailed(version: nat)
    | NoDownMigration(version: nat)
    | RollbackFailed(version: nat)

  /** The application's migration list. */
  const MIGRATIONS: seq<Migration> := [
    Migration(1, "initial_schema",
      [
        @"CREATE TABLE IF NOT EXISTS inventories (
        id TEXT PRIMARY KEY NOT NULL,
        name TEXT NOT NULL,
        description TEXT,
        created_at TEXT NOT NULL,
        updated_at TEXT NOT NULL
      );",
        @"CREATE TABLE IF NOT EXISTS items (
        id TEXT PRIMARY KEY NOT NULL,
        inventory_id TEXT NOT NULL,
        name TEXT NOT NULL,
        description TEXT,
        quantity INTEGER NOT NULL DEFAULT 0,
        price REAL,
        category TEXT,
        location TEXT,
        barcode TEXT,
        expiration_date TEXT,
        entry_date TEXT NOT NULL,
        updated_at TEXT NOT NULL,
        FOREIGN KEY (inventory_id) REFERENCES inventories (id) ON DELETE CASCADE
      );",
        @"CREATE INDEX IF NOT EXISTS idx_items_inventory_id ON items (inventory_id);",
        @"CREATE INDEX IF NOT EXISTS idx_items_barcode ON items (barcode) WHERE barcode IS NOT NULL;",
        @"CREATE INDEX IF NOT EXISTS idx_items_name ON items (name);",
        @"CREATE INDEX IF NOT EXISTS idx_inventories_name ON inventories (name);",
        @"CREATE TABLE IF NOT EXISTS schema_versions (
        version INTEGER PRIMARY KEY,
        applied_at TEXT NOT NULL
      );"
      ],
      Some([
        @"DROP INDEX IF EXISTS idx_inventories_name;",
        @"DROP INDEX IF EXISTS idx_items_name;",
        @"DROP INDEX IF EXISTS idx_items_barcode;",
        @"DROP INDEX IF EXISTS idx_items_inventory_id;",
        @"DROP TABLE IF EXISTS items;",
        @"DROP TABLE IF EXISTS inventories;",
        @"DROP TABLE IF EXISTS schema_versions;"
      ]))
  ]

  /** Versions strictly increase along a migration list. */
  predicate Increasing(ms: seq<Migration>) {
    forall i, j :: 0 <= i < j < |ms| ==> ms[i].version < ms[j].version
  }

  /** The list is in increasing version order, and every migration can be
      reverted. */
  lemma MigrationsWellFormed()
    ensures Increasing(MIGRATIONS)
    ensures forall i :: 0 <= i < |MIGRATIONS| ==> MIGRATIONS[i].version > 0 && MIGRATIONS[i].down.Some?
  {
  }

  /** The largest recorded version, 0 when none is recorded. */
  function MaxVersion(vs: seq<nat>): (v: nat)
    ensures forall i :: 0 <= i < |vs| ==> vs[i] <= v
    ensures vs == [] ==> v == 0
    ensures vs != [] ==> v in vs
  {
    if vs == [] then 0
    else
      var rest := MaxVersion(vs[1..]);
      assert forall i :: 1 <= i < |vs| ==> vs[i] == vs[1..][i - 1];
      if vs[0] >= rest then vs[0] else rest
  }

  /** `getCurrentVersion()`: the largest recorded version, or 0 when none is
      recorded or the query fails (the table may not exist yet). */
  function GetCurrentVersion(db: Database, faults: Step -> bool): (v: nat)
    reads db
    ensures !faults(ReadVersion) ==> forall x :: x in db.schemaVersions ==> x <= v
    ensures !faults(ReadVersion) && db.schemaVersions != [] ==> v in db.schemaVersions
    ensures faults(ReadVersion) || db.schemaVersions == [] ==> v == 0
  {
    if faults(ReadVersion) then 0 else MaxVersion(db.schemaVersions)
  }

  /** The version records after `INSERT OR REPLACE INTO schema_versions`. */
  function Upsert(vs: seq<nat>, v: nat): (r: seq<nat>)
    ensures forall x :: x in r <==> x in vs || x == v
  {
    var kept := Sorting.Filter(vs, (x: nat) => x != v);
    assert forall x :: x in vs && x != v ==> x in kept by {
      forall x | x in vs && x != v ensures x in kept {
        var i :| 0 <= i < |vs| && vs[i] == x;
      }
    }
    kept + [v]
  }

  /** The version records after `DELETE FROM schema_versions WHERE version = ?`. */
  function Delete(vs: seq<nat>, v: nat): (r: seq<nat>)
    ensures forall x :: x in r <==> x in vs && x != v
  {
    var kept := Sorting.Filter(vs, (x: nat) => x != v);
    assert forall x :: x in vs && x != v ==> x in kept by {
      forall x | x in vs && x != v ensures x in kept {
        var i :| 0 <= i < |vs| && vs[i] == x;
      }
    }
    kept
  }

  /** Every `up` statement of `m` and its version record succeed. */
  predicate Applies(m: Migration, faults: Step -> bool) {
    && (forall k :: 0 <= k < |m.up| ==> !faults(RunUp(m.version, k)))
    && !faults(Record(m.version))
  }

  /** `applyMigration(m)`: all or nothing. On success the `up` statements are
      committed and the version recorded; on any failure neither happens and
      the error names the version. */
  method ApplyMigration(db: Database, m: Migration, faults: Step -> bool) returns (r: Outcome<MigrationError>)
    modifies db
    ensures r.Pass? <==> Applies(m, faults)
    ensures r.Pass? ==>
      db.schemaLog == old(db.schemaLog) + m.up && db.schemaVersions == Upsert(old(db.schemaVersions), m.version)
    ensures r.Fail? ==>
      && r.error == ApplyFailed(m.version)
      && db.schemaLog == old(db.schemaLog) && db.schemaVersions == old(db.schemaVersions)
    ensures db.inventories == old(db.inventories) && db.items == old(db.items)
  {
    var executed: seq<string> := [];
    var i := 0;
    while i < |m.up|
      invariant 0 <= i <= |m.up|
      invariant executed == m.up[..i]
      invariant forall k :: 0 <= k < i ==> !faults(RunUp(m.version, k))
    {
      if faults(RunUp(m.version, i)) {
        return Fail(ApplyFailed(m.version));
      }
      executed := executed + [m.up[i]];
      i := i + 1;
    }
    if faults(Record(m.version)) {
      return Fail(ApplyFailed(m.version));
    }
    assert executed == m.up;
    db.schemaLog := db.schemaLog + executed;
    db.schemaVersions := Upsert(db.schemaVersions, m.version);
    r := Pass;
  }

  /** `MIGRATIONS.filter(m => m.version > current)`, in list order. */
  function Pending(ms: seq<Migration>, current: nat): (r: seq<Migration>)
    ensures forall i :: 0 <= i < |r| ==> r[i] in ms && r[i].version > current
    ensures forall i :: 0 <= i < |ms| ==> (ms[i] in r <==> ms[i].version > current)
  {
    Sorting.Filter(ms, (m: Migration) => m.version > current)
  }

  /** The `up` statements of `ms`, in order. */
  function UpLog(ms: seq<Migration>): seq<string> {
    if ms == [] then [] else UpLog(ms[..|ms| - 1]) + ms[|ms| - 1].up
  }

  /** The version records after recording each of `ms` in turn. */
  function RecordAll(vs: seq<nat>, ms: seq<Migration>): seq<nat> {
    if ms == [] then vs else Upsert(RecordAll(vs, ms[..|ms| - 1]), ms[|ms| - 1].version)
  }

  /** The index of the first migration of `ms` that does not apply, `|ms|` when all do. */
  function FirstApplyFailure(ms: seq<Migration>, faults: Step -> bool): (j: nat)
    ensures j <= |ms|
    ensures forall k :: 0 <= k < j ==> Applies(ms[k], faults)
    ensures j < |ms| ==> !Applies(ms[j], faults)
  {
    if ms == [] || !Applies(ms[0], faults) then 0
    else
      var j := FirstApplyFailure(ms[1..], faults);
      assert forall k :: 1 <= k < j + 1 ==> ms[k] == ms[1..][k - 1];
      1 + j
  }

  /** Applying one more migration extends the log and the records by it. */
  lemma ApplyStep(ms: seq<Migration>, i: nat, vs: seq<nat>, log: seq<string>)
    requires i < |ms|
    ensures UpLog(ms[..i + 1]) == UpLog(ms[..i]) + ms[i].up
    ensures log + UpLog(ms[..i + 1]) == (log + UpLog(ms[..i])) + ms[i].up
    ensures RecordAll(vs, ms[..i + 1]) == Upsert(RecordAll(vs, ms[..i]), ms[i].version)
  {
    assert ms[..i + 1][..i] == ms[..i];
  }

  /** The loop of `runMigrations()`: applies `ms` in order until one fails;
      the ones before it stay applied. */
  method ApplyInOrder(db: Database, ms: seq<Migration>, faults: Step -> bool)
    returns (r: Outcome<MigrationError>)
    modifies db
    ensures var j := FirstApplyFailure(ms, faults);
      && (r.Pass? <==> j == |ms|)
      && (r.Fail? ==> j < |ms| && r.error == ApplyFailed(ms[j].version))
      && db.schemaLog == old(db.schemaLog) + UpLog(ms[..j])
      && db.schemaVersions == RecordAll(old(db.schemaVersions), ms[..j])
    ensures db.inventories == old(db.inventories) && db.items == old(db.items)
  {
    ghost var j := FirstApplyFailure(ms, faults);
    var i := 0;
    while i < |ms|
      invariant i <= j
      invariant db.schemaLog == old(db.schemaLog) + UpLog(ms[..i])
      invariant db.schemaVersions == RecordAll(old(db.schemaVersions), ms[..i])
      invariant db.inventories == old(db.inventories) && db.items == old(db.items)
    {
      var outcome := ApplyMigration(db, ms[i], faults);
      if outcome.Fail? {
        return outcome;
      }
      ApplyStep(ms, i, old(db.schemaVersions), old(db.schemaLog));
      i := i + 1;
    }
    assert ms[..i] == ms;
    r := Pass;
  }

  /** `runMigrations()`: the migrations newer than the current version are
      applied in list order until one fails; the ones before it stay applied. */
  method RunMigrations(db: Database, migrations: seq<Migration>, faults: Step -> bool)
    returns (r: Outcome<MigrationError>)
    modifies db
    ensures var pending := Pending(migrations, old(GetCurrentVersion(db, faults)));
      var j := FirstApplyFailure(pending, faults);
      && (r.Pass? <==> j == |pending|)
      && (r.Fail? ==> j < |pending| && r.error == ApplyFailed(pending[j].version))
      && db.schemaLog == old(db.schemaLog) + UpLog(pending[..j])
      && db.schemaVersions == RecordAll(old(db.schemaVersions), pending[..j])
    ensures db.inventories == old(db.inventories) && db.items == old(db.items)
  {
    var current := GetCurrentVersion(db, faults);
    var pending := Pending(migrations, current);
    r := ApplyInOrder(db, pending, faults);
  }

  /** Recording keeps the earlier records and adds every version of `ms`. */
  lemma {:induction false} RecordAllRecords(vs: seq<nat>, ms: seq<Migration>)
    ensures forall x :: x in vs ==> x in RecordAll(vs, ms)
    ensures forall i :: 0 <= i < |ms| ==> ms[i].version in RecordAll(vs, ms)
  {
    if ms != [] {
      var front := ms[..|ms| - 1];
      RecordAllRecords(vs, front);
      assert forall i :: 0 <= i < |front| ==> ms[i] == front[i];
    }
  }

  /** After a successful run the version read back is at least every
      migration's version, so nothing is pending: running again is a no-op
      (provided that read succeeds). */
  lemma RerunFindsNothing(vs: seq<nat>, migrations: seq<Migration>, current: nat)
    requires current == MaxVersion(vs)
    ensures Pending(migrations, MaxVersion(RecordAll(vs, Pending(migrations, current)))) == []
  {
    var pending := Pending(migrations, current);
    var after := RecordAll(vs, pending);
    RecordAllRecords(vs, pending);
    var top := MaxVersion(after);
    forall i | 0 <= i < |migrations|
      ensures migrations[i].version <= top
    {
      if migrations[i].version > current {
        var k :| 0 <= k < |pending| && pending[k] == migrations[i];
        assert migrations[i].version in after;
      } else if vs != [] {
        assert current in after;
      }
    }
    Sorting.FilterNone(migrations, (m: Migration) => m.version > top);
  }

  /** `(a, b) => b.version - a.version` as an ordering: descending versions. */
  predicate VersionGe(a: Migration, b: Migration) {
    a.version >= b.version
  }

  /** The migrations `rollbackToVersion` walks: versions in (target, current],
      highest first. */
  function RollbackPlan(ms: seq<Migration>, target: int, current: nat): (r: seq<Migration>)
    ensures forall i :: 0 <= i < |r| ==> r[i] in ms && target < r[i].version <= current
    ensures forall i :: 0 <= i < |ms| ==> (ms[i] in r <==> target < ms[i].version <= current)
  {
    Sorting.Select(ms, (m: Migration) => target < m.version <= current, VersionGe)
  }

  lemma RollbackPlanDescending(ms: seq<Migration>, target: int, current: nat)
    ensures forall i, j :: 0 <= i < j < |RollbackPlan(ms, target, current)| ==>
      RollbackPlan(ms, target, current)[i].version >= RollbackPlan(ms, target, current)[j].version
  {
    Sorting.SelectSorted(ms, (m: Migration) => target < m.version <= current, VersionGe);
  }

  /** `m` has a `down` list, and every statement of it and the removal of the
      version record succeed. */
  predicate Reverts(m: Migration, faults: Step -> bool) {
    && m.down.Some?
    && (forall k :: 0 <= k < |m.down.value| ==> !faults(RunDown(m.version, k)))
    && !faults(Unrecord(m.version))
  }

  /** The error reverting `m` raises when it does not revert. */
  function RevertError(m: Migration): MigrationError {
    if m.down.None? then NoDownMigration(m.version) else RollbackFailed(m.version)
  }

  /** One iteration of `rollbackToVersion`'s loop. A missing `down` throws
      before any statement runs; otherwise the `down` statements and the
      record removal run in a transaction, all or nothing. */
  method RevertMigration(db: Database, m: Migration, faults: Step -> bool) returns (r: Outcome<MigrationError>)
    modifies db
    ensures r.Pass? <==> Reverts(m, faults)
    ensures r.Pass? ==>
      db.schemaLog == old(db.schemaLog) + m.down.value && db.schemaVersions == Delete(old(db.schemaVersions), m.version)
    ensures r.Fail? ==>
      && r.error == RevertError(m)
      && db.schemaLog == old(db.schemaLog) && db.schemaVersions == old(db.schemaVersions)
    ensures db.inventories == old(db.inventories) && db.items == old(db.items)
  {
    if m.down.None? {
      return Fail(NoDownMigration(m.version));
    }
    var down := m.down.value;
    var executed: seq<string> := [];
    var i := 0;
    while i < |down|
      invariant 0 <= i <= |down|
      invariant executed == down[..i]
      invariant forall k :: 0 <= k < i ==> !faults(RunDown(m.version, k))
    {
      if faults(RunDown(m.version, i)) {
        return Fail(RollbackFailed(m.version));
      }
      executed := executed + [down[i]];
      i := i + 1;
    }
    if faults(Unrecord(m.version)) {
      return Fail(RollbackFailed(m.version));
    }
    assert executed == down;
    db.schemaLog := db.schemaLog + executed;
    db.schemaVersions := Delete(db.schemaVersions, m.version);
    r := Pass;
  }

  /** The `down` statements of `ms`, in order. */
  function DownLog(ms: seq<Migration>): seq<string> {
    if ms == [] then []
    else
      var m := ms[|ms| - 1];
      DownLog(ms[..|ms| - 1]) + (if m.down.Some? then m.down.value else [])
  }

  /** The version records after removing each version of `ms` in turn. */
  function DeleteAll(vs: seq<nat>, ms: seq<Migration>): seq<nat> {
    if ms == [] then vs else Delete(DeleteAll(vs, ms[..|ms| - 1]), ms[|ms| - 1].version)
  }

  /** Reverting one more migration extends the log by its `down` statements
      and removes its version. */
  lemma RevertStep(ms: seq<Migration>, i: nat, vs: seq<nat>, log: seq<string>)
    requires i < |ms| && ms[i].down.Some?
    ensures DownLog(ms[..i + 1]) == DownLog(ms[..i]) + ms[i].down.value
    ensures log + DownLog(ms[..i + 1]) == (log + DownLog(ms[..i])) + ms[i].down.value
    ensures DeleteAll(vs, ms[..i + 1]) == Delete(DeleteAll(vs, ms[..i]), ms[i].version)
  {
    assert ms[..i + 1][..i] == ms[..i];
  }

  /** The index of the first migration of `ms` that does not revert, `|ms|` when all do. */
  function FirstRevertFailure(ms: seq<Migration>, faults: Step -> bool): (j: nat)
    ensures j <= |ms|
    ensures forall k :: 0 <= k < j ==> Reverts(ms[k], faults)
    ensures j < |ms| ==> !Reverts(ms[j], faults)
  {
    if ms == [] || !Reverts(ms[0], faults) then 0
    else
      var j := FirstRevertFailure(ms[1..], faults);
      assert forall k :: 1 <= k < j + 1 ==> ms[k] == ms[1..][k - 1];
      1 + j
  }

  /** The loop of `rollbackToVersion()`: reverts `ms` in order until one
      fails; the ones before it stay reverted. */
  method RevertInOrder(db: Database, ms: seq<Migration>, faults: Step -> bool)
    returns (r: Outcome<MigrationError>)
    modifies db
    ensures var j := FirstRevertFailure(ms, faults);
      && (r.Pass? <==> j == |ms|)
      && (r.Fail? ==> j < |ms| && r.error == RevertError(ms[j]))
      && db.schemaLog == old(db.schemaLog) + DownLog(ms[..j])
      && db.schemaVersions == DeleteAll(old(db.schemaVersions), ms[..j])
    ensures db.inventories == old(db.inventories) && db.items == old(db.items)
  {
    ghost var j := FirstRevertFailure(ms, faults);
    var i := 0;
    while i < |ms|
      invariant i <= j
      invariant db.schemaLog == old(db.schemaLog) + DownLog(ms[..i])
      invariant db.schemaVersions == DeleteAll(old(db.schemaVersions), ms[..i])
      invariant db.inventories == old(db.inventories) && db.items == old(db.items)
    {
      var outcome := RevertMigration(db, ms[i], faults);
      if outcome.Fail? {
        assert !Reverts(ms[i], faults);
        assert i == j;
        return outcome;
      }
      assert Reverts(ms[i], faults);
      RevertStep(ms, i, old(db.schemaVersions), old(db.schemaLog));
      i := i + 1;
    }
    assert ms[..i] == ms;
    r := Pass;
  }

  /** `rollbackToVersion(target)`: nothing when the target is not below the
      current version; otherwise the migrations in (target, current] are
      reverted highest first until one fails, and the ones before it stay
      reverted. */
  method RollbackToVersion(db: Database, migrations: seq<Migration>, target: int, faults: Step -> bool)
    returns (r: Outcome<MigrationError>)
    modifies db
    ensures var current := old(GetCurrentVersion(db, faults));
      target >= current ==>
        r == Pass && db.schemaLog == old(db.schemaLog) && db.schemaVersions == old(db.schemaVersions)
    ensures var current := old(GetCurrentVersion(db, faults));
      var plan := RollbackPlan(migrations, target, current);
      var j := FirstRevertFailure(plan, faults);
      target < current ==>
        && (r.Pass? <==> j == |plan|)
        && (r.Fail? ==> j < |plan| && r.error == RevertError(plan[j]))
        && db.schemaLog == old(db.schemaLog) + DownLog(plan[..j])
        && db.schemaVersions == DeleteAll(old(db.schemaVersions), plan[..j])
    ensures db.inventories == old(db.inventories) && db.items == old(db.items)
  {
    var current := GetCurrentVersion(db, faults);
    if target >= current {
      return Pass;
    }
    var plan := RollbackPlan(migrations, target, current);
    r := RevertInOrder(db, plan, faults);
  }

  /** Removing the versions of `ms` removes exactly those. */
  lemma {:induction false} DeleteAllRemoves(vs: seq<nat>, ms: seq<Migration>)
    ensures forall x :: x in DeleteAll(vs, ms) <==> x in vs && forall i :: 0 <= i < |ms| ==> ms[i].version != x
  {
    if ms != [] {
      var front := ms[..|ms| - 1];
      DeleteAllRemoves(vs, front);
      assert forall i :: 0 <= i < |front| ==> ms[i] == front[i];
    }
  }

  /** A complete rollback leaves the current version at or below the target,
      when every recorded version above the target belongs to a listed migration. */
  lemma RollbackReachesTarget(vs: seq<nat>, migrations: seq<Migration>, target: int)
    requires forall x :: x in vs && x > target ==> exists i :: 0 <= i < |migrations| && migrations[i].version == x
    ensures MaxVersion(DeleteAll(vs, RollbackPlan(migrations, target, MaxVersion(vs)))) <= target
            || DeleteAll(vs, RollbackPlan(migrations, target, MaxVersion(vs))) == []
  {
    var current := MaxVersion(vs);
    var plan := RollbackPlan(migrations, target, current);
    var after := DeleteAll(vs, plan);
    DeleteAllRemoves(vs, plan);
    forall x | x in vs && x > target ensures x !in after {
      var i :| 0 <= i < |migrations| && migrations[i].version == x;
      assert migrations[i] in plan;
      var p :| 0 <= p < |plan| && plan[p] == migrations[i];
    }
    if after != [] {
      assert MaxVersion(after) in after;
    }
  }
}
