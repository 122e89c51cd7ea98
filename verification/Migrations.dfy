/**
 Ordered migration sets, the ledger an adapter keeps, and the resumable run between them:
 `MigrationSet`, `Database::migrate` and `Database::verify_migrations`.
 */
module Migrations {
  import opened Wrappers

  datatype Migration = Migration(version: nat, checksum: nat)

  /** What the ledger records about an applied migration. */
  datatype Applied = Applied(version: nat, checksum: nat)

  datatype MigrationError =
    | OutOfOrder(version: nat)
    | Unknown(version: nat)
    | ChecksumMismatch(version: nat)
    | Pending(version: nat)

  ghost predicate Increasing(migrations: seq<Migration>) {
    forall i, j | 0 <= i < j < |migrations| :: migrations[i].version < migrations[j].version
  }

  /** The trait asks adapters to report the ledger in ascending version order. */
  ghost predicate Ascending(ledger: seq<Applied>) {
    forall i, j | 0 <= i < j < |ledger| :: ledger[i].version < ledger[j].version
  }

  function RecordOf(migration: Migration): Applied {
    Applied(migration.version, migration.checksum)
  }

  /** The ledger after the first `n` migrations. */
  function Records(migrations: seq<Migration>, n: nat): (ledger: seq<Applied>)
    requires n <= |migrations|
    ensures |ledger| == n && forall i | 0 <= i < n :: ledger[i] == RecordOf(migrations[i])
  {
    seq(n, i requires 0 <= i < n => RecordOf(migrations[i]))
  }

  ghost predicate IsPrefix(migrations: seq<Migration>, ledger: seq<Applied>) {
    |ledger| <= |migrations| && ledger == Records(migrations, |ledger|)
  }

  predicate Defines(migrations: seq<Migration>, version: nat) {
    exists i | 0 <= i < |migrations| :: migrations[i].version == version
  }

  /** Whether the versions increase from each migration to the next. */
  method New(migrations: seq<Migration>) returns (error: Option<MigrationError>)
    ensures error.None? <==> Increasing(migrations)
    ensures error.Some? ==>
              exists i :: && 0 < i < |migrations| && migrations[i].version <= migrations[i - 1].version
                          && error.value == OutOfOrder(migrations[i].version) && Increasing(migrations[..i])
  {
    var i := 1;
    while i < |migrations|
      invariant 1 <= i && (i <= |migrations| || i == 1)
      invariant i <= |migrations| ==> Increasing(migrations[..i])
    {
      if migrations[i].version <= migrations[i - 1].version {
        return Some(OutOfOrder(migrations[i].version));
      }
      i := i + 1;
    }
    assert |migrations| > 0 ==> migrations[..|migrations|] == migrations;
    return None;
  }

  /** How `verify` classifies record `i` once everything before it agrees. */
  function ProblemAt(migrations: seq<Migration>, ledger: seq<Applied>, i: nat): Option<MigrationError>
    requires i < |ledger|
  {
    var record := ledger[i];
    if i >= |migrations| then Some(Unknown(record.version))
    else if migrations[i].version != record.version then
      Some(if Defines(migrations, record.version) then Pending(migrations[i].version) else Unknown(record.version))
    else if migrations[i].checksum != record.checksum then Some(ChecksumMismatch(record.version))
    else None
  }

  /** `verify` reports the first record that disagrees. */
  ghost predicate FirstProblem(migrations: seq<Migration>, ledger: seq<Applied>, error: MigrationError) {
    exists i | 0 <= i < |ledger| ::
      IsPrefix(migrations, ledger[..i]) && ProblemAt(migrations, ledger, i) == Some(error)
  }

  /** Succeeds exactly when the ledger is an unmodified prefix of the set. */
  method Verify(migrations: seq<Migration>, ledger: seq<Applied>) returns (error: Option<MigrationError>)
    ensures error.None? <==> IsPrefix(migrations, ledger)
    ensures error.Some? ==> FirstProblem(migrations, ledger, error.value)
  {
    var i := 0;
    while i < |ledger|
      invariant 0 <= i <= |ledger| && i <= |migrations|
      invariant IsPrefix(migrations, ledger[..i])
    {
      var record := ledger[i];
      if i >= |migrations| {
        assert ProblemAt(migrations, ledger, i).Some?;
        return Some(Unknown(record.version));
      }
      if migrations[i].version != record.version {
        assert ProblemAt(migrations, ledger, i).Some?;
        assert ledger[i] != RecordOf(migrations[i]);
        if Defines(migrations, record.version) {
          return Some(Pending(migrations[i].version));
        }
        return Some(Unknown(record.version));
      }
      if migrations[i].checksum != record.checksum {
        assert ProblemAt(migrations, ledger, i).Some?;
        assert ledger[i] != RecordOf(migrations[i]);
        return Some(ChecksumMismatch(record.version));
      }
      assert ledger[..i + 1] == Records(migrations, i + 1);
      i := i + 1;
    }
    assert ledger[..|ledger|] == ledger;
    return None;
  }

  /** There is one first problem, so what is reported is determined. */
  lemma OneProblem(migrations: seq<Migration>, ledger: seq<Applied>, error: MigrationError, other: MigrationError)
    requires FirstProblem(migrations, ledger, error) && FirstProblem(migrations, ledger, other)
    ensures error == other
  {
    var i :| 0 <= i < |ledger| && IsPrefix(migrations, ledger[..i]) && ProblemAt(migrations, ledger, i) == Some(error);
    var j :| 0 <= j < |ledger| && IsPrefix(migrations, ledger[..j]) && ProblemAt(migrations, ledger, j) == Some(other);
    PrefixUnproblematic(migrations, ledger, i);
    PrefixUnproblematic(migrations, ledger, j);
    assert i == j;
  }

  lemma PrefixUnproblematic(migrations: seq<Migration>, ledger: seq<Applied>, n: nat)
    requires n <= |ledger| && IsPrefix(migrations, ledger[..n])
    ensures forall k: nat | k < n :: ProblemAt(migrations, ledger, k).None?
  {
    forall k: nat | k < n ensures ProblemAt(migrations, ledger, k).None? {
      assert ledger[k] == ledger[..n][k] == RecordOf(migrations[k]);
    }
  }

  /** What each report means, for a ledger in the order adapters promise. */
  lemma ReportMeaning(migrations: seq<Migration>, ledger: seq<Applied>, error: MigrationError)
    requires Increasing(migrations) && Ascending(ledger) && FirstProblem(migrations, ledger, error)
    ensures match error
            case OutOfOrder(_) => false
            case Unknown(version) =>
              !Defines(migrations, version) && exists i | 0 <= i < |ledger| :: ledger[i].version == version
            case ChecksumMismatch(version) =>
              exists i | 0 <= i < |ledger| && i < |migrations| ::
                migrations[i].version == version == ledger[i].version && migrations[i].checksum != ledger[i].checksum
            case Pending(version) =>
              && Defines(migrations, version)
              && (forall i | 0 <= i < |ledger| :: ledger[i].version != version)
              && exists i | 0 <= i < |ledger| :: version < ledger[i].version && Defines(migrations, ledger[i].version)
  {
    var i :| 0 <= i < |ledger| && IsPrefix(migrations, ledger[..i]) && ProblemAt(migrations, ledger, i) == Some(error);
    assert forall j | 0 <= j < i :: ledger[..i][j] == ledger[j] == RecordOf(migrations[j]);
    match error
    case Unknown(version) =>
      if i >= |migrations| {
        assert forall j | 0 <= j < |migrations| :: migrations[j].version == ledger[j].version < ledger[i].version;
      }
    case Pending(version) => SkippedBelow(migrations, ledger, i);
    case ChecksumMismatch(_) =>
  }

  /** In order, a record of a defined version that does not match its position is above it. */
  lemma SkippedBelow(migrations: seq<Migration>, ledger: seq<Applied>, i: nat)
    requires Increasing(migrations) && Ascending(ledger) && i < |ledger| && i < |migrations|
    requires forall j | 0 <= j < i :: ledger[j] == RecordOf(migrations[j])
    requires migrations[i].version != ledger[i].version && Defines(migrations, ledger[i].version)
    ensures migrations[i].version < ledger[i].version
    ensures forall j | 0 <= j < |ledger| :: ledger[j].version != migrations[i].version
  {
    var k :| 0 <= k < |migrations| && migrations[k].version == ledger[i].version;
    assert forall j | 0 <= j < i :: migrations[j].version == ledger[j].version < ledger[i].version;
    assert i < k;
    assert forall j | 0 <= j < i :: ledger[j].version == migrations[j].version < migrations[i].version;
    assert forall j | i < j < |ledger| :: ledger[i].version < ledger[j].version;
  }

  /** Out of that order a report can mislead: nothing above version 2 is recorded, yet 2 counts as skipped. */
  lemma UnorderedLedgerMisreported()
    ensures var migrations, ledger := [Migration(1, 0), Migration(2, 0)], [Applied(1, 0), Applied(1, 0)];
            && Increasing(migrations) && FirstProblem(migrations, ledger, Pending(2))
            && forall i | 0 <= i < |ledger| :: ledger[i].version < 2
  {
    var migrations, ledger := [Migration(1, 0), Migration(2, 0)], [Applied(1, 0), Applied(1, 0)];
    assert migrations[0].version == 1;
    assert ledger[..1] == Records(migrations, 1);
    assert ProblemAt(migrations, ledger, 1) == Some(Pending(2));
  }

  /** The first position whose version exceeds `version`, by halving. */
  method PartitionPoint(migrations: seq<Migration>, version: nat) returns (index: nat)
    requires Increasing(migrations)
    ensures index <= |migrations|
    ensures forall i | 0 <= i < index :: migrations[i].version <= version
    ensures forall i | index <= i < |migrations| :: migrations[i].version > version
  {
    index := 0;
    var high := |migrations|;
    while index < high
      invariant 0 <= index <= high <= |migrations|
      invariant forall i | 0 <= i < index :: migrations[i].version <= version
      invariant forall i | high <= i < |migrations| :: migrations[i].version > version
    {
      var middle := index + (high - index) / 2;
      if migrations[middle].version <= version {
        index := middle + 1;
      } else {
        high := middle;
      }
    }
  }

  function LastVersion(ledger: seq<Applied>): Option<nat> {
    if ledger == [] then None else Some(ledger[|ledger| - 1].version)
  }

  /** `pending`: of a verified ledger, exactly what remains of the set. */
  method PendingAfter(migrations: seq<Migration>, applied: Option<nat>) returns (suffix: seq<Migration>)
    requires Increasing(migrations)
    ensures applied.None? ==> suffix == migrations
    ensures applied.Some? ==>
              exists n :: && 0 <= n <= |migrations| && suffix == migrations[n..]
                          && (forall i | 0 <= i < n :: migrations[i].version <= applied.value)
                          && (forall i | n <= i < |migrations| :: migrations[i].version > applied.value)
    ensures forall ledger | IsPrefix(migrations, ledger) && LastVersion(ledger) == applied ::
              suffix == migrations[|ledger|..]
  {
    if applied.None? {
      return migrations;
    }
    var index := PartitionPoint(migrations, applied.value);
    forall ledger | IsPrefix(migrations, ledger) && LastVersion(ledger) == applied ensures index == |ledger| {
      var last := |ledger| - 1;
      assert ledger[last] == RecordOf(migrations[last]);
      assert last < index;
      assert |ledger| < |migrations| ==> migrations[last].version < migrations[|ledger|].version;
    }
    return migrations[index..];
  }

  // ----- runs against an adapter -----

  datatype Failure = Driver | Disagreement(error: MigrationError)

  datatype Report = Report(applied: seq<nat>, currentVersion: Option<nat>)

  /** How the adapter behaves during one run. */
  datatype Adapter = Adapter(ensureFails: bool, readFails: bool, refuses: nat -> bool)

  /** The first migration from `n` on that the adapter refuses, or the end of the set. */
  function StopsAt(migrations: seq<Migration>, refuses: nat -> bool, n: nat): (stop: nat)
    requires n <= |migrations|
    ensures n <= stop <= |migrations|
    ensures forall i | n <= i < stop :: !refuses(migrations[i].version)
    ensures stop < |migrations| ==> refuses(migrations[stop].version)
    decreases |migrations| - n
  {
    if n == |migrations| || refuses(migrations[n].version) then n else StopsAt(migrations, refuses, n + 1)
  }

  lemma StopsNext(migrations: seq<Migration>, refuses: nat -> bool, n: nat)
    requires n <= |migrations|
    ensures StopsAt(migrations, refuses, n)
            == if n == |migrations| || refuses(migrations[n].version) then n else StopsAt(migrations, refuses, n + 1)
  {
  }

  lemma PrefixSize(migrations: seq<Migration>, ledger: seq<Applied>)
    requires IsPrefix(migrations, ledger)
    ensures |ledger| <= |migrations| && ledger == Records(migrations, |ledger|)
  {
  }

  lemma PrefixGrows(migrations: seq<Migration>, ledger: seq<Applied>)
    requires IsPrefix(migrations, ledger) && |ledger| < |migrations|
    ensures IsPrefix(migrations, ledger + [RecordOf(migrations[|ledger|])])
  {
  }

  function Versions(migrations: seq<Migration>): (versions: seq<nat>)
    ensures |versions| == |migrations| && forall i | 0 <= i < |migrations| :: versions[i] == migrations[i].version
  {
    seq(|migrations|, i requires 0 <= i < |migrations| => migrations[i].version)
  }

  class Database {
    var ledger: seq<Applied>

    constructor ()
      ensures ledger == []
    {
      ledger := [];
    }

    /** The adapter runs the script and records it, or does neither. */
    method Apply(migration: Migration, adapter: Adapter) returns (ok: bool)
      modifies this
      ensures ok == !adapter.refuses(migration.version)
      ensures ledger == if ok then old(ledger) + [RecordOf(migration)] else old(ledger)
    {
      if adapter.refuses(migration.version) {
        return false;
      }
      ledger := ledger + [RecordOf(migration)];
      return true;
    }

    method ReadLedger(migrations: seq<Migration>, adapter: Adapter) returns (result: Result<seq<Applied>, Failure>)
      ensures result.Ok? <==> !adapter.ensureFails && !adapter.readFails && IsPrefix(migrations, ledger)
      ensures result.Ok? ==> result.value == ledger
      ensures result == Err(Driver) <==> adapter.ensureFails || adapter.readFails
      ensures result.Err? && result.error.Disagreement? ==> FirstProblem(migrations, ledger, result.error.error)
    {
      if adapter.ensureFails || adapter.readFails {
        return Err(Driver);
      }
      var problem := Verify(migrations, ledger);
      if problem.Some? {
        return Err(Disagreement(problem.value));
      }
      return Ok(ledger);
    }

    /**
     `migrate`: a ledger that does not verify is left alone; otherwise migrations are applied in
     order up to the first the adapter refuses, and success means the set is complete.
     */
    method Migrate(migrations: seq<Migration>, adapter: Adapter) returns (result: Result<Report, Failure>)
      requires Increasing(migrations)
      modifies this
      ensures (adapter.ensureFails || adapter.readFails || !IsPrefix(migrations, old(ledger))) ==>
                result.Err? && ledger == old(ledger)
      ensures (!adapter.ensureFails && !adapter.readFails && IsPrefix(migrations, old(ledger))) ==>
                var stop := StopsAt(migrations, adapter.refuses, |old(ledger)|);
                && ledger == Records(migrations, stop)
                && (result.Ok? <==> stop == |migrations|)
      ensures result == Err(Driver) <==>
                || adapter.ensureFails || adapter.readFails
                || (IsPrefix(migrations, old(ledger)) && StopsAt(migrations, adapter.refuses, |old(ledger)|) < |migrations|)
      ensures result.Err? && result.error.Disagreement? ==>
                !IsPrefix(migrations, old(ledger)) && FirstProblem(migrations, old(ledger), result.error.error)
      ensures result.Ok? ==>
                && |old(ledger)| <= |migrations|
                && result.value == Report(Versions(migrations[|old(ledger)|..]), LastVersion(ledger))
    {
      var applied := ReadLedger(migrations, adapter);
      if applied.Err? {
        return Err(applied.error);
      }
      var pending := PendingAfter(migrations, LastVersion(applied.value));
      result := ApplyAll(migrations, pending, adapter);
    }

    /** The loop of `migrate`. */
    method ApplyAll(ghost migrations: seq<Migration>, pending: seq<Migration>, adapter: Adapter)
        returns (result: Result<Report, Failure>)
      requires IsPrefix(migrations, ledger) && pending == migrations[|ledger|..]
      modifies this
      ensures var stop := StopsAt(migrations, adapter.refuses, |old(ledger)|);
              ledger == Records(migrations, stop) && (result.Ok? <==> stop == |migrations|)
      ensures result.Err? ==> result.error == Driver
      ensures result.Ok? ==> result.value == Report(Versions(pending), LastVersion(ledger))
    {
      hide StopsAt, IsPrefix, Records;
      ghost var start := |ledger|;
      PrefixSize(migrations, ledger);
      var versions: seq<nat>, current := [], LastVersion(ledger);
      var at := 0;
      while at < |pending|
        invariant 0 <= at <= |pending| && |ledger| == start + at <= |migrations|
        invariant IsPrefix(migrations, ledger) && current == LastVersion(ledger)
        invariant StopsAt(migrations, adapter.refuses, start) == StopsAt(migrations, adapter.refuses, start + at)
        invariant |versions| == at && forall i | 0 <= i < at :: versions[i] == pending[i].version
      {
        var migration := pending[at];
        assert migration == migrations[start + at];
        StopsNext(migrations, adapter.refuses, start + at);
        PrefixGrows(migrations, ledger);
        var ok := Apply(migration, adapter);
        if !ok {
          PrefixSize(migrations, ledger);
          return Err(Driver);
        }
        versions, current := versions + [migration.version], Some(migration.version);
        at := at + 1;
      }
      StopsNext(migrations, adapter.refuses, start + at);
      PrefixSize(migrations, ledger);
      assert versions == Versions(pending);
      return Ok(Report(versions, current));
    }

    /**
     `verify_migrations`: passes exactly when the ledger records the whole set, unmodified; otherwise
     the adapter failed, or the ledger disagrees, or the first migration it lacks is named.
     */
    method VerifyMigrations(migrations: seq<Migration>, adapter: Adapter) returns (failure: Option<Failure>)
      requires Increasing(migrations)
      ensures failure.None? <==>
                !adapter.ensureFails && !adapter.readFails && ledger == Records(migrations, |migrations|)
      ensures failure == Some(Driver) <==> adapter.ensureFails || adapter.readFails
      ensures !adapter.ensureFails && !adapter.readFails && !IsPrefix(migrations, ledger) ==>
                failure.Some? && failure.value.Disagreement? && FirstProblem(migrations, ledger, failure.value.error)
      ensures !adapter.ensureFails && !adapter.readFails && IsPrefix(migrations, ledger) && |ledger| < |migrations| ==>
                failure == Some(Disagreement(Pending(migrations[|ledger|].version)))
    {
      var applied := ReadLedger(migrations, adapter);
      if applied.Err? {
        return Some(applied.error);
      }
      var pending := PendingAfter(migrations, LastVersion(applied.value));
      assert pending == migrations[|ledger|..];
      if pending != [] {
        return Some(Disagreement(Pending(pending[0].version)));
      }
      assert |ledger| == |migrations|;
      return None;
    }
  }

  /** The ledger after any number of runs, each against an adapter in some mood. */
  function AfterRuns(migrations: seq<Migration>, n: nat, runs: seq<Adapter>): (reached: nat)
    requires n <= |migrations|
    ensures n <= reached <= |migrations|
    decreases |runs|
  {
    if runs == [] then n
    else
      var run := runs[0];
      AfterRuns(migrations,
                if run.ensureFails || run.readFails then n else StopsAt(migrations, run.refuses, n), runs[1..])
  }

  /** However runs are interrupted, one that meets no failure completes the set, and then nothing is left to do. */
  lemma {:induction false} RunsResume(migrations: seq<Migration>, n: nat, runs: seq<Adapter>, last: Adapter)
    requires n <= |migrations|
    requires !last.ensureFails && !last.readFails
    ensures var reached := AfterRuns(migrations, n, runs);
            (forall i | reached <= i < |migrations| :: !last.refuses(migrations[i].version)) ==>
              AfterRuns(migrations, n, runs + [last]) == |migrations|
    ensures AfterRuns(migrations, |migrations|, runs) == |migrations|
    decreases |runs|
  {
    if runs == [] {
      assert (runs + [last])[1..] == [];
    } else {
      var run := runs[0];
      var next := if run.ensureFails || run.readFails then n else StopsAt(migrations, run.refuses, n);
      assert (runs + [last])[1..] == runs[1..] + [last];
      RunsResume(migrations, next, runs[1..], last);
    }
  }

  /** Runs interrupted anywhere, on the real object: the ledger is always a prefix, and never shrinks. */
  method MigrateRepeatedly(database: Database, migrations: seq<Migration>, runs: seq<Adapter>)
    requires Increasing(migrations) && IsPrefix(migrations, database.ledger)
    modifies database
    ensures database.ledger == Records(migrations, AfterRuns(migrations, |old(database.ledger)|, runs))
  {
    var at := 0;
    while at < |runs|
      invariant 0 <= at <= |runs|
      invariant IsPrefix(migrations, database.ledger)
      invariant AfterRuns(migrations, |old(database.ledger)|, runs)
                == AfterRuns(migrations, |database.ledger|, runs[at..])
    {
      var result := database.Migrate(migrations, runs[at]);
      assert runs[at..][1..] == runs[at + 1..];
      at := at + 1;
    }
  }
}
