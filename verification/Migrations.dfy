/**
 * PostgreSQL migrations: planning against the registry, applying with failures
 * and resumption, verifying and baselining.
 */
module Migrations {
  import opened Outcomes

  datatype MigrationId = MigrationId(text: string)
  datatype Checksum = Checksum(hex: string)

  datatype MigrationFile = MigrationFile(
    domain: string, filename: string, version: string, migrationId: MigrationId, checksum: Checksum)

  /** The registry table, by primary key, as get_applied reads it. */
  type AppliedMap = map<MigrationId, Checksum>

  datatype DriftItem = DriftItem(migrationId: MigrationId, expected: Checksum, recorded: Checksum)

  datatype Plan = Plan(ok: bool, pending: seq<MigrationFile>, drift: seq<DriftItem>)

  // ----- Planning -----

  function Pending(files: seq<MigrationFile>, applied: AppliedMap): seq<MigrationFile> {
    if files == [] then []
    else (if files[0].migrationId !in applied then [files[0]] else []) + Pending(files[1..], applied)
  }

  predicate Drifts(file: MigrationFile, applied: AppliedMap) {
    file.migrationId in applied && applied[file.migrationId] != file.checksum
  }

  function Drift(files: seq<MigrationFile>, applied: AppliedMap): seq<DriftItem> {
    if files == [] then []
    else
      var f := files[0];
      (if Drifts(f, applied) then [DriftItem(f.migrationId, f.checksum, applied[f.migrationId])] else []) +
      Drift(files[1..], applied)
  }

  method BuildPlan(files: seq<MigrationFile>, applied: AppliedMap) returns (plan: Plan)
    ensures plan == Plan(Drift(files, applied) == [], Pending(files, applied), Drift(files, applied))
  {
    var pending: seq<MigrationFile> := [];
    var drift: seq<DriftItem> := [];
    for i := 0 to |files|
      invariant pending + Pending(files[i..], applied) == Pending(files, applied)
      invariant drift + Drift(files[i..], applied) == Drift(files, applied)
    {
      var file := files[i];
      assert files[i..][0] == file && files[i..][1..] == files[i + 1..];
      if file.migrationId !in applied {
        pending := pending + [file];
      } else if applied[file.migrationId] != file.checksum {
        drift := drift + [DriftItem(file.migrationId, file.checksum, applied[file.migrationId])];
      }
    }
    assert files[|files|..] == [];
    plan := Plan(drift == [], pending, drift);
  }

  // ----- The registry -----

  datatype RunStatus = Running | Success | Failed
  datatype RunRecord = RunRecord(planned: nat, applied: nat, status: RunStatus)

  /** Where an apply run goes wrong: executing a file, or recording one it executed. */
  datatype Fault = NoFault | ExecuteFails(at: nat) | RecordFails(at: nat)

  datatype MigrationError = DriftDetected(items: seq<DriftItem>) | MigrationFailed | BaselineNotConfirmed

  datatype Report = Report(ok: bool, planned: nat, applied: nat, skipped: nat, failed: nat)

  /** How many of n pending files a run with this fault records. */
  function RecordedCount(n: nat, fault: Fault): (k: nat)
    ensures k <= n
  {
    match fault
    case NoFault => n
    case ExecuteFails(at) => if at < n then at else n
    case RecordFails(at) => if at < n then at else n
  }

  /** How many of n pending files it executes. */
  function ExecutedCount(n: nat, fault: Fault): (k: nat)
    ensures RecordedCount(n, fault) <= k <= n
  {
    match fault
    case NoFault => n
    case ExecuteFails(at) => if at < n then at else n
    case RecordFails(at) => if at < n then at + 1 else n
  }

  /** The registry with the given files recorded. */
  function Recording(applied: AppliedMap, files: seq<MigrationFile>): AppliedMap {
    if files == [] then applied
    else
      var last := files[|files| - 1];
      Recording(applied, files[..|files| - 1])[last.migrationId := last.checksum]
  }

  function Ids(files: seq<MigrationFile>): seq<MigrationId> {
    seq(|files|, i requires 0 <= i < |files| => files[i].migrationId)
  }

  ghost predicate DistinctIds(files: seq<MigrationFile>) {
    forall i, j :: 0 <= i < j < |files| ==> files[i].migrationId != files[j].migrationId
  }

  /** What one apply run records, in order: nothing when it refuses over drift. */
  function Records(files: seq<MigrationFile>, applied: AppliedMap, fault: Fault): seq<MigrationFile> {
    if Drift(files, applied) != [] then []
    else Pending(files, applied)[..RecordedCount(|Pending(files, applied)|, fault)]
  }

  /** What it executes, in order. */
  function Executes(files: seq<MigrationFile>, applied: AppliedMap, fault: Fault): seq<MigrationFile> {
    if Drift(files, applied) != [] then []
    else Pending(files, applied)[..ExecutedCount(|Pending(files, applied)|, fault)]
  }

  function AfterApply(files: seq<MigrationFile>, applied: AppliedMap, fault: Fault): AppliedMap {
    Recording(applied, Records(files, applied, fault))
  }

  /**
   * What apply returns and what it adds to the run table: a run ends in success when
   * it recorded every pending file.
   */
  function ApplyResult(files: seq<MigrationFile>, applied: AppliedMap, dryRun: bool, fault: Fault): Result<Report,
          MigrationError> {
    var n := |Pending(files, applied)|;
    if Drift(files, applied) != [] then Err(DriftDetected(Drift(files, applied)))
    else if dryRun then Ok(Report(true, n, 0, n, 0))
    else if RecordedCount(n, fault) == n then Ok(Report(true, n, n, 0, 0))
    else Err(MigrationFailed)
  }

  function ApplyRuns(files: seq<MigrationFile>, applied: AppliedMap, dryRun: bool, fault: Fault): seq<RunRecord> {
    var n := |Pending(files, applied)|;
    if Drift(files, applied) != [] || dryRun then []
    else [RunRecord(n, RecordedCount(n, fault), if RecordedCount(n, fault) == n then Success else Failed)]
  }

  /** inserted and executed keep every row inserted and every migration executed, in order. */
  class Registry {
    var applied: AppliedMap
    var inserted: seq<MigrationId>
    var executed: seq<MigrationId>
    var runs: seq<RunRecord>

    constructor ()
      ensures applied == map[] && inserted == [] && executed == [] && runs == []
    {
      applied, inserted, executed, runs := map[], [], [], [];
    }

    /** INSERT ... ON CONFLICT (migration_id) DO NOTHING */
    method Record(file: MigrationFile)
      modifies this`applied, this`inserted
      ensures file.migrationId in old(applied) ==> applied == old(applied) && inserted == old(inserted)
      ensures file.migrationId !in old(applied) ==>
                applied == old(applied)[file.migrationId := file.checksum] &&
                    inserted == old(inserted) + [file.migrationId]
    {
      if file.migrationId !in applied {
        applied := applied[file.migrationId := file.checksum];
        inserted := inserted + [file.migrationId];
      }
    }

    /** Plan, then report: ok when nothing drifted and nothing is pending. */
    method Verify(files: seq<MigrationFile>) returns (report: Report)
      ensures report.ok <==> Drift(files, applied) == [] && Pending(files, applied) == []
      ensures report.planned == report.skipped == |Pending(files, applied)| &&
              report.failed == |Drift(files, applied)| && report.applied == 0
    {
      var plan := BuildPlan(files, applied);
      report := Report(plan.ok && |plan.pending| == 0, |plan.pending|, 0, |plan.pending|, |plan.drift|);
    }

    /** The loop of apply: execute and record the pending files one by one until one fails. */
    method ApplyPending(pending: seq<MigrationFile>, fault: Fault) returns (count: nat, ok: bool)
      requires DistinctIds(pending) && forall f :: f in pending ==> f.migrationId !in applied
      modifies this`applied, this`inserted, this`executed
      ensures count == RecordedCount(|pending|, fault)
      ensures ok <==> count == |pending|
      ensures applied == Recording(old(applied), pending[..count])
      ensures inserted == old(inserted) + Ids(pending[..count])
      ensures executed == old(executed) + Ids(pending[..ExecutedCount(|pending|, fault)])
    {
      count := 0;
      while count < |pending|
        invariant count <= |pending| && count <= RecordedCount(|pending|, fault)
        invariant applied == Recording(old(applied), pending[..count])
        invariant inserted == old(inserted) + Ids(pending[..count])
        invariant executed == old(executed) + Ids(pending[..count])
      {
        if fault == ExecuteFails(count) {
          return count, false;
        }
        executed := executed + [pending[count].migrationId];
        TakeOne(old(applied), pending, count);
        if fault == RecordFails(count) {
          return count, false;
        }
        RecordingKeys(old(applied), pending[..count]);
        assert pending[count] in pending;
        Record(pending[count]);
        count := count + 1;
      }
      ok := true;
    }

    /** Plan, then apply what is pending; the outcome is written to the run record. */
    method Apply(files: seq<MigrationFile>, dryRun: bool, fault: Fault) returns (r: Result<Report, MigrationError>)
      requires DistinctIds(files)
      modifies this
      ensures r == ApplyResult(files, old(applied), dryRun, fault)
      ensures runs == old(runs) + ApplyRuns(files, old(applied), dryRun, fault)
      ensures dryRun ==> applied == old(applied) && inserted == old(inserted) && executed == old(executed)
      ensures !dryRun ==> applied == AfterApply(files, old(applied), fault)
      ensures !dryRun ==> inserted == old(inserted) + Ids(Records(files, old(applied), fault))
      ensures !dryRun ==> executed == old(executed) + Ids(Executes(files, old(applied), fault))
    {
      var plan := BuildPlan(files, applied);
      if !plan.ok {
        r := Err(DriftDetected(plan.drift));
      } else if dryRun {
        r := Ok(Report(true, |plan.pending|, 0, |plan.pending|, 0));
      } else {
        var n := |plan.pending|;
        var run := |runs|;
        runs := runs + [RunRecord(n, 0, Running)];
        PendingMembers(files, applied);
        PendingDistinct(files, applied);
        var count, ok := ApplyPending(plan.pending, fault);
        runs := runs[run := RunRecord(n, count, if ok then Success else Failed)];
        r := if ok then Ok(Report(true, n, count, 0, 0)) else Err(MigrationFailed);
      }
    }

    /** The loop of baseline. */
    method RecordAll(pending: seq<MigrationFile>)
      requires DistinctIds(pending) && forall f :: f in pending ==> f.migrationId !in applied
      modifies this`applied, this`inserted
      ensures applied == Recording(old(applied), pending) && inserted == old(inserted) + Ids(pending)
    {
      for i := 0 to |pending|
        invariant applied == Recording(old(applied), pending[..i])
        invariant inserted == old(inserted) + Ids(pending[..i])
      {
        TakeOne(old(applied), pending, i);
        RecordingKeys(old(applied), pending[..i]);
        assert pending[i] in pending;
        Record(pending[i]);
      }
      assert pending[..|pending|] == pending;
    }

    /** Record the pending files without executing them. Drift is not checked. */
    method Baseline(files: seq<MigrationFile>, confirm: bool) returns (r: Result<Report, MigrationError>)
      requires DistinctIds(files)
      modifies this`applied, this`inserted
      ensures !confirm ==> r == Err(BaselineNotConfirmed) && applied == old(applied) && inserted == old(inserted)
      ensures confirm ==> var pending := Pending(files, old(applied));
                          applied == Recording(old(applied), pending) && inserted == old(inserted) + Ids(pending) &&
                          r == Ok(Report(true, |pending|, |pending|, 0, 0))
    {
      if !confirm {
        return Err(BaselineNotConfirmed);
      }
      var plan := BuildPlan(files, applied);
      PendingMembers(files, applied);
      PendingDistinct(files, applied);
      RecordAll(plan.pending);
      r := Ok(Report(true, |plan.pending|, |plan.pending|, 0, 0));
    }
  }

  lemma TakeOne(applied: AppliedMap, files: seq<MigrationFile>, i: nat)
    requires i < |files|
    ensures Ids(files[..i + 1]) == Ids(files[..i]) + [files[i].migrationId]
    ensures Recording(applied, files[..i + 1]) ==
            Recording(applied, files[..i])[files[i].migrationId := files[i].checksum]
  {
    assert files[..i + 1][..i] == files[..i];
  }

  // ----- Pending files after a partial run -----

  lemma {:induction false} RecordingKeys(applied: AppliedMap, files: seq<MigrationFile>)
    ensures forall id :: id in Recording(applied, files) <==>
              id in applied || exists i :: 0 <= i < |files| && files[i].migrationId == id
  {
    if files != [] {
      RecordingKeys(applied, files[..|files| - 1]);
    }
  }

  lemma {:induction false} RecordingValues(applied: AppliedMap, files: seq<MigrationFile>)
    requires DistinctIds(files)
    ensures forall i :: 0 <= i < |files| ==> files[i].migrationId in Recording(applied, files) &&
                                             Recording(applied, files)[files[i].migrationId] == files[i].checksum
    ensures forall id :: id in applied && (forall i :: 0 <= i < |files| ==> files[i].migrationId != id) ==>
              id in Recording(applied, files) && Recording(applied, files)[id] == applied[id]
  {
    if files != [] {
      RecordingValues(applied, files[..|files| - 1]);
    }
  }

  lemma {:induction false} RecordingTwice(applied: AppliedMap, a: seq<MigrationFile>, b: seq<MigrationFile>)
    ensures Recording(Recording(applied, a), b) == Recording(applied, a + b)
  {
    if b == [] {
      assert a + b == a;
    } else {
      assert (a + b)[..|a + b| - 1] == a + b[..|b| - 1];
      RecordingTwice(applied, a, b[..|b| - 1]);
    }
  }

  /** Pending files come from the list and are not recorded. */
  lemma {:induction false} PendingMembers(files: seq<MigrationFile>, applied: AppliedMap)
    ensures forall f :: f in Pending(files, applied) <==> f in files && f.migrationId !in applied
  {
    if files != [] {
      PendingMembers(files[1..], applied);
      assert files == [files[0]] + files[1..];
    }
  }

  lemma {:induction false} PendingDistinct(files: seq<MigrationFile>, applied: AppliedMap)
    requires DistinctIds(files)
    ensures DistinctIds(Pending(files, applied))
  {
    if files != [] {
      assert forall i :: 0 < i < |files| ==> files[1..][i - 1] == files[i];
      PendingDistinct(files[1..], applied);
      PendingMembers(files[1..], applied);
      var rest := Pending(files[1..], applied);
      forall i | 0 <= i < |rest| ensures rest[i].migrationId != files[0].migrationId {
        assert rest[i] in rest;
      }
    }
  }

  /** Filtering depends only on which of these files are recorded. */
  lemma {:induction false} PendingAgree(files: seq<MigrationFile>, a: AppliedMap, b: AppliedMap)
    requires forall f :: f in files ==> (f.migrationId in a <==> f.migrationId in b)
    ensures Pending(files, a) == Pending(files, b)
  {
    if files != [] {
      assert files[0] in files;
      PendingAgree(files[1..], a, b);
    }
  }

  lemma {:induction false} NoDriftMeans(files: seq<MigrationFile>, applied: AppliedMap)
    ensures Drift(files, applied) == [] <==> forall f :: f in files ==> !Drifts(f, applied)
  {
    if files != [] {
      NoDriftMeans(files[1..], applied);
      assert files == [files[0]] + files[1..];
    }
  }

  lemma SameIdSameFile(files: seq<MigrationFile>, part: seq<MigrationFile>, f: MigrationFile)
    requires DistinctIds(files) && f in files && forall g :: g in part ==> g in files
    ensures f in part <==> exists i :: 0 <= i < |part| && part[i].migrationId == f.migrationId
  {
    if i :| 0 <= i < |part| && part[i].migrationId == f.migrationId {
      assert part[i] in files;
    }
  }

  lemma {:induction false} PendingSplit(files: seq<MigrationFile>, applied: AppliedMap, after: AppliedMap, n: nat)
    requires DistinctIds(files) && n <= |Pending(files, applied)|
    requires forall f :: f in files ==>
               (f.migrationId in after <==> f.migrationId in applied || f in Pending(files, applied)[..n])
    ensures Pending(files, after) == Pending(files, applied)[n..]
  {
    if n == 0 {
      PendingAgree(files, after, applied);
    } else {
      var f, rest := files[0], Pending(files[1..], applied);
      var k := if f.migrationId in applied then n else n - 1;
      assert files == [f] + files[1..] && f in files;
      assert forall i :: 0 < i < |files| ==> files[1..][i - 1] == files[i];
      PendingMembers(files[1..], applied);
      assert f.migrationId !in applied ==>
            Pending(files, applied)[..n] == [f] + rest[..k] &&
            Pending(files, applied)[n..] == rest[k..];
      assert f.migrationId in applied ==> Pending(files, applied) == rest;
      forall g: MigrationFile | g in files[1..]
        ensures g.migrationId in after <==> g.migrationId in applied || g in rest[..k] {
        assert g in files && g != f;
      }
      PendingSplit(files[1..], applied, after, k);
    }
  }

  /** Recording the first n pending files leaves exactly the others pending. */
  lemma PendingAfterPrefix(files: seq<MigrationFile>, applied: AppliedMap, n: nat)
    requires DistinctIds(files) && n <= |Pending(files, applied)|
    ensures Pending(files, Recording(applied, Pending(files, applied)[..n])) == Pending(files, applied)[n..]
  {
    var part := Pending(files, applied)[..n];
    PendingMembers(files, applied);
    RecordingKeys(applied, part);
    forall f: MigrationFile | f in files
      ensures f.migrationId in Recording(applied, part) <==> f.migrationId in applied || f in part
    {
      SameIdSameFile(files, part, f);
    }
    PendingSplit(files, applied, Recording(applied, part), n);
  }

  lemma NoDriftAfterPrefix(files: seq<MigrationFile>, applied: AppliedMap, n: nat)
    requires DistinctIds(files) && n <= |Pending(files, applied)|
    ensures Drift(files, Recording(applied, Pending(files, applied)[..n])) == [] <==> Drift(files, applied) == []
  {
    var part := Pending(files, applied)[..n];
    var after := Recording(applied, part);
    PendingDistinct(files, applied);
    PendingMembers(files, applied);
    NoDriftMeans(files, applied);
    NoDriftMeans(files, after);
    RecordingKeys(applied, part);
    RecordingValues(applied, part);
    forall f: MigrationFile | f in files ensures Drifts(f, after) <==> Drifts(f, applied) {
      SameIdSameFile(files, part, f);
      assert forall i :: 0 <= i < |part| ==> part[i] in part && part[i] in files;
    }
  }

  // ----- Whole runs -----

  /** The registry after a series of apply runs, each with its own fault. */
  function AfterRuns(files: seq<MigrationFile>, applied: AppliedMap, faults: seq<Fault>): AppliedMap
    decreases |faults|
  {
    if faults == [] then applied else AfterRuns(files, AfterApply(files, applied, faults[0]), faults[1..])
  }

  function RecordedByRuns(files: seq<MigrationFile>, applied: AppliedMap, faults: seq<Fault>): seq<MigrationFile>
    decreases |faults|
  {
    if faults == [] then []
    else Records(files, applied, faults[0]) + RecordedByRuns(files, AfterApply(files, applied, faults[0]), faults[1..])
  }

  function ExecutedByRuns(files: seq<MigrationFile>, applied: AppliedMap, faults: seq<Fault>): seq<MigrationFile>
    decreases |faults|
  {
    if faults == [] then []
    else Executes(files, applied, faults[0]) + ExecutedByRuns(files, AfterApply(files, applied, faults[0]), faults[1..])
  }

  /** How many of n pending files a series of runs records. */
  function TotalRecorded(n: nat, faults: seq<Fault>): (k: nat)
    ensures k <= n
    decreases |faults|
  {
    if faults == [] then 0
    else RecordedCount(n, faults[0]) + TotalRecorded(n - RecordedCount(n, faults[0]), faults[1..])
  }

  /** One run records a prefix of what is pending, which leaves the rest pending and nothing drifting. */
  lemma {:induction false} OneRun(files: seq<MigrationFile>, applied: AppliedMap, fault: Fault)
    requires DistinctIds(files) && Drift(files, applied) == []
    ensures var pending := Pending(files, applied);
            var n := RecordedCount(|pending|, fault);
            Records(files, applied, fault) == pending[..n] &&
            Pending(files, AfterApply(files, applied, fault)) == pending[n..] &&
            Drift(files, AfterApply(files, applied, fault)) == []
  {
    var n := RecordedCount(|Pending(files, applied)|, fault);
    PendingAfterPrefix(files, applied, n);
    NoDriftAfterPrefix(files, applied, n);
  }

  /**
   * Over any series of runs, each failing anywhere or nowhere, the migrations
   * recorded are a prefix of the first pending list, in its order and once each;
   * the rest stays pending, and nothing drifts.
   */
  lemma RunsRecordPrefix(files: seq<MigrationFile>, applied: AppliedMap, faults: seq<Fault>)
    requires DistinctIds(files) && Drift(files, applied) == []
    ensures var pending := Pending(files, applied);
            var k := TotalRecorded(|pending|, faults);
            RecordedByRuns(files, applied, faults) == pending[..k] && DistinctIds(pending) &&
            Pending(files, AfterRuns(files, applied, faults)) == pending[k..] &&
            Drift(files, AfterRuns(files, applied, faults)) == []
  {
    var k := TotalRecorded(|Pending(files, applied)|, faults);
    PendingDistinct(files, applied);
    RunsRecord(files, applied, faults, Pending(files, applied));
    RegistryHoldsRecords(files, applied, faults);
    PendingAfterPrefix(files, applied, k);
    NoDriftAfterPrefix(files, applied, k);
  }

  lemma {:induction false} RunsRecord(files: seq<MigrationFile>, applied: AppliedMap, faults: seq<Fault>,
          pending: seq<MigrationFile>)
    requires DistinctIds(files) && Drift(files, applied) == [] && pending == Pending(files, applied)
    ensures RecordedByRuns(files, applied, faults) == pending[..TotalRecorded(|pending|, faults)]
    decreases |faults|
  {
    if faults != [] {
      var n := RecordedCount(|pending|, faults[0]);
      var next := AfterApply(files, applied, faults[0]);
      var left := Pending(files, next);
      OneRun(files, applied, faults[0]);
      RunsRecord(files, next, faults[1..], left);
      RestOf(pending, n, left, TotalRecorded(|pending| - n, faults[1..]));
      assert RecordedByRuns(files, applied, faults) == pending[..n] + left[..TotalRecorded(|left|, faults[1..])];
    }
  }

  lemma RestOf<T>(s: seq<T>, n: nat, left: seq<T>, k: nat)
    requires n <= |s| && left == s[n..] && k <= |left|
    ensures s[..n] + left[..k] == s[..n + k] && left[k..] == s[n + k..]
  {
  }

  lemma {:induction false} RegistryHoldsRecords(files: seq<MigrationFile>, applied: AppliedMap, faults: seq<Fault>)
    ensures AfterRuns(files, applied, faults) == Recording(applied, RecordedByRuns(files, applied, faults))
    decreases |faults|
  {
    if faults != [] {
      var next := AfterApply(files, applied, faults[0]);
      RegistryHoldsRecords(files, next, faults[1..]);
      RecordingTwice(applied, Records(files, applied, faults[0]), RecordedByRuns(files, next, faults[1..]));
    }
  }

  // ----- What runs execute -----

  /** The run executes one of n pending files without recording it. */
  predicate Loses(n: nat, fault: Fault) { fault.RecordFails? && fault.at < n }

  predicate SomeRunLoses(n: nat, faults: seq<Fault>)
    decreases |faults|
  {
    faults != [] && (Loses(n, faults[0]) || SomeRunLoses(n - RecordedCount(n, faults[0]), faults[1..]))
  }

  /** How many executions a series of runs makes when n files are pending. */
  function TotalExecuted(n: nat, faults: seq<Fault>): nat
    decreases |faults|
  {
    if faults == [] then 0
    else ExecutedCount(n, faults[0]) + TotalExecuted(n - RecordedCount(n, faults[0]), faults[1..])
  }

  /** Some run loses a record and a later run executes something. */
  predicate LosesThenExecutes(n: nat, faults: seq<Fault>)
    decreases |faults|
  {
    faults != [] &&
    var left := n - RecordedCount(n, faults[0]);
    (Loses(n, faults[0]) && TotalExecuted(left, faults[1..]) > 0) || LosesThenExecutes(left, faults[1..])
  }

  /** The executions of a series of runs, from the pending list alone. */
  function ExecutedFrom(pending: seq<MigrationFile>, faults: seq<Fault>): seq<MigrationFile>
    decreases |faults|
  {
    if faults == [] then []
    else
      var n := |pending|;
      pending[..ExecutedCount(n, faults[0])] + ExecutedFrom(pending[RecordedCount(n, faults[0])..], faults[1..])
  }

  /** What plan leaves to a run that is not refused. */
  function Executable(files: seq<MigrationFile>, applied: AppliedMap): seq<MigrationFile> {
    if Drift(files, applied) != [] then [] else Pending(files, applied)
  }

  lemma {:induction false} RunsExecute(files: seq<MigrationFile>, applied: AppliedMap, faults: seq<Fault>)
    requires DistinctIds(files)
    ensures ExecutedByRuns(files, applied, faults) == ExecutedFrom(Executable(files, applied), faults)
    ensures RecordedByRuns(files, applied, faults) ==
            Executable(files, applied)[..TotalRecorded(|Executable(files, applied)|, faults)]
    decreases |faults|
  {
    if faults != [] {
      var next := AfterApply(files, applied, faults[0]);
      RunsExecute(files, next, faults[1..]);
      if Drift(files, applied) == [] {
        OneRun(files, applied, faults[0]);
        RunsRecord(files, applied, faults, Pending(files, applied));
      }
    }
  }

  lemma {:induction false} ExecutedLength(pending: seq<MigrationFile>, faults: seq<Fault>)
    ensures |ExecutedFrom(pending, faults)| == TotalExecuted(|pending|, faults)
    decreases |faults|
  {
    if faults != [] { ExecutedLength(pending[RecordedCount(|pending|, faults[0])..], faults[1..]); }
  }

  lemma {:induction false} ExecutedMembers(pending: seq<MigrationFile>, faults: seq<Fault>)
    ensures forall f :: f in ExecutedFrom(pending, faults) ==> f in pending
    ensures ExecutedFrom(pending, faults) != [] ==> pending != [] && ExecutedFrom(pending, faults)[0] == pending[0]
    decreases |faults|
  {
    if faults != [] {
      ExecutedMembers(pending[RecordedCount(|pending|, faults[0])..], faults[1..]);
    }
  }

  /** Executions outnumber records exactly when a record is lost. */
  lemma {:induction false} LostRecords(pending: seq<MigrationFile>, faults: seq<Fault>)
    ensures TotalExecuted(|pending|, faults) >= TotalRecorded(|pending|, faults)
    ensures TotalExecuted(|pending|, faults) == TotalRecorded(|pending|, faults) <==> !SomeRunLoses(|pending|, faults)
    ensures !SomeRunLoses(|pending|, faults) ==>
              ExecutedFrom(pending, faults) == pending[..TotalRecorded(|pending|, faults)]
    decreases |faults|
  {
    if faults != [] {
      var k := RecordedCount(|pending|, faults[0]);
      LostRecords(pending[k..], faults[1..]);
      RestOf(pending, k, pending[k..], TotalRecorded(|pending| - k, faults[1..]));
    }
  }

  lemma {:induction false} ExecutedDistinct(pending: seq<MigrationFile>, faults: seq<Fault>)
    requires DistinctIds(pending)
    ensures DistinctIds(ExecutedFrom(pending, faults)) <==> !LosesThenExecutes(|pending|, faults)
    decreases |faults|
  {
    if faults != [] {
      var n := |pending|;
      var k, e := RecordedCount(n, faults[0]), ExecutedCount(n, faults[0]);
      var left, all := pending[k..], ExecutedFrom(pending, faults);
      var later := ExecutedFrom(left, faults[1..]);
      ExecutedDistinct(left, faults[1..]);
      ExecutedMembers(left, faults[1..]);
      ExecutedLength(left, faults[1..]);
      if e == k {
        DistinctParts(pending, k, later);
      } else if later != [] {
        assert all[k] == pending[k] == all[e];
      }
      if later == [] { NothingTwice(n - k, faults[1..]); }
    }
  }

  lemma {:induction false} NothingTwice(n: nat, faults: seq<Fault>)
    requires TotalExecuted(n, faults) == 0
    ensures !LosesThenExecutes(n, faults)
    decreases |faults|
  {
    if faults != [] { NothingTwice(n - RecordedCount(n, faults[0]), faults[1..]); }
  }

  lemma DistinctParts(pending: seq<MigrationFile>, k: nat, later: seq<MigrationFile>)
    requires DistinctIds(pending) && k <= |pending| && forall f :: f in later ==> f in pending[k..]
    ensures DistinctIds(pending[..k] + later) <==> DistinctIds(later)
  {
    var all := pending[..k] + later;
    forall i, j | 0 <= i < k && k <= j < |all| ensures all[i].migrationId != all[j].migrationId {
      assert all[j] == later[j - k] && later[j - k] in later;
      var m :| 0 <= m < |pending[k..]| && pending[k..][m] == all[j];
      assert pending[k + m] == all[j];
    }
    assert forall j :: 0 <= j < |later| ==> all[k + j] == later[j];
    if DistinctIds(all) {
      forall i, j | 0 <= i < j < |later| ensures later[i].migrationId != later[j].migrationId {
        assert all[k + i].migrationId != all[k + j].migrationId;
      }
    }
  }

  /**
   * Executions and records agree exactly when no run loses a record, and no
   * migration is executed twice exactly when no run executes after one that lost
   * a record. Both conditions can be read off the faults and the number pending.
   */
  lemma RunsExecuteOnce(files: seq<MigrationFile>, applied: AppliedMap, faults: seq<Fault>)
    requires DistinctIds(files)
    ensures var n := |Executable(files, applied)|;
            && (ExecutedByRuns(files, applied, faults) == RecordedByRuns(files, applied, faults) <==>
                !SomeRunLoses(n, faults))
            && (DistinctIds(ExecutedByRuns(files, applied, faults)) <==> !LosesThenExecutes(n, faults))
  {
    var pending := Executable(files, applied);
    PendingDistinct(files, applied);
    RunsExecute(files, applied, faults);
    ExecutedLength(pending, faults);
    LostRecords(pending, faults);
    ExecutedDistinct(pending, faults);
  }

  lemma FinishedRun(pending: seq<MigrationFile>, faults: seq<Fault>)
    requires |faults| == 1 && faults[0] == NoFault
    ensures ExecutedFrom(pending, faults) == pending && TotalRecorded(|pending|, faults) == |pending|
  {
    assert faults[1..] == [] && pending[..|pending|] == pending;
  }

  lemma LostThenFinished(pending: seq<MigrationFile>, faults: seq<Fault>)
    requires pending != [] && |faults| == 2 && faults[0] == RecordFails(0) && faults[1] == NoFault
    ensures ExecutedFrom(pending, faults) == [pending[0]] + pending && TotalRecorded(|pending|, faults) == |pending|
  {
    FinishedRun(pending, faults[1..]);
    assert pending[0..] == pending && pending[..1] == [pending[0]];
  }

  /** A migration whose record is lost is executed by the next run again. */
  lemma LostRecordExecutesAgain(files: seq<MigrationFile>, applied: AppliedMap)
    requires DistinctIds(files) && Drift(files, applied) == [] && Pending(files, applied) != []
    ensures var pending := Pending(files, applied);
            ExecutedByRuns(files, applied, [RecordFails(0), NoFault]) == [pending[0]] + pending &&
            RecordedByRuns(files, applied, [RecordFails(0), NoFault]) == pending
  {
    RunsExecute(files, applied, [RecordFails(0), NoFault]);
    LostThenFinished(Pending(files, applied), [RecordFails(0), NoFault]);
  }

  /** A run without a fault finishes the work, whatever failed before: nothing stays pending and verify is ok. */
  lemma SuccessMakesVerifyOk(files: seq<MigrationFile>, applied: AppliedMap, faults: seq<Fault>)
    requires DistinctIds(files) && Drift(files, applied) == []
    ensures var done := AfterApply(files, AfterRuns(files, applied, faults), NoFault);
            Pending(files, done) == [] && Drift(files, done) == []
  {
    RunsRecordPrefix(files, applied, faults);
    OneRun(files, AfterRuns(files, applied, faults), NoFault);
  }

  /** After a baseline nothing is pending, and verify is ok exactly when nothing had drifted before. */
  lemma BaselineLeavesDrift(files: seq<MigrationFile>, applied: AppliedMap)
    requires DistinctIds(files)
    ensures var after := Recording(applied, Pending(files, applied));
            Pending(files, after) == [] && (Drift(files, after) == [] <==> Drift(files, applied) == [])
  {
    var pending := Pending(files, applied);
    assert pending[..|pending|] == pending;
    PendingAfterPrefix(files, applied, |pending|);
    NoDriftAfterPrefix(files, applied, |pending|);
  }
}
