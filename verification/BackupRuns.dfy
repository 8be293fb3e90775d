/** Runs of backup operations: what holds in every state they reach, and what each operation then answers. */
module BackupRuns {
  import opened Outcomes
  import opened BackupModel
  import opened BackupProofs
  import opened RetentionProofs

  // ----- Verification and restore -----

  lemma {:induction false} ArtifactFromMeans(artifacts: map<nat, Artifact>, runId: nat, from: nat, end: nat)
    ensures match ArtifactFrom(artifacts, runId, from, end)
            case None => forall id :: from <= id < end && id in artifacts ==> artifacts[id].runId != runId
            case Some(id) => from <= id < end && id in artifacts && artifacts[id].runId == runId
    decreases end - from
  {
    if from < end {
      ArtifactFromMeans(artifacts, runId, from + 1, end);
    }
  }

  /** The run has an artifact that was not deleted. */
  ghost predicate Restorable(st: State, runId: nat) {
    exists id :: id in st.artifacts && st.artifacts[id].runId == runId && st.artifacts[id].status != DeletedArtifact
  }

  /** A succeeded run has exactly one artifact, whose object can be fetched, intact, exactly when it was not deleted. */
  lemma FetchMeans(st: State, runId: nat, sha: Hash)
    requires Inv(st, sha)
    ensures var found := ArtifactByRun(st, runId);
            && (found.Some? <==> runId in st.runs && st.runs[runId].status == Succeeded)
            && (found.Some? ==>
                  && found.value in st.artifacts && st.runs[runId].policyId in st.policies
                  && (Restorable(st, runId) <==> st.artifacts[found.value].status != DeletedArtifact)
                  && (var a := st.artifacts[found.value];
                      Fetch(st, a, sha) ==
                        (if Restorable(st, runId) then Ok(st.storage[a.storageKey]) else Err(ObjectMissing))
                      && st.runs[runId].checksum == Some(a.checksum)))
  {
    var found := ArtifactByRun(st, runId);
    ArtifactFromMeans(st.artifacts, runId, 0, st.nextId);
    if runId in st.runs && st.runs[runId].status == Succeeded {
      assert HasArtifact(st, runId);
      var id :| id in st.artifacts && st.artifacts[id].runId == runId;
      assert ArtifactOk(st, id, st.artifacts[id]);
    }
    if found.Some? {
      assert OfRun(st, st.artifacts[found.value]) && ObjectOk(st.storage, st.artifacts[found.value], sha);
      assert RunOk(st, runId, st.runs[runId]);
    }
  }

  /** In a reachable state a verification never finds a damaged object, and says exactly what is missing otherwise. */
  lemma VerifyMeans(st: State, runId: nat, commandOk: bool, now: int, sha: Hash)
    requires Inv(st, sha)
    ensures VerifyBackup(st, runId, commandOk, now, sha).result ==
            if runId !in st.runs then Err(RunNotFound)
            else if st.runs[runId].status != Succeeded then Err(ArtifactNotFound)
            else if !Restorable(st, runId) then Err(ObjectMissing)
            else if !commandOk then Err(CommandFailed)
            else Ok(runId)
  {
    FetchMeans(st, runId, sha);
  }

  /** The requests that the safety gates let through to the target. */
  predicate MayLoad(q: RestoreRequest) {
    !q.dryRun && q.confirm && (q.production ==> q.allowProduction) && q.connectionOk
  }

  /**
   * In a reachable state something is loaded exactly for a confirmed, permitted
   * restore of a run whose artifact was kept, and it is what that run recorded.
   */
  lemma RestoreMeans(st: State, runId: nat, q: RestoreRequest, now: int, sha: Hash)
    requires Inv(st, sha)
    ensures var o := RestoreBackup(st, runId, q, now, sha);
            && (o.loaded.Some? <==>
                  MayLoad(q) && runId in st.runs && st.runs[runId].status == Succeeded &&
                  Restorable(st, runId))
            && (o.loaded.Some? ==> st.runs[runId].checksum == Some(sha(o.loaded.value)))
            && (o.result.Ok? <==>
                  && runId in st.runs && st.runs[runId].status == Succeeded && Restorable(st, runId)
                  && (q.production ==> q.allowProduction) && q.connectionOk && (q.dryRun || (q.confirm && q.commandOk)))
            && (o.result.Err? && o.loaded.None? ==>
                o.state == st && o.result.error != ChecksumMismatch && o.result.error != ArtifactNotFound)
  {
    FetchMeans(st, runId, sha);
    ArtifactFromMeans(st.artifacts, runId, 0, st.nextId);
    if ArtifactByRun(st, runId).Some? {
      assert ObjectOk(st.storage, st.artifacts[ArtifactByRun(st, runId).value], sha);
    }
  }

  // ----- Scheduled runs -----

  lemma {:induction false} PolicyIdsMean(policies: map<nat, Policy>, end: nat)
    ensures Ascending(PolicyIds(policies, end))
    ensures forall id :: id in PolicyIds(policies, end) <==> id in policies && id < end
  {
    if end > 0 {
      PolicyIdsMean(policies, end - 1);
      var before := PolicyIds(policies, end - 1);
      assert forall i :: 0 <= i < |before| ==> before[i] in before;
    }
  }

  lemma {:induction false} InsertByNameMembers(policies: map<nat, Policy>, id: nat, sorted: seq<nat>)
    requires id in policies && AllPolicies(sorted, policies) && id !in sorted && Distinct(sorted)
    ensures forall x :: x in InsertByName(policies, id, sorted) <==> x == id || x in sorted
    ensures Distinct(InsertByName(policies, id, sorted))
  {
    if sorted != [] {
      assert sorted == [sorted[0]] + sorted[1..];
      assert forall i :: 0 < i < |sorted| ==> sorted[1..][i - 1] == sorted[i];
      assert sorted[0] !in sorted[1..];
      InsertByNameMembers(policies, id, sorted[1..]);
      var rest := InsertByName(policies, id, sorted[1..]);
      forall j | 0 <= j < |rest| ensures rest[j] != sorted[0] { assert rest[j] in rest; }
    }
  }

  lemma {:induction false} SortByNameMembers(policies: map<nat, Policy>, ids: seq<nat>)
    requires AllPolicies(ids, policies) && Ascending(ids)
    ensures forall x :: x in SortByName(policies, ids) <==> x in ids
    ensures Distinct(SortByName(policies, ids))
  {
    if ids != [] {
      SortByNameMembers(policies, ids[1..]);
      assert ids == [ids[0]] + ids[1..] && ids[0] !in ids[1..];
      InsertByNameMembers(policies, ids[0], SortByName(policies, ids[1..]));
    }
  }

  lemma {:induction false} FilterDueMembers(policies: map<nat, Policy>, ids: seq<nat>, now: int)
    requires AllPolicies(ids, policies) && Distinct(ids)
    ensures forall x :: x in FilterDue(policies, ids, now) <==> x in ids && IsDue(policies[x], now)
    ensures Distinct(FilterDue(policies, ids, now))
  {
    if ids != [] {
      var rest := FilterDue(policies, ids[1..], now);
      assert forall i :: 0 < i < |ids| ==> ids[1..][i - 1] == ids[i];
      FilterDueMembers(policies, ids[1..], now);
      assert ids == [ids[0]] + ids[1..] && ids[0] !in ids[1..];
      forall j | 0 <= j < |rest| ensures rest[j] != ids[0] { assert rest[j] in rest; }
    }
  }

  lemma DuePoliciesMean(st: State, now: int)
    requires Runs(st)
    ensures Distinct(DuePolicies(st, now))
    ensures forall id :: id in DuePolicies(st, now) <==> id in st.policies && IsDue(st.policies[id], now)
  {
    var ids := PolicyIds(st.policies, st.nextId);
    PolicyIdsMean(st.policies, st.nextId);
    SortByNameMembers(st.policies, ids);
    FilterDueMembers(st.policies, SortByName(st.policies, ids), now);
  }

  /** A completed backup schedules its policy's next run; nothing else touches a policy. */
  function Rescheduled(p: Policy, attempt: Attempt, now: int): Policy {
    if p.enabled && attempt.Completes? then p.(nextRunAt := Some(now + p.intervalMinutes * MINUTE)) else p
  }

  lemma BackupReschedules(st: State, policyId: nat, trigger: string, attempt: Attempt, now: int, sha: Hash)
    requires policyId in st.policies
    ensures var next := CreateBackup(st, policyId, trigger, attempt, now, sha).state;
            next.policies == st.policies[policyId := Rescheduled(st.policies[policyId], attempt, now)]
  {
    var p := st.policies[policyId];
    assert st.policies[policyId := p] == st.policies;
  }

  lemma {:induction false} BackUpAllReschedules(st: State, ids: seq<nat>, attempts: nat -> Attempt, now: int, sha: Hash)
    requires AllPolicies(ids, st.policies) && Distinct(ids)
    ensures var after := BackUpAll(st, ids, attempts, now, sha).0;
            after.policies.Keys == st.policies.Keys &&
            forall q :: q in st.policies ==>
                  after.policies[q] ==
                  if q in ids then Rescheduled(st.policies[q], attempts(q), now) else st.policies[q]
    decreases |ids|
  {
    if ids != [] {
      var one := CreateBackup(st, ids[0], "scheduled", attempts(ids[0]), now, sha).state;
      BackupReschedules(st, ids[0], "scheduled", attempts(ids[0]), now, sha);
      assert forall i :: 0 < i < |ids| ==> ids[1..][i - 1] == ids[i];
      assert ids == [ids[0]] + ids[1..] && ids[0] !in ids[1..];
      BackUpAllReschedules(one, ids[1..], attempts, now, sha);
    }
  }

  /** After a scheduled pass the policies still due are exactly those that were due and whose backup failed. */
  lemma DueAfterPass(st: State, attempts: nat -> Attempt, now: int, sha: Hash)
    requires Runs(st)
    ensures var after := RunDue(st, attempts, now, sha).0;
            after.policies.Keys == st.policies.Keys &&
            forall q :: q in st.policies ==>
              (IsDue(after.policies[q], now) <==> IsDue(st.policies[q], now) && !attempts(q).Completes?)
  {
    var ids := DuePolicies(st, now);
    DuePoliciesMean(st, now);
    forall i | 0 <= i < |ids| ensures ids[i] in st.policies { assert ids[i] in ids; }
    BackUpAllReschedules(st, ids, attempts, now, sha);
  }

  /** The runs of a policy. */
  ghost function RunsOf(runs: map<nat, BackupRun>, q: nat): set<nat> { set r | r in runs && runs[r].policyId == q }

  lemma RunAdded(runs: map<nat, BackupRun>, id: nat, run: BackupRun, q: nat)
    requires id !in runs
    ensures |RunsOf(runs[id := run], q)| == |RunsOf(runs, q)| + if q == run.policyId then 1 else 0
  {
    if q == run.policyId {
      assert RunsOf(runs[id := run], q) == RunsOf(runs, q) + {id};
    } else {
      assert RunsOf(runs[id := run], q) == RunsOf(runs, q);
    }
  }

  lemma BackupAddsRun(st: State, policyId: nat, trigger: string, attempt: Attempt, now: int, sha: Hash, q: nat)
    requires Runs(st) && policyId in st.policies && st.policies[policyId].enabled
    ensures |RunsOf(CreateBackup(st, policyId, trigger, attempt, now, sha).state.runs, q)| ==
            |RunsOf(st.runs, q)| + if q == policyId then 1 else 0
  {
    var next := CreateBackup(st, policyId, trigger, attempt, now, sha).state;
    assert st.nextId in st.runs ==> RunOk(st, st.nextId, st.runs[st.nextId]);
    RunAdded(st.runs, st.nextId, next.runs[st.nextId], q);
  }

  lemma {:induction false} BackUpAllAddsRuns(st: State, ids: seq<nat>, attempts: nat -> Attempt, now: int,
          sha: Hash, q: nat)
    requires Inv(st, sha) && AllPolicies(ids, st.policies) && Distinct(ids)
    requires forall i :: 0 <= i < |ids| ==> st.policies[ids[i]].enabled
    ensures var after := BackUpAll(st, ids, attempts, now, sha).0;
            Inv(after, sha) && |RunsOf(after.runs, q)| == |RunsOf(st.runs, q)| + if q in ids then 1 else 0
    decreases |ids|
  {
    if ids != [] {
      var one := CreateBackup(st, ids[0], "scheduled", attempts(ids[0]), now, sha).state;
      CreateBackupKeeps(st, ids[0], "scheduled", attempts(ids[0]), now, sha);
      BackupReschedules(st, ids[0], "scheduled", attempts(ids[0]), now, sha);
      BackupAddsRun(st, ids[0], "scheduled", attempts(ids[0]), now, sha, q);
      assert forall i :: 0 < i < |ids| ==> ids[1..][i - 1] == ids[i];
      assert ids == [ids[0]] + ids[1..] && ids[0] !in ids[1..];
      BackUpAllAddsRuns(one, ids[1..], attempts, now, sha, q);
    }
  }

  /** A scheduled pass attempts each due policy exactly once, and no other. */
  lemma PassAttemptsEachOnce(st: State, attempts: nat -> Attempt, now: int, sha: Hash, q: nat)
    requires Inv(st, sha) && q in st.policies
    ensures var after := RunDue(st, attempts, now, sha).0;
            |RunsOf(after.runs, q)| == |RunsOf(st.runs, q)| + if IsDue(st.policies[q], now) then 1 else 0
  {
    var ids := DuePolicies(st, now);
    DuePoliciesMean(st, now);
    forall i | 0 <= i < |ids| ensures ids[i] in st.policies && st.policies[ids[i]].enabled { assert ids[i] in ids; }
    BackUpAllAddsRuns(st, ids, attempts, now, sha, q);
  }

  // ----- Whole runs -----

  datatype Step =
    | DefinePolicy(policy: Policy)
    | Backup(policyId: nat, trigger: string, attempt: Attempt)
    | Pass(attempts: nat -> Attempt)
    | Verify(runId: nat, commandOk: bool)
    | Restore(runId: nat, request: RestoreRequest)
    | Retain(policyId: nat, broken: set<Key>)

  function Apply(st: State, step: Step, now: int, sha: Hash): State {
    match step
    case DefinePolicy(p) => CreatePolicy(st, p, now)
    case Backup(policyId, trigger, attempt) => CreateBackup(st, policyId, trigger, attempt, now, sha).state
    case Pass(attempts) => RunDue(st, attempts, now, sha).0
    case Verify(runId, commandOk) => VerifyBackup(st, runId, commandOk, now, sha).state
    case Restore(runId, request) => RestoreBackup(st, runId, request, now, sha).state
    case Retain(policyId, broken) => ApplyRetention(st, policyId, broken, now).state
  }

  datatype TimedStep = TimedStep(step: Step, now: int)

  function Run(st: State, steps: seq<TimedStep>, sha: Hash): State
    decreases |steps|
  {
    if steps == [] then st else Run(Apply(st, steps[0].step, steps[0].now, sha), steps[1..], sha)
  }

  lemma {:induction false} VerifyKept(st: State, runId: nat, commandOk: bool, now: int, sha: Hash)
    ensures Kept(st, VerifyBackup(st, runId, commandOk, now, sha).state, sha)
  {
    var next := VerifyBackup(st, runId, commandOk, now, sha).state;
    if Inv(st, sha) && runId in st.runs && next != st { RecordRunKeeps(st, runId, next.runs[runId], sha); }
  }

  lemma {:induction false} RestoreKept(st: State, runId: nat, q: RestoreRequest, now: int, sha: Hash)
    ensures Kept(st, RestoreBackup(st, runId, q, now, sha).state, sha)
  {
    var next := RestoreBackup(st, runId, q, now, sha).state;
    if Inv(st, sha) && next != st { RecordRestoreKeeps(st, next.restores[st.nextId], sha); }
  }

  lemma {:induction false} RetainKept(st: State, policyId: nat, broken: set<Key>, now: int, sha: Hash)
    ensures Kept(st, ApplyRetention(st, policyId, broken, now).state, sha)
  {
    if Inv(st, sha) && policyId in st.policies {
      ToExpireMeans(st, policyId, now);
      ExpireAllKept(st, ToExpire(st, policyId, now), st.policies[policyId].deleteExpired, broken, sha);
    }
  }

  lemma {:induction false} CreateBackupKept(st: State, policyId: nat, trigger: string, attempt: Attempt, now: int,
          sha: Hash)
    ensures Kept(st, CreateBackup(st, policyId, trigger, attempt, now, sha).state, sha)
  {
    if Inv(st, sha) { CreateBackupKeeps(st, policyId, trigger, attempt, now, sha); }
  }

  lemma {:induction false} BackUpAllKept(st: State, ids: seq<nat>, attempts: nat -> Attempt, now: int, sha: Hash)
    ensures Kept(st, BackUpAll(st, ids, attempts, now, sha).0, sha)
    decreases |ids|
  {
    if ids != [] {
      var one := CreateBackup(st, ids[0], "scheduled", attempts(ids[0]), now, sha).state;
      CreateBackupKept(st, ids[0], "scheduled", attempts(ids[0]), now, sha);
      BackUpAllKept(one, ids[1..], attempts, now, sha);
      KeptTransitive(st, one, BackUpAll(one, ids[1..], attempts, now, sha).0, sha);
    }
  }

  lemma {:induction false} StepKept(st: State, step: Step, now: int, sha: Hash)
    ensures Kept(st, Apply(st, step, now, sha), sha)
  {
    match step {
      case DefinePolicy(p) => if Inv(st, sha) { CreatePolicyKeeps(st, p, now, sha); }
      case Backup(policyId, trigger, attempt) => CreateBackupKept(st, policyId, trigger, attempt, now, sha);
      case Pass(attempts) => BackUpAllKept(st, DuePolicies(st, now), attempts, now, sha);
      case Verify(runId, commandOk) => VerifyKept(st, runId, commandOk, now, sha);
      case Restore(runId, request) => RestoreKept(st, runId, request, now, sha);
      case Retain(policyId, broken) => RetainKept(st, policyId, broken, now, sha);
    }
  }

  /**
   * Over any run, with backups failing anywhere and deletions raising, records
   * and storage agree: every artifact not deleted has its object with the
   * recorded checksum, every deleted one has none, the succeeded runs are those
   * with an artifact, and no record is ever lost or revived.
   */
  lemma {:induction false} RunKept(st: State, steps: seq<TimedStep>, sha: Hash)
    ensures Kept(st, Run(st, steps, sha), sha)
    decreases |steps|
  {
    if steps != [] {
      var next := Apply(st, steps[0].step, steps[0].now, sha);
      StepKept(st, steps[0].step, steps[0].now, sha);
      RunKept(next, steps[1..], sha);
      KeptTransitive(st, next, Run(next, steps[1..], sha), sha);
    }
  }

  /** What an active artifact records can be fetched, intact, in every reachable state. */
  lemma ActiveIsStored(steps: seq<TimedStep>, sha: Hash, id: nat)
    ensures var st := Run(EMPTY, steps, sha);
            id in st.artifacts && st.artifacts[id].status == ActiveArtifact ==>
              var a := st.artifacts[id];
              a.storageKey in st.storage && sha(st.storage[a.storageKey]) == a.checksum &&
                  |st.storage[a.storageKey].content| == a.size
  {
    EmptyIsValid(sha);
    RunKept(EMPTY, steps, sha);
    var st := Run(EMPTY, steps, sha);
    if id in st.artifacts { assert ObjectOk(st.storage, st.artifacts[id], sha); }
  }
}
