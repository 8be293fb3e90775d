/** The in-memory backup repository, object storage as a directory, and the service over both. */
module BackupService {
  import opened Outcomes
  import opened BackupModel

  class InMemoryBackupRepository {
    var policies: map<nat, Policy>
    var runs: map<nat, BackupRun>
    var artifacts: map<nat, Artifact>
    var restores: map<nat, RestoreRun>
    var nextId: nat

    constructor ()
      ensures policies == map[] && runs == map[] && artifacts == map[] && restores == map[] && nextId == 0
    {
      policies, runs, artifacts, restores, nextId := map[], map[], map[], map[], 0;
    }

    method AddPolicy(p: Policy) returns (id: nat)
      modifies this`policies, this`nextId
      ensures id == old(nextId) && nextId == id + 1 && policies == old(policies)[id := p]
    {
      id := nextId;
      policies := policies[id := p];
      nextId := nextId + 1;
    }

    method UpdatePolicyNextRun(id: nat, nextRunAt: int) returns (error: Option<BackupError>)
      modifies this`policies
      ensures id !in old(policies) ==> error == Some(PolicyNotFound) && policies == old(policies)
      ensures id in old(policies) ==>
                error == None &&
                policies == old(policies)[id := old(policies)[id].(nextRunAt := Some(nextRunAt))]
    {
      if id !in policies { return Some(PolicyNotFound); }
      policies := policies[id := policies[id].(nextRunAt := Some(nextRunAt))];
      return None;
    }

    method AddRun(run: BackupRun) returns (id: nat)
      modifies this`runs, this`nextId
      ensures id == old(nextId) && nextId == id + 1 && runs == old(runs)[id := run]
    {
      id := nextId;
      runs := runs[id := run];
      nextId := nextId + 1;
    }

    method UpdateRun(id: nat, run: BackupRun)
      modifies this`runs
      ensures runs == old(runs)[id := run]
    {
      runs := runs[id := run];
    }

    method AddArtifact(a: Artifact) returns (id: nat)
      modifies this`artifacts, this`nextId
      ensures id == old(nextId) && nextId == id + 1 && artifacts == old(artifacts)[id := a]
    {
      id := nextId;
      artifacts := artifacts[id := a];
      nextId := nextId + 1;
    }

    method UpdateArtifactStatus(id: nat, status: ArtifactStatus) returns (error: Option<BackupError>)
      modifies this`artifacts
      ensures id !in old(artifacts) ==> error == Some(ArtifactNotFound) && artifacts == old(artifacts)
      ensures id in old(artifacts) ==>
                error == None &&
                artifacts == old(artifacts)[id := old(artifacts)[id].(status := status)]
    {
      if id !in artifacts { return Some(ArtifactNotFound); }
      artifacts := artifacts[id := artifacts[id].(status := status)];
      return None;
    }

    method AddRestore(r: RestoreRun) returns (id: nat)
      modifies this`restores, this`nextId
      ensures id == old(nextId) && nextId == id + 1 && restores == old(restores)[id := r]
    {
      id := nextId;
      restores := restores[id := r];
      nextId := nextId + 1;
    }

    method UpdateRestore(id: nat, r: RestoreRun)
      modifies this`restores
      ensures restores == old(restores)[id := r]
    {
      restores := restores[id := r];
    }

    method GetArtifactByRun(runId: nat) returns (found: Option<nat>)
      ensures found == ArtifactFrom(artifacts, runId, 0, nextId)
      ensures found.Some? ==> found.value in artifacts
    {
      for i := 0 to nextId
        invariant ArtifactFrom(artifacts, runId, 0, nextId) == ArtifactFrom(artifacts, runId, i, nextId)
      {
        if i in artifacts && artifacts[i].runId == runId { return Some(i); }
      }
      return None;
    }

    method ListArtifacts(policyId: nat) returns (ids: seq<nat>)
      ensures ids == SortNewest(artifacts, ArtifactsOf(artifacts, policyId, nextId))
    {
      var found: seq<nat> := [];
      for i := 0 to nextId
        invariant found == ArtifactsOf(artifacts, policyId, i)
      {
        if i in artifacts && artifacts[i].policyId == policyId { found := found + [i]; }
      }
      ids := SortNewest(artifacts, found);
    }

    method ListPolicies() returns (ids: seq<nat>)
      ensures ids == SortByName(policies, PolicyIds(policies, nextId))
    {
      var found: seq<nat> := [];
      for i := 0 to nextId
        invariant found == PolicyIds(policies, i)
      {
        if i in policies { found := found + [i]; }
      }
      ids := SortByName(policies, found);
    }
  }

  class LocalDirectoryStorage {
    var files: map<Key, Bytes>

    constructor ()
      ensures files == map[]
    {
      files := map[];
    }

    method UploadFile(content: Bytes, key: Key)
      modifies this
      ensures files == old(files)[key := content]
    {
      files := files[key := content];
    }

    method DownloadFile(key: Key) returns (r: Result<Bytes, BackupError>)
      ensures r == if key in files then Ok(files[key]) else Err(ObjectMissing)
    {
      if key !in files { return Err(ObjectMissing); }
      return Ok(files[key]);
    }

    /** Deleting what is not there is no error; broken keys cannot be deleted. */
    method DeleteObject(key: Key, broken: set<Key>) returns (error: Option<BackupError>)
      modifies this
      ensures key in broken ==> error == Some(DeleteFailed(key)) && files == old(files)
      ensures key !in broken ==> error == None && files == old(files) - {key}
    {
      if key in broken { return Some(DeleteFailed(key)); }
      if key in files { files := files - {key}; } else { assert files - {key} == files; }
      return None;
    }
  }

  class Service {
    const repository: InMemoryBackupRepository
    const storage: LocalDirectoryStorage

    constructor (repository: InMemoryBackupRepository, storage: LocalDirectoryStorage)
      ensures this.repository == repository && this.storage == storage
    {
      this.repository, this.storage := repository, storage;
    }

    ghost function Contents(): State
      reads repository, storage
    {
      State(repository.policies, repository.runs, repository.artifacts, repository.restores, storage.files,
          repository.nextId)
    }

    method CreatePolicy(policy: Policy, now: int)
      modifies repository
      ensures Contents() == BackupModel.CreatePolicy(old(Contents()), policy, now)
    {
      var p := policy;
      if p.enabled && p.nextRunAt.None? { p := p.(nextRunAt := Some(now + p.intervalMinutes * MINUTE)); }
      var id := repository.AddPolicy(p);
    }

    method FailRun(runId: nat, run: BackupRun, fault: BackupError, now: int, ghost before: map<nat, BackupRun>)
      requires repository.runs == before[runId := run]
      modifies repository`runs
      ensures repository.runs == before[runId := run.(status := Failed, completedAt := Some(now), error := Some(fault))]
    {
      var failed := run.(status := Failed);
      failed := failed.(completedAt := Some(now));
      failed := failed.(error := Some(fault));
      repository.UpdateRun(runId, failed);
      assert before[runId := run][runId := failed] == before[runId := failed];
    }

    method FinishRun(runId: nat, run: BackupRun, size: nat, checksum: Digest, now: int,
            ghost before: map<nat, BackupRun>)
      requires repository.runs == before[runId := run]
      modifies repository`runs
      ensures repository.runs ==
              before[runId := run.(status := Succeeded, completedAt := Some(now), size := Some(size),
                                   checksum := Some(checksum))]
    {
      var finished := run.(status := Succeeded);
      finished := finished.(completedAt := Some(now));
      finished := finished.(size := Some(size));
      finished := finished.(checksum := Some(checksum));
      repository.UpdateRun(runId, finished);
      assert before[runId := run][runId := finished] == before[runId := finished];
    }

    method CreateBackup(policyId: nat, trigger: string, attempt: Attempt, now: int, sha: Hash)
      returns (result: Result<nat, BackupError>)
      modifies repository, storage
      ensures Outcome(Contents(), result) ==
              BackupModel.CreateBackup(old(Contents()), policyId, trigger, attempt, now, sha)
    {
      if policyId !in repository.policies { return Err(PolicyNotFound); }
      var policy := repository.policies[policyId];
      if !policy.enabled { return Err(PolicyDisabled); }
      var run := StartedRun(policyId, trigger, now);
      var runId := repository.AddRun(run);
      if attempt.NoConnection? {
        FailRun(runId, run, ConnectionUnresolved, now, old(repository.runs));
        return Err(ConnectionUnresolved);
      }
      if attempt.DumpFails? {
        FailRun(runId, run, CommandFailed, now, old(repository.runs));
        return Err(CommandFailed);
      }
      var key := KeyFor(policy, runId);
      if attempt.UploadFails? {
        if attempt.left.Some? { storage.UploadFile(attempt.left.value, key); }
        FailRun(runId, run, UploadFailed, now, old(repository.runs));
        return Err(UploadFailed);
      }
      var dump := attempt.dump;
      var checksum, size := sha(dump), |dump.content|;
      storage.UploadFile(dump, key);
      var expiresAt := None;
      if policy.retentionDays.Some? { expiresAt := Some(now + policy.retentionDays.value * DAY); }
      var artifactId := repository.AddArtifact(Artifact(runId, policyId, key, size, checksum, ActiveArtifact, now,
          expiresAt));
      FinishRun(runId, run, size, checksum, now, old(repository.runs));
      var updated := repository.UpdatePolicyNextRun(policyId, now + policy.intervalMinutes * MINUTE);
      return Ok(runId);
    }

    method VerifyBackup(runId: nat, commandOk: bool, now: int, sha: Hash) returns (result: Result<nat, BackupError>)
      modifies repository
      ensures Outcome(Contents(), result) == BackupModel.VerifyBackup(old(Contents()), runId, commandOk, now, sha)
    {
      if runId !in repository.runs { return Err(RunNotFound); }
      var run := repository.runs[runId];
      var found := repository.GetArtifactByRun(runId);
      if found.None? { return Err(ArtifactNotFound); }
      var artifact := repository.artifacts[found.value];
      if run.policyId !in repository.policies { return Err(PolicyNotFound); }
      var fault: Option<BackupError> := None;
      var local := storage.DownloadFile(artifact.storageKey);
      if local.Err? {
        fault := Some(local.error);
      } else if sha(local.value) != artifact.checksum {
        fault := Some(ChecksumMismatch);
      } else if !commandOk {
        fault := Some(CommandFailed);
      }
      if fault.Some? {
        repository.UpdateRun(runId, run.(verified := Some(false), error := fault));
        return Err(fault.value);
      }
      repository.UpdateRun(runId, run.(verified := Some(true), lastVerifiedAt := Some(now)));
      return Ok(runId);
    }

    method RestoreBackup(runId: nat, q: RestoreRequest, now: int, sha: Hash)
      returns (result: Result<nat, BackupError>, loaded: Option<Bytes>)
      modifies repository
      ensures RestoreOutcome(Contents(), result, loaded) ==
              BackupModel.RestoreBackup(old(Contents()), runId, q, now, sha)
    {
      loaded := None;
      if runId !in repository.runs { return Err(RunNotFound), None; }
      if repository.runs[runId].status != Succeeded { return Err(NotSucceeded), None; }
      var found := repository.GetArtifactByRun(runId);
      if found.None? { return Err(ArtifactNotFound), None; }
      var artifact := repository.artifacts[found.value];
      if q.production && !q.allowProduction { return Err(ProductionRefused), None; }
      if !q.dryRun && !q.confirm { return Err(ConfirmRequired), None; }
      if !q.connectionOk { return Err(ConnectionUnresolved), None; }
      var local := storage.DownloadFile(artifact.storageKey);
      if local.Err? { return Err(local.error), None; }
      if sha(local.value) != artifact.checksum { return Err(ChecksumMismatch), None; }
      ghost var restores := repository.restores;
      var restore := RestoreRun(runId, if q.dryRun then DryRun else RestoreRunning, q.dryRun, now, None);
      var id := repository.AddRestore(restore);
      restore := restore.(completedAt := Some(now));
      if q.dryRun {
        repository.UpdateRestore(id, restore);
        assert repository.restores == restores[id := restore];
        return Ok(id), None;
      }
      restore := restore.(status := if q.commandOk then RestoreSucceeded else RestoreFailed);
      repository.UpdateRestore(id, restore);
      assert repository.restores == restores[id := restore];
      return if q.commandOk then Ok(id) else Err(CommandFailed), Some(local.value);
    }

    method SelectActive(listed: seq<nat>) returns (active: seq<nat>)
      requires AllIn(listed, repository.artifacts)
      ensures active == FilterActive(repository.artifacts, listed)
    {
      active := [];
      for i := 0 to |listed|
        invariant AllIn(listed[i..], repository.artifacts)
        invariant active + FilterActive(repository.artifacts, listed[i..]) == FilterActive(repository.artifacts, listed)
      {
        assert listed[i..][1..] == listed[i + 1..] && listed[i..][0] == listed[i];
        if repository.artifacts[listed[i]].status == ActiveArtifact { active := active + [listed[i]]; }
      }
      assert listed[|listed|..] == [] && active + [] == active;
    }

    /** The artifacts to expire: the sorted active ones beyond the count or the age. */
    method SelectExpired(policyId: nat, now: int) returns (expired: seq<nat>)
      requires policyId in repository.policies
      ensures expired == ToExpire(Contents(), policyId, now)
    {
      var policy, artifacts := repository.policies[policyId], repository.artifacts;
      var listed := repository.ListArtifacts(policyId);
      var active := SelectActive(listed);
      active := SortNewest(artifacts, active);
      expired := [];
      for index := 0 to |active|
        invariant AllIn(active[index..], artifacts)
        invariant expired + Expired(artifacts, policy, active[index..], index, now) ==
                Expired(artifacts, policy, active, 0, now)
      {
        assert active[index..][1..] == active[index + 1..] && active[index..][0] == active[index];
        var byCount := policy.retentionCount.Some? && index >= policy.retentionCount.value;
        var a := artifacts[active[index]];
        var byAge := policy.retentionDays.Some? && a.expiresAt.Some? && a.expiresAt.value <= now;
        if byCount || byAge { expired := expired + [active[index]]; }
      }
      assert active[|active|..] == [] && expired + [] == expired;
    }

    method ApplyRetention(policyId: nat, broken: set<Key>, now: int) returns (result: Result<seq<nat>, BackupError>)
      modifies repository, storage
      ensures Outcome(Contents(), result) == BackupModel.ApplyRetention(old(Contents()), policyId, broken, now)
    {
      if policyId !in repository.policies { return Err(PolicyNotFound); }
      var delete := repository.policies[policyId].deleteExpired;
      var expired := SelectExpired(policyId, now);
      ghost var start := Contents();
      for i := 0 to |expired|
        invariant AllIn(expired[i..], repository.artifacts)
        invariant ExpireAll(start, expired, delete, broken) == ExpireAll(Contents(), expired[i..], delete, broken)
        invariant repository.policies == old(repository.policies)
      {
        var id, key := expired[i], repository.artifacts[expired[i..][0]].storageKey;
        ghost var before := Contents();
        assert expired[i..][1..] == expired[i + 1..] && expired[i..][0] == id;
        var marked := repository.UpdateArtifactStatus(id, ExpiredArtifact);
        if delete {
          var fault := storage.DeleteObject(key, broken);
          if fault.Some? {
            assert Outcome(Contents(), Err(fault.value)) == ExpireOne(before, id, delete, broken);
            return Err(fault.value);
          }
          var deleted := repository.UpdateArtifactStatus(id, DeletedArtifact);
        }
        assert Outcome(Contents(), Ok(())) == ExpireOne(before, id, delete, broken);
      }
      return Ok(expired);
    }

    method SelectDue(now: int) returns (due: seq<nat>)
      ensures due == DuePolicies(Contents(), now)
    {
      var listed := repository.ListPolicies();
      var policies := repository.policies;
      due := [];
      for i := 0 to |listed|
        invariant AllPolicies(listed[i..], policies)
        invariant due + FilterDue(policies, listed[i..], now) == FilterDue(policies, listed, now)
      {
        assert listed[i..][1..] == listed[i + 1..] && listed[i..][0] == listed[i];
        if IsDue(policies[listed[i]], now) { due := due + [listed[i]]; }
      }
      assert listed[|listed|..] == [] && due + [] == due;
    }

    method RunDue(attempts: nat -> Attempt, now: int, sha: Hash) returns (made: seq<nat>)
      modifies repository, storage
      ensures (Contents(), made) == BackupModel.RunDue(old(Contents()), attempts, now, sha)
    {
      var due := SelectDue(now);
      ghost var all := BackUpAll(Contents(), due, attempts, now, sha);
      made := [];
      assert due[0..] == due && [] + all.1 == all.1;
      for i := 0 to |due|
        invariant Remains(all, Contents(), due[i..], made, attempts, now, sha)
      {
        assert due[i..][1..] == due[i + 1..] && due[i..][0] == due[i];
        ghost var st, before := Contents(), made;
        var one := CreateBackup(due[i], "scheduled", attempts(due[i]), now, sha);
        if one.Ok? { made := made + [one.value]; }
        RemainsStep(all, st, due[i..], before, attempts, now, sha, Outcome(Contents(), one), made);
      }
      assert due[|due|..] == [] && made + [] == made;
    }
  }

  /** What is still to do completes what was made so far. */
  ghost predicate Remains(all: (State, seq<nat>), st: State, ids: seq<nat>, made: seq<nat>,
          attempts: nat -> Attempt, now: int, sha: Hash) {
    var rest := BackUpAll(st, ids, attempts, now, sha);
    all == (rest.0, made + rest.1)
  }

  lemma RemainsStep(all: (State, seq<nat>), st: State, ids: seq<nat>, made: seq<nat>, attempts: nat -> Attempt,
          now: int, sha: Hash, one: Outcome<nat>, made': seq<nat>)
    requires ids != [] && Remains(all, st, ids, made, attempts, now, sha)
    requires one == BackupModel.CreateBackup(st, ids[0], "scheduled", attempts(ids[0]), now, sha)
    requires made' == if one.result.Ok? then made + [one.result.value] else made
    ensures Remains(all, one.state, ids[1..], made', attempts, now, sha)
  {
    var rest := BackUpAll(one.state, ids[1..], attempts, now, sha);
    var x := if one.result.Ok? then [one.result.value] else [];
    assert made' == made + x;
    assert made + (x + rest.1) == (made + x) + rest.1;
  }
}
