/** Backup records and object storage agree in every reachable state. */
module BackupProofs {
  import opened Outcomes
  import opened BackupModel

  // ----- The invariant -----

  ghost predicate ArtifactOk(st: State, id: nat, a: Artifact) {
    && id < st.nextId && a.policyId in st.policies && a.storageKey.run == a.runId
    && var days := st.policies[a.policyId].retentionDays;
       a.expiresAt == if days.Some? then Some(a.createdAt + days.value * DAY) else None
  }

  /** Artifacts belong to known policies, under a key that names their run and with the expiry their policy gives. */
  ghost predicate Artifacts(st: State) { forall id :: id in st.artifacts ==> ArtifactOk(st, id, st.artifacts[id]) }

  ghost predicate RunOk(st: State, id: nat, r: BackupRun) {
    id < st.nextId && r.status != Running && r.policyId in st.policies
  }

  /** The run of an artifact succeeded, with its checksum and size. */
  ghost predicate OfRun(st: State, a: Artifact) {
    && a.runId in st.runs && st.runs[a.runId].status == Succeeded && st.runs[a.runId].policyId == a.policyId
    && st.runs[a.runId].checksum == Some(a.checksum) && st.runs[a.runId].size == Some(a.size)
  }

  ghost predicate HasArtifact(st: State, runId: nat) {
    exists id :: id in st.artifacts && st.artifacts[id].runId == runId
  }

  /** The succeeded runs are exactly those with an artifact, which is then the only one. */
  ghost predicate Runs(st: State) {
    && (forall id :: id in st.policies ==> id < st.nextId)
    && (forall r :: r in st.runs ==> RunOk(st, r, st.runs[r]))
    && (forall id :: id in st.artifacts ==> OfRun(st, st.artifacts[id]))
    && (forall a, b :: a in st.artifacts && b in st.artifacts && st.artifacts[a].runId == st.artifacts[b].runId ==>
        a == b)
    && (forall r :: r in st.runs && st.runs[r].status == Succeeded ==> HasArtifact(st, r))
  }

  ghost predicate Intact(storage: map<Key, Bytes>, a: Artifact, sha: Hash) {
    a.storageKey in storage && sha(storage[a.storageKey]) == a.checksum && |storage[a.storageKey].content| == a.size
  }

  ghost predicate ObjectOk(storage: map<Key, Bytes>, a: Artifact, sha: Hash) {
    if a.status == DeletedArtifact then a.storageKey !in storage else Intact(storage, a, sha)
  }

  /** Every artifact that is not deleted has its object, with the recorded checksum and size; a deleted one has none. */
  ghost predicate Objects(st: State, sha: Hash) {
    forall id :: id in st.artifacts ==> ObjectOk(st.storage, st.artifacts[id], sha)
  }

  ghost predicate Inv(st: State, sha: Hash) { Artifacts(st) && Runs(st) && Objects(st, sha) }

  lemma EmptyIsValid(sha: Hash)
    ensures Inv(EMPTY, sha)
  {
  }

  lemma KeysDistinct(st: State, a: nat, b: nat)
    requires Artifacts(st) && Runs(st) && a in st.artifacts && b in st.artifacts &&
             st.artifacts[a].storageKey == st.artifacts[b].storageKey
    ensures a == b
  {
    assert ArtifactOk(st, a, st.artifacts[a]) && ArtifactOk(st, b, st.artifacts[b]);
  }

  /** The key of the next run is new. */
  lemma NextKeyIsNew(st: State, id: nat)
    requires Artifacts(st) && Runs(st) && id in st.artifacts
    ensures st.artifacts[id].storageKey.run != st.nextId
  {
    var a := st.artifacts[id];
    assert ArtifactOk(st, id, a) && OfRun(st, a) && RunOk(st, a.runId, st.runs[a.runId]);
  }

  // ----- Records only age -----

  function Age(s: ArtifactStatus): nat {
    match s
    case ActiveArtifact => 0
    case ExpiredArtifact => 1
    case DeletedArtifact => 2
  }

  ghost predicate ArtifactAges(st: State, next: State, id: nat)
    requires id in st.artifacts
  {
    id in next.artifacts && next.artifacts[id] == st.artifacts[id].(status := next.artifacts[id].status) &&
    Age(st.artifacts[id].status) <= Age(next.artifacts[id].status)
  }

  ghost predicate RunStands(st: State, next: State, id: nat)
    requires id in st.runs
  {
    id in next.runs && next.runs[id].status == st.runs[id].status && next.runs[id].policyId == st.runs[id].policyId &&
    next.runs[id].checksum == st.runs[id].checksum && next.runs[id].size == st.runs[id].size
  }

  /** No record is lost: artifacts only expire and get deleted, finished runs keep their outcome. */
  ghost predicate Ages(st: State, next: State) {
    && (forall id :: id in st.artifacts ==> ArtifactAges(st, next, id))
    && (forall id :: id in st.runs ==> RunStands(st, next, id))
  }

  lemma AgesTransitive(a: State, b: State, c: State)
    requires Ages(a, b) && Ages(b, c)
    ensures Ages(a, c)
  {
    forall id | id in a.artifacts ensures ArtifactAges(a, c, id) {
      assert ArtifactAges(a, b, id) && ArtifactAges(b, c, id);
    }
    forall id | id in a.runs ensures RunStands(a, c, id) { assert RunStands(a, b, id) && RunStands(b, c, id); }
  }

  // ----- Every operation keeps the invariant -----

  /** What an operation that adds records, and neither artifacts nor objects, leaves in place. */
  ghost predicate SameArtifacts(st: State, next: State) {
    && next.artifacts == st.artifacts && st.nextId <= next.nextId
    && (forall id :: id in st.policies ==> id in next.policies && next.policies[id] == st.policies[id])
  }

  lemma ArtifactsCarry(st: State, next: State)
    requires Artifacts(st) && SameArtifacts(st, next)
    ensures Artifacts(next)
  {
    forall id | id in next.artifacts ensures ArtifactOk(next, id, next.artifacts[id]) {
      assert ArtifactOk(st, id, st.artifacts[id]);
    }
  }

  lemma CreatePolicyKeeps(st: State, p: Policy, now: int, sha: Hash)
    requires Inv(st, sha)
    ensures Inv(CreatePolicy(st, p, now), sha) && Ages(st, CreatePolicy(st, p, now))
  {
    var next := CreatePolicy(st, p, now);
    assert SameArtifacts(st, next);
    ArtifactsCarry(st, next);
    RunsCarry(st, next);
  }

  lemma RunsCarry(st: State, next: State)
    requires Runs(st) && SameArtifacts(st, next) && next.runs == st.runs &&
            (forall id :: id in next.policies ==> id < next.nextId)
    ensures Runs(next)
  {
    forall r | r in next.runs ensures RunOk(next, r, next.runs[r]) { assert RunOk(st, r, st.runs[r]); }
    forall id | id in next.artifacts ensures OfRun(next, next.artifacts[id]) { assert OfRun(st, st.artifacts[id]); }
    forall r | r in next.runs && next.runs[r].status == Succeeded ensures HasArtifact(next, r) {
      assert HasArtifact(st, r);
    }
  }

  lemma FailKeepsRuns(st: State, policyId: nat, trigger: string, key: Key, left: Option<Bytes>, fault: BackupError,
          now: int)
    requires Runs(st) && policyId in st.policies
    ensures var next := FailBackup(st, policyId, trigger, key, left, fault, now); Runs(next) && Ages(st, next)
  {
    var next := FailBackup(st, policyId, trigger, key, left, fault, now);
    forall r | r in next.runs ensures RunOk(next, r, next.runs[r]) {
      if r != st.nextId { assert RunOk(st, r, st.runs[r]); }
    }
    forall id | id in next.artifacts ensures OfRun(next, next.artifacts[id]) {
      assert OfRun(st, st.artifacts[id]) && RunOk(st, st.artifacts[id].runId, st.runs[st.artifacts[id].runId]);
    }
    forall r | r in next.runs && next.runs[r].status == Succeeded ensures HasArtifact(next, r) {
      assert RunOk(st, r, st.runs[r]) && HasArtifact(st, r);
    }
    forall id | id in st.runs ensures RunStands(st, next, id) { assert RunOk(st, id, st.runs[id]); }
  }

  lemma FailKeeps(st: State, policyId: nat, trigger: string, key: Key, left: Option<Bytes>, fault: BackupError,
          now: int, sha: Hash)
    requires Inv(st, sha) && policyId in st.policies && key.run == st.nextId
    ensures var next := FailBackup(st, policyId, trigger, key, left, fault, now);
            Inv(next, sha) && Ages(st, next)
  {
    var next := FailBackup(st, policyId, trigger, key, left, fault, now);
    FailKeepsRuns(st, policyId, trigger, key, left, fault, now);
    ArtifactsCarry(st, next);
    forall id | id in next.artifacts ensures ObjectOk(next.storage, next.artifacts[id], sha) {
      NextKeyIsNew(st, id);
      assert ObjectOk(st.storage, st.artifacts[id], sha);
    }
  }

  lemma FinishKeepsArtifacts(st: State, policyId: nat, trigger: string, a: Artifact, dump: Bytes, now: int)
    requires Artifacts(st) && Runs(st) && policyId in st.policies && a.policyId == policyId
    requires ArtifactOk(st, st.nextId - 1, a)
    ensures var next := FinishBackup(st, policyId, st.policies[policyId], trigger, a, dump, now);
            Artifacts(next) && Ages(st, next)
  {
    var next := FinishBackup(st, policyId, st.policies[policyId], trigger, a, dump, now);
    forall id | id in next.artifacts ensures ArtifactOk(next, id, next.artifacts[id]) {
      if id != st.nextId + 1 { assert ArtifactOk(st, id, st.artifacts[id]); }
    }
    forall id | id in st.artifacts ensures ArtifactAges(st, next, id) { assert ArtifactOk(st, id, st.artifacts[id]); }
    forall id | id in st.runs ensures RunStands(st, next, id) { assert RunOk(st, id, st.runs[id]); }
  }

  lemma EarlierArtifact(st: State, id: nat)
    requires Artifacts(st) && Runs(st) && id in st.artifacts
    ensures id < st.nextId && st.artifacts[id].runId < st.nextId && OfRun(st, st.artifacts[id])
  {
    assert ArtifactOk(st, id, st.artifacts[id]) && OfRun(st, st.artifacts[id]);
    assert RunOk(st, st.artifacts[id].runId, st.runs[st.artifacts[id].runId]);
  }

  lemma FinishKeepsRuns(st: State, policyId: nat, trigger: string, a: Artifact, dump: Bytes, now: int)
    requires Artifacts(st) && Runs(st) && policyId in st.policies && a.policyId == policyId && a.runId == st.nextId
    ensures Runs(FinishBackup(st, policyId, st.policies[policyId], trigger, a, dump, now))
  {
    var next := FinishBackup(st, policyId, st.policies[policyId], trigger, a, dump, now);
    forall r | r in next.runs ensures RunOk(next, r, next.runs[r]) {
      if r != st.nextId { assert RunOk(st, r, st.runs[r]); }
    }
    forall id | id in st.artifacts ensures OfRun(next, st.artifacts[id]) { EarlierArtifact(st, id); }
    assert next.artifacts[st.nextId + 1] == a && OfRun(next, a);
    forall x, y | x in next.artifacts && y in next.artifacts && next.artifacts[x].runId == next.artifacts[y].runId
      ensures x == y {
      if x in st.artifacts { EarlierArtifact(st, x); }
      if y in st.artifacts { EarlierArtifact(st, y); }
    }
    forall r | r in next.runs && next.runs[r].status == Succeeded ensures HasArtifact(next, r) {
      if r != st.nextId {
        assert HasArtifact(st, r);
        var id :| id in st.artifacts && st.artifacts[id].runId == r;
        assert next.artifacts[id] == st.artifacts[id];
      }
    }
  }

  lemma FinishKeepsObjects(st: State, policyId: nat, trigger: string, a: Artifact, dump: Bytes, now: int, sha: Hash)
    requires Artifacts(st) && Runs(st) && Objects(st, sha) && policyId in st.policies
    requires a.storageKey.run == st.nextId && a.checksum == sha(dump) && a.size == |dump.content| &&
             a.status == ActiveArtifact
    ensures Objects(FinishBackup(st, policyId, st.policies[policyId], trigger, a, dump, now), sha)
  {
    var next := FinishBackup(st, policyId, st.policies[policyId], trigger, a, dump, now);
    forall id | id in next.artifacts ensures ObjectOk(next.storage, next.artifacts[id], sha) {
      if id != st.nextId + 1 {
        NextKeyIsNew(st, id);
        assert ObjectOk(st.storage, st.artifacts[id], sha);
      }
    }
  }

  lemma CreateBackupKeeps(st: State, policyId: nat, trigger: string, attempt: Attempt, now: int, sha: Hash)
    requires Inv(st, sha)
    ensures var next := CreateBackup(st, policyId, trigger, attempt, now, sha).state; Inv(next, sha) && Ages(st, next)
  {
    if policyId in st.policies && st.policies[policyId].enabled {
      if attempt.Completes? {
        var a := NewArtifact(st.policies[policyId], policyId, st.nextId, attempt.dump, now, sha);
        FinishKeepsArtifacts(st, policyId, trigger, a, attempt.dump, now);
        FinishKeepsRuns(st, policyId, trigger, a, attempt.dump, now);
        FinishKeepsObjects(st, policyId, trigger, a, attempt.dump, now, sha);
      } else {
        FailKeeps(st, policyId, trigger, KeyFor(st.policies[policyId], st.nextId), LeftBy(attempt), FaultOf(attempt),
            now, sha);
      }
    }
  }

  lemma RecordRunKeepsRuns(st: State, runId: nat, run: BackupRun)
    requires Runs(st) && runId in st.runs
    requires run == st.runs[runId].(verified := run.verified, error := run.error, lastVerifiedAt := run.lastVerifiedAt)
    ensures Runs(RecordRun(st, runId, run))
  {
    var next := RecordRun(st, runId, run);
    forall r | r in next.runs ensures RunOk(next, r, next.runs[r]) { assert RunOk(st, r, st.runs[r]); }
    forall id | id in next.artifacts ensures OfRun(next, next.artifacts[id]) { assert OfRun(st, st.artifacts[id]); }
    forall r | r in next.runs && next.runs[r].status == Succeeded ensures HasArtifact(next, r) {
      assert HasArtifact(st, r);
    }
  }

  /** A verification only writes its verdict on the run. */
  lemma RecordRunKeeps(st: State, runId: nat, run: BackupRun, sha: Hash)
    requires Inv(st, sha) && runId in st.runs
    requires run == st.runs[runId].(verified := run.verified, error := run.error, lastVerifiedAt := run.lastVerifiedAt)
    ensures Inv(RecordRun(st, runId, run), sha) && Ages(st, RecordRun(st, runId, run))
  {
    var next := RecordRun(st, runId, run);
    ArtifactsCarry(st, next);
    RecordRunKeepsRuns(st, runId, run);
  }

  lemma RecordRestoreKeeps(st: State, restore: RestoreRun, sha: Hash)
    requires Inv(st, sha)
    ensures Inv(RecordRestore(st, restore), sha) && Ages(st, RecordRestore(st, restore))
  {
    var next := RecordRestore(st, restore);
    ArtifactsCarry(st, next);
    RunsCarry(st, next);
  }

  lemma SetStatusKeepsArtifacts(st: State, id: nat, status: ArtifactStatus)
    requires Artifacts(st) && id in st.artifacts && Age(st.artifacts[id].status) <= Age(status)
    ensures Artifacts(SetStatus(st, id, status)) && Ages(st, SetStatus(st, id, status))
  {
    var next := SetStatus(st, id, status);
    forall a | a in next.artifacts ensures ArtifactOk(next, a, next.artifacts[a]) {
      assert ArtifactOk(st, a, st.artifacts[a]);
    }
    forall a | a in st.artifacts ensures ArtifactAges(st, next, a) {}
  }

  lemma SetStatusKeepsRuns(st: State, id: nat, status: ArtifactStatus)
    requires Runs(st) && id in st.artifacts
    ensures Runs(SetStatus(st, id, status))
  {
    var next := SetStatus(st, id, status);
    forall a | a in next.artifacts ensures OfRun(next, next.artifacts[a]) { assert OfRun(st, st.artifacts[a]); }
    forall r | r in next.runs ensures RunOk(next, r, next.runs[r]) { assert RunOk(st, r, st.runs[r]); }
    forall r | r in next.runs && next.runs[r].status == Succeeded ensures HasArtifact(next, r) {
      assert HasArtifact(st, r);
      var a :| a in st.artifacts && st.artifacts[a].runId == r;
      assert next.artifacts[a].runId == r;
    }
  }

  lemma SetStatusKeeps(st: State, id: nat, status: ArtifactStatus)
    requires Artifacts(st) && Runs(st) && id in st.artifacts && Age(st.artifacts[id].status) <= Age(status)
    ensures Artifacts(SetStatus(st, id, status)) && Runs(SetStatus(st, id, status)) &&
            Ages(st, SetStatus(st, id, status))
  {
    SetStatusKeepsArtifacts(st, id, status);
    SetStatusKeepsRuns(st, id, status);
  }

  lemma {:induction false} MarkKeeps(st: State, id: nat, sha: Hash)
    requires Inv(st, sha) && id in st.artifacts && st.artifacts[id].status == ActiveArtifact
    ensures Inv(SetStatus(st, id, ExpiredArtifact), sha) && Ages(st, SetStatus(st, id, ExpiredArtifact))
  {
    var marked := SetStatus(st, id, ExpiredArtifact);
    SetStatusKeeps(st, id, ExpiredArtifact);
    forall a | a in marked.artifacts ensures ObjectOk(marked.storage, marked.artifacts[a], sha) {
      assert ObjectOk(st.storage, st.artifacts[a], sha);
    }
  }

  lemma RemovalKeepsOthers(st: State, id: nat, sha: Hash)
    requires Inv(st, sha) && id in st.artifacts
    ensures var next := SetStatus(st.(storage := st.storage - {st.artifacts[id].storageKey}), id, DeletedArtifact);
            Objects(next, sha)
  {
    var key := st.artifacts[id].storageKey;
    var next := SetStatus(st.(storage := st.storage - {key}), id, DeletedArtifact);
    forall a | a in next.artifacts ensures ObjectOk(next.storage, next.artifacts[a], sha) {
      if a != id {
        if st.artifacts[a].storageKey == key { KeysDistinct(st, a, id); }
        assert ObjectOk(st.storage, st.artifacts[a], sha);
      }
    }
  }

  lemma {:induction false} DeleteKeeps(st: State, id: nat, sha: Hash)
    requires Inv(st, sha) && id in st.artifacts
    ensures var next := SetStatus(st.(storage := st.storage - {st.artifacts[id].storageKey}), id, DeletedArtifact);
            Inv(next, sha) && Ages(st, next)
  {
    var removed := st.(storage := st.storage - {st.artifacts[id].storageKey});
    ArtifactsCarry(st, removed);
    RunsCarry(st, removed);
    SetStatusKeeps(removed, id, DeletedArtifact);
    RemovalKeepsOthers(st, id, sha);
    AgesTransitive(st, removed, SetStatus(removed, id, DeletedArtifact));
  }

  ghost predicate Distinct(ids: seq<nat>) { forall i, j :: 0 <= i < j < |ids| ==> ids[i] != ids[j] }

  ghost predicate AllActive(ids: seq<nat>, st: State)
    requires AllIn(ids, st.artifacts)
  {
    forall i :: 0 <= i < |ids| ==> st.artifacts[ids[i]].status == ActiveArtifact
  }

  lemma RestActive(st: State, ids: seq<nat>, delete: bool, broken: set<Key>)
    requires ids != [] && AllIn(ids, st.artifacts) && Distinct(ids) && AllActive(ids, st)
    ensures var next := ExpireOne(st, ids[0], delete, broken).state;
            AllIn(ids[1..], next.artifacts) && Distinct(ids[1..]) && AllActive(ids[1..], next)
  {
    var next := ExpireOne(st, ids[0], delete, broken).state;
    forall i | 0 <= i < |ids[1..]|
      ensures ids[1..][i] in next.artifacts && next.artifacts[ids[1..][i]].status == ActiveArtifact {
      assert ids[1..][i] == ids[i + 1] && ids[0] != ids[i + 1];
    }
  }

  /** From a good state, a good state with no record lost. */
  ghost predicate Kept(st: State, next: State, sha: Hash) { Inv(st, sha) ==> Inv(next, sha) && Ages(st, next) }

  lemma KeptTransitive(a: State, b: State, c: State, sha: Hash)
    requires Kept(a, b, sha) && Kept(b, c, sha)
    ensures Kept(a, c, sha)
  {
    if Inv(a, sha) { AgesTransitive(a, b, c); }
  }

  lemma {:induction false} ExpireOneKept(st: State, id: nat, delete: bool, broken: set<Key>, sha: Hash)
    requires id in st.artifacts && st.artifacts[id].status == ActiveArtifact
    ensures Kept(st, ExpireOne(st, id, delete, broken).state, sha)
  {
    if Inv(st, sha) {
      var marked := SetStatus(st, id, ExpiredArtifact);
      MarkKeeps(st, id, sha);
      if delete && st.artifacts[id].storageKey !in broken {
        DeleteKeeps(marked, id, sha);
        AgesTransitive(st, marked, ExpireOne(st, id, delete, broken).state);
      }
    }
  }

  /** Expiring artifacts keeps the invariant even when some deletion fails part way. */
  lemma {:induction false} ExpireAllKept(st: State, ids: seq<nat>, delete: bool, broken: set<Key>, sha: Hash)
    requires AllIn(ids, st.artifacts) && Distinct(ids) && AllActive(ids, st)
    ensures Kept(st, ExpireAll(st, ids, delete, broken).state, sha)
    decreases |ids|
  {
    if ids != [] {
      var one := ExpireOne(st, ids[0], delete, broken);
      ExpireOneKept(st, ids[0], delete, broken, sha);
      if one.result.Ok? {
        RestActive(st, ids, delete, broken);
        ExpireAllKept(one.state, ids[1..], delete, broken, sha);
        KeptTransitive(st, one.state, ExpireAll(one.state, ids[1..], delete, broken).state, sha);
      }
    }
  }
}
