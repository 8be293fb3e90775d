/** Backups: records, object storage, and the service's operations as functions of them. */
module BackupModel {
  import opened Outcomes
  import opened Text

  // ----- Records -----

  type Positive = n: nat | 0 < n witness 1

  datatype TargetSystem = Postgres | ClickHouse | ObjectStorage | Redis

  datatype Policy = Policy(
    name: string,
    targetSystem: TargetSystem,
    targetName: string,
    storagePrefix: string,
    intervalMinutes: Positive,
    retentionCount: Option<Positive>,
    retentionDays: Option<Positive>,
    deleteExpired: bool,
    enabled: bool,
    nextRunAt: Option<int>)

  datatype RunStatus = Running | Succeeded | Failed

  datatype BackupRun = BackupRun(
    policyId: nat,
    trigger: string,
    status: RunStatus,
    startedAt: int,
    completedAt: Option<int>,
    size: Option<nat>,
    checksum: Option<Digest>,
    error: Option<BackupError>,
    verified: Option<bool>,
    lastVerifiedAt: Option<int>)

  datatype ArtifactStatus = ActiveArtifact | ExpiredArtifact | DeletedArtifact

  datatype Artifact = Artifact(
    runId: nat,
    policyId: nat,
    storageKey: Key,
    size: nat,
    checksum: Digest,
    status: ArtifactStatus,
    createdAt: int,
    expiresAt: Option<int>)

  datatype RestoreStatus = DryRun | RestoreRunning | RestoreSucceeded | RestoreFailed

  datatype RestoreRun = RestoreRun(backupRunId: nat, status: RestoreStatus, dryRun: bool, startedAt: int,
      completedAt: Option<int>)

  datatype Bytes = Bytes(content: seq<bv8>)
  datatype Digest = Digest(hex: string)
  datatype Key = Key(head: string, run: nat)
  type Hash = Bytes -> Digest

  datatype BackupError =
    | PolicyNotFound
    | PolicyDisabled
    | RunNotFound
    | ArtifactNotFound
    | NotSucceeded
    | ConnectionUnresolved
    | CommandFailed
    | UploadFailed
    | ObjectMissing
    | ChecksumMismatch
    | ProductionRefused
    | ConfirmRequired
    | DeleteFailed(key: Key)

  /** Ids are fresh values; they are handed out in increasing order, so id order is insertion order. */
  datatype State = State(
    policies: map<nat, Policy>,
    runs: map<nat, BackupRun>,
    artifacts: map<nat, Artifact>,
    restores: map<nat, RestoreRun>,
    storage: map<Key, Bytes>,
    nextId: nat)

  const EMPTY := State(map[], map[], map[], map[], map[], 0)

  datatype Outcome<T> = Outcome(state: State, result: Result<T, BackupError>)

  // ----- Storage keys -----

  function LowerName(t: TargetSystem): string {
    match t
    case Postgres => "postgres"
    case ClickHouse => "clickhouse"
    case ObjectStorage => "object_storage"
    case Redis => "redis"
  }

  function StripLeft(s: string): string { if s != [] && s[0] == '/' then StripLeft(s[1..]) else s }

  function StripRight(s: string): string { if s != [] && s[|s| - 1] == '/' then StripRight(s[..|s| - 1]) else s }

  /** The part of the key that the policy decides. */
  function KeyHead(p: Policy): string {
    StripRight(StripLeft(p.storagePrefix)) + "/" + LowerName(p.targetSystem) + "/" + p.targetName
  }

  /** The object name a key stands for. */
  function KeyText(k: Key): string { k.head + "/" + Decimal(k.run) + ".dump" }

  function KeyFor(p: Policy, runId: nat): Key { Key(KeyHead(p), runId) }

  predicate EndsInDigits(s: string, n: nat) {
    && n + 6 <= |s| && s[|s| - 6 - n] == '/'
    && forall i :: |s| - 5 - n <= i < |s| - 5 ==> IsDigit(s[i])
  }

  lemma KeyTextEnds(k: Key)
    ensures var s, n := KeyText(k), |Decimal(k.run)|;
            EndsInDigits(s, n) && s[|s| - 5 - n..|s| - 5] == Decimal(k.run) && s[..|s| - 6 - n] == k.head
  {
    var s, d := KeyText(k), Decimal(k.run);
    assert s[|s| - 5 - |d|..|s| - 5] == d;
    forall i | |s| - 5 - |d| <= i < |s| - 5 ensures IsDigit(s[i]) {
      assert s[i] == d[i - (|s| - 5 - |d|)];
    }
  }

  lemma DigitsEndOnce(s: string, m: nat, n: nat)
    requires EndsInDigits(s, m) && EndsInDigits(s, n)
    ensures m == n
  {
  }

  /** Different keys are different object names, so objects may be kept under keys. */
  lemma KeyTextInjective(k: Key, l: Key)
    requires KeyText(k) == KeyText(l)
    ensures k == l
  {
    KeyTextEnds(k);
    KeyTextEnds(l);
    DigitsEndOnce(KeyText(k), |Decimal(k.run)|, |Decimal(l.run)|);
    NatOfDecimal(k.run);
    NatOfDecimal(l.run);
  }

  // ----- Operations -----

  const MINUTE := 60
  const DAY := 86400

  function CreatePolicy(st: State, p: Policy, now: int): State {
    var stored := if p.enabled && p.nextRunAt.None? then p.(nextRunAt := Some(now + p.intervalMinutes * MINUTE)) else p;
    st.(policies := st.policies[st.nextId := stored], nextId := st.nextId + 1)
  }

  /**
   * What the world does to one backup: the dump that was taken, or where it failed; a
   * failed upload may leave part of a file behind.
   */
  datatype Attempt = Completes(dump: Bytes) | NoConnection | DumpFails | UploadFails(left: Option<Bytes>)

  function FaultOf(attempt: Attempt): BackupError
    requires !attempt.Completes?
  {
    match attempt
    case NoConnection => ConnectionUnresolved
    case DumpFails => CommandFailed
    case UploadFails(_) => UploadFailed
  }

  function LeftBy(attempt: Attempt): Option<Bytes> { if attempt.UploadFails? then attempt.left else None }

  function StartedRun(policyId: nat, trigger: string, now: int): BackupRun {
    BackupRun(policyId, trigger, Running, now, None, None, None, None, None, None)
  }

  function NewArtifact(p: Policy, policyId: nat, runId: nat, dump: Bytes, now: int, sha: Hash): Artifact {
    Artifact(runId, policyId, KeyFor(p, runId), |dump.content|, sha(dump), ActiveArtifact, now,
             if p.retentionDays.Some? then Some(now + p.retentionDays.value * DAY) else None)
  }

  function FailBackup(st: State, policyId: nat, trigger: string, key: Key, left: Option<Bytes>, fault: BackupError,
          now: int): State {
    st.(runs := st.runs[st.nextId := StartedRun(policyId, trigger, now).(status := Failed, completedAt := Some(now),
                                                                       error := Some(fault))],
        storage := if left.Some? then st.storage[key := left.value] else st.storage,
        nextId := st.nextId + 1)
  }

  function FinishBackup(st: State, policyId: nat, p: Policy, trigger: string, a: Artifact, dump: Bytes,
          now: int): State {
    st.(policies := st.policies[policyId := p.(nextRunAt := Some(now + p.intervalMinutes * MINUTE))],
        runs := st.runs[st.nextId := StartedRun(policyId, trigger, now).(status := Succeeded, completedAt := Some(now),
                                                                       size := Some(a.size),
                                                                       checksum := Some(a.checksum))],
        artifacts := st.artifacts[st.nextId + 1 := a],
        storage := st.storage[a.storageKey := dump],
        nextId := st.nextId + 2)
  }

  function CreateBackup(st: State, policyId: nat, trigger: string, attempt: Attempt, now: int,
          sha: Hash): Outcome<nat> {
    if policyId !in st.policies then Outcome(st, Err(PolicyNotFound))
    else if !st.policies[policyId].enabled then Outcome(st, Err(PolicyDisabled))
    else
      var p := st.policies[policyId];
      if attempt.Completes? then
        var a := NewArtifact(p, policyId, st.nextId, attempt.dump, now, sha);
        Outcome(FinishBackup(st, policyId, p, trigger, a, attempt.dump, now), Ok(st.nextId))
      else
        Outcome(FailBackup(st, policyId, trigger, KeyFor(p, st.nextId), LeftBy(attempt), FaultOf(attempt), now),
            Err(FaultOf(attempt)))
  }

  /** The first artifact, from an id on, of a run. */
  function ArtifactFrom(artifacts: map<nat, Artifact>, runId: nat, from: nat, end: nat): Option<nat>
    decreases end - from
  {
    if from >= end then None
    else if from in artifacts && artifacts[from].runId == runId then Some(from)
    else ArtifactFrom(artifacts, runId, from + 1, end)
  }

  function ArtifactByRun(st: State, runId: nat): Option<nat> { ArtifactFrom(st.artifacts, runId, 0, st.nextId) }

  /** Download an artifact and compare its checksum. */
  function Fetch(st: State, a: Artifact, sha: Hash): Result<Bytes, BackupError> {
    if a.storageKey !in st.storage then Err(ObjectMissing)
    else if sha(st.storage[a.storageKey]) != a.checksum then Err(ChecksumMismatch)
    else Ok(st.storage[a.storageKey])
  }

  function RecordRun(st: State, runId: nat, run: BackupRun): State { st.(runs := st.runs[runId := run]) }

  function VerifyBackup(st: State, runId: nat, commandOk: bool, now: int, sha: Hash): Outcome<nat> {
    if runId !in st.runs then Outcome(st, Err(RunNotFound))
    else
      var run, found := st.runs[runId], ArtifactByRun(st, runId);
      if found.None? || found.value !in st.artifacts then Outcome(st, Err(ArtifactNotFound))
      else if run.policyId !in st.policies then Outcome(st, Err(PolicyNotFound))
      else
        var fetched := Fetch(st, st.artifacts[found.value], sha);
        var fault := if fetched.Err? then Some(fetched.error) else if commandOk then None else Some(CommandFailed);
        match fault
        case Some(e) => Outcome(RecordRun(st, runId, run.(verified := Some(false), error := Some(e))), Err(e))
        case None => Outcome(RecordRun(st, runId, run.(verified := Some(true), lastVerifiedAt := Some(now))), Ok(runId))
  }

  datatype RestoreRequest = RestoreRequest(production: bool, dryRun: bool, confirm: bool, allowProduction: bool,
      connectionOk: bool, commandOk: bool)

  /** The outcome of a restore, and the bytes that were loaded into the target, if any were. */
  datatype RestoreOutcome = RestoreOutcome(state: State, result: Result<nat, BackupError>, loaded: Option<Bytes>)

  function RecordRestore(st: State, r: RestoreRun): State {
    st.(restores := st.restores[st.nextId := r], nextId := st.nextId + 1)
  }

  function RestoreBackup(st: State, runId: nat, q: RestoreRequest, now: int, sha: Hash): RestoreOutcome {
    if runId !in st.runs then RestoreOutcome(st, Err(RunNotFound), None)
    else if st.runs[runId].status != Succeeded then RestoreOutcome(st, Err(NotSucceeded), None)
    else
      var found := ArtifactByRun(st, runId);
      if found.None? || found.value !in st.artifacts then RestoreOutcome(st, Err(ArtifactNotFound), None)
      else if q.production && !q.allowProduction then RestoreOutcome(st, Err(ProductionRefused), None)
      else if !q.dryRun && !q.confirm then RestoreOutcome(st, Err(ConfirmRequired), None)
      else if !q.connectionOk then RestoreOutcome(st, Err(ConnectionUnresolved), None)
      else
        match Fetch(st, st.artifacts[found.value], sha)
        case Err(e) => RestoreOutcome(st, Err(e), None)
        case Ok(content) =>
          if q.dryRun then
            RestoreOutcome(RecordRestore(st, RestoreRun(runId, DryRun, true, now, Some(now))), Ok(st.nextId), None)
          else if q.commandOk then
            RestoreOutcome(RecordRestore(st, RestoreRun(runId, RestoreSucceeded, false, now, Some(now))),
                Ok(st.nextId), Some(content))
          else
            RestoreOutcome(RecordRestore(st, RestoreRun(runId, RestoreFailed, false, now, Some(now))),
                Err(CommandFailed), Some(content))
  }

  // ----- Retention -----

  predicate AllIn(ids: seq<nat>, artifacts: map<nat, Artifact>) { forall i :: 0 <= i < |ids| ==> ids[i] in artifacts }

  /** The artifacts of a policy among the ids below end, in insertion order. */
  function ArtifactsOf(artifacts: map<nat, Artifact>, policyId: nat, end: nat): (ids: seq<nat>)
    ensures AllIn(ids, artifacts)
  {
    if end == 0 then []
    else
      var before := ArtifactsOf(artifacts, policyId, end - 1);
      if end - 1 in artifacts && artifacts[end - 1].policyId == policyId then before + [end - 1] else before
  }

  function InsertNewest(artifacts: map<nat, Artifact>, id: nat, sorted: seq<nat>): (r: seq<nat>)
    requires id in artifacts && AllIn(sorted, artifacts)
    ensures AllIn(r, artifacts)
  {
    if sorted == [] || artifacts[sorted[0]].createdAt <= artifacts[id].createdAt then [id] + sorted
    else [sorted[0]] + InsertNewest(artifacts, id, sorted[1..])
  }

  /** sort(key=created_at, reverse=True), which keeps the order of equals. */
  function SortNewest(artifacts: map<nat, Artifact>, ids: seq<nat>): (r: seq<nat>)
    requires AllIn(ids, artifacts)
    ensures AllIn(r, artifacts)
  {
    if ids == [] then [] else InsertNewest(artifacts, ids[0], SortNewest(artifacts, ids[1..]))
  }

  function FilterActive(artifacts: map<nat, Artifact>, ids: seq<nat>): (r: seq<nat>)
    requires AllIn(ids, artifacts)
    ensures AllIn(r, artifacts)
  {
    if ids == [] then []
    else (if artifacts[ids[0]].status == ActiveArtifact then [ids[0]] else []) + FilterActive(artifacts, ids[1..])
  }

  /** The active artifacts of a policy, newest first. */
  function Newest(st: State, policyId: nat): (r: seq<nat>)
    ensures AllIn(r, st.artifacts)
  {
    var listed := SortNewest(st.artifacts, ArtifactsOf(st.artifacts, policyId, st.nextId));
    SortNewest(st.artifacts, FilterActive(st.artifacts, listed))
  }

  predicate BeyondCount(p: Policy, index: nat) { p.retentionCount.Some? && index >= p.retentionCount.value }

  predicate Aged(p: Policy, a: Artifact, now: int) {
    p.retentionDays.Some? && a.expiresAt.Some? && a.expiresAt.value <= now
  }

  /** Those of the sorted artifacts, from the first at this index, that count or age expires. */
  function Expired(artifacts: map<nat, Artifact>, p: Policy, sorted: seq<nat>, index: nat, now: int): (r: seq<nat>)
    requires AllIn(sorted, artifacts)
    ensures AllIn(r, artifacts)
  {
    if sorted == [] then []
    else
      (if BeyondCount(p, index) || Aged(p, artifacts[sorted[0]], now) then [sorted[0]] else []) +
      Expired(artifacts, p, sorted[1..], index + 1, now)
  }

  function SetStatus(st: State, id: nat, status: ArtifactStatus): State
    requires id in st.artifacts
  {
    st.(artifacts := st.artifacts[id := st.artifacts[id].(status := status)])
  }

  /** Mark one artifact and, if asked, delete its object and mark it again; deleting a key in broken raises. */
  function ExpireOne(st: State, id: nat, delete: bool, broken: set<Key>): (o: Outcome<()>)
    requires id in st.artifacts
    ensures o.state.artifacts.Keys == st.artifacts.Keys
  {
    var marked, key := SetStatus(st, id, ExpiredArtifact), st.artifacts[id].storageKey;
    if !delete then Outcome(marked, Ok(()))
    else if key in broken then Outcome(marked, Err(DeleteFailed(key)))
    else Outcome(SetStatus(marked.(storage := marked.storage - {key}), id, DeletedArtifact), Ok(()))
  }

  /** Expire in order, stopping at the first failed deletion. */
  function ExpireAll(st: State, ids: seq<nat>, delete: bool, broken: set<Key>): Outcome<()>
    requires AllIn(ids, st.artifacts)
    decreases |ids|
  {
    if ids == [] then Outcome(st, Ok(()))
    else
      var one := ExpireOne(st, ids[0], delete, broken);
      if one.result.Err? then one
      else
        assert forall i :: 0 < i < |ids| ==> ids[1..][i - 1] == ids[i];
        ExpireAll(one.state, ids[1..], delete, broken)
  }

  function ToExpire(st: State, policyId: nat, now: int): (ids: seq<nat>)
    requires policyId in st.policies
    ensures AllIn(ids, st.artifacts)
  {
    Expired(st.artifacts, st.policies[policyId], Newest(st, policyId), 0, now)
  }

  function ApplyRetention(st: State, policyId: nat, broken: set<Key>, now: int): Outcome<seq<nat>> {
    if policyId !in st.policies then Outcome(st, Err(PolicyNotFound))
    else
      var ids := ToExpire(st, policyId, now);
      var done := ExpireAll(st, ids, st.policies[policyId].deleteExpired, broken);
      Outcome(done.state, if done.result.Err? then Err(done.result.error) else Ok(ids))
  }

  // ----- Scheduled runs -----

  predicate IsDue(p: Policy, now: int) { p.enabled && p.nextRunAt.Some? && p.nextRunAt.value <= now }

  predicate AllPolicies(ids: seq<nat>, policies: map<nat, Policy>) { forall i :: 0 <= i < |ids| ==> ids[i] in policies }

  function PolicyIds(policies: map<nat, Policy>, end: nat): (ids: seq<nat>)
    ensures AllPolicies(ids, policies)
  {
    if end == 0 then []
    else PolicyIds(policies, end - 1) + (if end - 1 in policies then [end - 1] else [])
  }

  function InsertByName(policies: map<nat, Policy>, id: nat, sorted: seq<nat>): (r: seq<nat>)
    requires id in policies && AllPolicies(sorted, policies)
    ensures AllPolicies(r, policies)
  {
    if sorted == [] || !Before(policies[sorted[0]].name, policies[id].name) then [id] + sorted
    else [sorted[0]] + InsertByName(policies, id, sorted[1..])
  }

  function SortByName(policies: map<nat, Policy>, ids: seq<nat>): (r: seq<nat>)
    requires AllPolicies(ids, policies)
    ensures AllPolicies(r, policies)
  {
    if ids == [] then [] else InsertByName(policies, ids[0], SortByName(policies, ids[1..]))
  }

  function FilterDue(policies: map<nat, Policy>, ids: seq<nat>, now: int): seq<nat>
    requires AllPolicies(ids, policies)
  {
    if ids == [] then []
    else (if IsDue(policies[ids[0]], now) then [ids[0]] else []) + FilterDue(policies, ids[1..], now)
  }

  /** The due policies, by name. */
  function DuePolicies(st: State, now: int): seq<nat> {
    FilterDue(st.policies, SortByName(st.policies, PolicyIds(st.policies, st.nextId)), now)
  }

  /** Attempt each policy in turn, skipping those that fail. */
  function BackUpAll(st: State, ids: seq<nat>, attempts: nat -> Attempt, now: int, sha: Hash): (State, seq<nat>)
    decreases |ids|
  {
    if ids == [] then (st, [])
    else
      var one := CreateBackup(st, ids[0], "scheduled", attempts(ids[0]), now, sha);
      var rest := BackUpAll(one.state, ids[1..], attempts, now, sha);
      (rest.0, (if one.result.Ok? then [one.result.value] else []) + rest.1)
  }

  function RunDue(st: State, attempts: nat -> Attempt, now: int, sha: Hash): (State, seq<nat>) {
    BackUpAll(st, DuePolicies(st, now), attempts, now, sha)
  }
}
