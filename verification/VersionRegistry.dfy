/**
 * The service version registry: its in-memory tables, and the lifecycle
 * operations and version resolution as functions of them.
 */
module VersionRegistry {
  import opened Outcomes
  import opened Text
  import opened SemVer

  // ----- Tables -----

  datatype ServiceName = ServiceName(text: string)

  datatype Status = Draft | Released | Deprecated | Retired

  datatype Dependency = Dependency(service: ServiceName, minVersion: string)

  datatype Service = Service(plane: string, description: string, createdAt: int, updatedAt: int)

  datatype VersionRecord = VersionRecord(
    versionId: nat,
    service: ServiceName,
    version: string,
    semver: Version,
    gitSha: Option<string>,
    imageTag: Option<string>,
    apiVersion: string,
    minCompatible: Option<string>,
    status: Status,
    checksum: Option<string>,
    createdAt: int,
    releasedAt: Option<int>,
    deprecatedAt: Option<int>,
    retiredAt: Option<int>)

  datatype EventKind = VersionCreated | VersionReleased | VersionDeprecated | VersionRetired
  datatype Event = Event(versionId: nat, kind: EventKind, actor: string, reason: string)

  /** The dictionary key "service:version". */
  datatype Key = Key(text: string)

  /** order lists the keys of versions as they were inserted; nextId is the next fresh id. */
  datatype State = State(
    services: map<ServiceName, Service>,
    versions: map<Key, VersionRecord>,
    order: seq<Key>,
    dependencies: map<nat, seq<Dependency>>,
    events: seq<Event>,
    nextId: nat,
    clock: int)

  const EMPTY := State(map[], map[], [], map[], [], 0, 0)

  function KeyOf(service: ServiceName, version: string): Key { Key(service.text + ":" + version) }

  // ----- Operations -----

  datatype ServiceError =
    | InvalidServiceName
    | NotFound
    | Conflict
    | InvalidVersionText(value: string)
    | SelfDependency
    | DuplicateDependency
    | InvalidTransition(status: Status)
    | UnstableRelease

  predicate NameChar(c: char) { 'a' <= c <= 'z' || IsDigit(c) }

  /** ^[a-z0-9]([a-z0-9-]{0,62}[a-z0-9])?$ */
  predicate ValidServiceName(name: ServiceName) {
    var s := name.text;
    1 <= |s| <= 64 && NameChar(s[0]) && NameChar(s[|s| - 1]) && forall i :: 0 <= i < |s| ==>
        NameChar(s[i]) || s[i] == '-'
  }

  function Upper(s: string): string {
    seq(|s|, i requires 0 <= i < |s| => if 'a' <= s[i] <= 'z' then s[i] - 'a' + 'A' else s[i])
  }

  datatype CreateRequest = CreateRequest(
    version: string,
    gitSha: Option<string>,
    imageTag: Option<string>,
    apiVersion: string,
    minCompatible: Option<string>,
    dependencies: seq<Dependency>)

  datatype ReleaseRequest = ReleaseRequest(gitSha: string, imageTag: string, checksum: string, actor: string,
      reason: string)

  function RegisterService(st: State, name: ServiceName, plane: string, description: string,
          now: int): Result<State, ServiceError> {
    if !ValidServiceName(name) then Err(InvalidServiceName)
    else
      var created := if name in st.services then st.services[name].createdAt else now;
      Ok(st.(services := st.services[name := Service(Upper(plane), description, created, now)], clock := now))
  }

  /** The check of the dependencies from the i-th on; those before it were accepted. */
  function CheckDependencies(st: State, service: ServiceName, deps: seq<Dependency>, i: nat): Option<ServiceError>
    requires i <= |deps|
    decreases |deps| - i
  {
    if i == |deps| then None
    else if deps[i].service == service then Some(SelfDependency)
    else if exists j :: 0 <= j < i && deps[j].service == deps[i].service then Some(DuplicateDependency)
    else if deps[i].service !in st.services then Some(NotFound)
    else if Parse(deps[i].minVersion).None? then Some(InvalidVersionText(deps[i].minVersion))
    else CheckDependencies(st, service, deps, i + 1)
  }

  function NewRecord(st: State, service: ServiceName, request: CreateRequest, now: int): VersionRecord
    requires Parse(request.version).Some?
  {
    VersionRecord(st.nextId, service, request.version, Parse(request.version).value, request.gitSha, request.imageTag,
                  request.apiVersion, request.minCompatible, Draft, None, now, None, None, None)
  }

  /** Insert a new record with its dependencies and log its creation. */
  function AddRecord(st: State, key: Key, record: VersionRecord, deps: seq<Dependency>, now: int): State {
    st.(versions := st.versions[key := record],
        order := st.order + [key],
        dependencies := st.dependencies[st.nextId := deps],
        events := st.events + [Event(st.nextId, VersionCreated, "system", "version draft created")],
        nextId := st.nextId + 1,
        clock := now)
  }

  function CreateVersion(st: State, service: ServiceName, request: CreateRequest, now: int): Result<State,
          ServiceError> {
    if service !in st.services then Err(NotFound)
    else if Parse(request.version).None? then Err(InvalidVersionText(request.version))
    else if request.minCompatible.Some? && Parse(request.minCompatible.value).None? then
      Err(InvalidVersionText(request.minCompatible.value))
    else if KeyOf(service, request.version) in st.versions then Err(Conflict)
    else
      match CheckDependencies(st, service, request.dependencies, 0)
      case Some(e) => Err(e)
      case None => Ok(AddRecord(st, KeyOf(service, request.version), NewRecord(st, service, request, now),
          request.dependencies, now))
  }

  /** Replace the record under a key and log an event for it. */
  function UpdateRecord(st: State, key: Key, record: VersionRecord, kind: EventKind, actor: string, reason: string,
          now: int): State {
    st.(versions := st.versions[key := record], events := st.events + [Event(record.versionId, kind, actor, reason)],
        clock := now)
  }

  function ReleaseVersion(st: State, service: ServiceName, version: string, request: ReleaseRequest,
          now: int): Result<State, ServiceError> {
    var key := KeyOf(service, version);
    if key !in st.versions then Err(NotFound)
    else
      var r := st.versions[key];
      if r.status != Draft then Err(InvalidTransition(r.status))
      else
        match Parse(version)
        case None => Err(InvalidVersionText(version))
        case Some(v) =>
          if !v.IsStable() then Err(UnstableRelease)
          else
            Ok(UpdateRecord(st, key,
                            r.(status := Released, gitSha := Some(request.gitSha), imageTag := Some(request.imageTag),
                               checksum := Some(request.checksum), releasedAt := Some(now)),
                            VersionReleased, request.actor, request.reason, now))
  }

  function DeprecateVersion(st: State, service: ServiceName, version: string, actor: string, reason: string,
          now: int): Result<State, ServiceError> {
    var key := KeyOf(service, version);
    if key !in st.versions then Err(NotFound)
    else if st.versions[key].status != Released then Err(InvalidTransition(st.versions[key].status))
    else Ok(UpdateRecord(st, key, st.versions[key].(status := Deprecated, deprecatedAt := Some(now)),
        VersionDeprecated, actor, reason, now))
  }

  function RetireVersion(st: State, service: ServiceName, version: string, actor: string, reason: string,
          now: int): Result<State, ServiceError> {
    var key := KeyOf(service, version);
    if key !in st.versions then Err(NotFound)
    else if st.versions[key].status != Deprecated then Err(InvalidTransition(st.versions[key].status))
    else Ok(UpdateRecord(st, key, st.versions[key].(status := Retired, retiredAt := Some(now)), VersionRetired, actor,
        reason, now))
  }

  // ----- Resolution -----

  predicate IsCandidate(r: VersionRecord, service: ServiceName) { r.service == service && r.status == Released }

  /** The released versions of a service, in insertion order. */
  function ReleasedRecords(versions: map<Key, VersionRecord>, order: seq<Key>,
          service: ServiceName): seq<VersionRecord> {
    if order == [] then []
    else
      (if order[0] in versions && IsCandidate(versions[order[0]], service) then [versions[order[0]]] else []) +
      ReleasedRecords(versions, order[1..], service)
  }

  function InsertByNumbers(r: VersionRecord, sorted: seq<VersionRecord>): seq<VersionRecord> {
    if sorted == [] || !NumbersBefore(r.semver, sorted[0].semver) then [r] + sorted
    else [sorted[0]] + InsertByNumbers(r, sorted[1..])
  }

  /** sort by (major, minor, patch), reverse=True */
  function SortByNumbers(rs: seq<VersionRecord>): seq<VersionRecord> {
    if rs == [] then [] else InsertByNumbers(rs[0], SortByNumbers(rs[1..]))
  }

  function VersionTexts(rs: seq<VersionRecord>): seq<string> {
    if rs == [] then [] else [rs[0].version] + VersionTexts(rs[1..])
  }

  function ReleasedVersions(st: State, service: ServiceName): seq<string> {
    VersionTexts(SortByNumbers(ReleasedRecords(st.versions, st.order, service)))
  }

  datatype DependencyReport = DependencyReport(service: ServiceName, minVersion: string, resolved: Option<string>)

  datatype CompatibilityReport = CompatibilityReport(ok: bool, dependencies: seq<DependencyReport>)

  datatype CheckError = CheckNotFound | CheckInvalidTransition | CheckUnparsable(value: string)

  /** The reports of the first n dependencies, or the parse error that resolution raised. */
  function DependencyReports(st: State, deps: seq<Dependency>, n: nat): Result<seq<DependencyReport>, CheckError>
    requires n <= |deps|
  {
    if n == 0 then Ok([])
    else
      match DependencyReports(st, deps, n - 1)
      case Err(e) => Err(e)
      case Ok(before) =>
        match HighestCompatible(ReleasedVersions(st, deps[n - 1].service), deps[n - 1].minVersion)
        case Err(InvalidVersion(value)) => Err(CheckUnparsable(value))
        case Ok(resolved) => Ok(before + [DependencyReport(deps[n - 1].service, deps[n - 1].minVersion, resolved)])
  }

  predicate AllResolved(reports: seq<DependencyReport>) {
    forall i :: 0 <= i < |reports| ==> reports[i].resolved.Some?
  }

  function DependenciesOf(st: State, versionId: nat): seq<Dependency> {
    if versionId in st.dependencies then st.dependencies[versionId] else []
  }

  function CheckCompatibility(st: State, service: ServiceName, version: string): Result<CompatibilityReport,
          CheckError> {
    var key := KeyOf(service, version);
    if key !in st.versions then Err(CheckNotFound)
    else if st.versions[key].status != Released then Err(CheckInvalidTransition)
    else
      var deps := DependenciesOf(st, st.versions[key].versionId);
      match DependencyReports(st, deps, |deps|)
      case Err(e) => Err(e)
      case Ok(reports) => Ok(CompatibilityReport(AllResolved(reports), reports))
  }

  // ----- Runs -----

  datatype Step =
    | Register(name: ServiceName, plane: string, description: string)
    | Create(service: ServiceName, create: CreateRequest)
    | Release(service: ServiceName, version: string, release: ReleaseRequest)
    | Deprecate(service: ServiceName, version: string, actor: string, reason: string)
    | Retire(service: ServiceName, version: string, actor: string, reason: string)

  function Attempt(st: State, step: Step, now: int): Result<State, ServiceError> {
    match step
    case Register(name, plane, description) => RegisterService(st, name, plane, description, now)
    case Create(service, request) => CreateVersion(st, service, request, now)
    case Release(service, version, request) => ReleaseVersion(st, service, version, request, now)
    case Deprecate(service, version, actor, reason) => DeprecateVersion(st, service, version, actor, reason, now)
    case Retire(service, version, actor, reason) => RetireVersion(st, service, version, actor, reason, now)
  }

  /** A refused step leaves the tables as they were. */
  function Apply(st: State, step: Step, now: int): State {
    match Attempt(st, step, now)
    case Ok(next) => next
    case Err(_) => st
  }

  datatype TimedStep = TimedStep(step: Step, now: int)

  function Run(st: State, steps: seq<TimedStep>): State
    decreases |steps|
  {
    if steps == [] then st else Run(Apply(st, steps[0].step, steps[0].now), steps[1..])
  }

  /** The clock never goes back. */
  ghost predicate ClockForward(st: State, steps: seq<TimedStep>) {
    && (forall i :: 0 <= i < |steps| ==> st.clock <= steps[i].now)
    && (forall i, j :: 0 <= i < j < |steps| ==> steps[i].now <= steps[j].now)
  }

  // ----- Keys -----

  lemma KeySplits(service: ServiceName, version: string)
    requires ':' !in service.text && ':' !in version
    ensures Split(KeyOf(service, version).text, ':') == [service.text, version]
  {
    SplitConcat(service.text, version, ':');
    SplitNoSeparator(service.text, ':');
    SplitNoSeparator(version, ':');
    assert service.text + [':'] + version == service.text + ":" + version;
  }

  /** A stored key names one service and one version, however the arguments of a lookup are cut. */
  lemma KeyInjective(a: ServiceName, v: string, b: ServiceName, w: string)
    requires ':' !in a.text && ':' !in v && KeyOf(a, v) == KeyOf(b, w)
    ensures a == b && v == w
  {
    KeySplits(a, v);
    SplitConcat(b.text, w, ':');
    assert b.text + [':'] + w == b.text + ":" + w;
    var p, q := Split(b.text, ':'), Split(w, ':');
    assert |p| == 1 && |q| == 1;
    JoinSplit(b.text, ':');
    JoinSplit(w, ':');
    assert (p + q)[0] == p[0] && (p + q)[1] == q[0];
  }

  lemma NameHasNoColon(name: ServiceName)
    requires ValidServiceName(name)
    ensures ':' !in name.text
  {
    assert forall i :: 0 <= i < |name.text| ==> NameChar(name.text[i]) || name.text[i] == '-';
  }

  /** Stripping removes white space only. */
  lemma StripKeepsOthers(s: string, c: char)
    requires !IsSpace(c) && c !in Strip(s)
    ensures c !in s
  {
    TrimLeftSuffix(s);
    TrimRightPrefix(TrimLeft(s));
    var t, k := TrimLeft(s), |s| - |TrimLeft(s)|;
    forall i | 0 <= i < |s| ensures s[i] != c {
      if i >= k {
        assert s[i] == t[i - k];
        assert i - k < |Strip(s)| ==> t[i - k] == Strip(s)[i - k];
      }
    }
  }

  lemma ParsedHasNoColon(version: string)
    requires Parse(version).Some?
    ensures ':' !in version
  {
    var v := Parse(version).value;
    ParseIsInverse(version);
    VersionTextChars(v);
    StripKeepsOthers(version, ':');
  }

  lemma IdentsHaveNoColon(s: string)
    requires DottedIdents(s)
    ensures ':' !in s
  {
    forall i | 0 <= i < |Split(s, '.')| ensures ':' !in Split(s, '.')[i] {
      assert IdentPart(Split(s, '.')[i]);
      assert forall j :: 0 <= j < |Split(s, '.')[i]| ==> IdentChar(Split(s, '.')[i][j]);
    }
    MissingChar(s, '.', ':');
  }

  lemma VersionTextChars(v: Version)
    requires WellFormed(v)
    ensures ':' !in VersionText(v)
  {
    CoreTextParts(v);
    forall i | 0 <= i < 3 ensures ':' !in Split(CoreText(v), '.')[i] {
      var part := Split(CoreText(v), '.')[i];
      assert AllDigits(part);
      assert forall j :: 0 <= j < |part| ==> IsDigit(part[j]);
    }
    MissingChar(CoreText(v), '.', ':');
    if v.prerelease.Some? { IdentsHaveNoColon(v.prerelease.value); }
    if v.build.Some? { IdentsHaveNoColon(v.build.value); }
  }
}
