/** What every run of registry operations keeps, and what it does to compatibility reports. */
module RegistryProofs {
  import opened Outcomes
  import opened Text
  import opened SemVer
  import opened VersionRegistry

  // ----- The invariant -----

  /** The kinds of the events logged for one version, in order. */
  function EventKinds(events: seq<Event>, versionId: nat): seq<EventKind> {
    if events == [] then []
    else
      var last := events[|events| - 1];
      EventKinds(events[..|events| - 1], versionId) + (if last.versionId == versionId then [last.kind] else [])
  }

  /** The events a version has been through when it has this status. */
  function Lifecycle(status: Status): seq<EventKind> {
    match status
    case Draft => [VersionCreated]
    case Released => [VersionCreated, VersionReleased]
    case Deprecated => [VersionCreated, VersionReleased, VersionDeprecated]
    case Retired => [VersionCreated, VersionReleased, VersionDeprecated, VersionRetired]
  }

  predicate Reached(status: Status, milestone: Status) {
    match milestone
    case Draft => true
    case Released => status != Draft
    case Deprecated => status == Deprecated || status == Retired
    case Retired => status == Retired
  }

  /** Each time stamp is set exactly when its status was reached, and they never decrease. */
  predicate StampsOk(r: VersionRecord, clock: int) {
    && (r.releasedAt.Some? <==> Reached(r.status, Released))
    && (r.deprecatedAt.Some? <==> Reached(r.status, Deprecated))
    && (r.retiredAt.Some? <==> Reached(r.status, Retired))
    && r.createdAt <= clock
    && (r.releasedAt.Some? ==> r.createdAt <= r.releasedAt.value <= clock)
    && (r.deprecatedAt.Some? ==> r.releasedAt.value <= r.deprecatedAt.value <= clock)
    && (r.retiredAt.Some? ==> r.deprecatedAt.value <= r.retiredAt.value <= clock)
  }

  /** What was released is stable and carries its commit, image and checksum. */
  predicate ReleaseOk(r: VersionRecord) {
    r.status != Draft ==> r.semver.IsStable() && r.gitSha.Some? && r.imageTag.Some? && r.checksum.Some?
  }

  ghost predicate DependencyOk(st: State, service: ServiceName, d: Dependency) {
    d.service in st.services && d.service != service
  }

  ghost predicate DependenciesOk(st: State, service: ServiceName, deps: seq<Dependency>) {
    && (forall i :: 0 <= i < |deps| ==> DependencyOk(st, service, deps[i]))
    && (forall i, j :: 0 <= i < j < |deps| ==> deps[i].service != deps[j].service)
  }

  ghost predicate MinimumsParse(deps: seq<Dependency>) {
    forall i :: 0 <= i < |deps| ==> Parse(deps[i].minVersion).Some?
  }

  ghost predicate IdentityOk(st: State, k: Key, r: VersionRecord) {
    && k == KeyOf(r.service, r.version)
    && r.service in st.services
    && r.versionId < st.nextId
    && r.versionId in st.dependencies
  }

  /** Every record sits under its own key, and ids are distinct. */
  ghost predicate Identities(st: State) {
    && (forall k :: k in st.versions ==> IdentityOk(st, k, st.versions[k]))
    && (forall k, l ::
          k in st.versions && l in st.versions && st.versions[k].versionId == st.versions[l].versionId ==> k == l)
    && (forall k :: k in st.order <==> k in st.versions)
  }

  /** Each version's log is the prefix of the lifecycle that its status says. */
  ghost predicate Logs(st: State) {
    && (forall k :: k in st.versions ==>
        EventKinds(st.events, st.versions[k].versionId) == Lifecycle(st.versions[k].status))
    && (forall i :: 0 <= i < |st.events| ==> st.events[i].versionId < st.nextId)
  }

  ghost predicate Stamps(st: State) {
    forall k :: k in st.versions ==> StampsOk(st.versions[k], st.clock) && ReleaseOk(st.versions[k])
  }

  ghost predicate TextsOk(st: State, r: VersionRecord) {
    Parse(r.version) == Some(r.semver) && MinimumsParse(DependenciesOf(st, r.versionId))
  }

  /** Every stored version text and every stored minimum parses. */
  ghost predicate Texts(st: State) { forall k :: k in st.versions ==> TextsOk(st, st.versions[k]) }

  /** A version depends on other, registered services, on each at most once. */
  ghost predicate Links(st: State) {
    forall k :: k in st.versions ==>
      DependenciesOk(st, st.versions[k].service, DependenciesOf(st, st.versions[k].versionId))
  }

  ghost predicate Names(st: State) { forall name :: name in st.services ==> ValidServiceName(name) }

  ghost predicate Inv(st: State) { Names(st) && Identities(st) && Logs(st) && Stamps(st) && Texts(st) && Links(st) }

  /** How a record may change: its identity never, its status only forward, what was released not again. */
  predicate Evolved(r: VersionRecord, s: VersionRecord) {
    && s.versionId == r.versionId && s.service == r.service && s.version == r.version && s.semver == r.semver
    && s.minCompatible == r.minCompatible && s.apiVersion == r.apiVersion && s.createdAt == r.createdAt
    && (Reached(r.status, Released) ==>
          Reached(s.status, Released) && s.gitSha == r.gitSha && s.imageTag == r.imageTag &&
              s.checksum == r.checksum && s.releasedAt == r.releasedAt)
    && (Reached(r.status, Deprecated) ==> Reached(s.status, Deprecated) && s.deprecatedAt == r.deprecatedAt)
    && (Reached(r.status, Retired) ==> s == r)
  }

  ghost predicate RecordEvolves(st: State, next: State, k: Key)
    requires k in st.versions
  {
    k in next.versions && Evolved(st.versions[k], next.versions[k]) &&
    DependenciesOf(next, st.versions[k].versionId) == DependenciesOf(st, st.versions[k].versionId)
  }

  /** No version disappears, and each only evolves. */
  ghost predicate Evolves(st: State, next: State) {
    (forall k :: k in st.versions ==> RecordEvolves(st, next, k)) && st.clock <= next.clock
  }

  // ----- Events -----

  lemma LogEvent(events: seq<Event>, e: Event, versionId: nat)
    ensures EventKinds(events + [e], versionId) ==
            EventKinds(events, versionId) + (if e.versionId == versionId then [e.kind] else [])
  {
    assert (events + [e])[..|events + [e]| - 1] == events;
  }

  lemma {:induction false} NoEvents(events: seq<Event>, versionId: nat)
    requires forall i :: 0 <= i < |events| ==> events[i].versionId != versionId
    ensures EventKinds(events, versionId) == []
  {
    if events != [] {
      NoEvents(events[..|events| - 1], versionId);
    }
  }

  // ----- Every step keeps the invariant -----

  lemma {:induction false} CheckedDependencies(st: State, service: ServiceName, deps: seq<Dependency>, i: nat)
    requires i <= |deps| && CheckDependencies(st, service, deps, i).None?
    ensures forall j :: i <= j < |deps| ==> DependencyOk(st, service, deps[j]) && Parse(deps[j].minVersion).Some?
    ensures forall j, k :: 0 <= j < k < |deps| && i <= k ==> deps[j].service != deps[k].service
    decreases |deps| - i
  {
    if i < |deps| {
      CheckedDependencies(st, service, deps, i + 1);
    }
  }

  lemma CarryDependencies(st: State, next: State, service: ServiceName, deps: seq<Dependency>)
    requires DependenciesOk(st, service, deps) && st.services.Keys <= next.services.Keys
    ensures DependenciesOk(next, service, deps)
  {
    forall i | 0 <= i < |deps| ensures DependencyOk(next, service, deps[i]) {
      assert DependencyOk(st, service, deps[i]);
      assert deps[i].service in st.services.Keys;
    }
  }

  lemma {:induction false} RegisterKeeps(st: State, name: ServiceName, plane: string, description: string, now: int)
    requires Inv(st) && st.clock <= now && RegisterService(st, name, plane, description, now).Ok?
    ensures var next := RegisterService(st, name, plane, description, now).value; Inv(next) && Evolves(st, next)
  {
    var next := RegisterService(st, name, plane, description, now).value;
    SameRecords(st, next);
    SameContents(st, next);
  }

  /** More services and a later clock change nothing for the records. */
  ghost predicate MoreServices(st: State, next: State) {
    && st.services.Keys <= next.services.Keys && st.clock <= next.clock
    && next.versions == st.versions && next.order == st.order && next.dependencies == st.dependencies
    && next.events == st.events && next.nextId == st.nextId
  }

  lemma SameRecords(st: State, next: State)
    requires Identities(st) && Stamps(st) && Logs(st) && MoreServices(st, next)
    ensures Identities(next) && Stamps(next) && Logs(next) && Evolves(st, next)
  {
    forall k | k in next.versions ensures IdentityOk(next, k, next.versions[k]) {
      assert IdentityOk(st, k, st.versions[k]);
      assert st.versions[k].service in st.services.Keys;
    }
    forall k | k in next.versions ensures StampsOk(next.versions[k], next.clock) && ReleaseOk(next.versions[k]) {
      assert StampsOk(st.versions[k], st.clock);
    }
  }

  lemma SameContents(st: State, next: State)
    requires Links(st) && Texts(st) && MoreServices(st, next)
    ensures Links(next) && Texts(next)
  {
    forall k | k in next.versions
      ensures DependenciesOk(next, next.versions[k].service, DependenciesOf(next, next.versions[k].versionId))
    {
      CarryDependencies(st, next, st.versions[k].service, DependenciesOf(st, st.versions[k].versionId));
    }
    forall k | k in next.versions ensures TextsOk(next, next.versions[k]) { assert TextsOk(st, st.versions[k]); }
  }

  // Adding a record

  ghost predicate IsNew(st: State, key: Key, r: VersionRecord, now: int) {
    && key !in st.versions && key == KeyOf(r.service, r.version) && r.service in st.services
    && r.versionId == st.nextId && r.status == Draft && r.createdAt == now
    && r.releasedAt.None? && r.deprecatedAt.None? && r.retiredAt.None?
  }

  lemma AddRecords(st: State, key: Key, r: VersionRecord, deps: seq<Dependency>, now: int)
    requires Identities(st) && Stamps(st) && st.clock <= now && IsNew(st, key, r, now)
    ensures var next := AddRecord(st, key, r, deps, now);
            Identities(next) && Stamps(next) && Evolves(st, next)
  {
    var next := AddRecord(st, key, r, deps, now);
    forall k | k in next.versions ensures IdentityOk(next, k, next.versions[k]) {
      if k != key { assert IdentityOk(st, k, st.versions[k]); }
    }
    forall k, l | k in next.versions && l in next.versions && next.versions[k].versionId == next.versions[l].versionId
      ensures k == l
    {
      if k != key { assert IdentityOk(st, k, st.versions[k]); }
      if l != key { assert IdentityOk(st, l, st.versions[l]); }
    }
    forall k | k in next.versions ensures StampsOk(next.versions[k], now) && ReleaseOk(next.versions[k]) {
      if k != key { assert StampsOk(st.versions[k], st.clock); }
    }
    forall k | k in st.versions ensures RecordEvolves(st, next, k) { assert IdentityOk(st, k, st.versions[k]); }
  }

  lemma AddLogs(st: State, key: Key, r: VersionRecord, deps: seq<Dependency>, now: int)
    requires Identities(st) && Logs(st) && IsNew(st, key, r, now)
    ensures Logs(AddRecord(st, key, r, deps, now))
  {
    var next := AddRecord(st, key, r, deps, now);
    var e := Event(st.nextId, VersionCreated, "system", "version draft created");
    NoEvents(st.events, st.nextId);
    forall k | k in next.versions
      ensures EventKinds(next.events, next.versions[k].versionId) == Lifecycle(next.versions[k].status) {
      LogEvent(st.events, e, next.versions[k].versionId);
      if k != key { assert IdentityOk(st, k, st.versions[k]); }
    }
  }

  lemma AddLinks(st: State, key: Key, r: VersionRecord, deps: seq<Dependency>, now: int)
    requires Identities(st) && Links(st) && IsNew(st, key, r, now) && DependenciesOk(st, r.service, deps)
    ensures Links(AddRecord(st, key, r, deps, now))
  {
    var next := AddRecord(st, key, r, deps, now);
    forall k | k in next.versions
      ensures DependenciesOk(next, next.versions[k].service, DependenciesOf(next, next.versions[k].versionId)) {
      if k == key {
        CarryDependencies(st, next, r.service, deps);
      } else {
        assert IdentityOk(st, k, st.versions[k]);
        CarryDependencies(st, next, st.versions[k].service, DependenciesOf(st, st.versions[k].versionId));
      }
    }
  }

  lemma AddTexts(st: State, key: Key, r: VersionRecord, deps: seq<Dependency>, now: int)
    requires Identities(st) && Texts(st) && IsNew(st, key, r, now) && Parse(r.version) == Some(r.semver) &&
             MinimumsParse(deps)
    ensures Texts(AddRecord(st, key, r, deps, now))
  {
    var next := AddRecord(st, key, r, deps, now);
    forall k | k in next.versions ensures TextsOk(next, next.versions[k]) {
      if k != key {
        assert IdentityOk(st, k, st.versions[k]);
        assert TextsOk(st, st.versions[k]);
      }
    }
  }

  lemma CreateKeeps(st: State, service: ServiceName, request: CreateRequest, now: int)
    requires Inv(st) && st.clock <= now && CreateVersion(st, service, request, now).Ok?
    ensures var next := CreateVersion(st, service, request, now).value; Inv(next) && Evolves(st, next)
  {
    var key, r, deps := KeyOf(service, request.version), NewRecord(st, service, request, now), request.dependencies;
    CheckedDependencies(st, service, deps, 0);
    AddRecords(st, key, r, deps, now);
    AddLogs(st, key, r, deps, now);
    AddLinks(st, key, r, deps, now);
    AddTexts(st, key, r, deps, now);
  }

  // Updating a record

  ghost predicate IsUpdate(st: State, key: Key, r: VersionRecord, kind: EventKind, now: int) {
    && key in st.versions && Evolved(st.versions[key], r)
    && Lifecycle(r.status) == Lifecycle(st.versions[key].status) + [kind]
    && StampsOk(r, now) && ReleaseOk(r) && st.clock <= now
  }

  lemma UpdateRecords(st: State, key: Key, r: VersionRecord, kind: EventKind, actor: string, reason: string, now: int)
    requires Identities(st) && Stamps(st) && IsUpdate(st, key, r, kind, now)
    ensures var next := UpdateRecord(st, key, r, kind, actor, reason, now);
            Identities(next) && Stamps(next) && Evolves(st, next)
  {
    var next := UpdateRecord(st, key, r, kind, actor, reason, now);
    forall k | k in next.versions ensures IdentityOk(next, k, next.versions[k]) {
      assert IdentityOk(st, k, st.versions[k]);
    }
    forall k | k in next.versions ensures StampsOk(next.versions[k], now) && ReleaseOk(next.versions[k]) {
      if k != key { assert StampsOk(st.versions[k], st.clock); }
    }
    forall k | k in st.versions ensures RecordEvolves(st, next, k) {
      assert next.versions[k] == if k == key then r else st.versions[k];
    }
  }

  lemma UpdateLogs(st: State, key: Key, r: VersionRecord, kind: EventKind, actor: string, reason: string, now: int)
    requires Identities(st) && Logs(st) && IsUpdate(st, key, r, kind, now)
    ensures Logs(UpdateRecord(st, key, r, kind, actor, reason, now))
  {
    var next := UpdateRecord(st, key, r, kind, actor, reason, now);
    assert IdentityOk(st, key, st.versions[key]);
    forall k | k in next.versions
      ensures EventKinds(next.events, next.versions[k].versionId) == Lifecycle(next.versions[k].status) {
      LogEvent(st.events, Event(r.versionId, kind, actor, reason), next.versions[k].versionId);
    }
  }

  lemma UpdateContents(st: State, key: Key, r: VersionRecord, kind: EventKind, actor: string, reason: string, now: int)
    requires Links(st) && Texts(st) && IsUpdate(st, key, r, kind, now)
    ensures var next := UpdateRecord(st, key, r, kind, actor, reason, now); Links(next) && Texts(next)
  {
    var next := UpdateRecord(st, key, r, kind, actor, reason, now);
    forall k | k in next.versions
      ensures DependenciesOk(next, next.versions[k].service, DependenciesOf(next, next.versions[k].versionId))
    {
      CarryDependencies(st, next, st.versions[k].service, DependenciesOf(st, st.versions[k].versionId));
    }
    forall k | k in next.versions ensures TextsOk(next, next.versions[k]) { assert TextsOk(st, st.versions[k]); }
  }

  lemma {:induction false} UpdateKeeps(st: State, key: Key, r: VersionRecord, kind: EventKind, actor: string,
          reason: string, now: int)
    requires Inv(st) && IsUpdate(st, key, r, kind, now)
    ensures var next := UpdateRecord(st, key, r, kind, actor, reason, now); Inv(next) && Evolves(st, next)
  {
    UpdateRecords(st, key, r, kind, actor, reason, now);
    UpdateLogs(st, key, r, kind, actor, reason, now);
    UpdateContents(st, key, r, kind, actor, reason, now);
  }

  function ReleasedRecord(r: VersionRecord, request: ReleaseRequest, now: int): VersionRecord {
    r.(status := Released, gitSha := Some(request.gitSha), imageTag := Some(request.imageTag),
       checksum := Some(request.checksum), releasedAt := Some(now))
  }

  lemma ReleaseIsUpdate(st: State, key: Key, request: ReleaseRequest, now: int)
    requires Stamps(st) && st.clock <= now && key in st.versions && st.versions[key].status == Draft &&
             st.versions[key].semver.IsStable()
    ensures IsUpdate(st, key, ReleasedRecord(st.versions[key], request, now), VersionReleased, now)
  {
    assert StampsOk(st.versions[key], st.clock);
  }

  lemma DeprecateIsUpdate(st: State, key: Key, now: int)
    requires Stamps(st) && st.clock <= now && key in st.versions && st.versions[key].status == Released
    ensures IsUpdate(st, key, st.versions[key].(status := Deprecated, deprecatedAt := Some(now)), VersionDeprecated,
            now)
  {
    assert StampsOk(st.versions[key], st.clock);
  }

  lemma RetireIsUpdate(st: State, key: Key, now: int)
    requires Stamps(st) && st.clock <= now && key in st.versions && st.versions[key].status == Deprecated
    ensures IsUpdate(st, key, st.versions[key].(status := Retired, retiredAt := Some(now)), VersionRetired, now)
  {
    assert StampsOk(st.versions[key], st.clock);
  }

  lemma {:induction false} ReleaseKeeps(st: State, service: ServiceName, version: string, request: ReleaseRequest,
          now: int)
    requires Inv(st) && st.clock <= now && ReleaseVersion(st, service, version, request, now).Ok?
    ensures var next := ReleaseVersion(st, service, version, request, now).value; Inv(next) && Evolves(st, next)
  {
    var key := KeyOf(service, version);
    KeyIsOwn(st, service, version);
    assert TextsOk(st, st.versions[key]);
    ReleaseIsUpdate(st, key, request, now);
    UpdateKeeps(st, key, ReleasedRecord(st.versions[key], request, now), VersionReleased, request.actor,
        request.reason, now);
  }

  lemma {:induction false} DeprecateKeeps(st: State, service: ServiceName, version: string, actor: string,
          reason: string, now: int)
    requires Inv(st) && st.clock <= now && DeprecateVersion(st, service, version, actor, reason, now).Ok?
    ensures var next := DeprecateVersion(st, service, version, actor, reason, now).value; Inv(next) && Evolves(st, next)
  {
    var key := KeyOf(service, version);
    DeprecateIsUpdate(st, key, now);
    UpdateKeeps(st, key, st.versions[key].(status := Deprecated, deprecatedAt := Some(now)), VersionDeprecated, actor,
        reason, now);
  }

  lemma {:induction false} RetireKeeps(st: State, service: ServiceName, version: string, actor: string,
          reason: string, now: int)
    requires Inv(st) && st.clock <= now && RetireVersion(st, service, version, actor, reason, now).Ok?
    ensures var next := RetireVersion(st, service, version, actor, reason, now).value; Inv(next) && Evolves(st, next)
  {
    var key := KeyOf(service, version);
    RetireIsUpdate(st, key, now);
    UpdateKeeps(st, key, st.versions[key].(status := Retired, retiredAt := Some(now)), VersionRetired, actor, reason,
        now);
  }

  lemma {:induction false} StepKeeps(st: State, step: Step, now: int)
    requires Inv(st) && st.clock <= now
    ensures Inv(Apply(st, step, now)) && Evolves(st, Apply(st, step, now))
  {
    if Attempt(st, step, now).Ok? {
      match step {
        case Register(name, plane, description) => RegisterKeeps(st, name, plane, description, now);
        case Create(service, request) => CreateKeeps(st, service, request, now);
        case Release(service, version, request) => ReleaseKeeps(st, service, version, request, now);
        case Deprecate(service, version, actor, reason) => DeprecateKeeps(st, service, version, actor, reason, now);
        case Retire(service, version, actor, reason) => RetireKeeps(st, service, version, actor, reason, now);
      }
    }
  }

  /** A lookup that finds a record finds the one of exactly that service and version. */
  lemma KeyIsOwn(st: State, service: ServiceName, version: string)
    requires Names(st) && Identities(st) && Texts(st) && KeyOf(service, version) in st.versions
    ensures st.versions[KeyOf(service, version)].service == service &&
            st.versions[KeyOf(service, version)].version == version
  {
    var r := st.versions[KeyOf(service, version)];
    assert IdentityOk(st, KeyOf(service, version), r);
    assert TextsOk(st, r);
    NameHasNoColon(r.service);
    ParsedHasNoColon(r.version);
    KeyInjective(r.service, r.version, service, version);
  }

  lemma EvolvesTransitive(a: State, b: State, c: State)
    requires Evolves(a, b) && Evolves(b, c)
    ensures Evolves(a, c)
  {
    forall k | k in a.versions ensures RecordEvolves(a, c, k) {
      assert RecordEvolves(a, b, k) && RecordEvolves(b, c, k);
    }
  }

  /** From a good state, a good state that evolved from it. */
  ghost predicate Kept(st: State, next: State) { Inv(st) ==> Inv(next) && Evolves(st, next) }

  lemma KeptReflexive(st: State)
    ensures Kept(st, st)
  {
  }

  lemma KeptTransitive(a: State, b: State, c: State)
    requires Kept(a, b) && Kept(b, c)
    ensures Kept(a, c)
  {
    if Inv(a) { EvolvesTransitive(a, b, c); }
  }

  lemma StepKept(st: State, step: Step, now: int)
    requires st.clock <= now
    ensures Kept(st, Apply(st, step, now))
  {
    if Inv(st) { StepKeeps(st, step, now); }
  }

  lemma {:induction false} ClockTail(st: State, steps: seq<TimedStep>)
    requires ClockForward(st, steps) && steps != []
    ensures st.clock <= steps[0].now && ClockForward(Apply(st, steps[0].step, steps[0].now), steps[1..])
  {
    ClockStep(st, steps[0].step, steps[0].now);
  }

  lemma {:induction false} RunKept(st: State, steps: seq<TimedStep>)
    requires ClockForward(st, steps)
    ensures Kept(st, Run(st, steps))
    decreases |steps|
  {
    if steps == [] {
      KeptReflexive(st);
    } else {
      ClockTail(st, steps);
      ghost var next := Apply(st, steps[0].step, steps[0].now);
      StepKept(st, steps[0].step, steps[0].now);
      RunKept(next, steps[1..]);
      KeptTransitive(st, next, Run(next, steps[1..]));
    }
  }

  /**
   * In every state a run reaches, each version's log is the prefix of the
   * lifecycle that its status says, its time stamps and release data match, its
   * key names it alone; and along the run versions only evolve.
   */
  lemma RunKeeps(st: State, steps: seq<TimedStep>)
    requires Inv(st) && ClockForward(st, steps)
    ensures Inv(Run(st, steps)) && Evolves(st, Run(st, steps))
  {
    RunKept(st, steps);
  }

  lemma ClockStep(st: State, step: Step, now: int)
    ensures Apply(st, step, now).clock == st.clock || Apply(st, step, now).clock == now
  {
  }

  lemma EmptyIsValid()
    ensures Inv(EMPTY)
  {
  }

  // ----- Resolution -----

  lemma {:induction false} ReleasedRecordsMembers(versions: map<Key, VersionRecord>, order: seq<Key>,
          service: ServiceName)
    ensures forall r :: r in ReleasedRecords(versions, order, service) <==>
              exists k :: k in order && k in versions && versions[k] == r && IsCandidate(r, service)
  {
    if order != [] {
      ReleasedRecordsMembers(versions, order[1..], service);
      assert order == [order[0]] + order[1..];
    }
  }

  lemma {:induction false} InsertByNumbersMembers(r: VersionRecord, sorted: seq<VersionRecord>)
    ensures forall x :: x in InsertByNumbers(r, sorted) <==> x == r || x in sorted
  {
    if sorted != [] {
      InsertByNumbersMembers(r, sorted[1..]);
      assert sorted == [sorted[0]] + sorted[1..];
    }
  }

  lemma {:induction false} SortByNumbersMembers(rs: seq<VersionRecord>)
    ensures forall x :: x in SortByNumbers(rs) <==> x in rs
  {
    if rs != [] {
      SortByNumbersMembers(rs[1..]);
      InsertByNumbersMembers(rs[0], SortByNumbers(rs[1..]));
      assert rs == [rs[0]] + rs[1..];
    }
  }

  lemma {:induction false} VersionTextsMembers(rs: seq<VersionRecord>)
    ensures forall v :: v in VersionTexts(rs) <==> exists i :: 0 <= i < |rs| && rs[i].version == v
  {
    if rs != [] {
      VersionTextsMembers(rs[1..]);
      assert forall i :: 0 < i < |rs| ==> rs[1..][i - 1] == rs[i];
    }
  }

  /** A version text is a candidate exactly when a released record of the service has it. */
  lemma {:induction false} ReleasedVersionsMembers(st: State, service: ServiceName, v: string)
    requires Inv(st)
    ensures v in ReleasedVersions(st, service) <==>
            exists k :: k in st.versions && IsCandidate(st.versions[k], service) && st.versions[k].version == v
  {
    var rs := ReleasedRecords(st.versions, st.order, service);
    ReleasedRecordsMembers(st.versions, st.order, service);
    SortByNumbersMembers(rs);
    VersionTextsMembers(SortByNumbers(rs));
    if k :| k in st.versions && IsCandidate(st.versions[k], service) && st.versions[k].version == v {
      assert st.versions[k] in SortByNumbers(rs);
    }
    if i :| 0 <= i < |SortByNumbers(rs)| && SortByNumbers(rs)[i].version == v {
      assert SortByNumbers(rs)[i] in rs;
    }
  }

  lemma {:induction false} CandidatesParse(st: State, service: ServiceName)
    requires Inv(st)
    ensures AllParse(ReleasedVersions(st, service))
  {
    var vs := ReleasedVersions(st, service);
    forall i | 0 <= i < |vs| ensures Parse(vs[i]).Some? {
      ReleasedVersionsMembers(st, service, vs[i]);
      var k :| k in st.versions && IsCandidate(st.versions[k], service) && st.versions[k].version == vs[i];
      assert TextsOk(st, st.versions[k]);
    }
  }

  /** Some released version of the service satisfies the minimum. */
  ghost predicate HasCompatible(st: State, d: Dependency) {
    exists k :: k in st.versions && IsCandidate(st.versions[k], d.service) &&
        CompatibleText(st.versions[k].version, d.minVersion)
  }

  /** v is a released, compatible version of the service that no other exceeds. */
  ghost predicate IsHighest(st: State, d: Dependency, v: string) {
    && (exists k :: k in st.versions && IsCandidate(st.versions[k], d.service) && st.versions[k].version == v)
    && CompatibleText(v, d.minVersion) && Parse(v).Some?
    && forall k ::
         k in st.versions && IsCandidate(st.versions[k], d.service)
         && CompatibleText(st.versions[k].version, d.minVersion) ==>
         Parse(st.versions[k].version).Some? && CompareTexts(st.versions[k].version, v) <= 0
  }

  /**
   * Resolving a stored dependency never raises a parse error, and finds a maximal
   * compatible release when there is one.
   */
  lemma {:induction false} ResolutionMeans(st: State, d: Dependency)
    requires Inv(st) && Parse(d.minVersion).Some?
    ensures var r := HighestCompatible(ReleasedVersions(st, d.service), d.minVersion);
            r.Ok? && (r.value.Some? <==> HasCompatible(st, d)) && (r.value.Some? ==> IsHighest(st, d, r.value.value))
  {
    var vs := ReleasedVersions(st, d.service);
    CandidatesParse(st, d.service);
    HighestCompatibleMeans(vs, d.minVersion);
    var r := HighestCompatible(vs, d.minVersion);
    forall k | k in st.versions && IsCandidate(st.versions[k], d.service) ensures st.versions[k].version in vs {
      ReleasedVersionsMembers(st, d.service, st.versions[k].version);
    }
    if r.value.Some? {
      ReleasedVersionsMembers(st, d.service, r.value.value);
    }
  }

  /** The report on one dependency names it and its resolution. */
  ghost predicate ReportsOn(st: State, d: Dependency, report: DependencyReport) {
    && report.service == d.service && report.minVersion == d.minVersion
    && HighestCompatible(ReleasedVersions(st, d.service), d.minVersion) == Ok(report.resolved)
  }

  lemma {:induction false} DependencyReportsMean(st: State, deps: seq<Dependency>, n: nat)
    requires Inv(st) && n <= |deps| && MinimumsParse(deps)
    ensures var r := DependencyReports(st, deps, n);
            r.Ok? && |r.value| == n && forall i :: 0 <= i < n ==> ReportsOn(st, deps[i], r.value[i])
  {
    if n > 0 {
      DependencyReportsMean(st, deps, n - 1);
      ResolutionMeans(st, deps[n - 1]);
      var before, all := DependencyReports(st, deps, n - 1).value, DependencyReports(st, deps, n).value;
      assert all[..n - 1] == before;
      forall i | 0 <= i < n ensures ReportsOn(st, deps[i], all[i]) {
        if i < n - 1 { assert all[i] == before[i]; }
      }
    }
  }

  /**
   * In a reachable registry a compatibility check fails only for an unknown or
   * unreleased version, and reports every dependency's highest match.
   */
  lemma {:induction false} CheckNeverUnparsable(st: State, service: ServiceName, version: string)
    requires Inv(st)
    ensures match CheckCompatibility(st, service, version)
            case Err(e) => !e.CheckUnparsable?
            case Ok(report) =>
              var deps := DependenciesOf(st, st.versions[KeyOf(service, version)].versionId);
              |report.dependencies| == |deps| && MinimumsParse(deps) &&
              (report.ok <==> forall i :: 0 <= i < |deps| ==> HasCompatible(st, deps[i])) &&
              forall i :: 0 <= i < |deps| && report.dependencies[i].resolved.Some? ==>
                IsHighest(st, deps[i], report.dependencies[i].resolved.value)
  {
    var key := KeyOf(service, version);
    if key in st.versions {
      assert TextsOk(st, st.versions[key]);
      var deps := DependenciesOf(st, st.versions[key].versionId);
      DependencyReportsMean(st, deps, |deps|);
      var reports := DependencyReports(st, deps, |deps|).value;
      forall i | 0 <= i < |deps|
        ensures reports[i].resolved.Some? <==> HasCompatible(st, deps[i])
        ensures reports[i].resolved.Some? ==> IsHighest(st, deps[i], reports[i].resolved.value)
      {
        assert ReportsOn(st, deps[i], reports[i]);
        ResolutionMeans(st, deps[i]);
      }
    }
  }

  // ----- Compatibility over runs without deprecation -----

  ghost predicate StillReleased(st: State, next: State, k: Key)
    requires k in st.versions
  {
    st.versions[k].status == Released ==>
      k in next.versions && next.versions[k].status == Released && next.versions[k].service == st.versions[k].service &&
      next.versions[k].version == st.versions[k].version
  }

  ghost predicate ReleasesKept(st: State, next: State) { forall k :: k in st.versions ==> StillReleased(st, next, k) }

  lemma StepKeepsReleases(st: State, step: Step, now: int)
    requires !step.Deprecate?
    ensures ReleasesKept(st, Apply(st, step, now))
  {
  }

  lemma ReleasesKeptTransitive(a: State, b: State, c: State)
    requires ReleasesKept(a, b) && ReleasesKept(b, c)
    ensures ReleasesKept(a, c)
  {
    forall k | k in a.versions ensures StillReleased(a, c, k) {
      assert StillReleased(a, b, k);
      if k in b.versions { assert StillReleased(b, c, k); }
    }
  }

  lemma {:induction false} ReleasesStay(st: State, steps: seq<TimedStep>)
    requires forall i :: 0 <= i < |steps| ==> !steps[i].step.Deprecate?
    ensures ReleasesKept(st, Run(st, steps))
    decreases |steps|
  {
    if steps != [] {
      var next := Apply(st, steps[0].step, steps[0].now);
      StepKeepsReleases(st, steps[0].step, steps[0].now);
      assert forall i :: 0 < i < |steps| ==> steps[1..][i - 1] == steps[i];
      ReleasesStay(next, steps[1..]);
      ReleasesKeptTransitive(st, next, Run(next, steps[1..]));
    }
  }

  lemma {:induction false} ResolutionGrows(st: State, next: State, d: Dependency, v: string)
    requires Inv(next) && ReleasesKept(st, next)
    requires IsHighest(st, d, v) && Parse(d.minVersion).Some?
    ensures var r := HighestCompatible(ReleasedVersions(next, d.service), d.minVersion);
            r.Ok? && r.value.Some? && IsHighest(next, d, r.value.value) && CompareTexts(v, r.value.value) <= 0
  {
    var k :| k in st.versions && IsCandidate(st.versions[k], d.service) && st.versions[k].version == v;
    assert StillReleased(st, next, k);
    ResolutionMeans(next, d);
  }

  /**
   * Without deprecation, a version that can be checked stays checkable, its
   * report stays ok once it is ok, and no resolved version ever goes down.
   */
  lemma {:induction false} CompatibilityStays(st: State, steps: seq<TimedStep>, service: ServiceName, version: string)
    requires Inv(st) && ClockForward(st, steps)
    requires forall i :: 0 <= i < |steps| ==> !steps[i].step.Deprecate?
    requires CheckCompatibility(st, service, version).Ok?
    ensures var before, after := CheckCompatibility(st, service, version).value,
            CheckCompatibility(Run(st, steps), service, version);
            && after.Ok? && |after.value.dependencies| == |before.dependencies|
            && (before.ok ==> after.value.ok)
            && forall i :: 0 <= i < |before.dependencies| && before.dependencies[i].resolved.Some? ==>
                 var v, w := before.dependencies[i].resolved.value, after.value.dependencies[i].resolved;
                 w.Some? && Parse(v).Some? && Parse(w.value).Some? && CompareTexts(v, w.value) <= 0
  {
    var end, key := Run(st, steps), KeyOf(service, version);
    RunKeeps(st, steps);
    ReleasesStay(st, steps);
    assert StillReleased(st, end, key) && RecordEvolves(st, end, key);
    CheckNeverUnparsable(st, service, version);
    CheckNeverUnparsable(end, service, version);
    var deps := DependenciesOf(st, st.versions[key].versionId);
    assert TextsOk(end, end.versions[key]);
    DependencyReportsMean(end, deps, |deps|);
    var before, after := CheckCompatibility(st, service, version).value,
        CheckCompatibility(end, service, version).value;
    forall i | 0 <= i < |deps| && before.dependencies[i].resolved.Some?
      ensures var w := after.dependencies[i].resolved;
              w.Some? && Parse(w.value).Some? && CompareTexts(before.dependencies[i].resolved.value, w.value) <= 0
    {
      assert ReportsOn(end, deps[i], after.dependencies[i]);
      ResolutionGrows(st, end, deps[i], before.dependencies[i].resolved.value);
    }
  }
}
