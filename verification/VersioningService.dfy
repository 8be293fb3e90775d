/** The in-memory repository and the service over it, as objects updated in place. */
module VersioningService {
  import opened Outcomes
  import opened SemVer
  import opened VersionRegistry

  class InMemoryRepository {
    var services: map<ServiceName, Service>
    var versions: map<Key, VersionRecord>
    var order: seq<Key>
    var dependencies: map<nat, seq<Dependency>>
    var events: seq<Event>
    var nextId: nat
    var clock: int

    ghost function Contents(): State
      reads this
    {
      State(services, versions, order, dependencies, events, nextId, clock)
    }

    constructor ()
      ensures Contents() == EMPTY
    {
      services, versions, order, dependencies, events, nextId, clock := map[], map[], [], map[], [], 0, 0;
    }

    method UpsertService(name: ServiceName, plane: string, description: string, now: int)
      modifies this
      ensures var created := if name in old(services) then old(services)[name].createdAt else now;
              Contents() == old(Contents()).(services :=
                  old(services)[name := Service(plane, description, created, now)], clock := now)
    {
      var record;
      if name !in services {
        record := Service(plane, description, now, now);
      } else {
        record := services[name];
        record := record.(plane := plane, description := description, updatedAt := now);
      }
      services := services[name := record];
      clock := now;
    }

    method InsertVersion(service: ServiceName, request: CreateRequest, semver: Version, now: int)
      returns (result: Result<VersionRecord, ServiceError>)
      modifies this
      ensures KeyOf(service, request.version) in old(versions) <==> result == Err(Conflict)
      ensures result.Err? ==> result == Err(Conflict) && Contents() == old(Contents())
      ensures result.Ok? ==>
                && result.value == VersionRecord(old(nextId), service, request.version, semver, request.gitSha,
                                                 request.imageTag, request.apiVersion, request.minCompatible,
                                                 Draft, None, now, None, None, None)
                && Contents() == old(Contents()).(versions := old(versions)[KeyOf(service, request.version) :=
                                                                result.value],
                                                  order := old(order) + [KeyOf(service, request.version)],
                                                  dependencies := old(dependencies)[old(nextId) := []],
                                                  nextId := old(nextId) + 1,
                                                  clock := now)
    {
      var key := KeyOf(service, request.version);
      if key in versions { return Err(Conflict); }
      var record := VersionRecord(nextId, service, request.version, semver, request.gitSha, request.imageTag,
                                  request.apiVersion, request.minCompatible, Draft, None, now, None, None, None);
      versions := versions[key := record];
      order := order + [key];
      dependencies := dependencies[nextId := []];
      nextId := nextId + 1;
      clock := now;
      return Ok(record);
    }

    method SetDependencies(versionId: nat, deps: seq<Dependency>)
      modifies this`dependencies
      ensures dependencies == old(dependencies)[versionId := deps]
    {
      dependencies := dependencies[versionId := deps];
    }

    method GetDependencies(versionId: nat) returns (deps: seq<Dependency>)
      ensures deps == DependenciesOf(Contents(), versionId)
    {
      deps := if versionId in dependencies then dependencies[versionId] else [];
    }

    method UpdateVersionRelease(service: ServiceName, version: string, request: ReleaseRequest, now: int)
      returns (result: Result<VersionRecord, ServiceError>)
      modifies this`versions, this`clock
      ensures KeyOf(service, version) !in old(versions) <==> result == Err(NotFound)
      ensures result.Err? ==> result == Err(NotFound) && versions == old(versions) && clock == old(clock)
      ensures result.Ok? ==>
                && result.value == old(versions)[KeyOf(service, version)].(
                                     status := Released, gitSha := Some(request.gitSha),
                                     imageTag := Some(request.imageTag), checksum := Some(request.checksum),
                                     releasedAt := Some(now))
                && versions == old(versions)[KeyOf(service, version) := result.value] && clock == now
    {
      if KeyOf(service, version) !in versions { return Err(NotFound); }
      var updated := versions[KeyOf(service, version)];
      updated := updated.(status := Released);
      updated := updated.(gitSha := Some(request.gitSha));
      updated := updated.(imageTag := Some(request.imageTag));
      updated := updated.(checksum := Some(request.checksum));
      updated := updated.(releasedAt := Some(now));
      versions := versions[KeyOf(service, version) := updated];
      clock := now;
      return Ok(updated);
    }

    method UpdateVersionStatus(service: ServiceName, version: string, status: Status, now: int)
      returns (result: Result<VersionRecord, ServiceError>)
      modifies this`versions, this`clock
      ensures KeyOf(service, version) !in old(versions) <==> result == Err(NotFound)
      ensures result.Err? ==> result == Err(NotFound) && versions == old(versions) && clock == old(clock)
      ensures result.Ok? ==>
                && (var before := old(versions)[KeyOf(service, version)];
                    result.value == before.(status := status,
                                     deprecatedAt := if status == Deprecated then Some(now) else before.deprecatedAt,
                                            retiredAt := if status == Retired then Some(now) else before.retiredAt))
                && versions == old(versions)[KeyOf(service, version) := result.value] && clock == now
    {
      if KeyOf(service, version) !in versions { return Err(NotFound); }
      var updated := versions[KeyOf(service, version)];
      updated := updated.(status := status);
      if status == Deprecated { updated := updated.(deprecatedAt := Some(now)); }
      if status == Retired { updated := updated.(retiredAt := Some(now)); }
      versions := versions[KeyOf(service, version) := updated];
      clock := now;
      return Ok(updated);
    }

    method InsertEvent(versionId: nat, kind: EventKind, actor: string, reason: string)
      modifies this`events
      ensures events == old(events) + [Event(versionId, kind, actor, reason)]
    {
      events := events + [Event(versionId, kind, actor, reason)];
    }

    /** The released versions of a service, highest numbers first. */
    method GetReleasedVersions(service: ServiceName) returns (texts: seq<string>)
      ensures texts == ReleasedVersions(Contents(), service)
    {
      var found: seq<VersionRecord> := [];
      for i := 0 to |order|
        invariant found + ReleasedRecords(versions, order[i..], service) == ReleasedRecords(versions, order, service)
      {
        assert order[i..][1..] == order[i + 1..];
        if order[i] in versions && IsCandidate(versions[order[i]], service) {
          found := found + [versions[order[i]]];
        }
      }
      assert order[|order|..] == [] && found + [] == found;
      var sorted := SortByNumbers(found);
      texts := [];
      for i := 0 to |sorted|
        invariant texts + VersionTexts(sorted[i..]) == VersionTexts(sorted)
      {
        assert sorted[i..][1..] == sorted[i + 1..];
        texts := texts + [sorted[i].version];
      }
      assert sorted[|sorted|..] == [] && texts + [] == texts;
    }
  }

  class Versioning {
    const repository: InMemoryRepository

    constructor (repository: InMemoryRepository)
      ensures this.repository == repository
    {
      this.repository := repository;
    }

    /** Whether a step was accepted, and what it left, is what the registry's step function says. */
    ghost predicate Outcome(before: State, attempt: Result<State, ServiceError>, error: Option<ServiceError>)
      reads repository
    {
      match attempt
      case Ok(next) => error.None? && repository.Contents() == next
      case Err(e) => error == Some(e) && repository.Contents() == before
    }

    method RegisterService(name: ServiceName, plane: string, description: string, now: int)
      returns (error: Option<ServiceError>)
      modifies repository
      ensures var before := old(repository.Contents());
              Outcome(before, VersionRegistry.RegisterService(before, name, plane, description, now), error)
    {
      if !ValidServiceName(name) { return Some(InvalidServiceName); }
      repository.UpsertService(name, Upper(plane), description, now);
      return None;
    }

    /** The first fault among the requested dependencies, if any, and the records to store. */
    method CollectDependencies(service: ServiceName, deps: seq<Dependency>)
      returns (error: Option<ServiceError>, records: seq<Dependency>)
      ensures error == CheckDependencies(repository.Contents(), service, deps, 0)
      ensures error.None? ==> records == deps
    {
      records := [];
      var seen: set<ServiceName> := {};
      for i := 0 to |deps|
        invariant records == deps[..i] && seen == set j | 0 <= j < i :: deps[j].service
        invariant CheckDependencies(repository.Contents(), service, deps, 0) ==
                CheckDependencies(repository.Contents(), service, deps, i)
      {
        var d := deps[i];
        if d.service == service { return Some(SelfDependency), records; }
        if d.service in seen { return Some(DuplicateDependency), records; }
        if d.service !in repository.services { return Some(NotFound), records; }
        if Parse(d.minVersion).None? { return Some(InvalidVersionText(d.minVersion)), records; }
        seen := seen + {d.service};
        records := records + [d];
      }
      return None, records;
    }

    method CreateVersion(service: ServiceName, request: CreateRequest, now: int) returns (error: Option<ServiceError>)
      modifies repository
      ensures var before := old(repository.Contents());
              Outcome(before, VersionRegistry.CreateVersion(before, service, request, now), error)
    {
      if service !in repository.services { return Some(NotFound); }
      var semver := Parse(request.version);
      if semver.None? { return Some(InvalidVersionText(request.version)); }
      if request.minCompatible.Some? {
        if Parse(request.minCompatible.value).None? { return Some(InvalidVersionText(request.minCompatible.value)); }
      }
      if KeyOf(service, request.version) in repository.versions { return Some(Conflict); }
      var fault, records := CollectDependencies(service, request.dependencies);
      if fault.Some? { return fault; }
      var inserted := repository.InsertVersion(service, request, semver.value, now);
      var record := inserted.value;
      repository.SetDependencies(record.versionId, records);
      repository.InsertEvent(record.versionId, VersionCreated, "system", "version draft created");
      return None;
    }

    method ReleaseVersion(service: ServiceName, version: string, request: ReleaseRequest, now: int)
      returns (error: Option<ServiceError>)
      modifies repository
      ensures var before := old(repository.Contents());
              Outcome(before, VersionRegistry.ReleaseVersion(before, service, version, request, now), error)
    {
      var key := KeyOf(service, version);
      if key !in repository.versions { return Some(NotFound); }
      var current := repository.versions[key];
      if current.status != Draft { return Some(InvalidTransition(current.status)); }
      var semver := Parse(version);
      if semver.None? { return Some(InvalidVersionText(version)); }
      if !semver.value.IsStable() { return Some(UnstableRelease); }
      var record := repository.UpdateVersionRelease(service, version, request, now);
      repository.InsertEvent(record.value.versionId, VersionReleased, request.actor, request.reason);
      return None;
    }

    method DeprecateVersion(service: ServiceName, version: string, actor: string, reason: string, now: int)
      returns (error: Option<ServiceError>)
      modifies repository
      ensures var before := old(repository.Contents());
              Outcome(before, VersionRegistry.DeprecateVersion(before, service, version, actor, reason, now), error)
    {
      var key := KeyOf(service, version);
      if key !in repository.versions { return Some(NotFound); }
      var current := repository.versions[key];
      if current.status != Released { return Some(InvalidTransition(current.status)); }
      var record := repository.UpdateVersionStatus(service, version, Deprecated, now);
      repository.InsertEvent(record.value.versionId, VersionDeprecated, actor, reason);
      return None;
    }

    method RetireVersion(service: ServiceName, version: string, actor: string, reason: string, now: int)
      returns (error: Option<ServiceError>)
      modifies repository
      ensures var before := old(repository.Contents());
              Outcome(before, VersionRegistry.RetireVersion(before, service, version, actor, reason, now), error)
    {
      var key := KeyOf(service, version);
      if key !in repository.versions { return Some(NotFound); }
      var current := repository.versions[key];
      if current.status != Deprecated { return Some(InvalidTransition(current.status)); }
      var record := repository.UpdateVersionStatus(service, version, Retired, now);
      repository.InsertEvent(record.value.versionId, VersionRetired, actor, reason);
      return None;
    }

    method CheckCompatibility(service: ServiceName, version: string)
      returns (result: Result<CompatibilityReport, CheckError>)
      ensures result == VersionRegistry.CheckCompatibility(repository.Contents(), service, version)
    {
      var key := KeyOf(service, version);
      if key !in repository.versions { return Err(CheckNotFound); }
      var current := repository.versions[key];
      if current.status != Released { return Err(CheckInvalidTransition); }
      var deps := repository.GetDependencies(current.versionId);
      var reports: seq<DependencyReport> := [];
      var ok := true;
      ghost var st := repository.Contents();
      for i := 0 to |deps|
        invariant DependencyReports(st, deps, i) == Ok(reports)
        invariant ok == AllResolved(reports)
      {
        var candidates := repository.GetReleasedVersions(deps[i].service);
        var resolved := HighestCompatible(candidates, deps[i].minVersion);
        if resolved.Err? {
          FailureStays(st, deps, i + 1, |deps|);
          return Err(CheckUnparsable(resolved.error.value));
        }
        if resolved.value.None? { ok := false; }
        var report := DependencyReport(deps[i].service, deps[i].minVersion, resolved.value);
        AllResolvedStep(reports, report);
        reports := reports + [report];
      }
      return Ok(CompatibilityReport(ok, reports));
    }
  }

  lemma AllResolvedStep(reports: seq<DependencyReport>, report: DependencyReport)
    ensures AllResolved(reports + [report]) <==> AllResolved(reports) && report.resolved.Some?
  {
    var all := reports + [report];
    assert all[|reports|] == report && forall i :: 0 <= i < |reports| ==> all[i] == reports[i];
  }

  /** The first parse error is the one raised. */
  lemma {:induction false} FailureStays(st: State, deps: seq<Dependency>, i: nat, n: nat)
    requires i <= n <= |deps| && DependencyReports(st, deps, i).Err?
    ensures DependencyReports(st, deps, n) == DependencyReports(st, deps, i)
    decreases n
  {
    if i < n { FailureStays(st, deps, i, n - 1); }
  }
}
