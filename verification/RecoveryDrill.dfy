/** Assessing a recovery plan, its readiness report, and the drill that records the assessment step by step. */
module RecoveryDrill {
  import opened Outcomes
  import opened Readiness

  // ----- Records -----

  type Positive = n: nat | 0 < n witness 1

  datatype PlanStatus = DraftPlan | ActivePlan | RetiredPlan
  datatype Strategy = RestoreFromBackup | Restart | Rebuild | Failover | Manual

  datatype Plan = Plan(status: PlanStatus, rpoSeconds: Positive, drillMaxAgeDays: Option<Positive>)

  datatype Component = Component(
    name: string,
    strategy: Strategy,
    backupPolicy: Option<string>,
    healthEndpoint: Option<string>,
    rpoSeconds: Option<Positive>)

  datatype BackupInfo = BackupInfo(latestSuccessAt: Option<int>, verificationStatus: Option<string>)

  /** The backup policies and their latest backups, and the health of each component, held fixed during a drill. */
  datatype Surroundings = Surroundings(policies: map<string, Option<BackupInfo>>, checksEnabled: bool,
      health: Component -> bool)

  // ----- Assessment -----

  function RpoOf(plan: Plan, c: Component): Positive {
    if c.rpoSeconds.Some? then c.rpoSeconds.value else plan.rpoSeconds
  }

  function Assess(plan: Plan, c: Component, env: Surroundings, now: int): Requirement {
    var required := c.strategy == RestoreFromBackup;
    var exists_ := required && c.backupPolicy.Some? && c.backupPolicy.value in env.policies;
    var info := if exists_ then env.policies[c.backupPolicy.value] else None;
    if info.None? || info.value.latestSuccessAt.None? then
        Requirement(c.name, required, exists_, None, false, false, RpoOf(plan, c))
    else
      var at := info.value.latestSuccessAt.value;
      Requirement(c.name, required, true, Some(at), at >= now - RpoOf(plan, c),
          info.value.verificationStatus == Some("SUCCEEDED"), RpoOf(plan, c))
  }

  function AssessAll(plan: Plan, cs: seq<Component>, env: Surroundings, now: int): (rs: seq<Requirement>)
    ensures |rs| == |cs| && forall i :: 0 <= i < |cs| ==> rs[i] == Assess(plan, cs[i], env, now)
  {
    if cs == [] then [] else [Assess(plan, cs[0], env, now)] + AssessAll(plan, cs[1..], env, now)
  }

  method AssessBackupRequirements(plan: Plan, cs: seq<Component>, env: Surroundings, now: int)
    returns (requirements: seq<Requirement>)
    ensures requirements == AssessAll(plan, cs, env, now)
  {
    requirements := [];
    for i := 0 to |cs|
      invariant |requirements| == i && forall j :: 0 <= j < i ==> requirements[j] == Assess(plan, cs[j], env, now)
    {
      var c := cs[i];
      var r := Requirement(c.name, c.strategy == RestoreFromBackup, false, None, false, false, RpoOf(plan, c));
      if !r.required || c.backupPolicy.None? {
        requirements := requirements + [r];
        continue;
      }
      r := r.(policyExists := c.backupPolicy.value in env.policies);
      if !r.policyExists {
        requirements := requirements + [r];
        continue;
      }
      var info := env.policies[c.backupPolicy.value];
      if info.None? || info.value.latestSuccessAt.None? {
        requirements := requirements + [r];
        continue;
      }
      var at := info.value.latestSuccessAt.value;
      r := r.(latestBackupAt := Some(at));
      r := r.(isFresh := at >= now - RpoOf(plan, c));
      r := r.(verified := info.value.verificationStatus == Some("SUCCEEDED"));
      requirements := requirements + [r];
    }
  }

  predicate HasEndpoint(c: Component) { c.healthEndpoint.Some? && c.healthEndpoint.value != "" }

  function HealthOf(c: Component, env: Surroundings): HealthStatus {
    if HasEndpoint(c) && env.checksEnabled then HealthStatus(c.name, true, true, Some(env.health(c)))
    else HealthStatus(c.name, HasEndpoint(c), false, None)
  }

  function HealthAll(cs: seq<Component>, env: Surroundings): (hs: seq<HealthStatus>)
    ensures |hs| == |cs| && forall i :: 0 <= i < |cs| ==> hs[i] == HealthOf(cs[i], env)
  {
    if cs == [] then [] else [HealthOf(cs[0], env)] + HealthAll(cs[1..], env)
  }

  // ----- Checks -----

  /** Whether a check passed, and the components it named. */
  datatype CheckResult = CheckResult(ok: bool, named: seq<string>)

  predicate MissingPolicy(r: Requirement) { r.required && !r.policyExists }
  predicate StaleBackup(r: Requirement) { r.required && r.policyExists && !r.isFresh }
  predicate UnverifiedBackup(r: Requirement) { r.required && r.policyExists && r.isFresh && !r.verified }
  predicate FailedHealth(h: HealthStatus) { h.applicable && h.healthy == Some(false) }

  function RequirementsWhere(rs: seq<Requirement>, p: Requirement -> bool): seq<string> {
    if rs == [] then [] else (if p(rs[0]) then [rs[0].component] else []) + RequirementsWhere(rs[1..], p)
  }

  function HealthWhere(hs: seq<HealthStatus>, p: HealthStatus -> bool): seq<string> {
    if hs == [] then [] else (if p(hs[0]) then [hs[0].component] else []) + HealthWhere(hs[1..], p)
  }

  function Naming(named: seq<string>): CheckResult { CheckResult(named == [], named) }

  function ValidatePlan(plan: Plan, cs: seq<Component>): CheckResult {
    CheckResult(plan.status == ActivePlan && cs != [], [])
  }

  function CheckPolicies(rs: seq<Requirement>): CheckResult { Naming(RequirementsWhere(rs, MissingPolicy)) }

  function CheckFreshness(rs: seq<Requirement>): CheckResult { Naming(RequirementsWhere(rs, StaleBackup)) }

  function CheckVerification(rs: seq<Requirement>): CheckResult { Naming(RequirementsWhere(rs, UnverifiedBackup)) }

  method CheckHealth(cs: seq<Component>, env: Surroundings) returns (result: CheckResult, checks: seq<HealthStatus>)
    ensures checks == HealthAll(cs, env)
    ensures result == Naming(HealthWhere(checks, FailedHealth))
  {
    checks := [];
    var failed: seq<string> := [];
    for i := 0 to |cs|
      invariant |checks| == i && forall j :: 0 <= j < i ==> checks[j] == HealthOf(cs[j], env)
      invariant failed == HealthWhere(checks, FailedHealth)
    {
      var c := cs[i];
      var status := HealthStatus(c.name, HasEndpoint(c), false, None);
      if HasEndpoint(c) && env.checksEnabled {
        var healthy := env.health(c);
        status := status.(checked := true);
        status := status.(healthy := Some(healthy));
        if !healthy { failed := failed + [c.name]; }
      }
      HealthWhereAppend(checks, status, FailedHealth);
      checks := checks + [status];
    }
    result := CheckResult(failed == [], failed);
  }

  lemma {:induction false} HealthWhereAppend(hs: seq<HealthStatus>, h: HealthStatus, p: HealthStatus -> bool)
    ensures HealthWhere(hs + [h], p) == HealthWhere(hs, p) + if p(h) then [h.component] else []
  {
    if hs != [] {
      assert (hs + [h])[1..] == hs[1..] + [h];
      HealthWhereAppend(hs[1..], h, p);
    }
  }

  lemma {:induction false} RequirementsWhereEmpty(rs: seq<Requirement>, p: Requirement -> bool)
    ensures RequirementsWhere(rs, p) == [] <==> forall i :: 0 <= i < |rs| ==> !p(rs[i])
  {
    if rs != [] {
      RequirementsWhereEmpty(rs[1..], p);
      assert forall i :: 0 < i < |rs| ==> rs[1..][i - 1] == rs[i];
    }
  }

  lemma {:induction false} HealthWhereEmpty(hs: seq<HealthStatus>, p: HealthStatus -> bool)
    ensures HealthWhere(hs, p) == [] <==> forall i :: 0 <= i < |hs| ==> !p(hs[i])
  {
    if hs != [] {
      HealthWhereEmpty(hs[1..], p);
      assert forall i :: 0 < i < |hs| ==> hs[1..][i - 1] == hs[i];
    }
  }

  // ----- The five steps -----

  /** The outcomes of the five drill steps, in order. */
  function StepResults(plan: Plan, cs: seq<Component>, env: Surroundings, now: int): (results: seq<CheckResult>)
    ensures |results| == 5
  {
    var rs := AssessAll(plan, cs, env, now);
    [ValidatePlan(plan, cs), CheckPolicies(rs), CheckFreshness(rs), CheckVerification(rs),
        Naming(HealthWhere(HealthAll(cs, env), FailedHealth))]
  }

  predicate AllOk(results: seq<CheckResult>) { forall i :: 0 <= i < |results| ==> results[i].ok }

  /** A required component whose latest backup is fresh and verified. */
  predicate Covered(plan: Plan, c: Component, env: Surroundings, now: int) {
    c.strategy == RestoreFromBackup ==>
      && c.backupPolicy.Some? && c.backupPolicy.value in env.policies
      && var info := env.policies[c.backupPolicy.value];
         && info.Some? && info.value.latestSuccessAt.Some? && info.value.latestSuccessAt.value >= now - RpoOf(plan, c)
         && info.value.verificationStatus == Some("SUCCEEDED")
  }

  predicate NotFailing(c: Component, env: Surroundings) { HasEndpoint(c) && env.checksEnabled ==> env.health(c) }

  lemma AssessMeans(plan: Plan, c: Component, env: Surroundings, now: int)
    ensures var r := Assess(plan, c, env, now);
            && (Covered(plan, c, env, now) <==> !MissingPolicy(r) && !StaleBackup(r) && !UnverifiedBackup(r))
            && (Covered(plan, c, env, now) <==> (r.required ==> r.isFresh && r.verified))
            && (r.isFresh || r.verified ==> r.required && r.policyExists)
  {
  }

  /** The three backup checks pass together exactly when every component that needs a backup is covered. */
  lemma BackupChecksMean(plan: Plan, cs: seq<Component>, env: Surroundings, now: int)
    ensures var rs := AssessAll(plan, cs, env, now);
            CheckPolicies(rs).ok && CheckFreshness(rs).ok && CheckVerification(rs).ok <==>
              forall i :: 0 <= i < |cs| ==> Covered(plan, cs[i], env, now)
  {
    var rs := AssessAll(plan, cs, env, now);
    RequirementsWhereEmpty(rs, MissingPolicy);
    RequirementsWhereEmpty(rs, StaleBackup);
    RequirementsWhereEmpty(rs, UnverifiedBackup);
    forall i | 0 <= i < |cs|
      ensures Covered(plan, cs[i], env, now) <==>
                !MissingPolicy(rs[i]) && !StaleBackup(rs[i]) && !UnverifiedBackup(rs[i])
    {
      AssessMeans(plan, cs[i], env, now);
      assert rs[i] == Assess(plan, cs[i], env, now);
    }
  }

  /**
   * All five steps pass exactly when the plan is active with components, every
   * component that needs one has a fresh verified backup, and no checked component is
   * unhealthy.
   */
  lemma StepsMean(plan: Plan, cs: seq<Component>, env: Surroundings, now: int)
    ensures AllOk(StepResults(plan, cs, env, now)) <==>
              && plan.status == ActivePlan && cs != []
              && (forall i :: 0 <= i < |cs| ==> Covered(plan, cs[i], env, now))
              && (forall i :: 0 <= i < |cs| ==> NotFailing(cs[i], env))
  {
    var rs, hs, results := AssessAll(plan, cs, env, now), HealthAll(cs, env), StepResults(plan, cs, env, now);
    BackupChecksMean(plan, cs, env, now);
    HealthWhereEmpty(hs, FailedHealth);
    assert AllOk(results) <==> results[0].ok && results[1].ok && results[2].ok && results[3].ok && results[4].ok;
    forall i | 0 <= i < |cs| ensures NotFailing(cs[i], env) <==> !FailedHealth(hs[i]) {
      assert hs[i] == HealthOf(cs[i], env);
    }
  }

  /** Some component has an endpoint that is not checked because checks are off. */
  ghost predicate Unchecked(cs: seq<Component>, env: Surroundings) {
    !env.checksEnabled && exists i :: 0 <= i < |cs| && HasEndpoint(cs[i])
  }

  function PlanScore(plan: Plan, cs: seq<Component>, env: Surroundings, recent: bool, now: int): real {
    ScoreOf(plan.status == ActivePlan, AssessAll(plan, cs, env, now), HealthAll(cs, env), recent)
  }

  lemma PassingTally(plan: Plan, cs: seq<Component>, env: Surroundings, now: int)
    requires AllOk(StepResults(plan, cs, env, now))
    ensures var t := TallyOf(AssessAll(plan, cs, env, now), HealthAll(cs, env));
            && t.Valid() && t.isFresh == t.required && t.verified == t.required
            && (if Unchecked(cs, env) then t.healthy == 0 < t.applicable else t.healthy == t.applicable)
  {
    var rs, hs := AssessAll(plan, cs, env, now), HealthAll(cs, env);
    StepsMean(plan, cs, env, now);
    TallyMeans(rs, hs);
    forall i | 0 <= i < |rs| && rs[i].required ensures rs[i].isFresh && rs[i].verified {
      AssessMeans(plan, cs[i], env, now);
    }
    if Unchecked(cs, env) {
      NoneHealthy(hs);
      var i :| 0 <= i < |cs| && HasEndpoint(cs[i]);
      assert hs[i].applicable && hs[i].healthy != Some(true);
    } else {
      forall i | 0 <= i < |hs| && hs[i].applicable ensures hs[i].healthy == Some(true) {
        assert NotFailing(cs[i], env);
      }
    }
  }

  lemma PassingTallyScore(t: Tally, recent: bool)
    requires t.Valid() && t.isFresh == t.required && t.verified == t.required &&
            (t.healthy == t.applicable || t.healthy == 0)
    ensures ActiveScore(t, recent) ==
            75.0 + (if t.healthy < t.applicable then 0.0 else 15.0) + (if recent then 10.0 else 0.0)
  {
    BackupScoreBounds(t);
    if t.applicable > 0 {
      RatioBounds(t.healthy, t.applicable, t.applicable);
      assert t.healthy == 0 ==> Ratio(t.healthy, t.applicable) == 0.0;
    }
  }

  /**
   * When all five steps pass, the score is 75, plus 15 unless health checks are off
   * for some endpoint, plus 10 for a recent drill.
   */
  lemma PassingScore(plan: Plan, cs: seq<Component>, env: Surroundings, recent: bool, now: int)
    requires AllOk(StepResults(plan, cs, env, now))
    ensures PlanScore(plan, cs, env, recent, now) ==
            75.0 + (if Unchecked(cs, env) then 0.0 else 15.0) + (if recent then 10.0 else 0.0)
  {
    StepsMean(plan, cs, env, now);
    PassingTally(plan, cs, env, now);
    PassingTallyScore(TallyOf(AssessAll(plan, cs, env, now), HealthAll(cs, env)), recent);
  }

  /** A plan whose five steps pass is READY exactly when no endpoint is left unchecked. */
  lemma PassingIsReady(plan: Plan, cs: seq<Component>, env: Surroundings, recent: bool, now: int)
    requires AllOk(StepResults(plan, cs, env, now))
    ensures StateOf(PlanScore(plan, cs, env, recent, now)) == Ready <==> !Unchecked(cs, env)
  {
    PassingScore(plan, cs, env, recent, now);
  }

  /** With health checks off, a plan of one restartable service passes every step and is not READY. */
  lemma PassingNotReady(plan: Plan, env: Surroundings, recent: bool, now: int)
    requires plan.status == ActivePlan && !env.checksEnabled
    ensures var cs := [Component("api", Restart, None, Some("/health"), None)];
            AllOk(StepResults(plan, cs, env, now)) && StateOf(PlanScore(plan, cs, env, recent, now)) != Ready
  {
    var cs := [Component("api", Restart, None, Some("/health"), None)];
    StepsMean(plan, cs, env, now);
    assert HasEndpoint(cs[0]);
    PassingIsReady(plan, cs, env, recent, now);
  }

  lemma {:induction false} NoneHealthy(hs: seq<HealthStatus>)
    requires forall i :: 0 <= i < |hs| ==> hs[i].healthy == None
    ensures Count(hs, ApplicableHealthy) == 0
  {
    if hs != [] {
      assert forall i :: 0 < i < |hs| ==> hs[1..][i - 1] == hs[i];
      NoneHealthy(hs[1..]);
    }
  }

  // ----- The report's warnings -----

  datatype Warning =
    | PlanInactive
    | NoPolicy(component: string)
    | Stale(component: string)
    | NotVerified(component: string)
    | Unhealthy(component: string)

  function WarningsOn(r: Requirement): seq<Warning> {
    (if MissingPolicy(r) then [NoPolicy(r.component)] else []) +
    (if StaleBackup(r) then [Stale(r.component)] else []) +
    (if r.required && r.isFresh && !r.verified then [NotVerified(r.component)] else [])
  }

  function RequirementWarnings(rs: seq<Requirement>): seq<Warning> {
    if rs == [] then [] else WarningsOn(rs[0]) + RequirementWarnings(rs[1..])
  }

  function HealthWarnings(hs: seq<HealthStatus>): seq<Warning> {
    if hs == [] then []
    else (if FailedHealth(hs[0]) then [Unhealthy(hs[0].component)] else []) + HealthWarnings(hs[1..])
  }

  function Warnings(plan: Plan, rs: seq<Requirement>, hs: seq<HealthStatus>): seq<Warning> {
    (if plan.status != ActivePlan then [PlanInactive] else []) + RequirementWarnings(rs) + HealthWarnings(hs)
  }

  /** Append the warnings on one requirement. */
  method WarnAbout(r: Requirement, before: seq<Warning>) returns (warnings: seq<Warning>)
    ensures warnings == before + WarningsOn(r)
  {
    warnings := before;
    if r.required && !r.policyExists { warnings := warnings + [NoPolicy(r.component)]; }
    if r.required && r.policyExists && !r.isFresh { warnings := warnings + [Stale(r.component)]; }
    if r.required && r.isFresh && !r.verified { warnings := warnings + [NotVerified(r.component)]; }
  }

  lemma {:induction false} RequirementWarningsAppend(rs: seq<Requirement>, r: Requirement)
    ensures RequirementWarnings(rs + [r]) == RequirementWarnings(rs) + WarningsOn(r)
  {
    if rs == [] {
      assert [r][1..] == [];
    } else {
      assert (rs + [r])[1..] == rs[1..] + [r];
      RequirementWarningsAppend(rs[1..], r);
    }
  }

  lemma {:induction false} HealthWarningsAppend(hs: seq<HealthStatus>, h: HealthStatus)
    ensures HealthWarnings(hs + [h]) == HealthWarnings(hs) + if FailedHealth(h) then [Unhealthy(h.component)] else []
  {
    if hs != [] {
      assert (hs + [h])[1..] == hs[1..] + [h];
      HealthWarningsAppend(hs[1..], h);
    }
  }

  method WarnAboutAll(rs: seq<Requirement>, before: seq<Warning>) returns (warnings: seq<Warning>)
    ensures warnings == before + RequirementWarnings(rs)
  {
    warnings := before;
    for i := 0 to |rs|
      invariant warnings == before + RequirementWarnings(rs[..i])
    {
      assert rs[..i + 1] == rs[..i] + [rs[i]];
      RequirementWarningsAppend(rs[..i], rs[i]);
      warnings := WarnAbout(rs[i], warnings);
    }
    assert rs[..|rs|] == rs;
  }

  method WarnAboutHealth(hs: seq<HealthStatus>, before: seq<Warning>) returns (warnings: seq<Warning>)
    ensures warnings == before + HealthWarnings(hs)
  {
    warnings := before;
    for i := 0 to |hs|
      invariant warnings == before + HealthWarnings(hs[..i])
    {
      assert hs[..i + 1] == hs[..i] + [hs[i]];
      HealthWarningsAppend(hs[..i], hs[i]);
      if hs[i].applicable && hs[i].healthy == Some(false) { warnings := warnings + [Unhealthy(hs[i].component)]; }
    }
    assert hs[..|hs|] == hs;
  }

  method CollectWarnings(plan: Plan, rs: seq<Requirement>, hs: seq<HealthStatus>) returns (warnings: seq<Warning>)
    ensures warnings == Warnings(plan, rs, hs)
  {
    warnings := if plan.status != ActivePlan then [PlanInactive] else [];
    warnings := WarnAboutAll(rs, warnings);
    warnings := WarnAboutHealth(hs, warnings);
  }

  lemma {:induction false} NoRequirementWarnings(rs: seq<Requirement>)
    ensures RequirementWarnings(rs) == [] <==>
            forall i :: 0 <= i < |rs| ==>
                  !MissingPolicy(rs[i]) && !StaleBackup(rs[i]) &&
                  !(rs[i].required && rs[i].isFresh && !rs[i].verified)
  {
    if rs != [] {
      NoRequirementWarnings(rs[1..]);
      assert forall i :: 0 < i < |rs| ==> rs[1..][i - 1] == rs[i];
    }
  }

  lemma {:induction false} NoHealthWarnings(hs: seq<HealthStatus>)
    ensures HealthWarnings(hs) == [] <==> forall i :: 0 <= i < |hs| ==> !FailedHealth(hs[i])
  {
    if hs != [] {
      NoHealthWarnings(hs[1..]);
      assert forall i :: 0 < i < |hs| ==> hs[1..][i - 1] == hs[i];
    }
  }

  /** A report without warnings is one whose drill would pass every step, for a plan that has components. */
  lemma WarningsMeanSteps(plan: Plan, cs: seq<Component>, env: Surroundings, now: int)
    ensures AllOk(StepResults(plan, cs, env, now)) <==>
            cs != [] && Warnings(plan, AssessAll(plan, cs, env, now), HealthAll(cs, env)) == []
  {
    var rs, hs := AssessAll(plan, cs, env, now), HealthAll(cs, env);
    StepsMean(plan, cs, env, now);
    NoRequirementWarnings(rs);
    NoHealthWarnings(hs);
    forall i | 0 <= i < |cs|
      ensures Covered(plan, cs[i], env, now) <==>
                !MissingPolicy(rs[i]) && !StaleBackup(rs[i]) && !(rs[i].required && rs[i].isFresh && !rs[i].verified)
      ensures NotFailing(cs[i], env) <==> !FailedHealth(hs[i])
    {
      AssessMeans(plan, cs[i], env, now);
      assert rs[i] == Assess(plan, cs[i], env, now) && hs[i] == HealthOf(cs[i], env);
    }
  }

  // ----- Drills -----

  datatype StepName = ValidatePlanStep | PoliciesStep | FreshnessStep | VerificationStep | HealthStep
  const STEP_NAMES := [ValidatePlanStep, PoliciesStep, FreshnessStep, VerificationStep, HealthStep]

  datatype StepStatus = StepRunning | StepSucceeded | StepFailed
  datatype DrillStep = DrillStep(
    drillId: nat,
    name: StepName,
    order: nat,
    status: StepStatus,
    startedAt: int,
    completedAt: Option<int>,
    named: seq<string>)

  datatype DrillStatus = DrillRunning | DrillSucceeded | DrillFailed
  datatype Drill = Drill(
    planId: nat,
    actor: string,
    status: DrillStatus,
    startedAt: int,
    completedAt: Option<int>,
    score: Option<real>,
    stepsFailed: bool)

  const MINIMUM_SUCCESS_SCORE := 70.0
  const DAY := 86400

  predicate PassedSince(d: Drill, planId: nat, days: Option<Positive>, now: int) {
    d.planId == planId && d.status == DrillSucceeded && (days.Some? ==> CompletionOf(d) >= now - days.value * DAY)
  }

  function CompletionOf(d: Drill): int { if d.completedAt.Some? then d.completedAt.value else d.startedAt }

  /** Some drill of the plan succeeded within the age limit. */
  predicate RecentDrillPassed(drills: map<nat, Drill>, planId: nat, days: Option<Positive>, now: int) {
    exists id :: id in drills && PassedSince(drills[id], planId, days, now)
  }

  function CompletedStep(drillId: nat, index: nat, result: CheckResult, now: int): DrillStep
    requires index < 5
  {
    DrillStep(drillId, STEP_NAMES[index], index + 1, if result.ok then StepSucceeded else StepFailed,
              now, Some(now), result.named)
  }

  /** How many steps are recorded: a failed validation stops the drill. */
  function StepsTaken(results: seq<CheckResult>): nat
    requires |results| == 5
  {
    if results[0].ok then 5 else 1
  }

  /** The record of a drill: all five steps, or the failed validation alone. */
  ghost predicate StepsRecorded(steps: seq<DrillStep>, id: nat, results: seq<CheckResult>, now: int)
    requires |results| == 5
  {
    |steps| == StepsTaken(results) && forall i :: 0 <= i < |steps| ==> steps[i] == CompletedStep(id, i, results[i], now)
  }

  class Repository {
    var plans: map<nat, Plan>
    var components: map<nat, seq<Component>>
    var drills: map<nat, Drill>
    var steps: map<nat, seq<DrillStep>>
    var nextId: nat

    constructor (plans: map<nat, Plan>, components: map<nat, seq<Component>>, nextId: nat)
      ensures this.plans == plans && this.components == components && this.nextId == nextId && drills == map[] &&
              steps == map[]
    {
      this.plans, this.components, this.nextId, drills, steps := plans, components, nextId, map[], map[];
    }

    /** Drill ids are handed out below nextId. */
    ghost predicate Valid()
      reads this
    {
      forall id :: id in drills ==> id < nextId
    }

    function ComponentsOf(planId: nat): seq<Component>
      reads this
    {
      if planId in components then components[planId] else []
    }

    method CreateDrill(d: Drill) returns (id: nat)
      modifies this`drills, this`steps, this`nextId
      ensures id == old(nextId) && nextId == id + 1 && drills == old(drills)[id := d] && steps == old(steps)[id := []]
    {
      id := nextId;
      drills := drills[id := d];
      steps := steps[id := []];
      nextId := nextId + 1;
    }

    /** The latest succeeded drill decides. */
    method LatestPassedDrillWithinDays(planId: nat, days: Option<Positive>, now: int) returns (passed: bool)
      requires Valid()
      ensures passed == RecentDrillPassed(drills, planId, days, now)
    {
      var latest: Option<nat> := None;
      for id := 0 to nextId
        invariant latest.Some? ==>
                  latest.value in drills && drills[latest.value].planId == planId &&
                  drills[latest.value].status == DrillSucceeded
        invariant forall i ::
                    0 <= i < id && i in drills && drills[i].planId == planId && drills[i].status == DrillSucceeded ==>
                    latest.Some? && CompletionOf(drills[i]) <= CompletionOf(drills[latest.value])
      {
        if id in drills && drills[id].planId == planId && drills[id].status == DrillSucceeded {
          if latest.None? || CompletionOf(drills[latest.value]) < CompletionOf(drills[id]) { latest := Some(id); }
        }
      }
      if latest.None? { return false; }
      if days.None? {
        assert PassedSince(drills[latest.value], planId, days, now);
        return true;
      }
      passed := CompletionOf(drills[latest.value]) >= now - days.value * DAY;
      assert passed ==> PassedSince(drills[latest.value], planId, days, now);
    }
  }

  datatype DrillError = PlanNotFound

  datatype Report = Report(
    active: bool,
    score: real,
    state: ReadinessState,
    failClosed: bool,
    requirements: seq<Requirement>,
    checks: seq<HealthStatus>,
    recentDrillPassed: bool,
    warnings: seq<Warning>)

  method BuildReadinessReport(repository: Repository, planId: nat, env: Surroundings, now: int)
    returns (r: Result<Report, DrillError>)
    requires repository.Valid()
    ensures planId !in repository.plans <==> r == Err(PlanNotFound)
    ensures planId in repository.plans ==>
              var plan, cs := repository.plans[planId], repository.ComponentsOf(planId);
              var rs, hs := AssessAll(plan, cs, env, now), HealthAll(cs, env);
              var recent := RecentDrillPassed(repository.drills, planId, plan.drillMaxAgeDays, now);
              var score := PlanScore(plan, cs, env, recent, now);
              r == Ok(Report(plan.status == ActivePlan, score, StateOf(score),
                             FailsClosed(plan.status == ActivePlan, rs), rs, hs, recent, Warnings(plan, rs, hs)))
  {
    if planId !in repository.plans { return Err(PlanNotFound); }
    var plan, cs := repository.plans[planId], repository.ComponentsOf(planId);
    var rs := AssessBackupRequirements(plan, cs, env, now);
    var health, hs := CheckHealth(cs, env);
    var recent := repository.LatestPassedDrillWithinDays(planId, plan.drillMaxAgeDays, now);
    var score, state, failClosed := ScoreReadiness(plan.status == ActivePlan, rs, hs, recent);
    var warnings := CollectWarnings(plan, rs, hs);
    return Ok(Report(plan.status == ActivePlan, score, state, failClosed, rs, hs, recent, warnings));
  }

  class DrillEngine {
    const repository: Repository

    constructor (repository: Repository)
      ensures this.repository == repository
    {
      this.repository := repository;
    }

    method RecordStep(id: nat, index: nat, result: CheckResult, now: int) returns (step: DrillStep)
      requires index < 5
      ensures step == CompletedStep(id, index, result, now)
    {
      step := DrillStep(id, STEP_NAMES[index], index + 1, StepRunning, now, None, []);
      step := step.(completedAt := Some(now));
      step := step.(named := result.named);
      step := step.(status := if result.ok then StepSucceeded else StepFailed);
    }

    /** The step loop: every step is recorded, and a failed validation stops it. */
    method TakeSteps(id: nat, fns: seq<() -> CheckResult>, ghost results: seq<CheckResult>, now: int)
      returns (failed: bool)
      requires |fns| == |results| == 5 && forall i :: 0 <= i < 5 ==> fns[i]() == results[i]
      modifies repository`steps
      ensures failed == !AllOk(results)
      ensures id in repository.steps && repository.steps == old(repository.steps)[id := repository.steps[id]]
      ensures StepsRecorded(repository.steps[id], id, results, now)
    {
      ghost var others := repository.steps;
      var stopDrill, order := false, 0;
      var taken: seq<DrillStep> := [];
      failed := false;
      repository.steps := repository.steps[id := taken];
      while order < 5 && !stopDrill
        invariant 0 <= order <= 5 && stopDrill == (order > 0 && !results[0].ok) && (stopDrill ==> order == 1)
        invariant failed == !(forall i :: 0 <= i < order ==> results[i].ok)
        invariant |taken| == order && forall i :: 0 <= i < order ==> taken[i] == CompletedStep(id, i, results[i], now)
        invariant repository.steps == others[id := taken]
      {
        var result := fns[order]();
        var step := RecordStep(id, order, result, now);
        if !result.ok {
          failed := true;
          if STEP_NAMES[order] == ValidatePlanStep { stopDrill := true; }
        }
        taken := taken + [step];
        repository.steps := repository.steps[id := taken];
        order := order + 1;
      }
    }

    /** The five steps of a plan, over one assessment of its backups. */
    method StepsOf(plan: Plan, cs: seq<Component>, env: Surroundings, now: int) returns (fns: seq<() -> CheckResult>)
      ensures |fns| == 5 && forall i :: 0 <= i < 5 ==> fns[i]() == StepResults(plan, cs, env, now)[i]
    {
      fns := [() => ValidatePlan(plan, cs)];
      var rs := AssessBackupRequirements(plan, cs, env, now);
      fns := fns + [() => CheckPolicies(rs), () => CheckFreshness(rs), () => CheckVerification(rs)];
      fns := fns + [() => Naming(HealthWhere(HealthAll(cs, env), FailedHealth))];
    }

    /** Run the five steps of a plan. */
    method RecordSteps(id: nat, plan: Plan, cs: seq<Component>, env: Surroundings, now: int) returns (failed: bool)
      modifies repository`steps
      ensures failed == !AllOk(StepResults(plan, cs, env, now))
      ensures id in repository.steps && repository.steps == old(repository.steps)[id := repository.steps[id]]
      ensures StepsRecorded(repository.steps[id], id, StepResults(plan, cs, env, now), now)
    {
      var fns := StepsOf(plan, cs, env, now);
      failed := TakeSteps(id, fns, StepResults(plan, cs, env, now), now);
    }

    /** The score of the readiness report taken while the drill is still running. */
    method ReportedScore(planId: nat, env: Surroundings, now: int, ghost before: map<nat, Drill>, ghost id: nat,
            ghost drill: Drill) returns (score: real)
      requires repository.Valid() && planId in repository.plans
      requires repository.drills == before[id := drill] && id !in before && drill.status == DrillRunning
      ensures var plan := repository.plans[planId];
              score == PlanScore(plan, repository.ComponentsOf(planId), env,
                  RecentDrillPassed(before, planId, plan.drillMaxAgeDays, now), now)
    {
      var report := BuildReadinessReport(repository, planId, env, now);
      RunningNotRecent(before, id, drill, planId, repository.plans[planId].drillMaxAgeDays, now);
      score := report.value.score;
    }

    /** Judge the drill from its steps and the readiness report, and store it. */
    method CompleteDrill(id: nat, drill: Drill, failed: bool, score: real, now: int)
      modifies repository`drills
      ensures repository.drills == old(repository.drills)[id := JudgedDrill(drill, failed, score, now)]
    {
      var completed := !failed && score >= MINIMUM_SUCCESS_SCORE;
      var judged := drill.(status := if completed then DrillSucceeded else DrillFailed);
      judged := judged.(completedAt := Some(now));
      judged := judged.(score := Some(score));
      judged := judged.(stepsFailed := failed);
      repository.drills := repository.drills[id := judged];
    }

    /** Report while the drill is still running, then judge it. */
    method Conclude(id: nat, planId: nat, actor: string, failed: bool, env: Surroundings, now: int,
            ghost before: map<nat, Drill>)
      requires repository.Valid() && planId in repository.plans && id !in before
      requires repository.drills == before[id := StartedDrill(planId, actor, now)]
      requires failed == !AllOk(StepResults(repository.plans[planId], repository.ComponentsOf(planId), env, now))
      modifies repository`drills
      ensures var plan := repository.plans[planId];
              var recent := RecentDrillPassed(before, planId, plan.drillMaxAgeDays, now);
              repository.drills ==
              before[id := FinishedDrill(planId, actor, plan, repository.ComponentsOf(planId), env, recent, now)]
    {
      ghost var plan, cs := repository.plans[planId], repository.ComponentsOf(planId);
      ghost var recent := RecentDrillPassed(before, planId, plan.drillMaxAgeDays, now);
      var drill := StartedDrill(planId, actor, now);
      var score := ReportedScore(planId, env, now, before, id, drill);
      SucceedsIffStepsPass(planId, actor, plan, cs, env, recent, now);
      ghost var finished := FinishedDrill(planId, actor, plan, cs, env, recent, now);
      CompleteDrill(id, drill, failed, score, now);
      assert before[id := drill][id := finished] == before[id := finished];
    }

    /** A drill records its steps and its score, and succeeds exactly when all five steps pass. */
    method RunDrill(planId: nat, actor: string, env: Surroundings, now: int) returns (outcome: Result<nat, DrillError>)
      requires repository.Valid()
      modifies repository
      ensures repository.Valid() && repository.plans == old(repository.plans) &&
              repository.components == old(repository.components)
      ensures planId !in old(repository.plans) ==>
                outcome == Err(PlanNotFound) && repository.drills == old(repository.drills) &&
                    repository.steps == old(repository.steps)
      ensures planId in old(repository.plans) ==>
                var id, plan, cs := old(repository.nextId), old(repository.plans)[planId],
                    old(repository.ComponentsOf(planId));
                var recent := RecentDrillPassed(old(repository.drills), planId, plan.drillMaxAgeDays, now);
                && outcome == Ok(id)
                && id in repository.steps && repository.steps == old(repository.steps)[id := repository.steps[id]]
                && StepsRecorded(repository.steps[id], id, StepResults(plan, cs, env, now), now)
                && repository.drills == old(repository.drills)[id :=
                    FinishedDrill(planId, actor, plan, cs, env, recent, now)]
    {
      if planId !in repository.plans { return Err(PlanNotFound); }
      var plan, cs := repository.plans[planId], repository.ComponentsOf(planId);
      ghost var drills, steps := repository.drills, repository.steps;
      var drill := StartedDrill(planId, actor, now);
      var id := repository.CreateDrill(drill);
      var failed := RecordSteps(id, plan, cs, env, now);
      assert repository.steps == steps[id := repository.steps[id]];
      Conclude(id, planId, actor, failed, env, now, drills);
      return Ok(id);
    }
  }

  function StartedDrill(planId: nat, actor: string, now: int): Drill {
    Drill(planId, actor, DrillRunning, now, None, None, false)
  }

  /** The verdict that the engine reaches from the steps and the score. */
  function JudgedDrill(drill: Drill, failed: bool, score: real, now: int): Drill {
    drill.(status := if !failed && score >= MINIMUM_SUCCESS_SCORE then DrillSucceeded else DrillFailed,
           completedAt := Some(now), score := Some(score), stepsFailed := failed)
  }

  /** The drill as it ends: only the steps decide. */
  function FinishedDrill(planId: nat, actor: string, plan: Plan, cs: seq<Component>, env: Surroundings,
          recent: bool, now: int): Drill {
    var passed := AllOk(StepResults(plan, cs, env, now));
    Drill(planId, actor, if passed then DrillSucceeded else DrillFailed,
          now, Some(now), Some(PlanScore(plan, cs, env, recent, now)), !passed)
  }

  /** The 70-point test never fails a drill whose five steps passed, so a drill succeeds exactly when they do. */
  lemma SucceedsIffStepsPass(planId: nat, actor: string, plan: Plan, cs: seq<Component>, env: Surroundings,
          recent: bool, now: int)
    ensures JudgedDrill(StartedDrill(planId, actor, now), !AllOk(StepResults(plan, cs, env, now)),
            PlanScore(plan, cs, env, recent, now), now) ==
            FinishedDrill(planId, actor, plan, cs, env, recent, now)
  {
    if AllOk(StepResults(plan, cs, env, now)) { PassingScore(plan, cs, env, recent, now); }
  }

  /** A drill that is still running does not count as a recent success. */
  lemma RunningNotRecent(drills: map<nat, Drill>, id: nat, d: Drill, planId: nat, days: Option<Positive>, now: int)
    requires id !in drills && d.status != DrillSucceeded
    ensures RecentDrillPassed(drills[id := d], planId, days, now) == RecentDrillPassed(drills, planId, days, now)
  {
    if RecentDrillPassed(drills, planId, days, now) {
      var i :| i in drills && PassedSince(drills[i], planId, days, now);
      assert drills[id := d][i] == drills[i];
    }
  }

  /**
   * Repeating a successful drill at once succeeds again, with 10 points more when no
   * earlier drill counted as recent.
   */
  lemma RepeatedDrill(plan: Plan, planId: nat, cs: seq<Component>, env: Surroundings, drills: map<nat, Drill>,
          id: nat, d: Drill, now: int)
    requires AllOk(StepResults(plan, cs, env, now)) && id !in drills
    requires d.planId == planId && d.status == DrillSucceeded && d.completedAt == Some(now)
    ensures RecentDrillPassed(drills[id := d], planId, plan.drillMaxAgeDays, now)
    ensures PlanScore(plan, cs, env, true, now) ==
            PlanScore(plan, cs, env, RecentDrillPassed(drills, planId, plan.drillMaxAgeDays, now), now) +
            if RecentDrillPassed(drills, planId, plan.drillMaxAgeDays, now) then 0.0 else 10.0
  {
    assert drills[id := d][id] == d && PassedSince(d, planId, plan.drillMaxAgeDays, now);
    PassingScore(plan, cs, env, true, now);
    PassingScore(plan, cs, env, RecentDrillPassed(drills, planId, plan.drillMaxAgeDays, now), now);
  }
}
