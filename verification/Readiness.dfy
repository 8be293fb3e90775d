/** The readiness score of a recovery plan, in exact arithmetic. */
module Readiness {
  import opened Outcomes

  datatype Requirement = Requirement(
    component: string,
    required: bool,
    policyExists: bool,
    latestBackupAt: Option<int>,
    isFresh: bool,
    verified: bool,
    rpoSeconds: nat)

  datatype HealthStatus = HealthStatus(component: string, applicable: bool, checked: bool, healthy: Option<bool>)

  datatype ReadinessState = Ready | Degraded | NotReady

  const WEIGHT_PLAN_ACTIVE := 10.0
  const WEIGHT_BACKUP_FRESHNESS := 40.0
  const WEIGHT_BACKUP_VERIFICATION := 25.0
  const WEIGHT_HEALTH := 15.0
  const WEIGHT_RECENT_DRILL := 10.0
  const READY_THRESHOLD := 90.0
  const DEGRADED_THRESHOLD := 70.0
  const BACKUP_FAIL_CLOSED_CAP := 49.0
  const HEALTH_FAILURE_CAP := 79.0

  // ----- Counting -----

  function Count<T>(s: seq<T>, p: T -> bool): (n: nat)
    ensures n <= |s|
  {
    if s == [] then 0 else (if p(s[0]) then 1 else 0) + Count(s[1..], p)
  }

  predicate IsRequired(r: Requirement) { r.required }
  predicate RequiredFresh(r: Requirement) { r.required && r.isFresh }
  predicate RequiredVerified(r: Requirement) { r.required && r.verified }
  predicate IsApplicable(c: HealthStatus) { c.applicable }
  predicate ApplicableHealthy(c: HealthStatus) { c.applicable && c.healthy == Some(true) }

  /** A pointwise weaker condition is met at least as often. */
  lemma {:induction false} CountMonotone<T(!new)>(s: seq<T>, t: seq<T>, p: T -> bool, q: T -> bool)
    requires |s| == |t| && forall i :: 0 <= i < |s| && p(s[i]) ==> q(t[i])
    ensures Count(s, p) <= Count(t, q)
  {
    if s != [] {
      assert forall i :: 0 <= i < |s[1..]| ==> s[1..][i] == s[i + 1] && t[1..][i] == t[i + 1];
      CountMonotone(s[1..], t[1..], p, q);
    }
  }

  /** A stronger condition is met as often exactly when it holds wherever the weaker one does. */
  lemma {:induction false} CountAll<T(!new)>(s: seq<T>, p: T -> bool, q: T -> bool)
    requires forall i :: 0 <= i < |s| && q(s[i]) ==> p(s[i])
    ensures Count(s, q) <= Count(s, p)
    ensures Count(s, q) == Count(s, p) <==> forall i :: 0 <= i < |s| && p(s[i]) ==> q(s[i])
  {
    if s != [] {
      assert forall i :: 0 <= i < |s[1..]| ==> s[1..][i] == s[i + 1];
      CountAll(s[1..], p, q);
      if forall i :: 0 <= i < |s[1..]| && p(s[1..][i]) ==> q(s[1..][i]) {
        assert forall i :: 0 < i < |s| && p(s[i]) ==> p(s[1..][i - 1]);
      }
    }
  }

  // ----- The score -----

  function Ratio(part: nat, whole: nat): real
    requires 0 < whole
  {
    part as real / whole as real
  }

  function Least(a: real, b: real): real { if b < a then b else a }

  /** required, fresh and verified backups; applicable and healthy components. */
  datatype Tally = Tally(required: nat, isFresh: nat, verified: nat, applicable: nat, healthy: nat) {
    predicate Valid() { isFresh <= required && verified <= required && healthy <= applicable }

    predicate FailsClosed() { isFresh < required }
  }

  function BackupScore(t: Tally): real {
    if t.required == 0 then WEIGHT_BACKUP_FRESHNESS + WEIGHT_BACKUP_VERIFICATION
    else
      WEIGHT_BACKUP_FRESHNESS * Ratio(t.isFresh, t.required) +
      WEIGHT_BACKUP_VERIFICATION * Ratio(t.verified, t.required)
  }

  /** The score after health, which is capped as soon as one applicable component is not known to be healthy. */
  function WithHealth(base: real, t: Tally): real {
    if t.applicable == 0 then base + WEIGHT_HEALTH
    else
      var s := base + WEIGHT_HEALTH * Ratio(t.healthy, t.applicable);
      if t.healthy < t.applicable then Least(s, HEALTH_FAILURE_CAP) else s
  }

  /** The score of an active plan. */
  function ActiveScore(t: Tally, drill: bool): real {
    var s := WithHealth(WEIGHT_PLAN_ACTIVE + BackupScore(t), t) + if drill then WEIGHT_RECENT_DRILL else 0.0;
    if t.FailsClosed() then Least(s, BACKUP_FAIL_CLOSED_CAP) else s
  }

  function StateOf(score: real): ReadinessState {
    if score >= READY_THRESHOLD then Ready else if score >= DEGRADED_THRESHOLD then Degraded else NotReady
  }

  function TallyOf(requirements: seq<Requirement>, checks: seq<HealthStatus>): Tally {
    Tally(Count(requirements, IsRequired), Count(requirements, RequiredFresh), Count(requirements, RequiredVerified),
          Count(checks, IsApplicable), Count(checks, ApplicableHealthy))
  }

  function ScoreOf(active: bool, requirements: seq<Requirement>, checks: seq<HealthStatus>, drill: bool): real {
    if active then ActiveScore(TallyOf(requirements, checks), drill) else 0.0
  }

  function FailsClosed(active: bool, requirements: seq<Requirement>): bool {
    !active || Count(requirements, RequiredFresh) < Count(requirements, IsRequired)
  }

  lemma RatioTimes(part: nat, whole: nat)
    requires 0 < whole
    ensures Ratio(part, whole) * whole as real == part as real
  {
  }

  lemma SignOfProduct(x: real, n: real)
    requires n > 0.0
    ensures x * n >= 0.0 <==> x >= 0.0
  {
  }

  lemma CancelRight(x: real, y: real, z: real)
    requires z > 0.0
    ensures x * z <= y * z <==> x <= y
  {
    SignOfProduct(y - x, z);
    assert (y - x) * z == y * z - x * z;
  }

  lemma RatioBounds(a: nat, b: nat, n: nat)
    requires a <= b <= n && 0 < n
    ensures 0.0 <= Ratio(a, n) <= Ratio(b, n) <= 1.0
    ensures Ratio(n, n) == 1.0
    ensures a < b ==> Ratio(a, n) < Ratio(b, n)
  {
    var r, s, z := Ratio(a, n), Ratio(b, n), n as real;
    RatioTimes(a, n);
    RatioTimes(b, n);
    RatioTimes(n, n);
    CancelRight(0.0, r, z);
    CancelRight(r, s, z);
    CancelRight(s, r, z);
    CancelRight(s, 1.0, z);
    CancelRight(1.0, Ratio(n, n), z);
    CancelRight(Ratio(n, n), 1.0, z);
  }

  lemma BackupScoreBounds(t: Tally)
    requires t.Valid()
    ensures 0.0 <= BackupScore(t) <= 65.0
    ensures t.required == 0 || (t.isFresh == t.required && t.verified == t.required) ==> BackupScore(t) == 65.0
  {
    if t.required > 0 {
      RatioBounds(t.isFresh, t.required, t.required);
      RatioBounds(t.verified, t.required, t.required);
    }
  }

  /** The score stays within 0 and 100 by itself, so the final clamp never changes it. */
  lemma ScoreBounds(t: Tally, drill: bool)
    requires t.Valid()
    ensures 0.0 <= ActiveScore(t, drill) <= 100.0
  {
    BackupScoreBounds(t);
    if t.applicable > 0 { RatioBounds(t.healthy, t.applicable, t.applicable); }
  }

  method ScoreReadiness(planActive: bool, requirements: seq<Requirement>, checks: seq<HealthStatus>,
          recentDrillPassed: bool)
    returns (score: real, state: ReadinessState, failClosed: bool)
    ensures score == ScoreOf(planActive, requirements, checks, recentDrillPassed)
    ensures state == StateOf(score) && 0.0 <= score <= 100.0
    ensures failClosed == FailsClosed(planActive, requirements)
  {
    score, failClosed := 0.0, false;
    if !planActive { return 0.0, NotReady, true; }
    TallyMeans(requirements, checks);
    ScoreBounds(TallyOf(requirements, checks), recentDrillPassed);
    score := score + WEIGHT_PLAN_ACTIVE;
    var required := Count(requirements, IsRequired);
    if required > 0 {
      var freshCount, verifiedCount := Count(requirements, RequiredFresh), Count(requirements, RequiredVerified);
      score := score + WEIGHT_BACKUP_FRESHNESS * Ratio(freshCount, required);
      score := score + WEIGHT_BACKUP_VERIFICATION * Ratio(verifiedCount, required);
      if freshCount < required { failClosed := true; }
    } else {
      score := score + WEIGHT_BACKUP_FRESHNESS;
      score := score + WEIGHT_BACKUP_VERIFICATION;
    }
    var applicable := Count(checks, IsApplicable);
    if applicable > 0 {
      var healthyCount := Count(checks, ApplicableHealthy);
      score := score + WEIGHT_HEALTH * Ratio(healthyCount, applicable);
      if healthyCount < applicable { score := Least(score, HEALTH_FAILURE_CAP); }
    } else {
      score := score + WEIGHT_HEALTH;
    }
    if recentDrillPassed { score := score + WEIGHT_RECENT_DRILL; }
    if failClosed { score := Least(score, BACKUP_FAIL_CLOSED_CAP); }
    if score > 100.0 { score := 100.0; }
    if score < 0.0 { score := 0.0; }
    if score >= READY_THRESHOLD {
      state := Ready;
    } else if score >= DEGRADED_THRESHOLD {
      state := Degraded;
    } else {
      state := NotReady;
    }
  }

  // ----- Monotonicity -----

  lemma BackupScoreMonotone(t: Tally, u: Tally)
    requires t.Valid() && u.Valid() && t.required == u.required && t.isFresh <= u.isFresh && t.verified <= u.verified
    ensures BackupScore(t) <= BackupScore(u)
  {
    if t.required > 0 {
      RatioBounds(t.isFresh, u.isFresh, t.required);
      RatioBounds(t.verified, u.verified, t.required);
    }
  }

  lemma WithHealthMonotone(base: real, base': real, t: Tally, u: Tally)
    requires t.Valid() && u.Valid() && base <= base' && t.applicable == u.applicable && t.healthy <= u.healthy
    ensures WithHealth(base, t) <= WithHealth(base', u)
  {
    if t.applicable > 0 { RatioBounds(t.healthy, u.healthy, t.applicable); }
  }

  function StateRank(s: ReadinessState): nat {
    match s
    case NotReady => 0
    case Degraded => 1
    case Ready => 2
  }

  ghost predicate NoWorse(a: seq<Requirement>, b: seq<Requirement>) {
    |a| == |b| &&
    forall i :: 0 <= i < |a| ==>
          a[i].required == b[i].required && (a[i].isFresh ==> b[i].isFresh) &&
          (a[i].verified ==> b[i].verified)
  }

  ghost predicate NoSicker(a: seq<HealthStatus>, b: seq<HealthStatus>) {
    |a| == |b| && forall i :: 0 <= i < |a| ==>
        a[i].applicable == b[i].applicable && (a[i].healthy == Some(true) ==> b[i].healthy == Some(true))
  }

  /**
   * Making any backup fresh or verified, any component healthy, the plan active or a
   * drill recent never lowers the score or the state, and never newly raises the
   * fail-closed flag.
   */
  lemma {:induction false} ScoreMonotone(active: bool, active': bool, rs: seq<Requirement>, rs': seq<Requirement>,
          cs: seq<HealthStatus>, cs': seq<HealthStatus>, drill: bool, drill': bool)
    requires (active ==> active') && NoWorse(rs, rs') && NoSicker(cs, cs') && (drill ==> drill')
    ensures ScoreOf(active, rs, cs, drill) <= ScoreOf(active', rs', cs', drill')
    ensures StateRank(StateOf(ScoreOf(active, rs, cs, drill))) <= StateRank(StateOf(ScoreOf(active', rs', cs', drill')))
    ensures FailsClosed(active', rs') ==> FailsClosed(active, rs)
  {
    var t, u := TallyOf(rs, cs), TallyOf(rs', cs');
    TallyMeans(rs, cs);
    TallyMeans(rs', cs');
    SameCount(rs, rs', IsRequired);
    SameCount(cs, cs', IsApplicable);
    CountMonotone(rs, rs', RequiredFresh, RequiredFresh);
    CountMonotone(rs, rs', RequiredVerified, RequiredVerified);
    CountMonotone(cs, cs', ApplicableHealthy, ApplicableHealthy);
    ScoreBounds(u, drill');
    BackupScoreMonotone(t, u);
    WithHealthMonotone(WEIGHT_PLAN_ACTIVE + BackupScore(t), WEIGHT_PLAN_ACTIVE + BackupScore(u), t, u);
  }

  lemma SameCount<T(!new)>(s: seq<T>, t: seq<T>, p: T -> bool)
    requires |s| == |t| && forall i :: 0 <= i < |s| ==> p(s[i]) == p(t[i])
    ensures Count(s, p) == Count(t, p)
  {
    CountMonotone(s, t, p, p);
    CountMonotone(t, s, p, p);
  }

  // ----- What the states mean -----

  ghost predicate AllFresh(rs: seq<Requirement>) { forall i :: 0 <= i < |rs| && rs[i].required ==> rs[i].isFresh }

  ghost predicate AllVerified(rs: seq<Requirement>) { forall i :: 0 <= i < |rs| && rs[i].required ==> rs[i].verified }

  ghost predicate AllHealthy(cs: seq<HealthStatus>) {
    forall i :: 0 <= i < |cs| && cs[i].applicable ==> cs[i].healthy == Some(true)
  }

  lemma TallyMeans(rs: seq<Requirement>, cs: seq<HealthStatus>)
    ensures var t := TallyOf(rs, cs);
            && t.Valid()
            && (t.isFresh == t.required <==> AllFresh(rs))
            && (t.verified == t.required <==> AllVerified(rs))
            && (t.healthy == t.applicable <==> AllHealthy(cs))
  {
    CountAll(rs, IsRequired, RequiredFresh);
    CountAll(rs, IsRequired, RequiredVerified);
    CountAll(cs, IsApplicable, ApplicableHealthy);
    assert AllFresh(rs) <==> forall i :: 0 <= i < |rs| && IsRequired(rs[i]) ==> RequiredFresh(rs[i]);
    assert AllVerified(rs) <==> forall i :: 0 <= i < |rs| && IsRequired(rs[i]) ==> RequiredVerified(rs[i]);
    assert AllHealthy(cs) <==> forall i :: 0 <= i < |cs| && IsApplicable(cs[i]) ==> ApplicableHealthy(cs[i]);
  }

  lemma VerifiedShare(t: Tally)
    requires t.Valid() && t.required > 0
    ensures WEIGHT_BACKUP_VERIFICATION * Ratio(t.verified, t.required) >= 25.0 <==> t.verified == t.required
    ensures WEIGHT_BACKUP_VERIFICATION * Ratio(t.verified, t.required) >= 15.0 <==> 5 * t.verified >= 3 * t.required
  {
    RatioBounds(t.verified, t.required, t.required);
    var r, n, v := Ratio(t.verified, t.required), t.required as real, t.verified as real;
    RatioTimes(t.verified, t.required);
    assert (25.0 * r - 15.0) * n == 25.0 * (r * n) - 15.0 * n;
    SignOfProduct(25.0 * r - 15.0, n);
    assert (5 * t.verified - 3 * t.required) as real == 5.0 * v - 3.0 * n;
  }

  lemma ActiveReady(t: Tally, drill: bool)
    requires t.Valid()
    ensures ActiveScore(t, drill) >= READY_THRESHOLD <==>
              && t.isFresh == t.required && t.healthy == t.applicable
              && (t.verified == t.required || (drill && 5 * t.verified >= 3 * t.required))
  {
    BackupScoreBounds(t);
    if t.applicable > 0 { RatioBounds(t.healthy, t.applicable, t.applicable); }
    if t.required > 0 {
      RatioBounds(t.isFresh, t.required, t.required);
      VerifiedShare(t);
    }
  }

  /**
   * READY means exactly: the plan is active, every required backup is fresh,
   * every applicable component is healthy, and all required backups are
   * verified, or three in five of them with a recent drill.
   */
  lemma ReadyMeans(active: bool, rs: seq<Requirement>, cs: seq<HealthStatus>, drill: bool)
    ensures var t := TallyOf(rs, cs);
            StateOf(ScoreOf(active, rs, cs, drill)) == Ready <==>
              && active && AllFresh(rs) && AllHealthy(cs)
              && (AllVerified(rs) || (drill && 5 * t.verified >= 3 * t.required))
  {
    TallyMeans(rs, cs);
    ActiveReady(TallyOf(rs, cs), drill);
  }

  /**
   * The fail-closed flag says that the plan is inactive or a required backup is not
   * fresh, and then the score stays at or below the cap.
   */
  lemma FailClosedMeans(active: bool, rs: seq<Requirement>, cs: seq<HealthStatus>, drill: bool)
    ensures FailsClosed(active, rs) <==> !active || !AllFresh(rs)
    ensures FailsClosed(active, rs) ==>
              var score := ScoreOf(active, rs, cs, drill);
              score <= BACKUP_FAIL_CLOSED_CAP && StateOf(score) == NotReady
  {
    TallyMeans(rs, cs);
  }

  // ----- The health cap -----

  /** With n required and m applicable: 25 verified/n + 15 healthy/m is above 19, in whole numbers. */
  predicate AboveCap(t: Tally) {
    t.required == 0 ||
    25 * (t.verified * t.applicable) + 15 * (t.healthy * t.required) > 19 * (t.required * t.applicable)
  }

  lemma CapMargin(t: Tally)
    requires t.Valid() && t.required > 0 && t.applicable > 0
    ensures 25.0 * Ratio(t.verified, t.required) + 15.0 * Ratio(t.healthy, t.applicable) > 19.0 <==> AboveCap(t)
  {
    var r, q := Ratio(t.verified, t.required), Ratio(t.healthy, t.applicable);
    var n, m, v, h := t.required as real, t.applicable as real, t.verified as real, t.healthy as real;
    RatioTimes(t.verified, t.required);
    RatioTimes(t.healthy, t.applicable);
    var x := 19.0 - 25.0 * r - 15.0 * q;
    assert n * m > 0.0;
    SignOfProduct(x, n * m);
    ProductParts(r, q, n, m, v, h);
    assert (t.required * t.applicable) as real == n * m && (t.verified * t.applicable) as real == v * m;
    assert (t.healthy * t.required) as real == h * n;
  }

  lemma ProductParts(r: real, q: real, n: real, m: real, v: real, h: real)
    requires r * n == v && q * m == h
    ensures (19.0 - 25.0 * r - 15.0 * q) * (n * m) == 19.0 * (n * m) - 25.0 * (v * m) - 15.0 * (h * n)
  {
    assert r * (n * m) == (r * n) * m && q * (n * m) == (q * m) * n;
    assert (25.0 * r) * (n * m) == 25.0 * (r * (n * m)) && (15.0 * q) * (n * m) == 15.0 * (q * (n * m));
    assert (19.0 - 25.0 * r - 15.0 * q) * (n * m) ==
           19.0 * (n * m) - (25.0 * r) * (n * m) - (15.0 * q) * (n * m);
  }

  /**
   * With an applicable component not known to be healthy the score is at most 89.
   * It passes the health cap exactly with a recent drill, all required backups
   * fresh, and backups and health good enough to come within the drill's points of
   * the cap.
   */
  lemma UnhealthyScore(t: Tally, drill: bool)
    requires t.Valid() && t.healthy < t.applicable
    ensures ActiveScore(t, drill) <= 89.0
    ensures ActiveScore(t, drill) > HEALTH_FAILURE_CAP <==> drill && t.isFresh == t.required && AboveCap(t)
  {
    BackupScoreBounds(t);
    RatioBounds(t.healthy, t.applicable, t.applicable);
    if t.required > 0 {
      RatioBounds(t.isFresh, t.required, t.required);
      CapMargin(t);
    }
  }

  /** Three of four components healthy, nothing required and a recent drill: 89 points. */
  lemma UnhealthyScoreReached()
    ensures ActiveScore(Tally(0, 0, 0, 4, 3), true) == 89.0
  {
    assert Ratio(3, 4) == 0.75;
  }
}
