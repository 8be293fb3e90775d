/**
 * The permission pattern language: its grammar, the segment matcher `covers`,
 * the evaluation-time and request-time checks, and what they mean as sets of
 * requests. The forbidden matrix is a parameter.
 */
module Rbac {
  import opened Text

  const MIN_SEGMENTS := 2
  const MAX_SEGMENTS := 3

  datatype Matrix = Matrix(restricted: set<string>, forbidden: map<string, seq<string>>)

  predicate IsRestricted(m: Matrix, plane: string) { plane in m.restricted }

  function ForbiddenPatterns(m: Matrix, plane: string): seq<string> {
    if plane in m.forbidden then m.forbidden[plane] else []
  }

  // ----- Grammar -----

  predicate AllowedChar(c: char) {
    'a' <= c <= 'z' || '0' <= c <= '9' || c == '_' || c == '-'
  }

  predicate ConcreteSegment(seg: string) {
    seg != "" && forall i :: 0 <= i < |seg| ==> AllowedChar(seg[i])
  }

  /** validate_permission accepts perm. */
  predicate ValidPermission(perm: string) {
    perm == "*" ||
    (perm != "" &&
     MIN_SEGMENTS <= |Split(perm, ':')| <= MAX_SEGMENTS &&
     forall i :: 0 <= i < |Split(perm, ':')| ==> Split(perm, ':')[i] == "*" || ConcreteSegment(Split(perm, ':')[i]))
  }

  /** A permission that names one request: no wildcard segment. */
  predicate IsRequest(r: string) {
    MIN_SEGMENTS <= |Split(r, ':')| <= MAX_SEGMENTS &&
    forall i :: 0 <= i < |Split(r, ':')| ==> ConcreteSegment(Split(r, ':')[i])
  }

  // ----- Matching -----

  /** The loop of covers, from segment i of the pattern on. */
  predicate CoversFrom(p: seq<string>, t: seq<string>, i: nat)
    requires i <= |p|
    decreases |p| - i
  {
    if i == |p| then true
    else if p[i] == "*" && i == |p| - 1 then true
    else if i >= |t| then false
    else if p[i] == "*" then CoversFrom(p, t, i + 1)
    else if p[i] != t[i] then false
    else CoversFrom(p, t, i + 1)
  }

  predicate Covers(pattern: string, target: string) {
    pattern == "*" || CoversFrom(Split(pattern, ':'), Split(target, ':'), 0)
  }

  predicate Overlaps(a: string, b: string) { Covers(a, b) || Covers(b, a) }

  // ----- What a pattern means -----

  /** Every request that q authorizes, p authorizes too. */
  ghost predicate Includes(p: string, q: string) {
    forall r: string {:trigger Covers(q, r)} {:trigger Covers(p, r)} :: IsRequest(r) && Covers(q, r) ==> Covers(p, r)
  }

  /** Matching has a position-by-position form. */
  predicate MatchesAt(p: seq<string>, t: seq<string>, k: nat)
    requires k < |p|
  {
    (p[k] == "*" && k == |p| - 1) || (k < |t| && (p[k] == "*" || p[k] == t[k]))
  }

  predicate MatchesFrom(p: seq<string>, t: seq<string>, i: nat) {
    forall k :: i <= k < |p| ==> MatchesAt(p, t, k)
  }

  lemma {:induction false} CoversPointwise(p: seq<string>, t: seq<string>, i: nat)
    requires i <= |p|
    ensures CoversFrom(p, t, i) <==> MatchesFrom(p, t, i)
    decreases |p| - i
  {
    if i < |p| {
      CoversPointwise(p, t, i + 1);
      assert MatchesFrom(p, t, i) <==> MatchesAt(p, t, i) && MatchesFrom(p, t, i + 1);
    }
  }

  lemma CoversBySegments(pattern: string, target: string)
    requires pattern != "*"
    ensures Covers(pattern, target) <==> MatchesFrom(Split(pattern, ':'), Split(target, ':'), 0)
  {
    CoversPointwise(Split(pattern, ':'), Split(target, ':'), 0);
  }

  lemma SplitStar()
    ensures Split("*", ':') == ["*"]
  {
    SplitNoSeparator("*", ':');
  }

  /** Transitivity, on requests of the lengths the grammar allows. */
  lemma CoversTransitive(p: string, q: string, r: string)
    requires ValidPermission(p) && ValidPermission(q) && q != "*" && IsRequest(r)
    requires Covers(p, q) && Covers(q, r)
    ensures Covers(p, r)
  {
    if p != "*" {
      CoversBySegments(p, q);
      CoversBySegments(q, r);
      CoversBySegments(p, r);
      var P, Q, R := Split(p, ':'), Split(q, ':'), Split(r, ':');
      forall k | 0 <= k < |P|
        ensures MatchesAt(P, R, k)
      {
        assert MatchesAt(P, Q, k);
        if k < |Q| { assert MatchesAt(Q, R, k); }
      }
    }
  }

  /** A concrete segment that does not occur in p. */
  function FreshSegment(p: string): string { seq(|p| + 1, _ => 'x') }

  function Instance(segs: seq<string>, novel: string): seq<string> {
    seq(|segs|, i requires 0 <= i < |segs| => if segs[i] == "*" then novel else segs[i])
  }

  /** The request named by a list of concrete segments. */
  lemma {:induction false} RequestOf(segs: seq<string>)
    requires MIN_SEGMENTS <= |segs| <= MAX_SEGMENTS
    requires forall i :: 0 <= i < |segs| ==> ConcreteSegment(segs[i])
    ensures Split(Join(segs, ":"), ':') == segs && IsRequest(Join(segs, ":"))
  {
    forall i | 0 <= i < |segs|
      ensures ':' !in segs[i]
    {
      assert ConcreteSegment(segs[i]);
      assert forall j :: 0 <= j < |segs[i]| ==> AllowedChar(segs[i][j]);
    }
    SplitJoin(segs, ':');
  }

  lemma ValidSegments(p: string)
    requires ValidPermission(p) && p != "*"
    ensures MIN_SEGMENTS <= |Split(p, ':')| <= MAX_SEGMENTS
    ensures forall i :: 0 <= i < |Split(p, ':')| ==>
              Split(p, ':')[i] == "*" || ConcreteSegment(Split(p, ':')[i])
    ensures FreshSegment(p) !in Split(p, ':') && ConcreteSegment(FreshSegment(p)) && FreshSegment(p) != "*"
  {
    SplitPieces(p, ':');
    var novel := FreshSegment(p);
    assert novel[0] == 'x';
    forall i | 0 <= i < |Split(p, ':')| ensures Split(p, ':')[i] != novel {
      assert |Split(p, ':')[i]| < |novel|;
    }
  }

  /** If p does not cover q, putting a fresh segment for each wildcard of q gives a request only q covers. */
  lemma SeparatingRequest(p: string, q: string) returns (r: string)
    requires ValidPermission(p) && ValidPermission(q) && q != "*"
    requires !Covers(p, q)
    ensures IsRequest(r) && Covers(q, r) && !Covers(p, r)
  {
    ValidSegments(p);
    ValidSegments(q);
    var P, Q, novel := Split(p, ':'), Split(q, ':'), FreshSegment(p);
    var R := Instance(Q, novel);
    r := Join(R, ":");
    RequestOf(R);
    CoversBySegments(p, q);
    CoversBySegments(q, r);
    CoversBySegments(p, r);
    forall k | 0 <= k < |Q| ensures MatchesAt(Q, R, k) {}
    var k :| 0 <= k < |P| && !MatchesAt(P, Q, k);
    assert !MatchesAt(P, R, k);
  }

  /** Against the global wildcard, only an all-wildcard pattern admits every request. */
  lemma IncludesEverything(p: string)
    requires ValidPermission(p) && p != "*"
    ensures Includes(p, "*") <==> forall i :: 0 <= i < |Split(p, ':')| ==> Split(p, ':')[i] == "*"
  {
    ValidSegments(p);
    var P, novel := Split(p, ':'), FreshSegment(p);
    if i :| 0 <= i < |P| && P[i] != "*" {
      var R := seq(|P|, _ => novel);
      var r := Join(R, ":");
      RequestOf(R);
      CoversBySegments(p, r);
      assert !MatchesAt(P, R, i);
      assert Covers("*", r) && !Covers(p, r);
    } else {
      forall r: string | IsRequest(r) ensures Covers(p, r) {
        CoversBySegments(p, r);
        forall k | 0 <= k < |P| ensures MatchesAt(P, Split(r, ':'), k) {}
      }
    }
  }

  lemma CoversGlobal(p: string)
    requires ValidPermission(p) && p != "*"
    ensures Covers(p, "*") <==> Split(p, ':') == ["*", "*"]
  {
    ValidSegments(p);
    SplitStar();
    CoversBySegments(p, "*");
    var P := Split(p, ':');
    if Split(p, ':') != ["*", "*"] {
      if P[0] != "*" { assert !MatchesAt(P, ["*"], 0); }
      else { assert !MatchesAt(P, ["*"], 1); }
    } else {
      assert MatchesAt(P, ["*"], 0) && MatchesAt(P, ["*"], 1);
    }
  }

  /**
   * covers decides inclusion of request sets for every pair of grammatical
   * patterns but one: "*:*:*" admits every request, yet does not cover "*".
   */
  lemma CoversIsInclusion(p: string, q: string)
    requires ValidPermission(p) && ValidPermission(q)
    ensures (Covers(p, q) <==> Includes(p, q)) <==> !(p == "*:*:*" && q == "*")
  {
    var three := "*:*:*";
    assert Join(["*", "*", "*"], ":") == three by {
      assert Join(["*"], ":") == "*" && Join(["*", "*"], ":") == "*" + ":" + "*";
    }
    SplitJoin(["*", "*", "*"], ':');
    if p == "*" {
    } else if q == "*" {
      ValidSegments(p);
      IncludesEverything(p);
      CoversGlobal(p);
      JoinSplit(p, ':');
      if p != three { assert Split(p, ':') != ["*", "*", "*"]; }
    } else if Covers(p, q) {
      forall r: string | IsRequest(r) && Covers(q, r) ensures Covers(p, r) {
        CoversTransitive(p, q, r);
      }
    } else {
      var r := SeparatingRequest(p, q);
    }
  }

  /** Two patterns overlap when the requests of one are among those of the other. */
  lemma OverlapIsComparability(a: string, b: string)
    requires ValidPermission(a) && ValidPermission(b)
    ensures Overlaps(a, b) <==> Includes(a, b) || Includes(b, a)
  {
    CoversIsInclusion(a, b);
    CoversIsInclusion(b, a);
  }

  // ----- Patterns that share requests -----

  /** Some request is covered by both. */
  ghost predicate Shares(a: string, b: string) { exists r: string :: IsRequest(r) && Covers(a, r) && Covers(b, r) }

  /** No position up to the shorter length holds two different concrete segments. */
  predicate Compatible(p: seq<string>, q: seq<string>) {
    forall k :: 0 <= k < |p| && k < |q| ==> p[k] == "*" || q[k] == "*" || p[k] == q[k]
  }

  /** p has a wildcard, or has ended, at a position where q is concrete. */
  predicate LooserSomewhere(p: seq<string>, q: seq<string>) {
    exists k :: 0 <= k < |q| && q[k] != "*" && (k >= |p| || p[k] == "*")
  }

  /** The patterns agree where both are concrete, and each is looser than the other somewhere. */
  predicate Crossing(p: seq<string>, q: seq<string>) {
    Compatible(p, q) && LooserSomewhere(p, q) && LooserSomewhere(q, p)
  }

  function Meet(p: seq<string>, q: seq<string>): seq<string>
    requires |p| <= |q|
  {
    seq(|q|, k requires 0 <= k < |q| => if k < |p| && p[k] != "*" then p[k] else if q[k] != "*" then q[k] else "x")
  }

  lemma MeetRequest(a: string, b: string)
    requires ValidPermission(a) && ValidPermission(b) && a != "*" && b != "*"
    requires |Split(a, ':')| <= |Split(b, ':')| && Compatible(Split(a, ':'), Split(b, ':'))
    ensures Shares(a, b)
  {
    var A, B := Split(a, ':'), Split(b, ':');
    var R := Meet(A, B);
    var r := Join(R, ":");
    ValidSegments(a);
    ValidSegments(b);
    forall k | 0 <= k < |R| ensures ConcreteSegment(R[k]) {}
    RequestOf(R);
    CoversBySegments(a, r);
    CoversBySegments(b, r);
    forall k | 0 <= k < |A| ensures MatchesAt(A, R, k) {}
    forall k | 0 <= k < |B| ensures MatchesAt(B, R, k) {}
  }

  lemma SharedIsCompatible(a: string, b: string, r: string)
    requires a != "*" && b != "*" && IsRequest(r) && Covers(a, r) && Covers(b, r)
    requires ValidPermission(a) && ValidPermission(b)
    ensures Compatible(Split(a, ':'), Split(b, ':'))
  {
    var A, B, R := Split(a, ':'), Split(b, ':'), Split(r, ':');
    CoversBySegments(a, r);
    CoversBySegments(b, r);
    forall k | 0 <= k < |A| && k < |B| ensures A[k] == "*" || B[k] == "*" || A[k] == B[k] {
      assert MatchesAt(A, R, k) && MatchesAt(B, R, k);
    }
  }

  /** Two patterns share a request exactly when their segments are compatible up to the shorter length. */
  lemma SharesBySegments(a: string, b: string)
    requires ValidPermission(a) && ValidPermission(b) && a != "*" && b != "*"
    ensures Shares(a, b) <==> Compatible(Split(a, ':'), Split(b, ':'))
  {
    if Shares(a, b) {
      var r :| IsRequest(r) && Covers(a, r) && Covers(b, r);
      SharedIsCompatible(a, b, r);
    }
    if Compatible(Split(a, ':'), Split(b, ':')) {
      if |Split(a, ':')| <= |Split(b, ':')| {
        MeetRequest(a, b);
      } else {
        MeetRequest(b, a);
        var r :| IsRequest(r) && Covers(b, r) && Covers(a, r);
      }
    }
  }

  lemma CoversCompatible(a: string, b: string)
    requires ValidPermission(a) && ValidPermission(b) && a != "*" && b != "*"
    ensures Covers(a, b) <==> Compatible(Split(a, ':'), Split(b, ':')) && !LooserSomewhere(Split(b, ':'), Split(a, ':'))
  {
    var A, B := Split(a, ':'), Split(b, ':');
    ValidSegments(a);
    ValidSegments(b);
    CoversBySegments(a, b);
    forall k | 0 <= k < |A|
      ensures MatchesAt(A, B, k) <==>
              (k < |B| ==> A[k] == "*" || B[k] == "*" || A[k] == B[k]) && !(A[k] != "*" && (k >= |B| || B[k] == "*"))
    {
    }
  }

  /**
   * overlaps misses a shared request exactly when the patterns cross: each has
   * a wildcard, or has ended, where the other is concrete.
   */
  lemma OverlapMissesCrossing(a: string, b: string)
    requires ValidPermission(a) && ValidPermission(b)
    ensures Shares(a, b) && !Overlaps(a, b) <==> a != "*" && b != "*" && Crossing(Split(a, ':'), Split(b, ':'))
  {
    if a != "*" && b != "*" {
      SharesBySegments(a, b);
      CoversCompatible(a, b);
      CoversCompatible(b, a);
    }
  }

  // ----- Checks -----

  datatype EvaluationStatus = Granted | Unprovisioned | InvariantViolation

  /** A permission the invariant keeps out of a restricted plane. */
  predicate Bad(m: Matrix, plane: string, perm: string) {
    perm == "*" || exists i :: 0 <= i < |ForbiddenPatterns(m, plane)| && Overlaps(perm, ForbiddenPatterns(m, plane)[i])
  }

  function OverlapsAny(g: string, patterns: seq<string>): bool {
    patterns != [] && (Overlaps(g, patterns[0]) || OverlapsAny(g, patterns[1..]))
  }

  function EvaluatePermissions(m: Matrix, plane: string, permissions: seq<string>): EvaluationStatus {
    if permissions == [] then Granted
    else if permissions[0] == "*" then InvariantViolation
    else if OverlapsAny(permissions[0], ForbiddenPatterns(m, plane)) then InvariantViolation
    else EvaluatePermissions(m, plane, permissions[1..])
  }

  function Evaluate(m: Matrix, plane: string, permissions: seq<string>, hasRoles: bool): EvaluationStatus {
    if !hasRoles then Unprovisioned
    else if IsRestricted(m, plane) then EvaluatePermissions(m, plane, permissions)
    else Granted
  }

  lemma {:induction false} OverlapsAnyMeans(g: string, patterns: seq<string>)
    ensures OverlapsAny(g, patterns) <==> exists i :: 0 <= i < |patterns| && Overlaps(g, patterns[i])
  {
    if patterns != [] {
      OverlapsAnyMeans(g, patterns[1..]);
      if i :| 0 <= i < |patterns| && Overlaps(g, patterns[i]) {
        if i > 0 { assert patterns[1..][i - 1] == patterns[i]; }
      }
    }
  }

  lemma {:induction false} EvaluatePermissionsMeans(m: Matrix, plane: string, permissions: seq<string>)
    ensures EvaluatePermissions(m, plane, permissions) ==
            if exists i :: 0 <= i < |permissions| && Bad(m, plane, permissions[i]) then InvariantViolation else Granted
  {
    if permissions != [] {
      EvaluatePermissionsMeans(m, plane, permissions[1..]);
      OverlapsAnyMeans(permissions[0], ForbiddenPatterns(m, plane));
      assert forall i :: 0 < i < |permissions| ==> permissions[1..][i - 1] == permissions[i];
    }
  }

  /** A principal with roles is granted exactly when its plane is unrestricted or it holds nothing bad. */
  lemma EvaluateMeans(m: Matrix, plane: string, permissions: seq<string>)
    ensures Evaluate(m, plane, permissions, true) == Granted <==>
            (IsRestricted(m, plane) ==> forall i :: 0 <= i < |permissions| ==> !Bad(m, plane, permissions[i]))
    ensures Evaluate(m, plane, permissions, true) != Unprovisioned
  {
    EvaluatePermissionsMeans(m, plane, permissions);
  }

  predicate CoveredByAny(patterns: seq<string>, request: string) {
    patterns != [] && (Covers(patterns[0], request) || CoveredByAny(patterns[1..], request))
  }

  /** Deny overrides allow on restricted planes. */
  predicate Authorize(m: Matrix, plane: string, granted: seq<string>, request: string) {
    if IsRestricted(m, plane) && CoveredByAny(ForbiddenPatterns(m, plane), request) then false
    else CoveredByAny(granted, request)
  }

  lemma {:induction false} CoveredByAnyMeans(patterns: seq<string>, request: string)
    ensures CoveredByAny(patterns, request) <==> exists i :: 0 <= i < |patterns| && Covers(patterns[i], request)
  {
    if patterns != [] {
      CoveredByAnyMeans(patterns[1..], request);
      if i :| 0 <= i < |patterns| && Covers(patterns[i], request) {
        if i > 0 { assert patterns[1..][i - 1] == patterns[i]; }
      }
    }
  }

  /** Dropping a grant that another grant covers changes no decision. */
  lemma RedundantGrant(m: Matrix, plane: string, granted: seq<string>, k: nat, j: nat, request: string)
    requires j < |granted| && k < |granted| && j != k
    requires ValidPermission(granted[j]) && ValidPermission(granted[k]) && granted[k] != "*"
    requires Covers(granted[j], granted[k]) && IsRequest(request)
    ensures Authorize(m, plane, granted[..k] + granted[k + 1..], request) == Authorize(m, plane, granted, request)
  {
    var fewer := granted[..k] + granted[k + 1..];
    CoveredByAnyMeans(granted, request);
    CoveredByAnyMeans(fewer, request);
    assert forall i :: 0 <= i < |fewer| ==> fewer[i] == granted[if i < k then i else i + 1];
    if i :| 0 <= i < |granted| && Covers(granted[i], request) {
      var n := if i == k then j else i;
      if i == k { CoversTransitive(granted[j], granted[k], request); }
      assert fewer[if n < k then n else n - 1] == granted[n];
    }
  }

  /**
   * A granted pattern no larger and no smaller than any forbidden one, as sets
   * of requests: what a GRANTED evaluation on a restricted plane guarantees.
   */
  lemma GrantedIsIncomparable(m: Matrix, plane: string, permissions: seq<string>, g: string, d: string)
    requires IsRestricted(m, plane) && Evaluate(m, plane, permissions, true) == Granted
    requires g in permissions && d in ForbiddenPatterns(m, plane)
    requires ValidPermission(g) && ValidPermission(d)
    ensures !Includes(g, d) && !Includes(d, g)
  {
    EvaluateMeans(m, plane, permissions);
    var i :| 0 <= i < |permissions| && permissions[i] == g;
    assert !Bad(m, plane, permissions[i]);
    OverlapIsComparability(g, d);
  }

  /**
   * What a GRANTED evaluation on a restricted plane misses: some request is both
   * held and forbidden exactly when a held pattern crosses a forbidden one.
   * Authorisation still denies every such request.
   */
  lemma GrantedMissesCrossing(m: Matrix, plane: string, permissions: seq<string>)
    requires IsRestricted(m, plane) && Evaluate(m, plane, permissions, true) == Granted
    requires forall i :: 0 <= i < |permissions| ==> ValidPermission(permissions[i])
    requires forall i :: 0 <= i < |ForbiddenPatterns(m, plane)| ==> ValidPermission(ForbiddenPatterns(m, plane)[i])
    ensures (exists g, d :: g in permissions && d in ForbiddenPatterns(m, plane) && Shares(g, d)) <==>
            (exists g, d :: g in permissions && d in ForbiddenPatterns(m, plane) && d != "*" &&
                Crossing(Split(g, ':'), Split(d, ':')))
    ensures forall d, r :: d in ForbiddenPatterns(m, plane) && Covers(d, r) ==> !Authorize(m, plane, permissions, r)
  {
    EvaluateMeans(m, plane, permissions);
    forall g, d | g in permissions && d in ForbiddenPatterns(m, plane)
      ensures Shares(g, d) <==> d != "*" && Crossing(Split(g, ':'), Split(d, ':'))
    {
      var i :| 0 <= i < |permissions| && permissions[i] == g;
      var j :| 0 <= j < |ForbiddenPatterns(m, plane)| && ForbiddenPatterns(m, plane)[j] == d;
      assert !Bad(m, plane, permissions[i]);
      assert !Overlaps(g, ForbiddenPatterns(m, plane)[j]);
      OverlapMissesCrossing(g, d);
    }
    forall d, r | d in ForbiddenPatterns(m, plane) && Covers(d, r) ensures !Authorize(m, plane, permissions, r) {
      CoveredByAnyMeans(ForbiddenPatterns(m, plane), r);
    }
  }

  lemma TwoSegments(x: string, y: string)
    requires ':' !in x && ':' !in y
    ensures Split(x + ":" + y, ':') == [x, y]
  {
    SplitConcat(x, y, ':');
    SplitNoSeparator(x, ':');
    SplitNoSeparator(y, ':');
    assert x + [':'] + y == x + ":" + y;
  }

  /**
   * On a plane that forbids broker:*, execution:* and kill_switch:*, holding
   * *:submit evaluates to GRANTED although it covers broker:submit.
   */
  lemma CrossingIsGranted(m: Matrix, plane: string)
    requires IsRestricted(m, plane)
    requires ForbiddenPatterns(m, plane) == ["broker" + ":" + "*", "execution" + ":" + "*", "kill_switch" + ":" + "*"]
    ensures Evaluate(m, plane, ["*" + ":" + "submit"], true) == Granted
    ensures Shares("*" + ":" + "submit", "broker" + ":" + "*")
  {
    var g, ds, names := "*" + ":" + "submit", ForbiddenPatterns(m, plane), ["broker", "execution", "kill_switch"];
    forall i | 0 <= i < 3 ensures !Overlaps(g, ds[i]) {
      assert names[i][0] != '*';
      CrossedNames(names[i], "submit");
    }
    EvaluateMeans(m, plane, [g]);
    assert ConcreteSegment("broker") && ConcreteSegment("submit");
    CrossedNames("broker", "submit");
  }

  /** "*:y" and "x:*" do not overlap, and share the request "x:y". */
  lemma CrossedNames(x: string, y: string)
    requires ':' !in x && ':' !in y && x != "*" && y != "*"
    ensures !Overlaps("*" + ":" + y, x + ":" + "*")
    ensures ConcreteSegment(x) && ConcreteSegment(y) ==> Shares("*" + ":" + y, x + ":" + "*")
  {
    var g, d, r := "*" + ":" + y, x + ":" + "*", x + ":" + y;
    TwoSegments("*", y);
    TwoSegments(x, "*");
    TwoSegments(x, y);
    CoversBySegments(g, d);
    CoversBySegments(d, g);
    CoversBySegments(g, r);
    CoversBySegments(d, r);
    assert !MatchesAt(["*", y], [x, "*"], 1) && !MatchesAt([x, "*"], ["*", y], 0);
    forall k | 0 <= k < 2 ensures MatchesAt(["*", y], [x, y], k) && MatchesAt([x, "*"], [x, y], k) {}
    assert Covers(g, r) && Covers(d, r);
  }

  // ----- Granting -----

  datatype GrantCheck = GrantOk | InvalidPermission | ForbiddenForPlane

  function ValidateGrant(m: Matrix, plane: string, perm: string): GrantCheck {
    if !ValidPermission(perm) then InvalidPermission
    else if IsRestricted(m, plane) && (perm == "*" || OverlapsAny(perm, ForbiddenPatterns(m, plane))) then
        ForbiddenForPlane
    else GrantOk
  }

  /**
   * Granting one permission at a time through validate_grant keeps a principal's
   * evaluation GRANTED, and a grant is refused as forbidden exactly when it would not.
   */
  lemma GrantKeepsEvaluation(m: Matrix, plane: string, held: seq<string>, perm: string)
    requires ValidPermission(perm)
    requires Evaluate(m, plane, held, true) == Granted
    ensures ValidateGrant(m, plane, perm) == GrantOk <==> Evaluate(m, plane, held + [perm], true) == Granted
  {
    EvaluateMeans(m, plane, held);
    EvaluateMeans(m, plane, held + [perm]);
    OverlapsAnyMeans(perm, ForbiddenPatterns(m, plane));
    assert (held + [perm])[|held|] == perm;
  }
}
