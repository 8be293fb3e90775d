/**
 * What violations mean in the tables, and where repeated sweeps lead.
 */
module SweepProofs {
  import opened Rbac
  import opened RbacTables

  // ----- Members of the grouped lists -----

  lemma {:induction false} JoinRoleMembers(row: RoleRow, perms: seq<RolePermission>, n: nat)
    requires n <= |perms|
    ensures forall j :: j in JoinRole(row, perms, n) <==>
              j.pid == row.pid && j.role == row.role && RolePermission(j.role, j.perm) in perms[..n]
  {
    if n > 0 {
      JoinRoleMembers(row, perms, n - 1);
      assert perms[..n] == perms[..n - 1] + [perms[n - 1]];
    }
  }

  lemma {:induction false} JoinedRowsMembers(roles: seq<RoleRow>, perms: seq<RolePermission>)
    ensures forall j :: j in JoinedRows(roles, perms) <==>
              RoleRow(j.pid, j.role) in roles && RolePermission(j.role, j.perm) in perms
  {
    if roles != [] {
      JoinRoleMembers(roles[0], perms, |perms|);
      JoinedRowsMembers(roles[1..], perms);
      assert perms[..|perms|] == perms;
      assert roles == [roles[0]] + roles[1..];
    }
  }

  lemma {:induction false} RoleListMembers(joined: seq<JoinRow>, pid: Uuid, n: nat)
    requires n <= |joined|
    ensures forall perm :: perm in RolePermissions(joined, pid, n) <==>
              exists role :: JoinRow(pid, perm, role) in joined[..n]
    ensures forall a :: a in RoleAssignments(joined, pid, n) <==>
              a.RoleAssignment? && JoinRow(pid, a.perm, a.role) in joined[..n]
  {
    if n > 0 {
      RoleListMembers(joined, pid, n - 1);
      assert joined[..n] == joined[..n - 1] + [joined[n - 1]];
      assert joined[n - 1] == JoinRow(joined[n - 1].pid, joined[n - 1].perm, joined[n - 1].role);
    }
  }

  lemma {:induction false} DirectListMembers(grants: seq<GrantRow>, pid: Uuid, n: nat)
    requires n <= |grants|
    ensures forall perm :: perm in DirectGrants(grants, pid, n) <==> GrantRow(pid, perm) in grants[..n]
    ensures forall a :: a in DirectAssignments(grants, pid, n) <==>
              a.DirectAssignment? && GrantRow(pid, a.perm) in grants[..n]
  {
    if n > 0 {
      DirectListMembers(grants, pid, n - 1);
      assert grants[..n] == grants[..n - 1] + [grants[n - 1]];
      assert grants[n - 1] == GrantRow(grants[n - 1].pid, grants[n - 1].perm);
    }
  }

  ghost predicate AssignmentHolds(t: Tables, pid: Uuid, a: Assignment) {
    match a
    case RoleAssignment(role, perm) => HoldsByRole(t, pid, role, perm)
    case DirectAssignment(perm) => GrantRow(pid, perm) in t.grants
  }

  /** An entry lists what the tables say about its principal. */
  lemma EntryMeans(t: Tables, p: Principal)
    ensures forall perm :: perm in EntryOf(t, p).rolePermissions + EntryOf(t, p).directGrants <==> Holds(t, p.id, perm)
    ensures EntryOf(t, p).directGrants != [] <==> HasGrant(t, p.id)
    ensures EntryOf(t, p).roleCount == 0 <==> !HasRole(t, p.id)
    ensures forall a :: a in EntryOf(t, p).assignments <==> AssignmentHolds(t, p.id, a)
  {
    var e := EntryOf(t, p);
    var joined := JoinedRows(t.roles, t.rolePermissions);
    JoinedRowsMembers(t.roles, t.rolePermissions);
    RoleListMembers(joined, p.id, |joined|);
    DirectListMembers(t.grants, p.id, |t.grants|);
    assert joined[..|joined|] == joined && t.grants[..|t.grants|] == t.grants;
    forall perm ensures perm in e.rolePermissions <==> exists role :: HoldsByRole(t, p.id, role, perm) {
      assert forall role :: JoinRow(p.id, perm, role) in joined <==> HoldsByRole(t, p.id, role, perm);
    }
    if row :| row in t.grants && row.pid == p.id {
      assert row == GrantRow(p.id, row.perm) && row.perm in e.directGrants;
    }
    if e.directGrants != [] {
      assert GrantRow(p.id, e.directGrants[0]) in t.grants;
    }
    if row :| row in t.roles && row.pid == p.id {
      assert row.role in RolesOf(t, p.id);
    }
    assert RolesOf(t, p.id) != {} ==> HasRole(t, p.id);
  }

  // ----- Members of the violation list -----

  lemma {:induction false} PatternViolationsMembers(pid: Uuid, perm: string, patterns: seq<string>, n: nat)
    requires n <= |patterns|
    ensures forall v :: v in PatternViolations(pid, perm, patterns, n) <==>
              v == ForbiddenPermission(pid, perm) && exists i :: 0 <= i < n && Overlaps(perm, patterns[i])
  {
    if n > 0 {
      PatternViolationsMembers(pid, perm, patterns, n - 1);
    }
  }

  lemma {:induction false} EffectiveViolationsMembers(m: Matrix, pid: Uuid, plane: string, effective: seq<string>,
          n: nat)
    requires n <= |effective|
    ensures forall v :: v in EffectiveViolations(m, pid, plane, effective, n) <==>
              v.ForbiddenPermission? && v.pid == pid && v.perm in effective[..n] && Bad(m, plane, v.perm)
  {
    if n > 0 {
      EffectiveViolationsMembers(m, pid, plane, effective, n - 1);
      PatternViolationsMembers(pid, effective[n - 1], ForbiddenPatterns(m, plane), |ForbiddenPatterns(m, plane)|);
      assert effective[..n] == effective[..n - 1] + [effective[n - 1]];
    }
  }

  ghost predicate DetectedIn(m: Matrix, t: Tables, p: Principal, v: Violation) {
    v in EntryViolations(m, p.id, EntryOf(t, p))
  }

  lemma LastPrincipal(m: Matrix, t: Tables, n: nat)
    requires 0 < n <= |t.principals|
    ensures forall v :: v in ViolationsUpTo(m, t, n) <==>
              v in ViolationsUpTo(m, t, n - 1) || DetectedIn(m, t, t.principals[n - 1], v)
  {
  }

  lemma {:induction false} ViolationsUpToMembers(m: Matrix, t: Tables, n: nat)
    requires n <= |t.principals|
    ensures forall v :: v in ViolationsUpTo(m, t, n) <==>
              exists i :: 0 <= i < n && DetectedIn(m, t, t.principals[i], v)
  {
    if n > 0 {
      ViolationsUpToMembers(m, t, n - 1);
      LastPrincipal(m, t, n);
    }
  }

  ghost predicate ForbiddenFor(m: Matrix, t: Tables, p: Principal, perm: string) {
    IsRestricted(m, p.plane) && Holds(t, p.id, perm) && Bad(m, p.plane, perm)
  }

  ghost predicate ViolationHolds(m: Matrix, t: Tables, p: Principal, v: Violation) {
    match v
    case ForbiddenPermission(pid, perm) => pid == p.id && ForbiddenFor(m, t, p, perm)
    case UnprovisionedGrants(pid, count) =>
      pid == p.id && !HasRole(t, p.id) && HasGrant(t, p.id) && count == |EntryOf(t, p).directGrants|
  }

  lemma EntryViolationsMean(m: Matrix, t: Tables, p: Principal)
    ensures forall v :: DetectedIn(m, t, p, v) <==> ViolationHolds(m, t, p, v)
  {
    var e := EntryOf(t, p);
    var effective := e.rolePermissions + e.directGrants;
    EntryMeans(t, p);
    EffectiveViolationsMembers(m, p.id, e.plane, effective, |effective|);
    assert effective[..|effective|] == effective;
  }

  lemma FoundMeans(m: Matrix, t: Tables)
    ensures forall v :: v in Violations(m, t) <==> exists p :: p in t.principals && ViolationHolds(m, t, p, v)
  {
    ViolationsUpToMembers(m, t, |t.principals|);
    forall v
      ensures v in Violations(m, t) <==> exists p :: p in t.principals && ViolationHolds(m, t, p, v)
    {
      if i :| 0 <= i < |t.principals| && DetectedIn(m, t, t.principals[i], v) {
        EntryViolationsMean(m, t, t.principals[i]);
        assert ViolationHolds(m, t, t.principals[i], v);
      }
      if p :| p in t.principals && ViolationHolds(m, t, p, v) {
        var i :| 0 <= i < |t.principals| && t.principals[i] == p;
        EntryViolationsMean(m, t, p);
        assert DetectedIn(m, t, t.principals[i], v);
      }
    }
  }

  /** The two categories of violation, in terms of the tables. */
  lemma ViolationsMean(m: Matrix, t: Tables)
    ensures forall pid, perm :: ForbiddenPermission(pid, perm) in Violations(m, t) <==>
              exists p :: p in t.principals && p.id == pid && ForbiddenFor(m, t, p, perm)
    ensures forall pid, count :: UnprovisionedGrants(pid, count) in Violations(m, t) ==>
              IsPrincipal(t, pid) && !HasRole(t, pid) && HasGrant(t, pid)
    ensures forall p :: p in t.principals && !HasRole(t, p.id) && HasGrant(t, p.id) ==>
              UnprovisionedGrants(p.id, |EntryOf(t, p).directGrants|) in Violations(m, t)
  {
    FoundMeans(m, t);
    forall p | p in t.principals && !HasRole(t, p.id) && HasGrant(t, p.id)
      ensures UnprovisionedGrants(p.id, |EntryOf(t, p).directGrants|) in Violations(m, t)
    {
      assert ViolationHolds(m, t, p, UnprovisionedGrants(p.id, |EntryOf(t, p).directGrants|));
    }
    forall pid, perm
      ensures ForbiddenPermission(pid, perm) in Violations(m, t) <==>
              exists p :: p in t.principals && p.id == pid && ForbiddenFor(m, t, p, perm)
    {
      assert forall p :: ViolationHolds(m, t, p, ForbiddenPermission(pid, perm)) <==>
                         p.id == pid && ForbiddenFor(m, t, p, perm);
    }
  }

  // ----- Sweeps -----

  /** The principal breaks the invariant. */
  ghost predicate Violates(m: Matrix, t: Tables, p: Principal) {
    (exists perm :: ForbiddenFor(m, t, p, perm)) || (!HasRole(t, p.id) && HasGrant(t, p.id))
  }

  lemma NoViolations(m: Matrix, t: Tables)
    ensures Violations(m, t) == [] <==> forall p :: p in t.principals ==> !Violates(m, t, p)
  {
    ViolationsMean(m, t);
    var found := Violations(m, t);
    if found != [] {
      assert found[0] in found;
      match found[0] {
        case ForbiddenPermission(pid, perm) =>
          var p :| p in t.principals && p.id == pid && ForbiddenFor(m, t, p, perm);
          assert Violates(m, t, p);
        case UnprovisionedGrants(pid, count) =>
          var p :| p in t.principals && p.id == pid;
          assert Violates(m, t, p);
      }
    }
    if p :| p in t.principals && Violates(m, t, p) {
      if perm :| ForbiddenFor(m, t, p, perm) {
        assert ForbiddenPermission(p.id, perm) in found;
      }
    }
  }

  lemma SweepRows(m: Matrix, t: Tables)
    ensures forall row :: row in Sweep(m, t).roles <==> row in t.roles && !BadRole(m, t, row)
    ensures forall row :: row in Sweep(m, t).grants <==> row in t.grants && !BadGrant(m, t, row) && HasRole(t, row.pid)
  {
    WithoutMembers(t.roles, RevokedRoles(m, t));
    WithoutMembers(t.grants, RevokedGrants(m, t));
  }

  /** One sweep leaves no restricted-plane principal holding a forbidden permission. */
  lemma OneSweepClearsForbidden(m: Matrix, t: Tables, p: Principal, perm: string)
    requires p in t.principals && IsRestricted(m, p.plane) && Bad(m, p.plane, perm)
    ensures !Holds(Sweep(m, t), p.id, perm)
  {
    SweepRows(m, t);
    var s := Sweep(m, t);
    if GrantRow(p.id, perm) in s.grants {
      assert BadGrant(m, t, GrantRow(p.id, perm));
    }
    if role :| HoldsByRole(s, p.id, role, perm) {
      assert p in t.principals && RolePermission(role, perm) in t.rolePermissions;
      assert BadRole(m, t, RoleRow(p.id, role));
    }
  }

  /** What the sweep deletes belongs to a principal that violates the invariant. */
  lemma OnlyViolatorsLoseRows(m: Matrix, t: Tables)
    requires Keyed(t)
    ensures forall row :: row in t.roles && row !in Sweep(m, t).roles ==>
              exists p :: p in t.principals && p.id == row.pid && Violates(m, t, p)
    ensures forall row :: row in t.grants && row !in Sweep(m, t).grants ==>
              exists p :: p in t.principals && p.id == row.pid && Violates(m, t, p)
    ensures Sweep(m, t).principals == t.principals && Sweep(m, t).rolePermissions == t.rolePermissions
    ensures forall row :: row in Sweep(m, t).roles ==> row in t.roles
    ensures forall row :: row in Sweep(m, t).grants ==> row in t.grants
  {
    SweepRows(m, t);
    forall row | row in t.roles && row !in Sweep(m, t).roles
      ensures exists p :: p in t.principals && p.id == row.pid && Violates(m, t, p)
    {
      var p, rp :| p in t.principals && rp in t.rolePermissions && p.id == row.pid && rp.role == row.role &&
                   IsRestricted(m, p.plane) && Bad(m, p.plane, rp.perm);
      assert row == RoleRow(p.id, row.role) && rp == RolePermission(row.role, rp.perm);
      assert HoldsByRole(t, p.id, row.role, rp.perm);
      assert ForbiddenFor(m, t, p, rp.perm);
    }
    forall row | row in t.grants && row !in Sweep(m, t).grants
      ensures exists p :: p in t.principals && p.id == row.pid && Violates(m, t, p)
    {
      assert row == GrantRow(row.pid, row.perm);
      if HasRole(t, row.pid) {
        var p :| p in t.principals && p.id == row.pid && IsRestricted(m, p.plane) && Bad(m, p.plane, row.perm);
        assert ForbiddenFor(m, t, p, row.perm);
      } else {
        var p :| p in t.principals && p.id == row.pid;
        assert Violates(m, t, p);
      }
    }
  }

  lemma SweepKeyed(m: Matrix, t: Tables)
    requires Keyed(t)
    ensures Keyed(Sweep(m, t))
  {
    OnlyViolatorsLoseRows(m, t);
    forall row | row in Sweep(m, t).roles ensures IsPrincipal(Sweep(m, t), row.pid) { assert IsPrincipal(t, row.pid); }
    forall row | row in Sweep(m, t).grants ensures IsPrincipal(Sweep(m, t), row.pid) { assert IsPrincipal(t, row.pid); }
  }

  /** A sweep changes the tables exactly when it detects something. */
  lemma SweepFixedIffClean(m: Matrix, t: Tables)
    requires Keyed(t)
    ensures Sweep(m, t) == t <==> Violations(m, t) == []
  {
    NoViolations(m, t);
    OnlyViolatorsLoseRows(m, t);
    SweepRows(m, t);
    WithoutNothing(t.roles, RevokedRoles(m, t));
    WithoutNothing(t.grants, RevokedGrants(m, t));
    if p :| p in t.principals && Violates(m, t, p) {
      if perm :| ForbiddenFor(m, t, p, perm) {
        OneSweepClearsForbidden(m, t, p, perm);
        assert Sweep(m, t) != t;
      } else {
        var row :| row in t.grants && row.pid == p.id;
        assert row !in Sweep(m, t).grants;
      }
    }
  }

  /** The principal has roles, all of them bad, and a grant that is not. */
  ghost predicate LeftUnprovisioned(m: Matrix, t: Tables, p: Principal) {
    && HasRole(t, p.id)
    && (forall row :: row in t.roles && row.pid == p.id ==> BadRole(m, t, row))
    && (exists row :: row in t.grants && row.pid == p.id && !BadGrant(m, t, row))
  }

  /** Such a principal is the one the sweep strips of its last role while leaving it a grant. */
  lemma LeftUnprovisionedMeans(m: Matrix, t: Tables, p: Principal)
    ensures LeftUnprovisioned(m, t, p) <==>
            HasRole(t, p.id) && !HasRole(Sweep(m, t), p.id) && HasGrant(Sweep(m, t), p.id)
  {
    SweepRows(m, t);
    if HasGrant(Sweep(m, t), p.id) {
      var row :| row in Sweep(m, t).grants && row.pid == p.id;
      assert row in t.grants && !BadGrant(m, t, row);
    }
    if LeftUnprovisioned(m, t, p) {
      var row :| row in t.grants && row.pid == p.id && !BadGrant(m, t, row);
      assert HasRole(t, row.pid) && row in Sweep(m, t).grants;
    }
  }

  /** One sweep is enough exactly when no principal has only bad roles and a grant that is not bad. */
  lemma OneSweepSuffices(m: Matrix, t: Tables)
    requires Keyed(t)
    ensures Violations(m, Sweep(m, t)) == [] <==> forall p :: p in t.principals ==> !LeftUnprovisioned(m, t, p)
  {
    var s := Sweep(m, t);
    NoViolations(m, s);
    SweepRows(m, t);
    forall p | p in t.principals
      ensures Violates(m, s, p) <==> LeftUnprovisioned(m, t, p)
    {
      LeftUnprovisionedMeans(m, t, p);
      forall perm ensures !ForbiddenFor(m, s, p, perm) {
        if IsRestricted(m, p.plane) && Bad(m, p.plane, perm) { OneSweepClearsForbidden(m, t, p, perm); }
      }
      if HasGrant(s, p.id) {
        var row :| row in s.grants && row.pid == p.id;
        assert HasRole(t, row.pid);
      }
    }
  }

  /** From any tables, two sweeps leave nothing to detect, and a third changes nothing. */
  lemma TwoSweepsSettle(m: Matrix, t: Tables)
    requires Keyed(t)
    ensures Violations(m, Sweep(m, Sweep(m, t))) == []
    ensures Sweep(m, Sweep(m, Sweep(m, t))) == Sweep(m, Sweep(m, t))
  {
    var s := Sweep(m, t);
    var u := Sweep(m, s);
    SweepKeyed(m, t);
    SweepKeyed(m, s);
    SweepRows(m, t);
    SweepRows(m, s);
    OneSweepSuffices(m, s);
    forall p | p in t.principals
      ensures !LeftUnprovisioned(m, s, p)
    {
      LeftUnprovisionedMeans(m, s, p);
      // Which role rows are bad depends on tables that sweeps leave alone.
      if HasRole(s, p.id) {
        var row :| row in s.roles && row.pid == p.id;
        assert BadRole(m, s, row) <==> BadRole(m, t, row);
        assert row in u.roles;
      }
    }
    SweepFixedIffClean(m, u);
  }

  /**
   * One sweep is not always enough, whatever plane is restricted: revoking the
   * only role of a principal leaves its clean grant to the next sweep.
   */
  lemma OneSweepMayNotSuffice(m: Matrix, plane: string, clean: string)
    requires IsRestricted(m, plane) && !Bad(m, plane, clean)
    ensures exists t :: Keyed(t) && Violations(m, Sweep(m, t)) != []
  {
    var p, role, grant := Principal(1, plane, ""), RoleRow(1, 7), GrantRow(1, clean);
    var t := Tables([p], [role], [RolePermission(7, "*")], [grant]);
    assert p in t.principals && role in t.roles && grant in t.grants && RolePermission(7, "*") in t.rolePermissions;
    assert Keyed(t) by { assert IsPrincipal(t, 1); }
    assert BadRole(m, t, role) && !BadGrant(m, t, grant);
    SweepRows(m, t);
    assert grant in Sweep(m, t).grants;
    assert LeftUnprovisioned(m, t, p);
    OneSweepSuffices(m, t);
  }

  lemma CleanPrincipal(m: Matrix, t: Tables, p: Principal)
    requires !Violates(m, t, p)
    ensures var e := EntryOf(t, p);
            if HasRole(t, p.id) then
              Evaluate(m, p.plane, e.rolePermissions + e.directGrants, e.roleCount != 0) == Granted
            else e.rolePermissions + e.directGrants == []
  {
    var e := EntryOf(t, p);
    var held := e.rolePermissions + e.directGrants;
    EntryMeans(t, p);
    EvaluateMeans(m, p.plane, held);
    assert forall i :: 0 <= i < |held| ==> held[i] in held;
    if HasRole(t, p.id) {
      forall i | 0 <= i < |held| && IsRestricted(m, p.plane)
        ensures !Bad(m, p.plane, held[i])
      {
        assert Holds(t, p.id, held[i]) && !ForbiddenFor(m, t, p, held[i]);
      }
    } else {
      assert forall perm :: GrantRow(p.id, perm) !in t.grants;
      assert forall perm :: !Holds(t, p.id, perm);
      SomeMember(held);
    }
  }

  lemma SomeMember(s: seq<string>)
    ensures s != [] ==> exists x :: x in s
  {
    if s != [] { assert s[0] in s; }
  }

  /**
   * After two sweeps the evaluation-time check and the tables agree: a principal
   * with roles evaluates to GRANTED on what it holds, one without roles holds nothing.
   */
  lemma SettledEvaluation(m: Matrix, t: Tables, p: Principal)
    requires Keyed(t) && p in t.principals
    ensures var u := Sweep(m, Sweep(m, t));
            var e := EntryOf(u, p);
            if HasRole(u, p.id) then
              Evaluate(m, p.plane, e.rolePermissions + e.directGrants, e.roleCount != 0) == Granted
            else e.rolePermissions + e.directGrants == []
  {
    var u := Sweep(m, Sweep(m, t));
    TwoSweepsSettle(m, t);
    NoViolations(m, u);
    CleanPrincipal(m, u, p);
  }
}
