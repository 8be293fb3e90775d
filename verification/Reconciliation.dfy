/**
 * The reconciliation sweep as the program runs it: group the rows, detect the
 * violations, then delete the offending rows one statement at a time.
 */
module Reconciliation {
  import opened Rbac
  import opened RbacTables
  import opened SweepProofs

  datatype Remediation = RevokedRole(perm: string) | RevokedGrant(perm: string) | RevokedUnprovisioned

  /** What the remediation loop appends for the first n assignments of a forbidden-permission violation. */
  function AssignmentRemediations(m: Matrix, e: Entry, n: nat): seq<Remediation>
    requires n <= |e.assignments|
  {
    if n == 0 then []
    else
      var a := e.assignments[n - 1];
      AssignmentRemediations(m, e, n - 1) +
      (if !Bad(m, e.plane, a.perm) then []
       else if a.RoleAssignment? then [RevokedRole(a.perm)] else [RevokedGrant(a.perm)])
  }

  class RbacStore {
    var principals: seq<Principal>
    var roles: seq<RoleRow>
    var rolePermissions: seq<RolePermission>
    var grants: seq<GrantRow>

    constructor (t: Tables)
      ensures Contents() == t
    {
      principals, roles, rolePermissions, grants := t.principals, t.roles, t.rolePermissions, t.grants;
    }

    function Contents(): Tables
      reads this
    {
      Tables(principals, roles, rolePermissions, grants)
    }

    method DeleteRole(pid: Uuid, role: Uuid)
      modifies this`roles
      ensures roles == Without(old(roles), {RoleRow(pid, role)})
    {
      roles := Without(roles, {RoleRow(pid, role)});
    }

    method DeleteGrant(pid: Uuid, perm: string)
      modifies this`grants
      ensures grants == Without(old(grants), {GrantRow(pid, perm)})
    {
      grants := Without(grants, {GrantRow(pid, perm)});
    }

    method DeleteGrantsOf(pid: Uuid)
      modifies this`grants
      ensures grants == Without(old(grants), set row | row in old(grants) && row.pid == pid)
    {
      grants := Without(grants, set row | row in grants && row.pid == pid);
    }
  }

  /** Group the rows by principal: one entry each, in row order. */
  method Group(t: Tables) returns (assignments: map<Uuid, Entry>)
    requires Keyed(t)
    ensures forall p :: p in t.principals ==> p.id in assignments && assignments[p.id] == EntryOf(t, p)
  {
    var joined := JoinedRows(t.roles, t.rolePermissions);
    assignments := map[];
    for i := 0 to |t.principals|
      invariant forall k :: 0 <= k < i ==>
                  t.principals[k].id in assignments &&
                  assignments[t.principals[k].id] == EntryUpTo(t, t.principals[k], joined, 0, 0)
    {
      var p := t.principals[i];
      assignments := assignments[p.id := Entry(p.plane, p.subject, [], [], |RolesOf(t, p.id)|, [])];
    }
    for r := 0 to |joined|
      invariant forall k :: 0 <= k < |t.principals| ==>
                  t.principals[k].id in assignments &&
                  assignments[t.principals[k].id] == EntryUpTo(t, t.principals[k], joined, r, 0)
    {
      var row := joined[r];
      if row.pid in assignments {
        var e := assignments[row.pid];
        assignments := assignments[row.pid := e.(rolePermissions := e.rolePermissions + [row.perm],
                                                 assignments := e.assignments + [RoleAssignment(row.role, row.perm)])];
      }
    }
    for g := 0 to |t.grants|
      invariant forall k :: 0 <= k < |t.principals| ==>
                  t.principals[k].id in assignments &&
                  assignments[t.principals[k].id] == EntryUpTo(t, t.principals[k], joined, |joined|, g)
    {
      var row := t.grants[g];
      if row.pid in assignments {
        var e := assignments[row.pid];
        assignments := assignments[row.pid := e.(directGrants := e.directGrants + [row.perm],
                                                 assignments := e.assignments + [DirectAssignment(row.perm)])];
      }
    }
  }

  method DetectEntry(m: Matrix, pid: Uuid, e: Entry) returns (violations: seq<Violation>)
    ensures violations == EntryViolations(m, pid, e)
  {
    violations := [];
    var effective := e.rolePermissions + e.directGrants;
    if IsRestricted(m, e.plane) {
      for i := 0 to |effective|
        invariant violations == EffectiveViolations(m, pid, e.plane, effective, i)
      {
        var perm := effective[i];
        if perm == "*" {
          violations := violations + [ForbiddenPermission(pid, perm)];
          continue;
        }
        ghost var before := violations;
        var patterns := ForbiddenPatterns(m, e.plane);
        for d := 0 to |patterns|
          invariant violations == before + PatternViolations(pid, perm, patterns, d)
        {
          if Overlaps(perm, patterns[d]) {
            violations := violations + [ForbiddenPermission(pid, perm)];
          }
        }
      }
    }
    if e.roleCount == 0 && e.directGrants != [] {
      violations := violations + [UnprovisionedGrants(pid, |e.directGrants|)];
    }
  }

  method DetectViolations(m: Matrix, t: Tables, assignments: map<Uuid, Entry>) returns (violations: seq<Violation>)
    requires forall p :: p in t.principals ==> p.id in assignments && assignments[p.id] == EntryOf(t, p)
    ensures violations == Violations(m, t)
  {
    violations := [];
    for i := 0 to |t.principals|
      invariant violations == ViolationsUpTo(m, t, i)
    {
      var found := DetectEntry(m, t.principals[i].id, assignments[t.principals[i].id]);
      violations := violations + found;
    }
  }

  /** The role rows and grant rows deleted for the first n assignments of an entry. */
  ghost function GoneRoles(m: Matrix, pid: Uuid, e: Entry, n: nat): set<RoleRow>
    requires n <= |e.assignments|
  {
    if n == 0 then {}
    else if e.assignments[n - 1].RoleAssignment? && Bad(m, e.plane, e.assignments[n - 1].perm) then
      GoneRoles(m, pid, e, n - 1) + {RoleRow(pid, e.assignments[n - 1].role)}
    else GoneRoles(m, pid, e, n - 1)
  }

  ghost function GoneGrants(m: Matrix, pid: Uuid, e: Entry, n: nat): set<GrantRow>
    requires n <= |e.assignments|
  {
    if n == 0 then {}
    else if e.assignments[n - 1].DirectAssignment? && Bad(m, e.plane, e.assignments[n - 1].perm) then
      GoneGrants(m, pid, e, n - 1) + {GrantRow(pid, e.assignments[n - 1].perm)}
    else GoneGrants(m, pid, e, n - 1)
  }

  /** Quarantine the offending assignments of one forbidden-permission violation. */
  method RevokeBad(store: RbacStore, m: Matrix, pid: Uuid, e: Entry) returns (done: seq<Remediation>)
    modifies store`roles, store`grants
    ensures store.roles == Without(old(store.roles), GoneRoles(m, pid, e, |e.assignments|))
    ensures store.grants == Without(old(store.grants), GoneGrants(m, pid, e, |e.assignments|))
    ensures done == AssignmentRemediations(m, e, |e.assignments|)
  {
    done := [];
    WithoutNothing(store.roles, {});
    WithoutNothing(store.grants, {});
    for i := 0 to |e.assignments|
      invariant store.roles == Without(old(store.roles), GoneRoles(m, pid, e, i))
      invariant store.grants == Without(old(store.grants), GoneGrants(m, pid, e, i))
      invariant done == AssignmentRemediations(m, e, i)
    {
      var a := e.assignments[i];
      if Bad(m, e.plane, a.perm) {
        match a {
          case RoleAssignment(role, perm) =>
            store.DeleteRole(pid, role);
            WithoutTwice(old(store.roles), GoneRoles(m, pid, e, i), {RoleRow(pid, role)});
            done := done + [RevokedRole(perm)];
          case DirectAssignment(perm) =>
            store.DeleteGrant(pid, perm);
            WithoutTwice(old(store.grants), GoneGrants(m, pid, e, i), {GrantRow(pid, perm)});
            done := done + [RevokedGrant(perm)];
        }
      }
    }
  }

  ghost predicate Grouped(t: Tables, assignments: map<Uuid, Entry>) {
    forall p :: p in t.principals ==> p.id in assignments && assignments[p.id] == EntryOf(t, p)
  }

  /** All role rows deleted for the first n violations. */
  ghost function AllGoneRoles(m: Matrix, found: seq<Violation>, assignments: map<Uuid, Entry>, n: nat): set<RoleRow>
    requires n <= |found| && forall v :: v in found ==> v.pid in assignments
  {
    if n == 0 then {}
    else
      var before := AllGoneRoles(m, found, assignments, n - 1);
      match found[n - 1]
      case ForbiddenPermission(pid, _) => before + GoneRoles(m, pid, assignments[pid], |assignments[pid].assignments|)
      case UnprovisionedGrants(_, _) => before
  }

  /** All grant rows deleted for the first n violations. */
  ghost function AllGoneGrants(m: Matrix, t: Tables, found: seq<Violation>, assignments: map<Uuid, Entry>,
          n: nat): set<GrantRow>
    requires n <= |found| && forall v :: v in found ==> v.pid in assignments
  {
    if n == 0 then {}
    else
      var before := AllGoneGrants(m, t, found, assignments, n - 1);
      match found[n - 1]
      case ForbiddenPermission(pid, _) => before + GoneGrants(m, pid, assignments[pid], |assignments[pid].assignments|)
      case UnprovisionedGrants(pid, _) => before + set row | row in t.grants && row.pid == pid
  }

  ghost function EntryFor(t: Tables, pid: Uuid): Entry
    requires IsPrincipal(t, pid)
  {
    var p :| p in t.principals && p.id == pid;
    EntryOf(t, p)
  }

  /** The remediations recorded for the first n violations: every bad assignment of the principal, each time. */
  ghost function Remediations(m: Matrix, t: Tables, found: seq<Violation>, n: nat): seq<Remediation>
    requires n <= |found| && forall v :: v in found ==> IsPrincipal(t, v.pid)
  {
    if n == 0 then []
    else Remediations(m, t, found, n - 1) +
         match found[n - 1]
         case ForbiddenPermission(pid, _) => AssignmentRemediations(m, EntryFor(t, pid), |EntryFor(t, pid).assignments|)
         case UnprovisionedGrants(_, _) => [RevokedUnprovisioned]
  }

  lemma {:induction false} GoneMembers(m: Matrix, pid: Uuid, e: Entry, n: nat)
    requires n <= |e.assignments|
    ensures forall row :: row in GoneRoles(m, pid, e, n) <==>
              row.pid == pid && exists i ::
                0 <= i < n && e.assignments[i].RoleAssignment? && e.assignments[i].role == row.role &&
                Bad(m, e.plane, e.assignments[i].perm)
    ensures forall row :: row in GoneGrants(m, pid, e, n) <==>
              row.pid == pid && exists i ::
                0 <= i < n && e.assignments[i] == DirectAssignment(row.perm) && Bad(m, e.plane, row.perm)
  {
    if n > 0 {
      GoneMembers(m, pid, e, n - 1);
    }
  }

  ghost predicate GoneFor(m: Matrix, t: Tables, v: Violation, e: Entry, row: GrantRow) {
    match v
    case ForbiddenPermission(pid, _) => row in GoneGrants(m, pid, e, |e.assignments|)
    case UnprovisionedGrants(pid, _) => row in t.grants && row.pid == pid
  }

  lemma {:induction false} AllGoneMembers(m: Matrix, t: Tables, found: seq<Violation>, assignments: map<Uuid,
          Entry>, n: nat)
    requires n <= |found| && forall v :: v in found ==> v.pid in assignments
    ensures forall row :: row in AllGoneRoles(m, found, assignments, n) <==>
              exists i :: 0 <= i < n && found[i].ForbiddenPermission? &&
                          row in GoneRoles(m, found[i].pid, assignments[found[i].pid],
                              |assignments[found[i].pid].assignments|)
    ensures forall row :: row in AllGoneGrants(m, t, found, assignments, n) <==>
              exists i :: 0 <= i < n && GoneFor(m, t, found[i], assignments[found[i].pid], row)
  {
    if n > 0 {
      AllGoneMembers(m, t, found, assignments, n - 1);
    }
  }

  /** A role row is bad exactly when its principal's entry has a bad role assignment for it, on a restricted plane. */
  lemma BadRoleInEntry(m: Matrix, t: Tables, p: Principal, row: RoleRow)
    requires Keyed(t) && p in t.principals && row in t.roles && row.pid == p.id
    ensures BadRole(m, t, row) <==>
            IsRestricted(m, p.plane) && row in GoneRoles(m, p.id, EntryOf(t, p), |EntryOf(t, p).assignments|)
    ensures BadRole(m, t, row) ==> exists perm :: ForbiddenFor(m, t, p, perm)
  {
    var e := EntryOf(t, p);
    EntryMeans(t, p);
    GoneMembers(m, p.id, e, |e.assignments|);
    assert row == RoleRow(p.id, row.role);
    if BadRole(m, t, row) {
      var q, rp :| q in t.principals && rp in t.rolePermissions && q.id == row.pid && rp.role == row.role &&
                   IsRestricted(m, q.plane) && Bad(m, q.plane, rp.perm);
      assert q == p;
      assert rp == RolePermission(row.role, rp.perm);
      assert HoldsByRole(t, p.id, row.role, rp.perm);
      assert RoleAssignment(row.role, rp.perm) in e.assignments;
      assert ForbiddenFor(m, t, p, rp.perm);
    }
    if IsRestricted(m, p.plane) && row in GoneRoles(m, p.id, e, |e.assignments|) {
      var i :| 0 <= i < |e.assignments| && e.assignments[i].RoleAssignment? && e.assignments[i].role == row.role &&
               Bad(m, e.plane, e.assignments[i].perm);
      assert e.assignments[i] in e.assignments;
      assert AssignmentHolds(t, p.id, e.assignments[i]);
      assert RolePermission(row.role, e.assignments[i].perm) in t.rolePermissions;
    }
  }

  lemma BadGrantInEntry(m: Matrix, t: Tables, p: Principal, row: GrantRow)
    requires Keyed(t) && p in t.principals && row in t.grants && row.pid == p.id
    ensures BadGrant(m, t, row) <==>
            IsRestricted(m, p.plane) && row in GoneGrants(m, p.id, EntryOf(t, p), |EntryOf(t, p).assignments|)
    ensures BadGrant(m, t, row) ==> exists perm :: ForbiddenFor(m, t, p, perm)
  {
    var e := EntryOf(t, p);
    EntryMeans(t, p);
    GoneMembers(m, p.id, e, |e.assignments|);
    assert row == GrantRow(p.id, row.perm);
    assert AssignmentHolds(t, p.id, DirectAssignment(row.perm));
    assert DirectAssignment(row.perm) in e.assignments;
    if BadGrant(m, t, row) {
      assert ForbiddenFor(m, t, p, row.perm);
    }
  }

  /** The rows the loops delete are those the sweep revokes. */
  lemma GoneIsRevoked(m: Matrix, t: Tables, assignments: map<Uuid, Entry>)
    requires Keyed(t) && Grouped(t, assignments)
    requires forall v :: v in Violations(m, t) ==> v.pid in assignments
    ensures Without(t.roles, AllGoneRoles(m, Violations(m, t), assignments, |Violations(m, t)|)) == Sweep(m, t).roles
    ensures Without(t.grants, AllGoneGrants(m, t, Violations(m, t), assignments, |Violations(m, t)|)) ==
            Sweep(m, t).grants
  {
    var found := Violations(m, t);
    var goneRoles := AllGoneRoles(m, found, assignments, |found|);
    var goneGrants := AllGoneGrants(m, t, found, assignments, |found|);
    AllGoneMembers(m, t, found, assignments, |found|);
    forall row | row in t.roles ensures row in goneRoles <==> row in RevokedRoles(m, t) {
      RoleGoneIffRevoked(m, t, assignments, row);
    }
    forall row | row in t.grants ensures row in goneGrants <==> row in RevokedGrants(m, t) {
      GrantGoneIffRevoked(m, t, assignments, row);
    }
    WithoutAgree(t.roles, goneRoles, RevokedRoles(m, t));
    WithoutAgree(t.grants, goneGrants, RevokedGrants(m, t));
  }

  lemma RoleGoneIffRevoked(m: Matrix, t: Tables, assignments: map<Uuid, Entry>, row: RoleRow)
    requires Keyed(t) && Grouped(t, assignments) && row in t.roles
    requires forall v :: v in Violations(m, t) ==> v.pid in assignments
    ensures row in AllGoneRoles(m, Violations(m, t), assignments, |Violations(m, t)|) <==> BadRole(m, t, row)
  {
    var found := Violations(m, t);
    AllGoneMembers(m, t, found, assignments, |found|);
    ViolationsMean(m, t);
    assert IsPrincipal(t, row.pid);
    var p :| p in t.principals && p.id == row.pid;
    var e := EntryOf(t, p);
    BadRoleInEntry(m, t, p, row);
    if BadRole(m, t, row) {
      var perm :| ForbiddenFor(m, t, p, perm);
      assert ForbiddenPermission(p.id, perm) in found;
      var i :| 0 <= i < |found| && found[i] == ForbiddenPermission(p.id, perm);
      assert row in GoneRoles(m, found[i].pid, assignments[found[i].pid], |assignments[found[i].pid].assignments|);
    }
    if i :| 0 <= i < |found| && found[i].ForbiddenPermission? &&
            row in GoneRoles(m, found[i].pid, assignments[found[i].pid], |assignments[found[i].pid].assignments|) {
      GoneMembers(m, found[i].pid, assignments[found[i].pid], |assignments[found[i].pid].assignments|);
      assert found[i] in found && found[i] == ForbiddenPermission(p.id, found[i].perm);
      var q :| q in t.principals && q.id == p.id && ForbiddenFor(m, t, q, found[i].perm);
      assert q == p;
    }
  }

  lemma GrantGoneIffRevoked(m: Matrix, t: Tables, assignments: map<Uuid, Entry>, row: GrantRow)
    requires Keyed(t) && Grouped(t, assignments) && row in t.grants
    requires forall v :: v in Violations(m, t) ==> v.pid in assignments
    ensures row in AllGoneGrants(m, t, Violations(m, t), assignments, |Violations(m, t)|) <==>
            BadGrant(m, t, row) || !HasRole(t, row.pid)
  {
    var found := Violations(m, t);
    AllGoneMembers(m, t, found, assignments, |found|);
    ViolationsMean(m, t);
    assert IsPrincipal(t, row.pid);
    var p :| p in t.principals && p.id == row.pid;
    var e := EntryOf(t, p);
    BadGrantInEntry(m, t, p, row);
    if BadGrant(m, t, row) {
      var perm :| ForbiddenFor(m, t, p, perm);
      assert ForbiddenPermission(p.id, perm) in found;
      var i :| 0 <= i < |found| && found[i] == ForbiddenPermission(p.id, perm);
      assert GoneFor(m, t, found[i], assignments[found[i].pid], row);
    } else if !HasRole(t, row.pid) {
      assert HasGrant(t, p.id);
      var v := UnprovisionedGrants(p.id, |e.directGrants|);
      assert v in found;
      var i :| 0 <= i < |found| && found[i] == v;
      assert GoneFor(m, t, found[i], assignments[found[i].pid], row);
    }
    if i :| 0 <= i < |found| && GoneFor(m, t, found[i], assignments[found[i].pid], row) {
      assert found[i] in found;
      match found[i] {
        case ForbiddenPermission(pid, perm) =>
          GoneMembers(m, pid, assignments[pid], |assignments[pid].assignments|);
          var q :| q in t.principals && q.id == pid && ForbiddenFor(m, t, q, perm);
          assert q == p;
        case UnprovisionedGrants(pid, count) =>
          assert !HasRole(t, pid);
      }
    }
  }

  lemma ViolatorsArePrincipals(m: Matrix, t: Tables)
    ensures forall v :: v in Violations(m, t) ==> IsPrincipal(t, v.pid)
  {
    ViolationsMean(m, t);
    forall v | v in Violations(m, t) ensures IsPrincipal(t, v.pid) {
      match v {
        case ForbiddenPermission(pid, perm) =>
        case UnprovisionedGrants(pid, count) =>
          assert IsPrincipal(t, pid);
      }
    }
  }

  datatype Report = Report(violations: seq<Violation>, remediations: seq<Remediation>, alerted: bool)

  /** One sweep. The store ends as Sweep says, and every violation found at the start is reported. */
  method ReconcileAndRemediate(store: RbacStore, m: Matrix) returns (report: Report)
    requires Keyed(store.Contents())
    modifies store`roles, store`grants
    ensures store.Contents() == Sweep(m, old(store.Contents()))
    ensures report.violations == Violations(m, old(store.Contents()))
    ensures (forall v :: v in report.violations ==> IsPrincipal(old(store.Contents()), v.pid)) &&
            report.remediations == Remediations(m, old(store.Contents()), report.violations, |report.violations|)
    ensures report.alerted <==> report.violations != []
    ensures store.Contents() == old(store.Contents()) <==> !report.alerted
  {
    var t := store.Contents();
    var assignments := Group(t);
    var found := DetectViolations(m, t, assignments);
    var done := [];
    ViolatorsArePrincipals(m, t);
    WithoutNothing(t.roles, {});
    WithoutNothing(t.grants, {});
    for i := 0 to |found|
      invariant store.roles == Without(t.roles, AllGoneRoles(m, found, assignments, i))
      invariant store.grants == Without(t.grants, AllGoneGrants(m, t, found, assignments, i))
      invariant done == Remediations(m, t, found, i)
    {
      ghost var goneRoles, goneGrants := AllGoneRoles(m, found, assignments, i),
          AllGoneGrants(m, t, found, assignments, i);
      match found[i] {
        case ForbiddenPermission(pid, _) =>
          var e := assignments[pid];
          var revoked := RevokeBad(store, m, pid, e);
          done := done + revoked;
          WithoutTwice(t.roles, goneRoles, GoneRoles(m, pid, e, |e.assignments|));
          WithoutTwice(t.grants, goneGrants, GoneGrants(m, pid, e, |e.assignments|));
        case UnprovisionedGrants(pid, _) =>
          ghost var held := set row | row in t.grants && row.pid == pid;
          ghost var left := set row | row in store.grants && row.pid == pid;
          WithoutMembers(t.grants, goneGrants);
          WithoutAgree(store.grants, left, held);
          store.DeleteGrantsOf(pid);
          WithoutTwice(t.grants, goneGrants, held);
          done := done + [RevokedUnprovisioned];
      }
    }
    GoneIsRevoked(m, t, assignments);
    SweepFixedIffClean(m, t);
    report := Report(found, done, found != []);
  }
}
