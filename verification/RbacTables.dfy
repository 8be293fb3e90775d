/**
 * The role and grant tables that the reconciliation sweep reads and deletes
 * from, and what grouping, detection and one whole sweep yield as functions of
 * those tables.
 */
module RbacTables {
  import opened Rbac

  // ----- The tables -----

  type Uuid = nat

  datatype Principal = Principal(id: Uuid, plane: string, subject: string)
  datatype RoleRow = RoleRow(pid: Uuid, role: Uuid)
  datatype RolePermission = RolePermission(role: Uuid, perm: string)
  datatype GrantRow = GrantRow(pid: Uuid, perm: string)

  datatype Tables = Tables(
    principals: seq<Principal>,
    roles: seq<RoleRow>,
    rolePermissions: seq<RolePermission>,
    grants: seq<GrantRow>)

  /** Principal ids are a primary key, and role and grant rows refer to principals. */
  ghost predicate Keyed(t: Tables) {
    && (forall i, j :: 0 <= i < j < |t.principals| ==> t.principals[i].id != t.principals[j].id)
    && (forall row :: row in t.roles ==> IsPrincipal(t, row.pid))
    && (forall row :: row in t.grants ==> IsPrincipal(t, row.pid))
  }

  ghost predicate IsPrincipal(t: Tables, pid: Uuid) {
    exists p :: p in t.principals && p.id == pid
  }

  /** The rows that are not in gone, in their order: the effect of DELETE. */
  function Without<T(==)>(rows: seq<T>, gone: set<T>): seq<T> {
    if rows == [] then []
    else (if rows[0] in gone then [] else [rows[0]]) + Without(rows[1..], gone)
  }

  lemma {:induction false} WithoutTwice<T(!new)>(rows: seq<T>, a: set<T>, b: set<T>)
    ensures Without(Without(rows, a), b) == Without(rows, a + b)
  {
    if rows != [] {
      WithoutTwice(rows[1..], a, b);
      var rest := Without(rows[1..], a);
      if rows[0] in a {
        assert Without(rows, a) == rest;
      } else {
        assert Without(rows, a) == [rows[0]] + rest;
        assert ([rows[0]] + rest)[1..] == rest;
      }
    }
  }

  lemma {:induction false} WithoutMembers<T(!new)>(rows: seq<T>, gone: set<T>)
    ensures forall row :: row in Without(rows, gone) <==> row in rows && row !in gone
    ensures |Without(rows, gone)| <= |rows|
  {
    if rows != [] {
      WithoutMembers(rows[1..], gone);
      assert rows == [rows[0]] + rows[1..];
    }
  }

  lemma {:induction false} WithoutAgree<T(!new)>(rows: seq<T>, a: set<T>, b: set<T>)
    requires forall row :: row in rows ==> (row in a <==> row in b)
    ensures Without(rows, a) == Without(rows, b)
  {
    if rows != [] {
      WithoutAgree(rows[1..], a, b);
    }
  }

  lemma {:induction false} WithoutStrangers<T(!new)>(rows: seq<T>, gone: set<T>)
    requires forall row :: row in rows ==> row !in gone
    ensures Without(rows, gone) == rows
  {
    if rows != [] {
      WithoutStrangers(rows[1..], gone);
      assert rows[0] in rows && rows == [rows[0]] + rows[1..];
    }
  }

  lemma WithoutNothing<T(!new)>(rows: seq<T>, gone: set<T>)
    ensures Without(rows, gone) == rows <==> forall row :: row in rows ==> row !in gone
  {
    WithoutMembers(rows, gone);
    if forall row :: row in rows ==> row !in gone {
      WithoutStrangers(rows, gone);
    }
  }

  // ----- Grouping -----

  datatype JoinRow = JoinRow(pid: Uuid, perm: string, role: Uuid)
  datatype Assignment = RoleAssignment(role: Uuid, perm: string) | DirectAssignment(perm: string)

  datatype Entry = Entry(
    plane: string,
    subject: string,
    rolePermissions: seq<string>,
    directGrants: seq<string>,
    roleCount: nat,
    assignments: seq<Assignment>)

  /** The join of one role row with the first n role permissions. */
  function JoinRole(row: RoleRow, perms: seq<RolePermission>, n: nat): seq<JoinRow>
    requires n <= |perms|
  {
    if n == 0 then []
    else JoinRole(row, perms, n - 1) +
         (if perms[n - 1].role == row.role then [JoinRow(row.pid, perms[n - 1].perm, row.role)] else [])
  }

  /** The rows of principal_roles JOIN role_permissions. */
  function JoinedRows(roles: seq<RoleRow>, perms: seq<RolePermission>): seq<JoinRow> {
    if roles == [] then [] else JoinRole(roles[0], perms, |perms|) + JoinedRows(roles[1..], perms)
  }

  /** COUNT(DISTINCT role_id) counts these. */
  function RolesOf(t: Tables, pid: Uuid): set<Uuid> {
    set row | row in t.roles && row.pid == pid :: row.role
  }

  function RolePermissions(joined: seq<JoinRow>, pid: Uuid, n: nat): seq<string>
    requires n <= |joined|
  {
    if n == 0 then []
    else RolePermissions(joined, pid, n - 1) + (if joined[n - 1].pid == pid then [joined[n - 1].perm] else [])
  }

  function RoleAssignments(joined: seq<JoinRow>, pid: Uuid, n: nat): seq<Assignment>
    requires n <= |joined|
  {
    if n == 0 then []
    else RoleAssignments(joined, pid, n - 1) +
         (if joined[n - 1].pid == pid then [RoleAssignment(joined[n - 1].role, joined[n - 1].perm)] else [])
  }

  function DirectGrants(grants: seq<GrantRow>, pid: Uuid, n: nat): seq<string>
    requires n <= |grants|
  {
    if n == 0 then []
    else DirectGrants(grants, pid, n - 1) + (if grants[n - 1].pid == pid then [grants[n - 1].perm] else [])
  }

  function DirectAssignments(grants: seq<GrantRow>, pid: Uuid, n: nat): seq<Assignment>
    requires n <= |grants|
  {
    if n == 0 then []
    else DirectAssignments(grants, pid, n - 1) +
         (if grants[n - 1].pid == pid then [DirectAssignment(grants[n - 1].perm)] else [])
  }

  /** The entry of one principal once the first r joined rows and g grant rows are grouped. */
  function EntryUpTo(t: Tables, p: Principal, joined: seq<JoinRow>, r: nat, g: nat): Entry
    requires r <= |joined| && g <= |t.grants|
  {
    Entry(p.plane, p.subject, RolePermissions(joined, p.id, r), DirectGrants(t.grants, p.id, g), |RolesOf(t, p.id)|,
          RoleAssignments(joined, p.id, r) + DirectAssignments(t.grants, p.id, g))
  }

  function EntryOf(t: Tables, p: Principal): Entry {
    var joined := JoinedRows(t.roles, t.rolePermissions);
    EntryUpTo(t, p, joined, |joined|, |t.grants|)
  }

  // ----- Detection -----

  datatype Violation =
    | ForbiddenPermission(pid: Uuid, perm: string)
    | UnprovisionedGrants(pid: Uuid, count: nat)

  /** One violation for each of the first n patterns that perm overlaps. */
  function PatternViolations(pid: Uuid, perm: string, patterns: seq<string>, n: nat): seq<Violation>
    requires n <= |patterns|
  {
    if n == 0 then []
    else PatternViolations(pid, perm, patterns, n - 1) +
         (if Overlaps(perm, patterns[n - 1]) then [ForbiddenPermission(pid, perm)] else [])
  }

  function PermViolations(m: Matrix, pid: Uuid, plane: string, perm: string): seq<Violation>
  {
    if perm == "*" then [ForbiddenPermission(pid, perm)]
    else PatternViolations(pid, perm, ForbiddenPatterns(m, plane), |ForbiddenPatterns(m, plane)|)
  }

  function EffectiveViolations(m: Matrix, pid: Uuid, plane: string, effective: seq<string>, n: nat): seq<Violation>
    requires n <= |effective|
  {
    if n == 0 then []
    else EffectiveViolations(m, pid, plane, effective, n - 1) + PermViolations(m, pid, plane, effective[n - 1])
  }

  function EntryViolations(m: Matrix, pid: Uuid, e: Entry): seq<Violation> {
    var effective := e.rolePermissions + e.directGrants;
    (if IsRestricted(m, e.plane) then EffectiveViolations(m, pid, e.plane, effective, |effective|) else []) +
    (if e.roleCount == 0 && e.directGrants != [] then [UnprovisionedGrants(pid, |e.directGrants|)] else [])
  }

  /** What detect_violations returns once it has seen the first n principals. */
  function ViolationsUpTo(m: Matrix, t: Tables, n: nat): seq<Violation>
    requires n <= |t.principals|
  {
    if n == 0 then []
    else ViolationsUpTo(m, t, n - 1) + EntryViolations(m, t.principals[n - 1].id, EntryOf(t, t.principals[n - 1]))
  }

  function Violations(m: Matrix, t: Tables): seq<Violation> { ViolationsUpTo(m, t, |t.principals|) }

  // ----- The sweep as a function of the tables -----

  ghost predicate HoldsByRole(t: Tables, pid: Uuid, role: Uuid, perm: string) {
    RoleRow(pid, role) in t.roles && RolePermission(role, perm) in t.rolePermissions
  }

  /** The principal holds perm, through a role or by a direct grant. */
  ghost predicate Holds(t: Tables, pid: Uuid, perm: string) {
    GrantRow(pid, perm) in t.grants || exists role :: HoldsByRole(t, pid, role, perm)
  }

  ghost predicate HasRole(t: Tables, pid: Uuid) {
    exists row :: row in t.roles && row.pid == pid
  }

  ghost predicate HasGrant(t: Tables, pid: Uuid) {
    exists row :: row in t.grants && row.pid == pid
  }

  /** Some permission of this role row is forbidden on the principal's restricted plane. */
  ghost predicate BadRole(m: Matrix, t: Tables, row: RoleRow) {
    exists p, rp :: p in t.principals && rp in t.rolePermissions && p.id == row.pid && rp.role == row.role &&
                    IsRestricted(m, p.plane) && Bad(m, p.plane, rp.perm)
  }

  ghost predicate BadGrant(m: Matrix, t: Tables, row: GrantRow) {
    exists p :: p in t.principals && p.id == row.pid && IsRestricted(m, p.plane) && Bad(m, p.plane, row.perm)
  }

  ghost function RevokedRoles(m: Matrix, t: Tables): set<RoleRow> {
    set row | row in t.roles && BadRole(m, t, row)
  }

  ghost function RevokedGrants(m: Matrix, t: Tables): set<GrantRow> {
    set row | row in t.grants && (BadGrant(m, t, row) || !HasRole(t, row.pid))
  }

  ghost function Sweep(m: Matrix, t: Tables): Tables {
    t.(roles := Without(t.roles, RevokedRoles(m, t)), grants := Without(t.grants, RevokedGrants(m, t)))
  }
}
