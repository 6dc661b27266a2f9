/**
 * The `user_roles` table that the team handlers read and change, the guard
 * chain they share (authorization header, signed-in user, role check), and
 * the two mutations they issue: deleting the row with a given id and setting
 * the role of the row with a given id.
 *
 * The table is a snapshot held in memory; `id` is its primary key, so no two
 * rows share one. A handler's request is modelled by its fields: the
 * authorization header (`None` when absent), the user the auth service
 * resolves it to (`None` on an error or no user) and the body's fields.
 */
module TeamRoles {
  import opened Wrappers
  import opened Text
  import opened Seqs

  datatype Role = Reader | Editor | Admin

  /** One row of `user_roles`. */
  datatype RoleRow = RoleRow(id: string, userId: string, role: Role)

  /**
   * A local date and time as `new Date()` gives it: a calendar day number and
   * the milliseconds into that day.
   */
  datatype LocalTime = LocalTime(day: int, millis: nat)

  /** One row of `team_invitations` as the invitation handler inserts it. */
  datatype Invitation = Invitation(
    email: string,
    role: Role,
    message: Option<string>,
    token: string,
    invitedBy: string,
    expiresAt: LocalTime)

  const Ok: int := 200
  const BadRequest: int := 400
  const Unauthorized: int := 401
  const Forbidden: int := 403
  const ServerError: int := 500

  /** `id` is the primary key. */
  predicate UniqueIds(rows: seq<RoleRow>) {
    forall i, j :: 0 <= i < j < |rows| ==> rows[i].id != rows[j].id
  }

  /** Some row holds the admin role. */
  predicate HasAdmin(rows: seq<RoleRow>) {
    exists i :: 0 <= i < |rows| && rows[i].role == Admin
  }

  // ---------------------------------------------------------------------------
  // Queries

  /** The rows `.eq("user_id", user).eq("role", "admin")` selects. */
  function AdminRowsOf(rows: seq<RoleRow>, user: string): (r: seq<RoleRow>)
    ensures forall row :: row in r <==> row in rows && row.userId == user && row.role == Admin
  {
    Filter(rows, (row: RoleRow) => row.userId == user && row.role == Admin)
  }

  /**
   * The admin check: `.maybeSingle()` yields the row when exactly one row
   * matches and an error when several do, so the check passes exactly when
   * the caller holds one admin row.
   */
  predicate PassesAdminCheck(rows: seq<RoleRow>, user: string) {
    |AdminRowsOf(rows, user)| == 1
  }

  /** A caller who passes the admin check holds an admin row. */
  lemma AdminCheckRow(rows: seq<RoleRow>, user: string) returns (i: nat)
    requires PassesAdminCheck(rows, user)
    ensures i < |rows| && rows[i].userId == user && rows[i].role == Admin
  {
    var row := AdminRowsOf(rows, user)[0];
    assert row in AdminRowsOf(rows, user);
    i :| 0 <= i < |rows| && rows[i] == row;
  }

  /**
   * `.eq("id", id).single()`: the row with that id, or `null` when there is
   * none. `single` also fails on several matching rows, which the primary key
   * rules out, so the first match is the only one.
   */
  function RowWithId(rows: seq<RoleRow>, id: string): (r: Option<RoleRow>)
    ensures r.Some? ==> r.value in rows && r.value.id == id
    ensures r.None? ==> forall i :: 0 <= i < |rows| ==> rows[i].id != id
  {
    if |rows| == 0 then None
    else if rows[0].id == id then Some(rows[0])
    else RowWithId(rows[1..], id)
  }

  /** The admin rows of the whole table (`.select("id").eq("role", "admin")`). */
  function AdminRows(rows: seq<RoleRow>): (r: seq<RoleRow>)
    ensures forall row :: row in r <==> row in rows && row.role == Admin
  {
    Filter(rows, (row: RoleRow) => row.role == Admin)
  }

  /**
   * The guard chain of the admin-only handlers: 401 without an authorization
   * header, 401 when no user signs in with it, 403 when the role query fails
   * (`roleQueryOk` false, the `roleError` case) or the user does not pass the
   * admin check, and no answer (go on) otherwise.
   */
  function AdminGate(rows: seq<RoleRow>, authHeader: Option<string>, user: Option<string>, roleQueryOk: bool): (r: Option<int>)
    ensures r == Some(Unauthorized) <==> !Truthy(authHeader) || user.None?
    ensures r == Some(Forbidden) <==>
              Truthy(authHeader) && user.Some? && (!roleQueryOk || !PassesAdminCheck(rows, user.value))
    ensures r.None? <==> Truthy(authHeader) && user.Some? && roleQueryOk && PassesAdminCheck(rows, user.value)
  {
    if !Truthy(authHeader) then Some(Unauthorized)
    else if user.None? then Some(Unauthorized)
    else if !roleQueryOk || !PassesAdminCheck(rows, user.value) then Some(Forbidden)
    else None
  }

  // ---------------------------------------------------------------------------
  // Mutations

  /** The table after `.delete().eq("id", id)`. */
  function WithoutId(rows: seq<RoleRow>, id: string): (r: seq<RoleRow>)
    ensures forall row :: row in r <==> row in rows && row.id != id
  {
    Filter(rows, (row: RoleRow) => row.id != id)
  }

  /** The table after `.update({ role }).eq("id", id)`: only the role of the rows with that id changes. */
  function WithRole(rows: seq<RoleRow>, id: string, role: Role): (r: seq<RoleRow>)
    ensures |r| == |rows|
    ensures forall i :: 0 <= i < |rows| ==> r[i].id == rows[i].id && r[i].userId == rows[i].userId
    ensures forall i :: 0 <= i < |rows| && rows[i].id != id ==> r[i] == rows[i]
    ensures forall i :: 0 <= i < |rows| && rows[i].id == id ==> r[i].role == role
  {
    seq(|rows|, i requires 0 <= i < |rows| => if rows[i].id == id then rows[i].(role := role) else rows[i])
  }

  /** The `user_roles` table. */
  class UserRolesTable {
    var rows: seq<RoleRow>

    predicate Valid()
      reads this
    {
      UniqueIds(rows)
    }

    constructor (initial: seq<RoleRow>)
      requires UniqueIds(initial)
      ensures rows == initial && Valid()
    {
      rows := initial;
    }

    /** `.delete().eq("id", id)`: removes the row with that id, if any. */
    method DeleteById(id: string)
      requires Valid()
      modifies this
      ensures rows == WithoutId(old(rows), id) && Valid()
    {
      WithoutIdUnique(rows, id);
      rows := WithoutId(rows, id);
    }

    /** `.update({ role }).eq("id", id)`: sets the role of the row with that id. */
    method SetRoleById(id: string, role: Role)
      requires Valid()
      modifies this
      ensures rows == WithRole(old(rows), id, role) && Valid()
    {
      rows := WithRole(rows, id, role);
    }
  }

  /** Deleting rows keeps the ids unique. */
  lemma {:induction false} WithoutIdUnique(rows: seq<RoleRow>, id: string)
    requires UniqueIds(rows)
    ensures UniqueIds(WithoutId(rows, id))
  {
    if |rows| > 0 {
      WithoutIdUnique(rows[1..], id);
      var rest := WithoutId(rows[1..], id);
      assert WithoutId(rows, id) == if rows[0].id != id then [rows[0]] + rest else rest;
      forall row | row in rest
        ensures row.id != rows[0].id
      {
        var k :| 0 <= k < |rows[1..]| && rows[1..][k] == row;
        assert rows[k + 1] == row;
      }
    }
  }

  /**
   * Deleting a row that is not one of `user`'s leaves `user`'s admin row, so
   * an admin remains.
   */
  lemma DeleteKeepsAdmin(rows: seq<RoleRow>, user: string, id: string)
    requires PassesAdminCheck(rows, user)
    requires forall i :: 0 <= i < |rows| && rows[i].id == id ==> rows[i].userId != user
    ensures HasAdmin(WithoutId(rows, id))
  {
    var i := AdminCheckRow(rows, user);
    var after := WithoutId(rows, id);
    assert rows[i] in after;
    var k :| 0 <= k < |after| && after[k] == rows[i];
  }

  /**
   * Setting a role keeps an admin when the row of `user`'s admin role is
   * either not the one changed or keeps the admin role.
   */
  lemma SetRoleKeepsAdmin(rows: seq<RoleRow>, user: string, id: string, role: Role)
    requires PassesAdminCheck(rows, user)
    requires forall i :: 0 <= i < |rows| && rows[i].id == id && rows[i].userId == user && rows[i].role == Admin ==> role == Admin
    ensures HasAdmin(WithRole(rows, id, role))
  {
    var i := AdminCheckRow(rows, user);
    assert WithRole(rows, id, role)[i].role == Admin;
  }
}
