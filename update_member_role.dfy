/**
 * The `update-member-role` handler: the admin guard chain, the `memberId` and
 * `newRole` checks, the refusal of an admin's demotion of their own admin
 * row, and the update of the role of the row with id `memberId`.
 */
module UpdateMemberRole {
  import opened Wrappers
  import opened Text
  import opened TeamRoles

  /** The self-demotion rule: the target row is the caller's admin row and the new role is not admin. */
  predicate IsSelfDemotion(target: Option<RoleRow>, user: string, newRole: Role) {
    target.Some? && target.value.userId == user && target.value.role == Admin && newRole != Admin
  }

  /**
   * Handles a role change against `table`; `roleQueryOk` and `updateOk` are
   * the outcomes of the caller's role query and of the update. Returns the response status. A refusal or a failure leaves the
   * table as it was, and so does an id no row has (`.single()` then fails
   * with 500); a success changes only the role of the row with id
   * `memberId`, and an admin remains.
   */
  method Handle(table: UserRolesTable, authHeader: Option<string>, user: Option<string>, roleQueryOk: bool,
                memberId: Option<string>, newRole: Option<Role>, updateOk: bool) returns (status: int)
    requires table.Valid()
    modifies table
    ensures table.Valid()
    ensures var gate := AdminGate(old(table.rows), authHeader, user, roleQueryOk);
            gate.Some? ==> status == gate.value
    ensures AdminGate(old(table.rows), authHeader, user, roleQueryOk).None? && (!Truthy(memberId) || newRole.None?) ==>
              status == BadRequest
    ensures AdminGate(old(table.rows), authHeader, user, roleQueryOk).None? && Truthy(memberId) && newRole.Some? ==>
              var target := RowWithId(old(table.rows), memberId.value);
              (IsSelfDemotion(target, user.value, newRole.value) ==> status == BadRequest)
              && (!IsSelfDemotion(target, user.value, newRole.value) ==>
                    status == (if updateOk && target.Some? then Ok else ServerError))
    ensures status == Ok ==> table.rows == WithRole(old(table.rows), memberId.value, newRole.value) && HasAdmin(table.rows)
    ensures status != Ok ==> table.rows == old(table.rows)
  {
    var gate := AdminGate(table.rows, authHeader, user, roleQueryOk);
    if gate.Some? {
      return gate.value;
    }
    if !Truthy(memberId) || newRole.None? {
      return BadRequest;
    }
    var target := RowWithId(table.rows, memberId.value);
    if IsSelfDemotion(target, user.value, newRole.value) {
      return BadRequest;
    }
    if !updateOk {
      return ServerError;
    }
    NotSelfDemotion(table.rows, user.value, memberId.value, newRole.value);
    SetRoleKeepsAdmin(table.rows, user.value, memberId.value, newRole.value);
    table.SetRoleById(memberId.value, newRole.value);
    if target.None? {
      // no row was updated, so `.single()` reports an error
      return ServerError;
    }
    status := Ok;
  }

  /** Without a self-demotion, no row with that id is the caller's admin row losing the admin role. */
  lemma NotSelfDemotion(rows: seq<RoleRow>, user: string, id: string, role: Role)
    requires UniqueIds(rows)
    requires !IsSelfDemotion(RowWithId(rows, id), user, role)
    ensures forall i :: 0 <= i < |rows| && rows[i].id == id && rows[i].userId == user && rows[i].role == Admin ==>
              role == Admin
  {
    var target := RowWithId(rows, id);
    forall i | 0 <= i < |rows| && rows[i].id == id && rows[i].userId == user && rows[i].role == Admin
      ensures role == Admin
    {
      var j :| 0 <= j < |rows| && rows[j] == target.value;
      assert i == j;
    }
  }

  /** An update whose id no row has changes nothing. */
  lemma WithRoleMissing(rows: seq<RoleRow>, id: string, role: Role)
    requires forall i :: 0 <= i < |rows| ==> rows[i].id != id
    ensures WithRole(rows, id, role) == rows
  {
  }
}
