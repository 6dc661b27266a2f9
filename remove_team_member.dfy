/**
 * The `remove-team-member` handler: the admin guard chain, the `memberId`
 * check, the refusal to remove one's own row or the last admin's row, and
 * the deletion of the row with id `memberId`.
 */
module RemoveTeamMember {
  import opened Wrappers
  import opened Text
  import opened TeamRoles

  /** The row found for `memberId` is the caller's own. */
  predicate IsSelfRemoval(target: Option<RoleRow>, user: string) {
    target.Some? && target.value.userId == user
  }

  /**
   * The last-admin rule: the table holds at most one admin row and the row
   * found for `memberId` is an admin row.
   */
  predicate IsLastAdmin(rows: seq<RoleRow>, target: Option<RoleRow>) {
    target.Some? && |AdminRows(rows)| <= 1 && target.value.role == Admin
  }

  /**
   * Handles a removal request against `table`; `roleQueryOk` and `deleteOk`
   * are the outcomes of the caller's role query and of the delete. Returns the response status. Every refusal and every failure
   * leaves the table as it was; a success deletes exactly the row with id
   * `memberId` (nothing when there is none) and leaves an admin in the table.
   */
  method Handle(table: UserRolesTable, authHeader: Option<string>, user: Option<string>, roleQueryOk: bool,
                memberId: Option<string>, deleteOk: bool) returns (status: int)
    requires table.Valid()
    modifies table
    ensures table.Valid()
    ensures var gate := AdminGate(old(table.rows), authHeader, user, roleQueryOk);
            gate.Some? ==> status == gate.value
    ensures AdminGate(old(table.rows), authHeader, user, roleQueryOk).None? && !Truthy(memberId) ==> status == BadRequest
    ensures AdminGate(old(table.rows), authHeader, user, roleQueryOk).None? && Truthy(memberId) ==>
              var target := RowWithId(old(table.rows), memberId.value);
              (IsSelfRemoval(target, user.value) ==> status == BadRequest)
              && (!IsSelfRemoval(target, user.value) && IsLastAdmin(old(table.rows), target) ==> status == BadRequest)
              && (!IsSelfRemoval(target, user.value) && !IsLastAdmin(old(table.rows), target) ==>
                    status == (if deleteOk then Ok else ServerError))
    ensures status == Ok ==> table.rows == WithoutId(old(table.rows), memberId.value) && HasAdmin(table.rows)
    ensures status != Ok ==> table.rows == old(table.rows)
  {
    var gate := AdminGate(table.rows, authHeader, user, roleQueryOk);
    if gate.Some? {
      return gate.value;
    }
    if !Truthy(memberId) {
      return BadRequest;
    }
    var target := RowWithId(table.rows, memberId.value);
    if IsSelfRemoval(target, user.value) {
      return BadRequest;
    }
    if target.Some? {
      var admins := AdminRows(table.rows);
      if |admins| <= 1 && target.value.role == Admin {
        return BadRequest;
      }
    }
    if !deleteOk {
      return ServerError;
    }
    TargetNotCallers(table.rows, user.value, memberId.value);
    DeleteKeepsAdmin(table.rows, user.value, memberId.value);
    table.DeleteById(memberId.value);
    status := Ok;
  }

  /** When the row `.single()` finds is not the caller's, no row with that id is. */
  lemma TargetNotCallers(rows: seq<RoleRow>, user: string, id: string)
    requires UniqueIds(rows)
    requires RowWithId(rows, id).None? || RowWithId(rows, id).value.userId != user
    ensures forall i :: 0 <= i < |rows| && rows[i].id == id ==> rows[i].userId != user
  {
    var target := RowWithId(rows, id);
    if target.Some? {
      forall i | 0 <= i < |rows| && rows[i].id == id
        ensures rows[i].userId != user
      {
        var j :| 0 <= j < |rows| && rows[j] == target.value;
        assert i == j;
      }
    }
  }
}
