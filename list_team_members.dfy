/**
 * The `list-team-members` handler: the guard chain that admits admins and
 * editors, the members fetch, and the pending invitations that only an
 * admin receives. It changes nothing.
 */
module ListTeamMembers {
  import opened Wrappers
  import opened Seqs
  import opened Text
  import opened TeamRoles

  /** The response: a refusal or failure with its status, or the 200 listing. */
  datatype ListResponse =
    | Refused(status: int)
    | Listed(members: seq<RoleRow>, invitations: seq<Invitation>)

  /** The caller's rows that `.in("role", ["admin", "editor"])` selects. */
  function ViewerRows(rows: seq<RoleRow>, user: string): (r: seq<RoleRow>)
    ensures forall row :: row in r <==> row in rows && row.userId == user && row.role != Reader
  {
    Filter(rows, (row: RoleRow) => row.userId == user && (row.role == Admin || row.role == Editor))
  }

  /** `roles.some(r => r.role === "admin")`. */
  predicate IsAdminViewer(viewer: seq<RoleRow>) {
    exists i :: 0 <= i < |viewer| && viewer[i].role == Admin
  }

  /**
   * Handles a listing request against the table `rows`. `rolesOk` and
   * `membersOk` are the outcomes of the caller's role query and of the
   * members fetch; `pending` is the result of the pending
   * invitations fetch (`None` when it fails), used only for an admin.
   */
  function Handle(rows: seq<RoleRow>, authHeader: Option<string>, user: Option<string>,
                  rolesOk: bool, membersOk: bool, pending: Option<seq<Invitation>>): (r: ListResponse)
    ensures r == Refused(Unauthorized) <==> !Truthy(authHeader) || user.None?
    ensures r == Refused(Forbidden) <==>
              Truthy(authHeader) && user.Some?
              && (!rolesOk || forall row :: row in rows && row.userId == user.value ==> row.role == Reader)
    ensures r == Refused(ServerError) <==>
              Truthy(authHeader) && user.Some? && rolesOk && (exists row :: row in rows && row.userId == user.value && row.role != Reader)
              && !membersOk
    ensures r.Listed? <==>
              Truthy(authHeader) && user.Some? && rolesOk
              && (exists row :: row in rows && row.userId == user.value && row.role != Reader)
              && membersOk
    ensures r.Listed? ==> r.members == rows
    ensures r.Listed? && r.invitations != [] ==> exists row :: row in rows && row.userId == user.value && row.role == Admin
    ensures r.Listed? && (exists row :: row in rows && row.userId == user.value && row.role == Admin) ==>
              r.invitations == pending.GetOr([])
  {
    if !Truthy(authHeader) || user.None? then Refused(Unauthorized)
    else
      var viewer := ViewerRows(rows, user.value);
      ViewerRowsIff(rows, user.value);
      if !rolesOk || |viewer| == 0 then Refused(Forbidden)
      else if !membersOk then Refused(ServerError)
      else
        var invitations := if IsAdminViewer(viewer) then pending.GetOr([]) else [];
        Listed(rows, invitations)
  }

  /** The caller's viewer rows are empty exactly when the caller only reads, and hold an admin row exactly when the caller is an admin. */
  lemma ViewerRowsIff(rows: seq<RoleRow>, user: string)
    ensures |ViewerRows(rows, user)| == 0 <==> forall row :: row in rows && row.userId == user ==> row.role == Reader
    ensures IsAdminViewer(ViewerRows(rows, user)) <==> exists row :: row in rows && row.userId == user && row.role == Admin
  {
    var viewer := ViewerRows(rows, user);
    if |viewer| > 0 {
      assert viewer[0] in viewer;
    }
    if exists row :: row in rows && row.userId == user && row.role == Admin {
      var row :| row in rows && row.userId == user && row.role == Admin;
      assert row in viewer;
      var i :| 0 <= i < |viewer| && viewer[i] == row;
    }
    if IsAdminViewer(viewer) {
      var i :| 0 <= i < |viewer| && viewer[i].role == Admin;
      assert viewer[i] in viewer;
    }
  }

  /** A failed invitations fetch still lists the members, with no invitations. */
  lemma FailedInvitationsFetch(rows: seq<RoleRow>, authHeader: Option<string>, user: Option<string>)
    requires Truthy(authHeader) && user.Some?
    requires exists row :: row in rows && row.userId == user.value && row.role != Reader
    ensures Handle(rows, authHeader, user, true, true, None) == Listed(rows, [])
  {
  }
}
