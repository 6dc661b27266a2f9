/**
 * The `send-team-invitation` handler: the admin guard chain, the email and
 * role checks, the invitation row inserted into `team_invitations` with an
 * expiry seven days on, and the invitation email: an error it returns is
 * only logged, while a call that throws reaches the handler's `catch`,
 * which answers 500 with the row already inserted.
 *
 * The token and the clock are parameters; the email's text is not modelled.
 */
module SendTeamInvitation {
  import opened Wrappers
  import opened Text
  import opened TeamRoles

  /** How many days an invitation stays valid. */
  const ValidDays: int := 7

  /** `expiresAt.setDate(expiresAt.getDate() + days)`: the same local time, `days` calendar days later. */
  function DaysLater(t: LocalTime, days: int): (r: LocalTime)
    ensures r.day - t.day == days && r.millis == t.millis
  {
    LocalTime(t.day + days, t.millis)
  }

  /** The `team_invitations` table. */
  class InvitationsTable {
    var rows: seq<Invitation>

    constructor (initial: seq<Invitation>)
      ensures rows == initial
    {
      rows := initial;
    }

    /** `.insert(invitation)`. */
    method Insert(invitation: Invitation)
      modifies this
      ensures rows == old(rows) + [invitation]
    {
      rows := rows + [invitation];
    }
  }

  /**
   * Handles an invitation request by the caller `user` against the role
   * table `roles`. `token` and `now` stand for `crypto.randomUUID()` and
   * `new Date()`; `roleQueryOk` and `insertOk` are the outcomes of the
   * caller's role query and of the insert; `emailThrows` says whether
   * `resend.emails.send` throws. An error the email call returns is only
   * logged, so it is not a parameter. Returns the status and whether an
   * email was attempted.
   */
  method Handle(roles: seq<RoleRow>, invitations: InvitationsTable, authHeader: Option<string>, user: Option<string>, roleQueryOk: bool,
                email: Option<string>, role: Option<Role>, message: Option<string>,
                token: string, now: LocalTime, insertOk: bool, emailThrows: bool)
    returns (status: int, emailAttempted: bool)
    modifies invitations
    ensures var gate := AdminGate(roles, authHeader, user, roleQueryOk);
            gate.Some? ==> status == gate.value
    ensures AdminGate(roles, authHeader, user, roleQueryOk).None? && (!Truthy(email) || role.None?) ==> status == BadRequest
    ensures AdminGate(roles, authHeader, user, roleQueryOk).None? && Truthy(email) && role.Some? ==>
              status == (if insertOk && !emailThrows then Ok else ServerError)
    ensures emailAttempted <==>
              AdminGate(roles, authHeader, user, roleQueryOk).None? && Truthy(email) && role.Some? && insertOk
    ensures status == Ok ==> emailAttempted
    ensures emailAttempted ==>
              invitations.rows == old(invitations.rows)
                                  + [Invitation(email.value, role.value, message, token, user.value, DaysLater(now, ValidDays))]
    ensures !emailAttempted ==> invitations.rows == old(invitations.rows)
  {
    emailAttempted := false;
    var gate := AdminGate(roles, authHeader, user, roleQueryOk);
    if gate.Some? {
      return gate.value, false;
    }
    if !Truthy(email) || role.None? {
      return BadRequest, false;
    }
    var expiresAt := DaysLater(now, ValidDays);
    var invitation := Invitation(email.value, role.value, message, token, user.value, expiresAt);
    if !insertOk {
      return ServerError, false;
    }
    invitations.Insert(invitation);
    emailAttempted := true;
    status := if emailThrows then ServerError else Ok;
  }
}
