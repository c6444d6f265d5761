/** First-user setup, invitations and their acceptance, as what each does to the tables when no call
    fails. Class AccountsService.Service performs them call by call inside transactions. */
module Accounts {
  import opened Wrappers
  import opened SessionModel
  import opened AccountTables

  // ---- permissions ----

  const AUDIT_LOGS_READ := "audit.logs.read"
  const AUTH_INVITATIONS_CREATE := "auth.invitations.create"
  const AUTH_ROLES_MANAGE := "auth.roles.manage"

  const BUILT_IN_ROLES: seq<string> := [ADMIN, MEMBER]

  function DefaultRolePermissions(role: string): seq<string> {
    if role == ADMIN then [AUDIT_LOGS_READ, AUTH_INVITATIONS_CREATE, AUTH_ROLES_MANAGE] else []
  }

  // ---- first-user setup ----

  datatype NewOwner = NewOwner(
    id: ID, accountID: ID, organizationID: ID, memberID: ID, adminRoleID: ID, memberRoleID: ID,
    email: string, displayName: string, passwordHash: string, organizationName: string, organizationSlug: string)
  {
    function RoleID(role: string): ID {
      if role == ADMIN then adminRoleID else memberRoleID
    }
  }

  function InsertGrants(t: Tables, roleID: ID, permissions: seq<string>): Result<Tables, Failure>
    decreases |permissions|
  {
    if permissions == [] then Ok(t) else
    var t' :- InsertGrant(t, Grant(roleID, permissions[0]));
    InsertGrants(t', roleID, permissions[1..])
  }

  function InsertRoles(t: Tables, owner: NewOwner, roles: seq<string>): Result<Tables, Failure>
    decreases |roles|
  {
    if roles == [] then Ok(t) else
    var t1 :- InsertRole(t, Role(owner.RoleID(roles[0]), owner.organizationID, roles[0]));
    var t2 :- InsertGrants(t1, owner.RoleID(roles[0]), DefaultRolePermissions(roles[0]));
    InsertRoles(t2, owner, roles[1..])
  }

  function CreateFirstUser(t: Tables, owner: NewOwner): Result<Tables, Failure> {
    if |t.users| > 0 then Err(SetupCompleted) else
    var t1 :- InsertUser(t, User(owner.id, owner.email, owner.displayName, true, false));
    var t2 :- InsertAccount(t1, Account(owner.accountID, owner.id, PASSWORD, owner.email, owner.passwordHash));
    var t3 :- InsertOrganization(
      t2, Organization(owner.organizationID, owner.organizationName, owner.organizationSlug));
    var t4 :- InsertRoles(t3, owner, BUILT_IN_ROLES);
    InsertMember(t4, Member(owner.memberID, owner.organizationID, owner.id, ADMIN))
  }

  // ---- inviting ----

  datatype Inviter = Inviter(userID: ID, organizationID: ID, permissions: seq<string>)

  datatype NewInvitation = NewInvitation(id: ID, email: string, role: string, tokenHash: TokenHash)

  /** An invitation is refused before anything is written, or written as a pending row. */
  function CreateInvitation(t: Tables, configured: bool, inviter: Option<Inviter>, invitation: NewInvitation,
                            now: Time, lifetime: Time): Result<Tables, Failure>
  {
    if !configured then Err(NotConfigured)
    else if inviter.None? then Err(Unauthenticated)
    else if AUTH_INVITATIONS_CREATE !in inviter.value.permissions then Err(Forbidden)
    else
      var organizationID := inviter.value.organizationID;
      var user := FindUserByEmail(t, invitation.email);
      if user.Some? && user.value.id != NIL && BelongsTo(t, user.value.id, organizationID) then Err(AlreadyInvited)
      else
        var pending := Find(t.invitations, IsPending(organizationID, invitation.email));
        if pending.Some? && pending.value.id != NIL then Err(AlreadyInvited)
        else
          InsertInvitation(t, Invitation(invitation.id, organizationID, invitation.email, invitation.role, Pending,
                                         invitation.tokenHash, now + lifetime, inviter.value.userID, None))
  }

  // ---- accepting ----

  datatype NewIDs = NewIDs(user: ID, account: ID, member: ID)

  /** The live user of that email, verified from now on; or a new one. */
  function EnsureUser(t: Tables, email: string, displayName: string, id: ID): Result<(Tables, ID), Failure> {
    match FindUserByEmail(t, email)
    case Some(u) =>
      if u.id == NIL then Err(InvalidInvitation) else Ok((if u.verified then t else VerifyEmail(t, u.id), u.id))
    case None =>
      var t' :- InsertUser(t, User(id, email, if displayName == "" then email else displayName, true, false));
      Ok((t', id))
  }

  function EnsurePassword(t: Tables, userID: ID, email: string, hash: string, id: ID): Result<Tables, Failure> {
    if Find(t.accounts, PasswordOf(userID)).Some? then Ok(UpdatePasswordHash(t, userID, hash))
    else InsertAccount(t, Account(id, userID, PASSWORD, email, hash))
  }

  function EnsureMember(t: Tables, userID: ID, organizationID: ID, role: string, id: ID): Result<Tables, Failure> {
    if BelongsTo(t, userID, organizationID) then Ok(t)
    else InsertMember(t, Member(id, organizationID, userID, role))
  }

  /** An invitation that may still be accepted: pending, and its expiry not passed. */
  predicate Open(i: Invitation, now: Time) {
    i.id != NIL && i.status == Pending && i.acceptedAt.None? && now <= i.expiresAt
  }

  function AcceptWith(t: Tables, userID: ID, i: Invitation, now: Time, ids: NewIDs): Result<(Tables, ID), Failure> {
    var t' :- EnsureMember(t, userID, i.organizationID, i.role, ids.member);
    Ok((ConsumeInvitation(t', i.id, now), userID))
  }

  function AcceptAs(t: Tables, userID: ID, i: Invitation, hash: string, now: Time, ids: NewIDs)
    : Result<(Tables, ID), Failure>
  {
    var t' :- EnsurePassword(t, userID, i.email, hash, ids.account);
    AcceptWith(t', userID, i, now, ids)
  }

  function AcceptOpen(t: Tables, i: Invitation, displayName: string, hash: string, now: Time, ids: NewIDs)
    : Result<(Tables, ID), Failure>
  {
    var (t', userID) :- EnsureUser(t, i.email, displayName, ids.user);
    AcceptAs(t', userID, i, hash, now, ids)
  }

  function AcceptInvitation(t: Tables, h: TokenHash, displayName: string, hash: string, now: Time, ids: NewIDs)
    : Result<(Tables, ID), Failure>
  {
    match Find(t.invitations, HasToken(h))
    case None => Err(InvalidInvitation)
    case Some(i) => if !Open(i, now) then Err(InvalidInvitation) else AcceptOpen(t, i, displayName, hash, now, ids)
  }
}
