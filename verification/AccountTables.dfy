/** The account tables and the statements run on them. A table is the sequence of its rows; an insert
    fails on a row that violates a uniqueness or reference constraint. */
module AccountTables {
  import opened Wrappers
  import opened SessionModel

  type ID = string

  const NIL: ID := "00000000-0000-0000-0000-000000000000"

  const PASSWORD := "password"
  const ADMIN := "admin"
  const MEMBER := "member"

  datatype User = User(id: ID, email: string, displayName: string, verified: bool, disabled: bool)

  datatype Account = Account(id: ID, userID: ID, provider: string, providerAccountID: string, passwordHash: string)

  datatype Organization = Organization(id: ID, name: string, slug: string)

  datatype Role = Role(id: ID, organizationID: ID, key: string)

  datatype Grant = Grant(roleID: ID, permission: string)

  datatype Member = Member(id: ID, organizationID: ID, userID: ID, role: string)

  datatype Status = Pending | Accepted

  datatype Invitation = Invitation(
    id: ID, organizationID: ID, email: string, role: string, status: Status,
    tokenHash: TokenHash, expiresAt: Time, invitedBy: ID, acceptedAt: Option<Time>)

  datatype Tables = Tables(
    users: seq<User>, accounts: seq<Account>, organizations: seq<Organization>, roles: seq<Role>, grants: seq<Grant>,
    members: seq<Member>, invitations: seq<Invitation>)

  const EMPTY_TABLES := Tables([], [], [], [], [], [], [])

  // ---- rows in general ----

  /** The first row of a kind. */
  function Find<T>(rows: seq<T>, p: T -> bool): (r: Option<T>)
    ensures r.Some? ==> r.value in rows && p(r.value)
    ensures r.None? <==> forall i :: 0 <= i < |rows| ==> !p(rows[i])
  {
    if rows == [] then None else if p(rows[0]) then Some(rows[0]) else Find(rows[1..], p)
  }

  /** The rows of a kind changed, the others as they were. */
  function Update<T>(rows: seq<T>, p: T -> bool, f: T -> T): (r: seq<T>)
    ensures |r| == |rows|
    ensures forall i :: 0 <= i < |rows| ==> r[i] == if p(rows[i]) then f(rows[i]) else rows[i]
  {
    seq(|rows|, i requires 0 <= i < |rows| => if p(rows[i]) then f(rows[i]) else rows[i])
  }

  /** The table with one more row, unless an old row clashes with it. */
  function Insert<T>(rows: seq<T>, row: T, clash: T -> bool): (r: Option<seq<T>>)
    ensures r.None? <==> exists i :: 0 <= i < |rows| && clash(rows[i])
    ensures r.Some? ==> r.value == rows + [row]
  {
    if Find(rows, clash).Some? then None else Some(rows + [row])
  }

  // ---- which rows ----

  function LiveWithEmail(email: string): User -> bool {
    (u: User) => u.email == email && !u.disabled
  }

  function UserIs(id: ID): User -> bool {
    (u: User) => u.id == id
  }

  function PasswordOf(userID: ID): Account -> bool {
    (a: Account) => a.userID == userID && a.provider == PASSWORD
  }

  function OrganizationIs(id: ID): Organization -> bool {
    (o: Organization) => o.id == id
  }

  function RoleIs(id: ID): Role -> bool {
    (r: Role) => r.id == id
  }

  function Belongs(userID: ID, organizationID: ID): Member -> bool {
    (m: Member) => m.userID == userID && m.organizationID == organizationID
  }

  function HasToken(h: TokenHash): Invitation -> bool {
    (i: Invitation) => i.tokenHash == h
  }

  function IsPending(organizationID: ID, email: string): Invitation -> bool {
    (i: Invitation) =>
      i.organizationID == organizationID && i.email == email && i.status == Pending && i.acceptedAt.None?
  }

  function PendingWithID(id: ID): Invitation -> bool {
    (i: Invitation) => i.id == id && i.status == Pending && i.acceptedAt.None?
  }

  // ---- which rows may not be there yet ----

  function UserClash(u: User): User -> bool {
    (v: User) => v.id == u.id || v.email == u.email
  }

  function AccountClash(a: Account): Account -> bool {
    (b: Account) =>
      b.id == a.id || (b.provider == a.provider && (b.providerAccountID == a.providerAccountID || b.userID == a.userID))
  }

  function OrganizationClash(o: Organization): Organization -> bool {
    (p: Organization) => p.id == o.id || p.slug == o.slug
  }

  function RoleClash(r: Role): Role -> bool {
    (s: Role) => s.id == r.id || (s.organizationID == r.organizationID && s.key == r.key)
  }

  function GrantClash(g: Grant): Grant -> bool {
    (h: Grant) => h == g
  }

  function MemberClash(m: Member): Member -> bool {
    (n: Member) => n.id == m.id || (n.organizationID == m.organizationID && n.userID == m.userID)
  }

  function InvitationClash(i: Invitation): Invitation -> bool {
    (j: Invitation) => j.id == i.id || j.tokenHash == i.tokenHash
  }

  // ---- statements ----

  datatype Failure =
    | NotConfigured | Unauthenticated | Forbidden | AlreadyInvited | SetupCompleted | InvalidInvitation
    | StoreFailed | MailFailed | EventFailed | SessionFailed

  function InsertUser(t: Tables, u: User): Result<Tables, Failure> {
    match Insert(t.users, u, UserClash(u))
    case None => Err(StoreFailed)
    case Some(rows) => Ok(t.(users := rows))
  }

  function InsertAccount(t: Tables, a: Account): Result<Tables, Failure> {
    if Find(t.users, UserIs(a.userID)).None? then Err(StoreFailed) else
    match Insert(t.accounts, a, AccountClash(a))
    case None => Err(StoreFailed)
    case Some(rows) => Ok(t.(accounts := rows))
  }

  function InsertOrganization(t: Tables, o: Organization): Result<Tables, Failure> {
    match Insert(t.organizations, o, OrganizationClash(o))
    case None => Err(StoreFailed)
    case Some(rows) => Ok(t.(organizations := rows))
  }

  function InsertRole(t: Tables, r: Role): Result<Tables, Failure> {
    if Find(t.organizations, OrganizationIs(r.organizationID)).None? then Err(StoreFailed) else
    match Insert(t.roles, r, RoleClash(r))
    case None => Err(StoreFailed)
    case Some(rows) => Ok(t.(roles := rows))
  }

  function InsertGrant(t: Tables, g: Grant): Result<Tables, Failure> {
    if Find(t.roles, RoleIs(g.roleID)).None? then Err(StoreFailed) else
    match Insert(t.grants, g, GrantClash(g))
    case None => Err(StoreFailed)
    case Some(rows) => Ok(t.(grants := rows))
  }

  function InsertMember(t: Tables, m: Member): Result<Tables, Failure> {
    if Find(t.organizations, OrganizationIs(m.organizationID)).None? || Find(t.users, UserIs(m.userID)).None? then
      Err(StoreFailed)
    else
    match Insert(t.members, m, MemberClash(m))
    case None => Err(StoreFailed)
    case Some(rows) => Ok(t.(members := rows))
  }

  function InsertInvitation(t: Tables, i: Invitation): Result<Tables, Failure> {
    if Find(t.organizations, OrganizationIs(i.organizationID)).None? || Find(t.users, UserIs(i.invitedBy)).None? then
      Err(StoreFailed)
    else
    match Insert(t.invitations, i, InvitationClash(i))
    case None => Err(StoreFailed)
    case Some(rows) => Ok(t.(invitations := rows))
  }

  function FindUserByEmail(t: Tables, email: string): Option<User> {
    Find(t.users, LiveWithEmail(email))
  }

  /** The membership, joined with its organization. */
  predicate BelongsTo(t: Tables, userID: ID, organizationID: ID) {
    && Find(t.organizations, OrganizationIs(organizationID)).Some?
    && Find(t.members, Belongs(userID, organizationID)).Some?
  }

  function VerifyEmail(t: Tables, id: ID): Tables {
    t.(users := Update(t.users, UserIs(id), (u: User) => u.(verified := true)))
  }

  function UpdatePasswordHash(t: Tables, userID: ID, hash: string): Tables {
    t.(accounts := Update(t.accounts, PasswordOf(userID), (a: Account) => a.(passwordHash := hash)))
  }

  function ConsumeInvitation(t: Tables, id: ID, now: Time): Tables {
    t.(invitations := Update(t.invitations, PendingWithID(id),
                             (i: Invitation) => i.(status := Accepted, acceptedAt := Some(now))))
  }

  /** Nothing in the program sets `disabled_at`; an administrator of the database may. */
  function DisableUser(t: Tables, id: ID): Tables {
    t.(users := Update(t.users, UserIs(id), (u: User) => u.(disabled := true)))
  }
}
