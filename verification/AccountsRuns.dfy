/** What every serial run of setup, invitation and acceptance keeps. */
module AccountsRuns {
  import opened Wrappers
  import opened SessionModel
  import opened AccountTables
  import opened Accounts

  datatype Step =
    | Setup(owner: NewOwner)
    | Invite(configured: bool, inviter: Option<Inviter>, invitation: NewInvitation, lifetime: Time,
             mailFails: bool, now: Time)
    | Accept(tokenHash: TokenHash, displayName: string, passwordHash: string, ids: NewIDs, now: Time)
    | Disable(userID: ID)

  /** The tables after a step, and whether the caller was told it succeeded. A failing mail leaves the
      invitation it was to announce. */
  function Apply(t: Tables, step: Step): (Tables, bool) {
    match step
    case Setup(owner) =>
      var r := CreateFirstUser(t, owner);
      if r.Ok? then (r.value, true) else (t, false)
    case Invite(configured, inviter, invitation, lifetime, mailFails, now) =>
      var r := CreateInvitation(t, configured, inviter, invitation, now, lifetime);
      if r.Ok? then (r.value, !mailFails) else (t, false)
    case Accept(h, displayName, hash, ids, now) =>
      var r := AcceptInvitation(t, h, displayName, hash, now, ids);
      if r.Ok? then (r.value.0, true) else (t, false)
    case Disable(id) => (DisableUser(t, id), true)
  }

  function After(t: Tables, steps: seq<Step>): Tables
    decreases |steps|
  {
    if steps == [] then t else After(Apply(t, steps[0]).0, steps[1..])
  }

  /** Generated IDs are never the nil one. */
  predicate Proper(step: Step) {
    match step
    case Setup(owner) => owner.id != NIL
    case Invite(_, _, invitation, _, _, _) => invitation.id != NIL
    case Accept(_, _, _, ids, _) => ids.user != NIL
    case Disable(_) => true
  }

  // ---- the invariant ----

  predicate UsersValid(users: seq<User>) {
    && (forall i :: 0 <= i < |users| ==> users[i].id != NIL)
    && forall i, j :: 0 <= i < j < |users| ==> users[i].id != users[j].id && users[i].email != users[j].email
  }

  /** Some user owns the account, under the email it is known by. */
  predicate Owned(users: seq<User>, a: Account) {
    exists u :: 0 <= u < |users| && users[u].id == a.userID
                && (a.provider == PASSWORD ==> users[u].email == a.providerAccountID)
  }

  predicate AccountsValid(users: seq<User>, accounts: seq<Account>) {
    && (forall i :: 0 <= i < |accounts| ==> Owned(users, accounts[i]))
    && forall i, j :: 0 <= i < j < |accounts| ==> !AccountClash(accounts[j])(accounts[i])
  }

  predicate HasUser(users: seq<User>, id: ID) {
    exists u :: 0 <= u < |users| && users[u].id == id
  }

  predicate HasOrganization(organizations: seq<Organization>, id: ID) {
    exists o :: 0 <= o < |organizations| && organizations[o].id == id
  }

  predicate HasRole(roles: seq<Role>, id: ID) {
    exists r :: 0 <= r < |roles| && roles[r].id == id
  }

  predicate OrganizationsValid(organizations: seq<Organization>) {
    forall i, j :: 0 <= i < j < |organizations| ==> !OrganizationClash(organizations[j])(organizations[i])
  }

  predicate RolesValid(organizations: seq<Organization>, roles: seq<Role>) {
    && (forall i :: 0 <= i < |roles| ==> HasOrganization(organizations, roles[i].organizationID))
    && forall i, j :: 0 <= i < j < |roles| ==> !RoleClash(roles[j])(roles[i])
  }

  predicate GrantsValid(roles: seq<Role>, grants: seq<Grant>) {
    && (forall i :: 0 <= i < |grants| ==> HasRole(roles, grants[i].roleID))
    && forall i, j :: 0 <= i < j < |grants| ==> grants[i] != grants[j]
  }

  predicate MembersValid(users: seq<User>, organizations: seq<Organization>, members: seq<Member>) {
    && (forall i :: 0 <= i < |members| ==>
          HasUser(users, members[i].userID) && HasOrganization(organizations, members[i].organizationID))
    && forall i, j :: 0 <= i < j < |members| ==> !MemberClash(members[j])(members[i])
  }

  predicate SamePending(i: Invitation, j: Invitation) {
    i.status == Pending && j.status == Pending && i.organizationID == j.organizationID && i.email == j.email
  }

  /** At most one invitation per organization and email is pending. */
  predicate InvitationsValid(users: seq<User>, organizations: seq<Organization>, invitations: seq<Invitation>) {
    && (forall i :: 0 <= i < |invitations| ==>
          && invitations[i].id != NIL && (invitations[i].status == Pending <==> invitations[i].acceptedAt.None?)
          && HasUser(users, invitations[i].invitedBy)
          && HasOrganization(organizations, invitations[i].organizationID))
    && forall i, j :: 0 <= i < j < |invitations| ==>
          !InvitationClash(invitations[j])(invitations[i]) && !SamePending(invitations[i], invitations[j])
  }

  predicate Inv(t: Tables) {
    && UsersValid(t.users) && AccountsValid(t.users, t.accounts)
    && OrganizationsValid(t.organizations) && RolesValid(t.organizations, t.roles) && GrantsValid(t.roles, t.grants)
    && MembersValid(t.users, t.organizations, t.members)
    && InvitationsValid(t.users, t.organizations, t.invitations)
    && (t.users == [] ==> t == EMPTY_TABLES)
  }

  /** The same users, perhaps with more after them: IDs and emails never change. */
  predicate Continues(users: seq<User>, users': seq<User>) {
    && |users| <= |users'|
    && forall i :: 0 <= i < |users| ==> users'[i].id == users[i].id && users'[i].email == users[i].email
  }

  lemma OwnedStays(users: seq<User>, users': seq<User>, accounts: seq<Account>)
    requires AccountsValid(users, accounts) && Continues(users, users')
    ensures AccountsValid(users', accounts)
  {
    forall i | 0 <= i < |accounts| ensures Owned(users', accounts[i]) {
      assert Owned(users, accounts[i]);
      var u :| 0 <= u < |users| && users[u].id == accounts[i].userID
               && (accounts[i].provider == PASSWORD ==> users[u].email == accounts[i].providerAccountID);
      assert users'[u].id == accounts[i].userID;
    }
  }

  lemma UserStays(users: seq<User>, users': seq<User>, id: ID)
    requires HasUser(users, id) && Continues(users, users')
    ensures HasUser(users', id)
  {
    var u :| 0 <= u < |users| && users[u].id == id;
    assert users'[u].id == id;
  }

  lemma OrganizationStays(organizations: seq<Organization>, organizations': seq<Organization>, id: ID)
    requires HasOrganization(organizations, id) && organizations <= organizations'
    ensures HasOrganization(organizations', id)
  {
    var o :| 0 <= o < |organizations| && organizations[o].id == id;
    assert organizations'[o].id == id;
  }

  lemma RoleStays(roles: seq<Role>, roles': seq<Role>, id: ID)
    requires HasRole(roles, id) && roles <= roles'
    ensures HasRole(roles', id)
  {
    var r :| 0 <= r < |roles| && roles[r].id == id;
    assert roles'[r].id == id;
  }

  lemma MembersStay(t: Tables, users: seq<User>, organizations: seq<Organization>)
    requires MembersValid(t.users, t.organizations, t.members)
    requires Continues(t.users, users) && t.organizations <= organizations
    ensures MembersValid(users, organizations, t.members)
  {
    forall i | 0 <= i < |t.members|
      ensures HasUser(users, t.members[i].userID) && HasOrganization(organizations, t.members[i].organizationID)
    {
      UserStays(t.users, users, t.members[i].userID);
      OrganizationStays(t.organizations, organizations, t.members[i].organizationID);
    }
  }

  lemma InvitationsStay(t: Tables, users: seq<User>, organizations: seq<Organization>)
    requires InvitationsValid(t.users, t.organizations, t.invitations)
    requires Continues(t.users, users) && t.organizations <= organizations
    ensures InvitationsValid(users, organizations, t.invitations)
  {
    forall i | 0 <= i < |t.invitations|
      ensures HasUser(users, t.invitations[i].invitedBy)
      ensures HasOrganization(organizations, t.invitations[i].organizationID)
    {
      UserStays(t.users, users, t.invitations[i].invitedBy);
      OrganizationStays(t.organizations, organizations, t.invitations[i].organizationID);
    }
  }

  /** Users who keep their IDs and emails keep what refers to them. */
  lemma UsersContinue(t: Tables, users: seq<User>)
    requires Inv(t) && Continues(t.users, users) && UsersValid(users) && (users == [] ==> t.users == [])
    ensures Inv(t.(users := users))
  {
    OwnedStays(t.users, users, t.accounts);
    MembersStay(t, users, t.organizations);
    InvitationsStay(t, users, t.organizations);
  }

  // ---- statements keep the invariant ----

  lemma InsertUserKeepsInv(t: Tables, u: User)
    requires Inv(t) && u.id != NIL && InsertUser(t, u).Ok?
    ensures Inv(InsertUser(t, u).value) && Continues(t.users, InsertUser(t, u).value.users)
  {
    UsersContinue(t, t.users + [u]);
  }

  lemma UserIn(t: Tables, id: ID) returns (u: nat)
    requires Find(t.users, UserIs(id)).Some?
    ensures u < |t.users| && t.users[u].id == id
  {
    u :| 0 <= u < |t.users| && t.users[u] == Find(t.users, UserIs(id)).value;
  }

  lemma InsertPasswordKeepsInv(t: Tables, a: Account)
    requires Inv(t) && InsertAccount(t, a).Ok?
    requires forall u :: 0 <= u < |t.users| && t.users[u].id == a.userID ==> t.users[u].email == a.providerAccountID
    ensures Inv(InsertAccount(t, a).value)
  {
    var u := UserIn(t, a.userID);
    assert Owned(t.users, a);
  }

  lemma OrganizationIn(t: Tables, id: ID)
    requires Find(t.organizations, OrganizationIs(id)).Some?
    ensures HasOrganization(t.organizations, id)
  {
    var o :| 0 <= o < |t.organizations| && t.organizations[o] == Find(t.organizations, OrganizationIs(id)).value;
  }

  lemma InsertOrganizationKeepsInv(t: Tables, o: Organization)
    requires Inv(t) && t.users != [] && InsertOrganization(t, o).Ok?
    ensures Inv(InsertOrganization(t, o).value)
  {
    var organizations := t.organizations + [o];
    forall i | 0 <= i < |t.roles| ensures HasOrganization(organizations, t.roles[i].organizationID) {
      OrganizationStays(t.organizations, organizations, t.roles[i].organizationID);
    }
    MembersStay(t, t.users, organizations);
    InvitationsStay(t, t.users, organizations);
  }

  lemma InsertRoleKeepsInv(t: Tables, r: Role)
    requires Inv(t) && t.users != [] && InsertRole(t, r).Ok?
    ensures Inv(InsertRole(t, r).value) && InsertRole(t, r).value == t.(roles := InsertRole(t, r).value.roles)
  {
    OrganizationIn(t, r.organizationID);
    forall i | 0 <= i < |t.grants| ensures HasRole(t.roles + [r], t.grants[i].roleID) {
      RoleStays(t.roles, t.roles + [r], t.grants[i].roleID);
    }
  }

  lemma InsertGrantKeepsInv(t: Tables, g: Grant)
    requires Inv(t) && t.users != [] && InsertGrant(t, g).Ok?
    ensures Inv(InsertGrant(t, g).value) && InsertGrant(t, g).value == t.(grants := InsertGrant(t, g).value.grants)
  {
    var r :| 0 <= r < |t.roles| && t.roles[r] == Find(t.roles, RoleIs(g.roleID)).value;
    assert HasRole(t.roles, g.roleID);
  }

  lemma {:induction false} InsertGrantsKeepsInv(t: Tables, roleID: ID, permissions: seq<string>)
    requires Inv(t) && t.users != [] && InsertGrants(t, roleID, permissions).Ok?
    ensures var t' := InsertGrants(t, roleID, permissions).value; Inv(t') && t' == t.(grants := t'.grants)
    decreases |permissions|
  {
    if permissions != [] {
      InsertGrantKeepsInv(t, Grant(roleID, permissions[0]));
      InsertGrantsKeepsInv(InsertGrant(t, Grant(roleID, permissions[0])).value, roleID, permissions[1..]);
    }
  }

  lemma {:induction false} InsertRolesKeepsInv(t: Tables, owner: NewOwner, roles: seq<string>)
    requires Inv(t) && t.users != [] && InsertRoles(t, owner, roles).Ok?
    ensures var t' := InsertRoles(t, owner, roles).value; Inv(t') && t' == t.(roles := t'.roles, grants := t'.grants)
    decreases |roles|
  {
    if roles != [] {
      var role := Role(owner.RoleID(roles[0]), owner.organizationID, roles[0]);
      var t1 := InsertRole(t, role).value;
      InsertRoleKeepsInv(t, role);
      InsertGrantsKeepsInv(t1, role.id, DefaultRolePermissions(roles[0]));
      InsertRolesKeepsInv(InsertGrants(t1, role.id, DefaultRolePermissions(roles[0])).value, owner, roles[1..]);
    }
  }

  lemma MemberAdded(t: Tables, m: Member)
    requires MembersValid(t.users, t.organizations, t.members)
    requires HasUser(t.users, m.userID) && HasOrganization(t.organizations, m.organizationID)
    requires forall j :: 0 <= j < |t.members| ==> !MemberClash(m)(t.members[j])
    ensures MembersValid(t.users, t.organizations, t.members + [m])
  {
  }

  lemma InsertMemberKeepsInv(t: Tables, m: Member)
    requires Inv(t) && InsertMember(t, m).Ok?
    ensures Inv(InsertMember(t, m).value) && InsertMember(t, m).value == t.(members := t.members + [m])
  {
    OrganizationIn(t, m.organizationID);
    var u := UserIn(t, m.userID);
    assert HasUser(t.users, m.userID);
    MemberAdded(t, m);
  }

  lemma SetupKeepsInv(t: Tables, owner: NewOwner)
    requires Inv(t) && owner.id != NIL && CreateFirstUser(t, owner).Ok?
    ensures var t' := CreateFirstUser(t, owner).value;
            && Inv(t') && t'.invitations == []
            && t'.users == [User(owner.id, owner.email, owner.displayName, true, false)]
            && t'.accounts == [Account(owner.accountID, owner.id, PASSWORD, owner.email, owner.passwordHash)]
  {
    var u := User(owner.id, owner.email, owner.displayName, true, false);
    var a := Account(owner.accountID, owner.id, PASSWORD, owner.email, owner.passwordHash);
    var o := Organization(owner.organizationID, owner.organizationName, owner.organizationSlug);
    var t1 := InsertUser(t, u).value;
    assert [] + [u] == [u] && [] + [a] == [a];
    InsertUserKeepsInv(t, u);
    var t2 := InsertAccount(t1, a).value;
    InsertPasswordKeepsInv(t1, a);
    var t3 := InsertOrganization(t2, o).value;
    InsertOrganizationKeepsInv(t2, o);
    InsertRolesKeepsInv(t3, owner, BUILT_IN_ROLES);
    InsertMemberKeepsInv(InsertRoles(t3, owner, BUILT_IN_ROLES).value,
                         Member(owner.memberID, owner.organizationID, owner.id, ADMIN));
  }

  lemma InvitationAdded(t: Tables, i: Invitation)
    requires InvitationsValid(t.users, t.organizations, t.invitations) && i.id != NIL
    requires i.status == Pending && i.acceptedAt.None?
    requires HasUser(t.users, i.invitedBy) && HasOrganization(t.organizations, i.organizationID)
    requires forall j :: 0 <= j < |t.invitations| ==>
               !InvitationClash(i)(t.invitations[j]) && !IsPending(i.organizationID, i.email)(t.invitations[j])
    ensures InvitationsValid(t.users, t.organizations, t.invitations + [i])
  {
  }

  lemma InsertInvitationKeepsInv(t: Tables, i: Invitation)
    requires Inv(t) && InsertInvitation(t, i).Ok? && i.id != NIL && i.status == Pending && i.acceptedAt.None?
    requires Find(t.invitations, IsPending(i.organizationID, i.email)).None?
    ensures Inv(InsertInvitation(t, i).value)
  {
    OrganizationIn(t, i.organizationID);
    var u := UserIn(t, i.invitedBy);
    assert HasUser(t.users, i.invitedBy);
    InvitationAdded(t, i);
  }

  lemma InviteKeepsInv(t: Tables, configured: bool, inviter: Option<Inviter>, invitation: NewInvitation,
                       now: Time, lifetime: Time)
    requires Inv(t) && invitation.id != NIL
    requires CreateInvitation(t, configured, inviter, invitation, now, lifetime).Ok?
    ensures Inv(CreateInvitation(t, configured, inviter, invitation, now, lifetime).value)
  {
    var organizationID := inviter.value.organizationID;
    assert forall j :: 0 <= j < |t.invitations| ==> t.invitations[j].id != NIL;
    InsertInvitationKeepsInv(t, Invitation(invitation.id, organizationID, invitation.email, invitation.role, Pending,
                                           invitation.tokenHash, now + lifetime, inviter.value.userID, None));
  }

  // ---- accepting keeps the invariant, and what it amounts to ----

  predicate HasEmail(users: seq<User>, id: ID, email: string) {
    exists u :: 0 <= u < |users| && users[u].id == id && users[u].email == email
  }

  lemma VerifyEmailKeepsInv(t: Tables, id: ID)
    requires Inv(t)
    ensures Inv(VerifyEmail(t, id)) && Continues(t.users, VerifyEmail(t, id).users)
  {
    UsersContinue(t, VerifyEmail(t, id).users);
  }

  lemma EnsureUserKeepsInv(t: Tables, email: string, displayName: string, id: ID)
    requires Inv(t) && id != NIL && EnsureUser(t, email, displayName, id).Ok?
    ensures var (t', userID) := EnsureUser(t, email, displayName, id).value;
            && Inv(t') && Continues(t.users, t'.users) && HasEmail(t'.users, userID, email)
            && t' == t.(users := t'.users)
  {
    match FindUserByEmail(t, email)
    case Some(u) =>
      var k :| 0 <= k < |t.users| && t.users[k] == u;
      VerifyEmailKeepsInv(t, u.id);
      assert VerifyEmail(t, u.id).users[k].id == u.id && t.users[k].email == email;
    case None =>
      var u := User(id, email, if displayName == "" then email else displayName, true, false);
      InsertUserKeepsInv(t, u);
      assert (t.users + [u])[|t.users|] == u;
  }

  lemma UpdatePasswordHashKeepsInv(t: Tables, userID: ID, hash: string)
    requires Inv(t)
    ensures Inv(UpdatePasswordHash(t, userID, hash))
  {
    var t' := UpdatePasswordHash(t, userID, hash);
    forall i | 0 <= i < |t'.accounts| ensures Owned(t'.users, t'.accounts[i]) {
      assert Owned(t.users, t.accounts[i]);
    }
  }

  lemma EmailIsItsOwn(t: Tables, userID: ID, email: string)
    requires Inv(t) && HasEmail(t.users, userID, email)
    ensures forall u :: 0 <= u < |t.users| ==> (t.users[u].id == userID <==> t.users[u].email == email)
  {
  }

  lemma EnsurePasswordKeepsInv(t: Tables, userID: ID, email: string, hash: string, id: ID)
    requires Inv(t) && HasEmail(t.users, userID, email) && EnsurePassword(t, userID, email, hash, id).Ok?
    ensures var t' := EnsurePassword(t, userID, email, hash, id).value;
            Inv(t') && t' == t.(accounts := t'.accounts)
  {
    EmailIsItsOwn(t, userID, email);
    if Find(t.accounts, PasswordOf(userID)).Some? {
      UpdatePasswordHashKeepsInv(t, userID, hash);
    } else {
      InsertPasswordKeepsInv(t, Account(id, userID, PASSWORD, email, hash));
    }
  }

  lemma EnsureMemberKeepsInv(t: Tables, userID: ID, organizationID: ID, role: string, id: ID)
    requires Inv(t) && EnsureMember(t, userID, organizationID, role, id).Ok?
    ensures var t' := EnsureMember(t, userID, organizationID, role, id).value;
            Inv(t') && t' == t.(members := t'.members)
  {
    if !BelongsTo(t, userID, organizationID) {
      InsertMemberKeepsInv(t, Member(id, organizationID, userID, role));
    }
  }

  lemma ConsumeKeepsInv(t: Tables, id: ID, now: Time)
    requires Inv(t)
    ensures Inv(ConsumeInvitation(t, id, now))
  {
    var t' := ConsumeInvitation(t, id, now);
    forall i | 0 <= i < |t'.invitations|
      ensures t'.invitations[i].organizationID == t.invitations[i].organizationID
      ensures t'.invitations[i].invitedBy == t.invitations[i].invitedBy
    {
    }
  }

  lemma AcceptKeepsInv(t: Tables, h: TokenHash, displayName: string, hash: string, now: Time, ids: NewIDs)
    requires Inv(t) && ids.user != NIL && AcceptInvitation(t, h, displayName, hash, now, ids).Ok?
    ensures Inv(AcceptInvitation(t, h, displayName, hash, now, ids).value.0)
  {
    var i := Find(t.invitations, HasToken(h)).value;
    var (t1, userID) := EnsureUser(t, i.email, displayName, ids.user).value;
    EnsureUserKeepsInv(t, i.email, displayName, ids.user);
    var t2 := EnsurePassword(t1, userID, i.email, hash, ids.account).value;
    EnsurePasswordKeepsInv(t1, userID, i.email, hash, ids.account);
    EnsureMemberKeepsInv(t2, userID, i.organizationID, i.role, ids.member);
    ConsumeKeepsInv(EnsureMember(t2, userID, i.organizationID, i.role, ids.member).value, i.id, now);
  }

  lemma DisableKeepsInv(t: Tables, id: ID)
    requires Inv(t)
    ensures Inv(DisableUser(t, id))
  {
    UsersContinue(t, DisableUser(t, id).users);
  }

  lemma StepKeepsInv(t: Tables, step: Step)
    requires Inv(t) && Proper(step)
    ensures Inv(Apply(t, step).0)
  {
    match step
    case Setup(owner) =>
      if CreateFirstUser(t, owner).Ok? {
        SetupKeepsInv(t, owner);
      }
    case Invite(configured, inviter, invitation, lifetime, _, now) =>
      if CreateInvitation(t, configured, inviter, invitation, now, lifetime).Ok? {
        InviteKeepsInv(t, configured, inviter, invitation, now, lifetime);
      }
    case Accept(h, displayName, hash, ids, now) =>
      if AcceptInvitation(t, h, displayName, hash, now, ids).Ok? {
        AcceptKeepsInv(t, h, displayName, hash, now, ids);
      }
    case Disable(id) => DisableKeepsInv(t, id);
  }

  lemma {:induction false} RunKeepsInv(t: Tables, steps: seq<Step>)
    requires Inv(t) && forall i :: 0 <= i < |steps| ==> Proper(steps[i])
    ensures Inv(After(t, steps))
    decreases |steps|
  {
    if steps != [] {
      StepKeepsInv(t, steps[0]);
      RunKeepsInv(Apply(t, steps[0]).0, steps[1..]);
    }
  }

  /** In every run: emails and token hashes are unique, a password account is known by its owner's
      email, and of the invitations of one organization to one email at most one is pending. */
  lemma RunsAreConsistent(steps: seq<Step>)
    requires forall i :: 0 <= i < |steps| ==> Proper(steps[i])
    ensures var t := After(EMPTY_TABLES, steps);
            && (forall a, u | 0 <= a < |t.accounts| && 0 <= u < |t.users| ::
                  t.accounts[a].provider == PASSWORD && t.users[u].id == t.accounts[a].userID ==>
                    t.users[u].email == t.accounts[a].providerAccountID)
            && (forall i, j | 0 <= i < |t.invitations| && 0 <= j < |t.invitations| ::
                  SamePending(t.invitations[i], t.invitations[j]) ==> i == j)
  {
    RunKeepsInv(EMPTY_TABLES, steps);
    var t := After(EMPTY_TABLES, steps);
    forall a | 0 <= a < |t.accounts| ensures Owned(t.users, t.accounts[a]) {
    }
  }

  /** The uniqueness constraints of the schema. */
  ghost predicate Unique(t: Tables) {
    && (forall i, j :: 0 <= i < j < |t.users| ==>
          t.users[i].id != t.users[j].id && t.users[i].email != t.users[j].email)
    && (forall i, j :: 0 <= i < j < |t.accounts| ==>
          && t.accounts[i].id != t.accounts[j].id
          && (t.accounts[i].provider, t.accounts[i].providerAccountID)
             != (t.accounts[j].provider, t.accounts[j].providerAccountID)
          && (t.accounts[i].userID, t.accounts[i].provider) != (t.accounts[j].userID, t.accounts[j].provider))
    && (forall i, j :: 0 <= i < j < |t.organizations| ==>
          t.organizations[i].id != t.organizations[j].id && t.organizations[i].slug != t.organizations[j].slug)
    && (forall i, j :: 0 <= i < j < |t.roles| ==>
          && t.roles[i].id != t.roles[j].id
          && (t.roles[i].organizationID, t.roles[i].key) != (t.roles[j].organizationID, t.roles[j].key))
    && (forall i, j :: 0 <= i < j < |t.grants| ==> t.grants[i] != t.grants[j])
    && (forall i, j :: 0 <= i < j < |t.members| ==>
          && t.members[i].id != t.members[j].id
          && (t.members[i].organizationID, t.members[i].userID) != (t.members[j].organizationID, t.members[j].userID))
    && (forall i, j :: 0 <= i < j < |t.invitations| ==>
          t.invitations[i].id != t.invitations[j].id && t.invitations[i].tokenHash != t.invitations[j].tokenHash)
  }

  /** And its references. */
  ghost predicate Referring(t: Tables) {
    && (forall i :: 0 <= i < |t.accounts| ==> HasUser(t.users, t.accounts[i].userID))
    && (forall i :: 0 <= i < |t.roles| ==> HasOrganization(t.organizations, t.roles[i].organizationID))
    && (forall i :: 0 <= i < |t.grants| ==> HasRole(t.roles, t.grants[i].roleID))
    && (forall i :: 0 <= i < |t.members| ==>
          HasUser(t.users, t.members[i].userID) && HasOrganization(t.organizations, t.members[i].organizationID))
    && (forall i :: 0 <= i < |t.invitations| ==>
          && HasUser(t.users, t.invitations[i].invitedBy)
          && HasOrganization(t.organizations, t.invitations[i].organizationID))
  }

  lemma InvIsUnique(t: Tables)
    requires Inv(t)
    ensures Unique(t)
  {
  }

  lemma InvRefers(t: Tables)
    requires Inv(t)
    ensures Referring(t)
  {
    forall i | 0 <= i < |t.accounts| ensures HasUser(t.users, t.accounts[i].userID) {
      assert Owned(t.users, t.accounts[i]);
    }
  }

  lemma {:induction false} RunMeetsConstraints(t: Tables, steps: seq<Step>)
    requires Inv(t) && forall i :: 0 <= i < |steps| ==> Proper(steps[i])
    ensures Unique(After(t, steps)) && Referring(After(t, steps))
    decreases |steps|
  {
    if steps == [] {
      InvIsUnique(t);
      InvRefers(t);
    } else {
      StepKeepsInv(t, steps[0]);
      RunMeetsConstraints(Apply(t, steps[0]).0, steps[1..]);
    }
  }

  /** In every run the tables meet the constraints of the schema: no two rows share what is unique, and
      whatever a row refers to is there. */
  lemma RunsMeetConstraints(steps: seq<Step>)
    requires forall i :: 0 <= i < |steps| ==> Proper(steps[i])
    ensures Unique(After(EMPTY_TABLES, steps)) && Referring(After(EMPTY_TABLES, steps))
  {
    RunMeetsConstraints(EMPTY_TABLES, steps);
  }

  // ---- setup succeeds exactly on empty tables ----

  lemma {:induction false} GrantsIn(t: Tables, roleID: ID, permissions: seq<string>)
    requires Find(t.roles, RoleIs(roleID)).Some?
    requires forall i, j :: 0 <= i < j < |permissions| ==> permissions[i] != permissions[j]
    requires forall i, j :: 0 <= i < |permissions| && 0 <= j < |t.grants| ==>
               t.grants[j] != Grant(roleID, permissions[i])
    ensures InsertGrants(t, roleID, permissions).Ok?
    ensures InsertGrants(t, roleID, permissions).value ==
              t.(grants := t.grants + seq(|permissions|,
                   i requires 0 <= i < |permissions| => Grant(roleID, permissions[i])))
    decreases |permissions|
  {
    if permissions != [] {
      GrantsIn(t.(grants := t.grants + [Grant(roleID, permissions[0])]), roleID, permissions[1..]);
    }
  }

  function AdminGrants(roleID: ID): seq<Grant> {
    [Grant(roleID, AUDIT_LOGS_READ), Grant(roleID, AUTH_INVITATIONS_CREATE), Grant(roleID, AUTH_ROLES_MANAGE)]
  }

  lemma FirstSetupRoles(t: Tables, owner: NewOwner)
    requires t.roles == [] && t.grants == [] && owner.adminRoleID != owner.memberRoleID
    requires Find(t.organizations, OrganizationIs(owner.organizationID)).Some?
    ensures InsertRoles(t, owner, BUILT_IN_ROLES) ==
              Ok(t.(roles := [Role(owner.adminRoleID, owner.organizationID, ADMIN),
                              Role(owner.memberRoleID, owner.organizationID, MEMBER)],
                    grants := AdminGrants(owner.adminRoleID)))
  {
    var admin, member := Role(owner.adminRoleID, owner.organizationID, ADMIN),
                         Role(owner.memberRoleID, owner.organizationID, MEMBER);
    var t1 := t.(roles := [admin]);
    assert t.roles + [admin] == [admin] && InsertRole(t, admin) == Ok(t1);
    assert t1.roles[0] == admin;
    GrantsIn(t1, owner.adminRoleID, DefaultRolePermissions(ADMIN));
    var t2 := InsertGrants(t1, owner.adminRoleID, DefaultRolePermissions(ADMIN)).value;
    assert t2 == t1.(grants := AdminGrants(owner.adminRoleID));
    assert |ADMIN| != |MEMBER|;
    var t3 := t2.(roles := [admin] + [member]);
    assert InsertRole(t2, member) == Ok(t3);
    assert InsertGrants(t3, owner.memberRoleID, []) == Ok(t3);
    assert BUILT_IN_ROLES[1..] == [MEMBER] && [MEMBER][1..] == [];
    assert InsertRoles(t3, owner, []) == Ok(t3);
    assert InsertRoles(t2, owner, [MEMBER]) == Ok(t3);
    assert [admin] + [member] == [admin, member] && owner.RoleID(BUILT_IN_ROLES[0]) == owner.adminRoleID;
    assert InsertRoles(t, owner, BUILT_IN_ROLES) == InsertRoles(t2, owner, [MEMBER]);
  }

  lemma SetupTables(t: Tables, owner: NewOwner) returns (t': Tables)
    requires t == EMPTY_TABLES && owner.adminRoleID != owner.memberRoleID
    ensures CreateFirstUser(t, owner) == Ok(t')
    ensures t' == Tables([User(owner.id, owner.email, owner.displayName, true, false)],
                         [Account(owner.accountID, owner.id, PASSWORD, owner.email, owner.passwordHash)],
                         [Organization(owner.organizationID, owner.organizationName, owner.organizationSlug)],
                         [Role(owner.adminRoleID, owner.organizationID, ADMIN),
                          Role(owner.memberRoleID, owner.organizationID, MEMBER)],
                         AdminGrants(owner.adminRoleID),
                         [Member(owner.memberID, owner.organizationID, owner.id, ADMIN)], [])
  {
    var u := User(owner.id, owner.email, owner.displayName, true, false);
    var a := Account(owner.accountID, owner.id, PASSWORD, owner.email, owner.passwordHash);
    var o := Organization(owner.organizationID, owner.organizationName, owner.organizationSlug);
    var m := Member(owner.memberID, owner.organizationID, owner.id, ADMIN);
    var t1 := t.(users := [u]);
    assert [] + [u] == [u] && [u][0] == u && InsertUser(t, u) == Ok(t1);
    var t2 := t1.(accounts := [a]);
    assert [] + [a] == [a] && InsertAccount(t1, a) == Ok(t2);
    var t3 := t2.(organizations := [o]);
    assert [] + [o] == [o] && [o][0] == o && InsertOrganization(t2, o) == Ok(t3);
    FirstSetupRoles(t3, owner);
    var t4 := InsertRoles(t3, owner, BUILT_IN_ROLES).value;
    t' := t4.(members := [m]);
    assert [] + [m] == [m] && InsertMember(t4, m) == Ok(t');
  }

  /** Setup succeeds exactly when there is no user yet, and otherwise says that it has been done. */
  lemma SetupSucceedsExactly(t: Tables, owner: NewOwner)
    requires Inv(t) && owner.adminRoleID != owner.memberRoleID
    ensures CreateFirstUser(t, owner).Ok? <==> t.users == []
    ensures t.users != [] ==> CreateFirstUser(t, owner) == Err(SetupCompleted)
  {
    if t.users == [] {
      var t' := SetupTables(t, owner);
    }
  }
}
