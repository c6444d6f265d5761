/** When setup and acceptance succeed, how often, and what they leave behind. */
module AccountsLaws {
  import opened Wrappers
  import opened SessionModel
  import opened AccountTables
  import opened Accounts
  import opened AccountsRuns

  // ---- accepting: when it succeeds ----

  predicate FreshIDs(t: Tables, ids: NewIDs) {
    && ids.user != NIL
    && (forall i :: 0 <= i < |t.users| ==> t.users[i].id != ids.user)
    && (forall i :: 0 <= i < |t.accounts| ==> t.accounts[i].id != ids.account)
    && (forall i :: 0 <= i < |t.members| ==> t.members[i].id != ids.member)
  }

  predicate DisabledHolds(users: seq<User>, email: string) {
    exists u :: 0 <= u < |users| && users[u].email == email && users[u].disabled
  }

  lemma EnsureUserExactly(t: Tables, email: string, displayName: string, id: ID)
    requires Inv(t) && id != NIL && forall i :: 0 <= i < |t.users| ==> t.users[i].id != id
    ensures EnsureUser(t, email, displayName, id).Ok? <==> !DisabledHolds(t.users, email)
  {
    var found := FindUserByEmail(t, email);
    if found.Some? {
      var k :| 0 <= k < |t.users| && t.users[k] == found.value;
    } else {
      assert forall u :: 0 <= u < |t.users| ==> !LiveWithEmail(email)(t.users[u]);
    }
  }

  lemma EnsurePasswordSucceeds(t: Tables, userID: ID, email: string, hash: string, id: ID)
    requires Inv(t) && HasEmail(t.users, userID, email)
    requires forall i :: 0 <= i < |t.accounts| ==> t.accounts[i].id != id
    ensures EnsurePassword(t, userID, email, hash, id).Ok?
  {
    EmailIsItsOwn(t, userID, email);
    var a := Account(id, userID, PASSWORD, email, hash);
    forall b | 0 <= b < |t.accounts| && AccountClash(a)(t.accounts[b]) ensures PasswordOf(userID)(t.accounts[b]) {
      assert Owned(t.users, t.accounts[b]);
    }
  }

  lemma EnsureMemberSucceeds(t: Tables, userID: ID, email: string, organizationID: ID, role: string, id: ID)
    requires HasEmail(t.users, userID, email) && HasOrganization(t.organizations, organizationID)
    requires forall i :: 0 <= i < |t.members| ==> t.members[i].id != id
    ensures EnsureMember(t, userID, organizationID, role, id).Ok?
  {
    assert forall m :: 0 <= m < |t.members| && MemberClash(Member(id, organizationID, userID, role))(t.members[m]) ==>
        Belongs(userID, organizationID)(t.members[m]);
  }

  lemma AcceptAsSucceeds(t: Tables, userID: ID, i: Invitation, hash: string, now: Time, ids: NewIDs)
    requires Inv(t) && HasEmail(t.users, userID, i.email) && HasOrganization(t.organizations, i.organizationID)
    requires forall a :: 0 <= a < |t.accounts| ==> t.accounts[a].id != ids.account
    requires forall m :: 0 <= m < |t.members| ==> t.members[m].id != ids.member
    ensures AcceptAs(t, userID, i, hash, now, ids).Ok?
  {
    EnsurePasswordSucceeds(t, userID, i.email, hash, ids.account);
    EnsurePasswordKeepsInv(t, userID, i.email, hash, ids.account);
    EnsureMemberSucceeds(EnsurePassword(t, userID, i.email, hash, ids.account).value, userID, i.email,
                         i.organizationID, i.role, ids.member);
  }

  lemma AcceptOpenExactly(t: Tables, i: Invitation, displayName: string, hash: string, now: Time, ids: NewIDs)
    requires Inv(t) && FreshIDs(t, ids) && HasOrganization(t.organizations, i.organizationID)
    ensures AcceptOpen(t, i, displayName, hash, now, ids).Ok? <==> !DisabledHolds(t.users, i.email)
  {
    EnsureUserExactly(t, i.email, displayName, ids.user);
    if !DisabledHolds(t.users, i.email) {
      EnsureUserKeepsInv(t, i.email, displayName, ids.user);
      var (t1, userID) := EnsureUser(t, i.email, displayName, ids.user).value;
      AcceptAsSucceeds(t1, userID, i, hash, now, ids);
    }
  }

  /** Accepting an open invitation succeeds exactly when no disabled user holds its email. The lookup
      skips disabled users, and the insert that follows then meets the unique email; nothing else
      in the transaction can violate a constraint. */
  lemma AcceptSucceedsExactly(t: Tables, h: TokenHash, displayName: string, hash: string, now: Time, ids: NewIDs,
                              i: Invitation)
    requires Inv(t) && FreshIDs(t, ids) && Find(t.invitations, HasToken(h)) == Some(i) && Open(i, now)
    ensures AcceptInvitation(t, h, displayName, hash, now, ids).Ok? <==> !DisabledHolds(t.users, i.email)
  {
    var k :| 0 <= k < |t.invitations| && t.invitations[k] == i;
    AcceptOpenExactly(t, i, displayName, hash, now, ids);
  }

  /** The token's invitation is pending and in time. */
  predicate OpenFor(t: Tables, h: TokenHash, now: Time) {
    exists k :: 0 <= k < |t.invitations| && t.invitations[k].tokenHash == h && t.invitations[k].status == Pending
                && now <= t.invitations[k].expiresAt
  }

  /** Why an acceptance is refused: there is no open invitation of that token, or a constraint of the
      store is violated, as by a disabled user who holds the email. */
  lemma AcceptRefusedExactly(t: Tables, h: TokenHash, displayName: string, hash: string, now: Time, ids: NewIDs)
    requires Inv(t) && ids.user != NIL
    ensures !OpenFor(t, h, now) <==> AcceptInvitation(t, h, displayName, hash, now, ids) == Err(InvalidInvitation)
    ensures var r := AcceptInvitation(t, h, displayName, hash, now, ids);
            r.Err? ==> r.error == InvalidInvitation || r.error == StoreFailed
  {
    OpenIsFound(t, h, now);
    if OpenFor(t, h, now) {
      AcceptOpenFails(t, Find(t.invitations, HasToken(h)).value, displayName, hash, now, ids);
    }
  }

  lemma OpenIsFound(t: Tables, h: TokenHash, now: Time)
    requires InvitationsValid(t.users, t.organizations, t.invitations)
    ensures var found := Find(t.invitations, HasToken(h)); OpenFor(t, h, now) <==> found.Some? && Open(found.value, now)
  {
    var found := Find(t.invitations, HasToken(h));
    if found.Some? {
      var j :| 0 <= j < |t.invitations| && t.invitations[j] == found.value;
    } else {
      assert forall k :: 0 <= k < |t.invitations| ==> !HasToken(h)(t.invitations[k]);
    }
  }

  lemma AcceptOpenFails(t: Tables, i: Invitation, displayName: string, hash: string, now: Time, ids: NewIDs)
    requires UsersValid(t.users)
    ensures var r := AcceptOpen(t, i, displayName, hash, now, ids); r.Err? ==> r.error == StoreFailed
  {
    var user := FindUserByEmail(t, i.email);
    if user.Some? {
      var u :| 0 <= u < |t.users| && t.users[u] == user.value;
    }
  }

  // ---- accepting: what it leaves ----

  /** The live user of the email is verified; without one, a new user is added. Nobody else changes. */
  predicate UserEnsured(users: seq<User>, users': seq<User>, userID: ID, email: string, displayName: string, id: ID) {
    if forall u :: 0 <= u < |users| ==> users[u].email != email || users[u].disabled then
      && userID == id
      && users' == users + [User(id, email, if displayName == "" then email else displayName, true, false)]
    else
      && |users'| == |users|
      && (forall u :: 0 <= u < |users| ==>
            users'[u] == if users[u].id == userID then users[u].(verified := true) else users[u])
      && exists u :: 0 <= u < |users| && users[u].id == userID && users[u].email == email && !users[u].disabled
  }

  /** The user's password account has the hash; without one, one is added. No other account changes. */
  predicate PasswordEnsured(accounts: seq<Account>, accounts': seq<Account>, userID: ID, email: string, hash: string,
                            id: ID)
  {
    if forall a :: 0 <= a < |accounts| ==> accounts[a].userID != userID || accounts[a].provider != PASSWORD then
      accounts' == accounts + [Account(id, userID, PASSWORD, email, hash)]
    else
      && |accounts'| == |accounts|
      && forall a :: 0 <= a < |accounts| ==>
           accounts'[a] == if accounts[a].userID == userID && accounts[a].provider == PASSWORD
                           then accounts[a].(passwordHash := hash) else accounts[a]
  }

  /** The user belongs to the organization; a new member has the invited role. */
  predicate MemberEnsured(members: seq<Member>, members': seq<Member>, userID: ID, organizationID: ID, role: string,
                          id: ID)
  {
    if forall m :: 0 <= m < |members| ==>
         members[m].userID != userID || members[m].organizationID != organizationID then
      members' == members + [Member(id, organizationID, userID, role)]
    else
      members' == members
  }

  predicate OneAccepted(invitations: seq<Invitation>, invitations': seq<Invitation>, h: TokenHash, now: Time) {
    && |invitations'| == |invitations|
    && forall i :: 0 <= i < |invitations| ==>
         invitations'[i] == if invitations[i].tokenHash == h
                            then invitations[i].(status := Accepted, acceptedAt := Some(now)) else invitations[i]
  }

  lemma EnsureUserMeans(t: Tables, email: string, displayName: string, id: ID)
    requires UsersValid(t.users) && EnsureUser(t, email, displayName, id).Ok?
    ensures var (t', userID) := EnsureUser(t, email, displayName, id).value;
            UserEnsured(t.users, t'.users, userID, email, displayName, id)
  {
    var found := FindUserByEmail(t, email);
    if found.Some? {
      var k :| 0 <= k < |t.users| && t.users[k] == found.value;
      assert t.users[k].email == email && !t.users[k].disabled;
    } else {
      assert forall u :: 0 <= u < |t.users| ==> !LiveWithEmail(email)(t.users[u]);
    }
  }

  lemma EnsurePasswordMeans(t: Tables, userID: ID, email: string, hash: string, id: ID)
    requires EnsurePassword(t, userID, email, hash, id).Ok?
    ensures PasswordEnsured(t.accounts, EnsurePassword(t, userID, email, hash, id).value.accounts,
                            userID, email, hash, id)
  {
    var found := Find(t.accounts, PasswordOf(userID));
    if found.Some? {
      var k :| 0 <= k < |t.accounts| && t.accounts[k] == found.value;
      assert t.accounts[k].userID == userID && t.accounts[k].provider == PASSWORD;
    } else {
      assert forall a :: 0 <= a < |t.accounts| ==> !PasswordOf(userID)(t.accounts[a]);
    }
  }

  lemma EnsureMemberMeans(t: Tables, userID: ID, organizationID: ID, role: string, id: ID)
    requires EnsureMember(t, userID, organizationID, role, id).Ok?
    ensures MemberEnsured(t.members, EnsureMember(t, userID, organizationID, role, id).value.members,
                          userID, organizationID, role, id)
  {
    var found := Find(t.members, Belongs(userID, organizationID));
    if found.Some? {
      var k :| 0 <= k < |t.members| && t.members[k] == found.value;
      assert t.members[k].userID == userID && t.members[k].organizationID == organizationID;
    } else {
      assert forall m :: 0 <= m < |t.members| ==> !Belongs(userID, organizationID)(t.members[m]);
    }
  }

  /** The update asks for the status once more: it leaves an invitation that is accepted as it is. */
  lemma ConsumesPendingOnly(t: Tables, id: ID, now: Time, k: nat)
    requires k < |t.invitations| && (t.invitations[k].status == Accepted || t.invitations[k].id != id)
    ensures ConsumeInvitation(t, id, now).invitations[k] == t.invitations[k]
  {
  }

  lemma ConsumeMeans(t: Tables, h: TokenHash, i: Invitation, now: Time)
    requires InvitationsValid(t.users, t.organizations, t.invitations)
    requires Find(t.invitations, HasToken(h)) == Some(i) && i.status == Pending && i.acceptedAt.None?
    ensures OneAccepted(t.invitations, ConsumeInvitation(t, i.id, now).invitations, h, now)
  {
    var k :| 0 <= k < |t.invitations| && t.invitations[k] == i;
  }

  /** What an acceptance leaves, row by row: the live user of the invited email, or a new one, verified,
      with the given password, a member of the organization; that one invitation accepted; and every
      row of anyone else as it was. */
  lemma AcceptMeans(t: Tables, h: TokenHash, displayName: string, hash: string, now: Time, ids: NewIDs)
    requires Inv(t) && ids.user != NIL && AcceptInvitation(t, h, displayName, hash, now, ids).Ok?
    ensures Find(t.invitations, HasToken(h)).Some?
    ensures var (t', userID) := AcceptInvitation(t, h, displayName, hash, now, ids).value;
            var i := Find(t.invitations, HasToken(h)).value;
            && Open(i, now)
            && UserEnsured(t.users, t'.users, userID, i.email, displayName, ids.user)
            && PasswordEnsured(t.accounts, t'.accounts, userID, i.email, hash, ids.account)
            && MemberEnsured(t.members, t'.members, userID, i.organizationID, i.role, ids.member)
            && OneAccepted(t.invitations, t'.invitations, h, now)
            && t'.organizations == t.organizations && t'.roles == t.roles && t'.grants == t.grants
  {
    var i := Find(t.invitations, HasToken(h)).value;
    EnsureUserMeans(t, i.email, displayName, ids.user);
    EnsureUserKeepsInv(t, i.email, displayName, ids.user);
    var (t1, userID) := EnsureUser(t, i.email, displayName, ids.user).value;
    EnsurePasswordMeans(t1, userID, i.email, hash, ids.account);
    EnsurePasswordKeepsInv(t1, userID, i.email, hash, ids.account);
    var t2 := EnsurePassword(t1, userID, i.email, hash, ids.account).value;
    EnsureMemberMeans(t2, userID, i.organizationID, i.role, ids.member);
    EnsureMemberKeepsInv(t2, userID, i.organizationID, i.role, ids.member);
    ConsumeMeans(EnsureMember(t2, userID, i.organizationID, i.role, ids.member).value, h, i, now);
  }

  lemma FoundByToken(t: Tables, k: nat)
    requires Inv(t) && k < |t.invitations|
    ensures Find(t.invitations, HasToken(t.invitations[k].tokenHash)) == Some(t.invitations[k])
  {
    assert HasToken(t.invitations[k].tokenHash)(t.invitations[k]);
    var found := Find(t.invitations, HasToken(t.invitations[k].tokenHash)).value;
    var j :| 0 <= j < |t.invitations| && t.invitations[j] == found;
  }

  // ---- setup: how often it succeeds ----

  /** The user has the permission in the organization, through the role of the membership. */
  predicate Permits(t: Tables, userID: ID, organizationID: ID, permission: string) {
    exists m, r :: 0 <= m < |t.members| && 0 <= r < |t.roles|
                   && t.members[m].userID == userID && t.members[m].organizationID == organizationID
                   && t.roles[r].organizationID == organizationID && t.roles[r].key == t.members[m].role
                   && Grant(t.roles[r].id, permission) in t.grants
  }

  /** What setup leaves: one live verified user, known by a password, the only member of the only
      organization, who there has exactly an administrator's permissions. */
  lemma SetupMeans(t: Tables, owner: NewOwner)
    requires Inv(t) && owner.adminRoleID != owner.memberRoleID && CreateFirstUser(t, owner).Ok?
    ensures var t' := CreateFirstUser(t, owner).value;
            && t'.users == [User(owner.id, owner.email, owner.displayName, true, false)]
            && t'.accounts == [Account(owner.accountID, owner.id, PASSWORD, owner.email, owner.passwordHash)]
            && t'.organizations == [Organization(owner.organizationID, owner.organizationName, owner.organizationSlug)]
            && t'.members == [Member(owner.memberID, owner.organizationID, owner.id, ADMIN)]
            && t'.invitations == []
            && forall permission :: Permits(t', owner.id, owner.organizationID, permission) <==>
                 permission in {AUDIT_LOGS_READ, AUTH_INVITATIONS_CREATE, AUTH_ROLES_MANAGE}
  {
    var t' := SetupTables(t, owner);
    assert |ADMIN| != |MEMBER| && t'.members[0].role == ADMIN && t'.roles[0].key == ADMIN;
    forall permission
      ensures Permits(t', owner.id, owner.organizationID, permission) <==>
                permission in {AUDIT_LOGS_READ, AUTH_INVITATIONS_CREATE, AUTH_ROLES_MANAGE}
    {
      assert Grant(owner.adminRoleID, permission) in t'.grants <==>
          permission in {AUDIT_LOGS_READ, AUTH_INVITATIONS_CREATE, AUTH_ROLES_MANAGE};
    }
  }

  lemma StepKeepsUsers(t: Tables, step: Step)
    requires Inv(t) && Proper(step) && t.users != []
    ensures Apply(t, step).0.users != []
  {
    if step.Accept? && Apply(t, step).1 {
      AcceptMeans(t, step.tokenHash, step.displayName, step.passwordHash, step.now, step.ids);
    } else if step.Disable? {
      assert |DisableUser(t, step.userID).users| == |t.users|;
    }
  }

  lemma {:induction false} UsersStay(t: Tables, steps: seq<Step>)
    requires Inv(t) && t.users != [] && forall i :: 0 <= i < |steps| ==> Proper(steps[i])
    ensures After(t, steps).users != []
    decreases |steps|
  {
    if steps != [] {
      StepKeepsInv(t, steps[0]);
      StepKeepsUsers(t, steps[0]);
      UsersStay(Apply(t, steps[0]).0, steps[1..]);
    }
  }

  /** In no run does setup succeed twice. */
  lemma SetupSucceedsOnce(t: Tables, first: Step, between: seq<Step>, second: Step)
    requires Inv(t) && Proper(first) && forall i :: 0 <= i < |between| ==> Proper(between[i])
    requires first.Setup? && second.Setup? && Apply(t, first).1
    ensures !Apply(After(Apply(t, first).0, between), second).1
  {
    SetupKeepsInv(t, first.owner);
    UsersStay(Apply(t, first).0, between);
  }

  // ---- everyone has a password ----

  predicate HasPassword(t: Tables, userID: ID) {
    exists a :: 0 <= a < |t.accounts| && t.accounts[a].userID == userID && t.accounts[a].provider == PASSWORD
  }

  predicate EveryoneHasPassword(t: Tables) {
    forall u :: 0 <= u < |t.users| ==> HasPassword(t, t.users[u].id)
  }

  lemma SetupKeepsPasswords(t: Tables, owner: NewOwner)
    requires Inv(t) && owner.id != NIL && CreateFirstUser(t, owner).Ok?
    ensures EveryoneHasPassword(CreateFirstUser(t, owner).value)
    ensures Continues(t.users, CreateFirstUser(t, owner).value.users)
  {
    SetupKeepsInv(t, owner);
    assert CreateFirstUser(t, owner).value.accounts[0].userID == owner.id;
  }

  lemma PasswordsStay(accounts: seq<Account>, accounts': seq<Account>, t: Tables, t': Tables, id: ID)
    requires t.accounts == accounts && t'.accounts == accounts' && HasPassword(t, id) && |accounts| <= |accounts'|
    requires forall a :: 0 <= a < |accounts| ==>
               accounts'[a].userID == accounts[a].userID && accounts'[a].provider == accounts[a].provider
    ensures HasPassword(t', id)
  {
    var a :| 0 <= a < |accounts| && accounts[a].userID == id && accounts[a].provider == PASSWORD;
    assert accounts'[a].userID == id;
  }

  lemma PasswordEnsuredHas(t: Tables, t': Tables, userID: ID, email: string, hash: string, id: ID)
    requires PasswordEnsured(t.accounts, t'.accounts, userID, email, hash, id)
    ensures HasPassword(t', userID)
  {
    if forall a :: 0 <= a < |t.accounts| ==> t.accounts[a].userID != userID || t.accounts[a].provider != PASSWORD {
      assert t'.accounts[|t.accounts|].userID == userID;
    } else {
      var a :| 0 <= a < |t.accounts| && t.accounts[a].userID == userID && t.accounts[a].provider == PASSWORD;
      assert t'.accounts[a].userID == userID;
    }
  }

  lemma EnsuredKeepsPasswords(t: Tables, t': Tables, userID: ID, email: string, displayName: string, hash: string,
                              id: ID, accountID: ID)
    requires EveryoneHasPassword(t)
    requires UserEnsured(t.users, t'.users, userID, email, displayName, id)
    requires PasswordEnsured(t.accounts, t'.accounts, userID, email, hash, accountID)
    ensures EveryoneHasPassword(t') && Continues(t.users, t'.users)
  {
    PasswordEnsuredHas(t, t', userID, email, hash, accountID);
    forall u | 0 <= u < |t'.users| ensures HasPassword(t', t'.users[u].id) {
      if u < |t.users| {
        assert HasPassword(t, t.users[u].id) && t'.users[u].id == t.users[u].id;
        PasswordsStay(t.accounts, t'.accounts, t, t', t.users[u].id);
      }
    }
  }

  lemma AcceptKeepsPasswords(t: Tables, step: Step)
    requires Inv(t) && EveryoneHasPassword(t) && Proper(step) && step.Accept? && Apply(t, step).1
    ensures EveryoneHasPassword(Apply(t, step).0) && Continues(t.users, Apply(t, step).0.users)
  {
    AcceptMeans(t, step.tokenHash, step.displayName, step.passwordHash, step.now, step.ids);
    var (t', userID) :=
      AcceptInvitation(t, step.tokenHash, step.displayName, step.passwordHash, step.now, step.ids).value;
    EnsuredKeepsPasswords(t, t', userID, Find(t.invitations, HasToken(step.tokenHash)).value.email,
                          step.displayName, step.passwordHash, step.ids.user, step.ids.account);
  }

  lemma SameAccountsKeepPasswords(t: Tables, t': Tables)
    requires EveryoneHasPassword(t) && t'.accounts == t.accounts
    requires |t'.users| == |t.users| && Continues(t.users, t'.users)
    ensures EveryoneHasPassword(t')
  {
    forall u | 0 <= u < |t'.users| ensures HasPassword(t', t'.users[u].id) {
      assert HasPassword(t, t.users[u].id);
      PasswordsStay(t.accounts, t'.accounts, t, t', t.users[u].id);
    }
  }

  lemma InviteTouches(t: Tables, step: Step)
    requires step.Invite?
    ensures Apply(t, step).0 == t.(invitations := Apply(t, step).0.invitations)
  {
  }

  lemma StepKeepsPasswords(t: Tables, step: Step)
    requires Inv(t) && EveryoneHasPassword(t) && Proper(step)
    ensures EveryoneHasPassword(Apply(t, step).0) && Continues(t.users, Apply(t, step).0.users)
  {
    match step
    case Setup(owner) =>
      if Apply(t, step).1 {
        SetupKeepsPasswords(t, owner);
      }
    case Accept(_, _, _, _, _) =>
      if Apply(t, step).1 {
        AcceptKeepsPasswords(t, step);
      }
    case Invite(_, _, _, _, _, _) =>
      InviteTouches(t, step);
      SameAccountsKeepPasswords(t, Apply(t, step).0);
    case Disable(id) =>
      SameAccountsKeepPasswords(t, DisableUser(t, id));
  }

  /** In every run every user has a password account: users come into being with one, and accounts are
      never removed. */
  lemma {:induction false} EveryoneHasPasswordInRuns(t: Tables, steps: seq<Step>)
    requires Inv(t) && EveryoneHasPassword(t) && forall i :: 0 <= i < |steps| ==> Proper(steps[i])
    ensures Inv(After(t, steps)) && EveryoneHasPassword(After(t, steps))
    decreases |steps|
  {
    if steps != [] {
      StepKeepsInv(t, steps[0]);
      StepKeepsPasswords(t, steps[0]);
      EveryoneHasPasswordInRuns(Apply(t, steps[0]).0, steps[1..]);
    }
  }

  // ---- invitations over a run ----

  /** Invitations are added, and go from pending to accepted; nothing else happens to them. */
  predicate Progress(before: seq<Invitation>, after: seq<Invitation>) {
    && |before| <= |after|
    && forall i :: 0 <= i < |before| ==>
         || after[i] == before[i]
         || (before[i].status == Pending && after[i].acceptedAt.Some?
             && after[i] == before[i].(status := Accepted, acceptedAt := after[i].acceptedAt))
  }

  lemma AcceptProgresses(t: Tables, step: Step)
    requires Inv(t) && Proper(step) && step.Accept? && Apply(t, step).1
    ensures Progress(t.invitations, Apply(t, step).0.invitations)
    ensures OnlyBy(step.tokenHash, t.invitations, Apply(t, step).0.invitations)
  {
    AcceptMeans(t, step.tokenHash, step.displayName, step.passwordHash, step.now, step.ids);
    AcceptedProgresses(t.invitations, Apply(t, step).0.invitations, step.tokenHash, step.now,
                       Find(t.invitations, HasToken(step.tokenHash)).value);
  }

  lemma AcceptedProgresses(before: seq<Invitation>, after: seq<Invitation>, h: TokenHash, now: Time, i: Invitation)
    requires OneAccepted(before, after, h, now) && Find(before, HasToken(h)) == Some(i) && i.status == Pending
    requires forall j, k :: 0 <= j < k < |before| ==> before[j].tokenHash != before[k].tokenHash
    ensures Progress(before, after) && OnlyBy(h, before, after)
  {
    var k :| 0 <= k < |before| && before[k] == i;
    assert before[k].tokenHash == h;
  }

  /** Of the invitations there were, only that of this token may differ. */
  predicate OnlyBy(h: TokenHash, before: seq<Invitation>, after: seq<Invitation>) {
    && |before| <= |after|
    && forall i :: 0 <= i < |before| && before[i].tokenHash != h ==> after[i] == before[i]
  }

  lemma OtherStepProgresses(t: Tables, step: Step)
    requires (t.users == [] ==> t == EMPTY_TABLES) && !(step.Accept? && Apply(t, step).1)
    ensures t.invitations <= Apply(t, step).0.invitations
  {
    if step.Setup? && Apply(t, step).1 {
      assert t.invitations == [];
    }
  }

  lemma StepProgresses(t: Tables, step: Step)
    requires Inv(t) && Proper(step)
    ensures Progress(t.invitations, Apply(t, step).0.invitations)
    ensures step.Accept? ==> OnlyBy(step.tokenHash, t.invitations, Apply(t, step).0.invitations)
    ensures !step.Accept? ==> t.invitations <= Apply(t, step).0.invitations
  {
    if step.Accept? && Apply(t, step).1 {
      AcceptProgresses(t, step);
    } else {
      OtherStepProgresses(t, step);
    }
  }

  predicate Settled(t: Tables, h: TokenHash) {
    exists i :: 0 <= i < |t.invitations| && t.invitations[i].tokenHash == h && t.invitations[i].status == Accepted
  }

  lemma SettledIsRefused(t: Tables, h: TokenHash, displayName: string, hash: string, now: Time, ids: NewIDs)
    requires Inv(t) && Settled(t, h)
    ensures AcceptInvitation(t, h, displayName, hash, now, ids) == Err(InvalidInvitation)
  {
    var found := Find(t.invitations, HasToken(h));
    var k :| 0 <= k < |t.invitations| && t.invitations[k].tokenHash == h && t.invitations[k].status == Accepted;
    assert HasToken(h)(t.invitations[k]);
    var j :| 0 <= j < |t.invitations| && t.invitations[j] == found.value;
  }

  lemma StepKeepsSettled(t: Tables, step: Step, h: TokenHash)
    requires Inv(t) && Proper(step) && Settled(t, h)
    ensures Settled(Apply(t, step).0, h)
  {
    StepProgresses(t, step);
    var k :| 0 <= k < |t.invitations| && t.invitations[k].tokenHash == h && t.invitations[k].status == Accepted;
    assert Apply(t, step).0.invitations[k] == t.invitations[k];
  }

  lemma {:induction false} SettledForGood(t: Tables, steps: seq<Step>, h: TokenHash)
    requires Inv(t) && Settled(t, h) && forall i :: 0 <= i < |steps| ==> Proper(steps[i])
    ensures Inv(After(t, steps)) && Settled(After(t, steps), h)
    decreases |steps|
  {
    if steps != [] {
      StepKeepsInv(t, steps[0]);
      StepKeepsSettled(t, steps[0], h);
      SettledForGood(Apply(t, steps[0]).0, steps[1..], h);
    }
  }

  lemma AcceptSettles(t: Tables, step: Step)
    requires Inv(t) && Proper(step) && step.Accept? && Apply(t, step).1
    ensures Settled(Apply(t, step).0, step.tokenHash)
  {
    AcceptMeans(t, step.tokenHash, step.displayName, step.passwordHash, step.now, step.ids);
    var i := Find(t.invitations, HasToken(step.tokenHash)).value;
    var k :| 0 <= k < |t.invitations| && t.invitations[k] == i;
    assert Apply(t, step).0.invitations[k].tokenHash == step.tokenHash;
  }

  lemma SettledBlocks(t: Tables, steps: seq<Step>, second: Step)
    requires Inv(t) && second.Accept? && Settled(t, second.tokenHash)
    requires forall i :: 0 <= i < |steps| ==> Proper(steps[i])
    ensures Apply(After(t, steps), second) == (After(t, steps), false)
  {
    SettledForGood(t, steps, second.tokenHash);
    SettledIsRefused(After(t, steps), second.tokenHash, second.displayName, second.passwordHash,
                     second.now, second.ids);
  }

  /** A token is accepted at most once in a run: afterwards it is invalid. */
  lemma AcceptedOnce(t: Tables, first: Step, between: seq<Step>, second: Step)
    requires Inv(t) && Proper(first) && forall i :: 0 <= i < |between| ==> Proper(between[i])
    requires first.Accept? && second.Accept? && first.tokenHash == second.tokenHash && Apply(t, first).1
    ensures var t' := After(Apply(t, first).0, between); Apply(t', second) == (t', false)
  {
    StepKeepsInv(t, first);
    AcceptSettles(t, first);
    SettledBlocks(Apply(t, first).0, between, second);
  }
}
