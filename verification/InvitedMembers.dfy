/** Who joins by an invitation, and in which role: over every run, an acceptance makes a new member. */
module InvitedMembers {
  import opened Wrappers
  import opened SessionModel
  import opened AccountTables
  import opened Accounts
  import opened AccountsRuns
  import opened AccountsLaws
  import opened InvitationLaws

  /** Nobody who could be looked up by a pending invitation's email is already a member. */
  predicate Strangers(t: Tables) {
    forall i :: 0 <= i < |t.invitations| && t.invitations[i].status == Pending ==>
      !LiveMember(t, t.invitations[i].organizationID, t.invitations[i].email)
  }

  // ---- an acceptance adds a member ----

  /** A user who comes into being by an acceptance is a member of nothing. */
  lemma NewUserIsNoMember(t: Tables, users: seq<User>, id: ID)
    requires MembersValid(t.users, t.organizations, t.members) && UsersValid(users)
    requires Continues(t.users, users) && |users| == |t.users| + 1 && users[|t.users|].id == id
    ensures forall m :: 0 <= m < |t.members| ==> t.members[m].userID != id
  {
    forall m | 0 <= m < |t.members| ensures t.members[m].userID != id {
      assert HasUser(t.users, t.members[m].userID);
    }
  }

  lemma InviteeIsNoMember(t: Tables, users: seq<User>, userID: ID, i: Invitation, displayName: string, id: ID)
    requires MembersValid(t.users, t.organizations, t.members) && UsersValid(users)
    requires UserEnsured(t.users, users, userID, i.email, displayName, id)
    requires !LiveMember(t, i.organizationID, i.email)
    ensures forall m :: 0 <= m < |t.members| ==>
              t.members[m].userID != userID || t.members[m].organizationID != i.organizationID
  {
    if |users| == |t.users| + 1 {
      NewUserIsNoMember(t, users, id);
    }
  }

  predicate RoleGrants(t: Tables, organizationID: ID, role: string, permission: string) {
    exists r :: 0 <= r < |t.roles| && t.roles[r].organizationID == organizationID && t.roles[r].key == role
                && Grant(t.roles[r].id, permission) in t.grants
  }

  /** The user of the invited email joined the invited organization, in the invited role and with exactly
      its permissions; nobody else joined anything. */
  ghost predicate Joined(t: Tables, t': Tables, i: Invitation, userID: ID, memberID: ID) {
    && HasEmail(t'.users, userID, i.email)
    && t'.members == t.members + [Member(memberID, i.organizationID, userID, i.role)]
    && forall permission :: Permits(t', userID, i.organizationID, permission) <==>
         RoleGrants(t', i.organizationID, i.role, permission)
  }

  lemma OnlyMemberPermits(t: Tables, m: nat, permission: string)
    requires MembersValid(t.users, t.organizations, t.members) && m < |t.members|
    ensures Permits(t, t.members[m].userID, t.members[m].organizationID, permission) <==>
              RoleGrants(t, t.members[m].organizationID, t.members[m].role, permission)
  {
  }

  lemma EnsuredHasEmail(users: seq<User>, users': seq<User>, userID: ID, email: string, displayName: string, id: ID)
    requires UserEnsured(users, users', userID, email, displayName, id)
    ensures HasEmail(users', userID, email)
  {
    if |users'| == |users| {
      var u :| 0 <= u < |users| && users[u].id == userID && users[u].email == email && !users[u].disabled;
      assert users'[u].id == userID;
    } else {
      assert users'[|users|].id == userID;
    }
  }

  lemma MemberAddedIsJoined(t: Tables, t': Tables, i: Invitation, userID: ID, displayName: string, ids: NewIDs)
    requires Inv(t) && Inv(t') && !LiveMember(t, i.organizationID, i.email)
    requires UserEnsured(t.users, t'.users, userID, i.email, displayName, ids.user)
    requires MemberEnsured(t.members, t'.members, userID, i.organizationID, i.role, ids.member)
    ensures Joined(t, t', i, userID, ids.member)
  {
    InviteeIsNoMember(t, t'.users, userID, i, displayName, ids.user);
    EnsuredHasEmail(t.users, t'.users, userID, i.email, displayName, ids.user);
    forall permission
      ensures Permits(t', userID, i.organizationID, permission) <==>
                RoleGrants(t', i.organizationID, i.role, permission)
    {
      OnlyMemberPermits(t', |t.members|, permission);
    }
  }

  lemma AcceptJoins(t: Tables, accept: Step, i: Invitation) returns (userID: ID)
    requires Inv(t) && Strangers(t) && Proper(accept) && accept.Accept? && Apply(t, accept).1
    requires Find(t.invitations, HasToken(accept.tokenHash)) == Some(i)
    ensures Inv(Apply(t, accept).0) && i.status == Pending
    ensures UserEnsured(t.users, Apply(t, accept).0.users, userID, i.email, accept.displayName, accept.ids.user)
    ensures OneAccepted(t.invitations, Apply(t, accept).0.invitations, accept.tokenHash, accept.now)
    ensures Joined(t, Apply(t, accept).0, i, userID, accept.ids.member)
  {
    AcceptMeans(t, accept.tokenHash, accept.displayName, accept.passwordHash, accept.now, accept.ids);
    StepKeepsInv(t, accept);
    userID :=
      AcceptInvitation(t, accept.tokenHash, accept.displayName, accept.passwordHash, accept.now, accept.ids).value.1;
    var k :| 0 <= k < |t.invitations| && t.invitations[k] == i;
    MemberAddedIsJoined(t, Apply(t, accept).0, i, userID, accept.displayName, accept.ids);
  }

  // ---- it stays so over runs ----

  lemma OldMembersAsBefore(t: Tables, t': Tables, userID: ID, i: Invitation, displayName: string, id: ID,
                           u: nat, m: nat)
    requires MembersValid(t.users, t.organizations, t.members) && UsersValid(t'.users)
    requires UserEnsured(t.users, t'.users, userID, i.email, displayName, id)
    requires u < |t'.users| && !t'.users[u].disabled && m < |t.members| && t.members[m].userID == t'.users[u].id
    ensures LiveMember(t, t.members[m].organizationID, t'.users[u].email)
  {
    if |t'.users| == |t.users| + 1 {
      NewUserIsNoMember(t, t'.users, id);
    }
    assert u < |t.users| && t.users[u].id == t.members[m].userID && t.users[u].email == t'.users[u].email;
  }

  lemma OneOfTheEmail(users: seq<User>, userID: ID, email: string, u: nat)
    requires UsersValid(users) && HasEmail(users, userID, email) && u < |users| && users[u].id == userID
    ensures users[u].email == email
  {
  }

  /** The accepted email's user joined the one organization; nobody else joined anything. */
  lemma JoinedIsTheInvitee(t: Tables, t': Tables, userID: ID, i: Invitation, displayName: string, ids: NewIDs,
                           organizationID: ID, email: string)
    requires MembersValid(t.users, t.organizations, t.members) && UsersValid(t'.users)
    requires UserEnsured(t.users, t'.users, userID, i.email, displayName, ids.user)
    requires t'.members == t.members + [Member(ids.member, i.organizationID, userID, i.role)]
    requires LiveMember(t', organizationID, email)
    ensures LiveMember(t, organizationID, email) || (organizationID == i.organizationID && email == i.email)
  {
    var u, m :| 0 <= u < |t'.users| && 0 <= m < |t'.members|
                && t'.users[u].email == email && !t'.users[u].disabled
                && t'.members[m].userID == t'.users[u].id && t'.members[m].organizationID == organizationID;
    if m < |t.members| {
      OldMembersAsBefore(t, t', userID, i, displayName, ids.user, u, m);
    } else {
      EnsuredHasEmail(t.users, t'.users, userID, i.email, displayName, ids.user);
      OneOfTheEmail(t'.users, userID, i.email, u);
    }
  }

  lemma JoinedKeepsStrangers(t: Tables, t': Tables, userID: ID, i: Invitation, displayName: string, ids: NewIDs,
                             now: Time)
    requires Inv(t) && Strangers(t) && i in t.invitations && i.status == Pending && UsersValid(t'.users)
    requires UserEnsured(t.users, t'.users, userID, i.email, displayName, ids.user)
    requires t'.members == t.members + [Member(ids.member, i.organizationID, userID, i.role)]
    requires OneAccepted(t.invitations, t'.invitations, i.tokenHash, now)
    ensures Strangers(t')
  {
    forall j | 0 <= j < |t'.invitations| && t'.invitations[j].status == Pending
      ensures !LiveMember(t', t'.invitations[j].organizationID, t'.invitations[j].email)
    {
      OtherIsNotInvited(t, i, j);
      if LiveMember(t', t'.invitations[j].organizationID, t'.invitations[j].email) {
        JoinedIsTheInvitee(t, t', userID, i, displayName, ids,
                           t.invitations[j].organizationID, t.invitations[j].email);
      }
    }
  }

  lemma AcceptKeepsStrangers(t: Tables, accept: Step)
    requires Inv(t) && Strangers(t) && Proper(accept) && accept.Accept? && Apply(t, accept).1
    ensures Strangers(Apply(t, accept).0)
  {
    var i := Find(t.invitations, HasToken(accept.tokenHash)).value;
    var userID := AcceptJoins(t, accept, i);
    JoinedKeepsStrangers(t, Apply(t, accept).0, userID, i, accept.displayName, accept.ids, accept.now);
  }

  lemma OtherIsNotInvited(t: Tables, i: Invitation, j: nat)
    requires InvitationsValid(t.users, t.organizations, t.invitations) && i in t.invitations && i.status == Pending
    requires j < |t.invitations| && t.invitations[j].status == Pending && t.invitations[j].tokenHash != i.tokenHash
    ensures t.invitations[j].organizationID != i.organizationID || t.invitations[j].email != i.email
  {
    var k :| 0 <= k < |t.invitations| && t.invitations[k] == i;
    assert !SamePending(t.invitations[j], t.invitations[k]) || !SamePending(t.invitations[k], t.invitations[j]);
  }

  lemma FewerLiveMembers(t: Tables, t': Tables)
    requires t'.members == t.members && |t'.users| == |t.users|
    requires forall u :: 0 <= u < |t.users| ==>
               t'.users[u].id == t.users[u].id && t'.users[u].email == t.users[u].email
               && (t.users[u].disabled ==> t'.users[u].disabled)
    ensures forall organizationID, email ::
              LiveMember(t', organizationID, email) ==> LiveMember(t, organizationID, email)
  {
  }

  predicate Creates(t: Tables, invite: Step) {
    invite.Invite?
    && CreateInvitation(t, invite.configured, invite.inviter, invite.invitation, invite.now, invite.lifetime).Ok?
  }

  function Created(invite: Step): Invitation
    requires invite.Invite? && invite.inviter.Some?
  {
    var (inviter, invitation) := (invite.inviter.value, invite.invitation);
    Invitation(invitation.id, inviter.organizationID, invitation.email, invitation.role, Pending,
               invitation.tokenHash, invite.now + invite.lifetime, inviter.userID, None)
  }

  lemma InviteAdds(t: Tables, step: Step)
    requires Inv(t) && step.Invite? && Creates(t, step)
    ensures Apply(t, step).0 == t.(invitations := t.invitations + [Created(step)])
    ensures !LiveMember(t, Created(step).organizationID, Created(step).email)
  {
    InviteSucceedsExactly(t, step.configured, step.inviter.value, step.invitation, step.now, step.lifetime);
  }

  lemma InvitedStaysStranger(t: Tables, i: Invitation)
    requires Strangers(t) && !LiveMember(t, i.organizationID, i.email)
    ensures Strangers(t.(invitations := t.invitations + [i]))
  {
    FewerLiveMembers(t, t.(invitations := t.invitations + [i]));
  }

  lemma InviteKeepsStrangers(t: Tables, step: Step)
    requires Inv(t) && Strangers(t) && step.Invite?
    ensures Strangers(Apply(t, step).0)
  {
    if Creates(t, step) {
      InviteAdds(t, step);
      InvitedStaysStranger(t, Created(step));
    }
  }

  lemma StepKeepsStrangers(t: Tables, step: Step)
    requires Inv(t) && Strangers(t) && Proper(step)
    ensures Strangers(Apply(t, step).0)
  {
    match step
    case Setup(owner) =>
      if Apply(t, step).1 {
        SetupKeepsInv(t, owner);
      }
    case Invite(_, _, _, _, _, _) => InviteKeepsStrangers(t, step);
    case Accept(_, _, _, _, _) =>
      if Apply(t, step).1 {
        AcceptKeepsStrangers(t, step);
      }
    case Disable(id) => FewerLiveMembers(t, DisableUser(t, id));
  }

  lemma {:induction false} RunKeepsStrangers(t: Tables, steps: seq<Step>)
    requires Inv(t) && Strangers(t) && forall i :: 0 <= i < |steps| ==> Proper(steps[i])
    ensures Inv(After(t, steps)) && Strangers(After(t, steps))
    decreases |steps|
  {
    if steps != [] {
      StepKeepsInv(t, steps[0]);
      StepKeepsStrangers(t, steps[0]);
      RunKeepsStrangers(Apply(t, steps[0]).0, steps[1..]);
    }
  }

  /** In every run an acceptance that succeeds adds exactly one member: the invitee, in the invited
      organization and role, and with that role's permissions there. The program's branch for an invitee
      who is a member already is taken in no serial run. */
  lemma AcceptAddsOneMember(steps: seq<Step>, accept: Step) returns (i: Invitation, userID: ID)
    requires (forall k :: 0 <= k < |steps| ==> Proper(steps[k])) && Proper(accept)
    requires accept.Accept? && Apply(After(EMPTY_TABLES, steps), accept).1
    ensures var t := After(EMPTY_TABLES, steps);
            && Find(t.invitations, HasToken(accept.tokenHash)) == Some(i)
            && Joined(t, Apply(t, accept).0, i, userID, accept.ids.member)
  {
    RunKeepsStrangers(EMPTY_TABLES, steps);
    var t := After(EMPTY_TABLES, steps);
    i := Find(t.invitations, HasToken(accept.tokenHash)).value;
    userID := AcceptJoins(t, accept, i);
  }

  // ---- from the invitation to the acceptance ----

  lemma PendingIsFound(t: Tables, steps: seq<Step>, k: nat)
    requires Inv(t) && k < |t.invitations| && t.invitations[k].status == Pending
    requires forall i :: 0 <= i < |steps| ==> Proper(steps[i]) && !Presents(steps[i], t.invitations[k])
    ensures Find(After(t, steps).invitations, HasToken(t.invitations[k].tokenHash)) == Some(t.invitations[k])
  {
    PendingStays(t, steps, k);
    FoundByToken(After(t, steps), k);
  }

  lemma CreatedIsFound(t: Tables, invite: Step, between: seq<Step>)
    requires Inv(t) && Proper(invite) && Creates(t, invite)
    requires forall i :: 0 <= i < |between| ==> Proper(between[i]) && !Presents(between[i], Created(invite))
    ensures Find(After(Apply(t, invite).0, between).invitations, HasToken(invite.invitation.tokenHash))
         == Some(Created(invite))
  {
    InviteAdds(t, invite);
    StepKeepsInv(t, invite);
    PendingIsFound(Apply(t, invite).0, between, |t.invitations|);
  }

  lemma AcceptedInTime(t: Tables, accept: Step, i: Invitation) returns (userID: ID)
    requires Inv(t) && Strangers(t) && accept.Accept? && FreshIDs(t, accept.ids)
    requires Find(t.invitations, HasToken(accept.tokenHash)) == Some(i) && i.status == Pending
    ensures Apply(t, accept).1 <==> accept.now <= i.expiresAt && !DisabledHolds(t.users, i.email)
    ensures Apply(t, accept).1 ==> Joined(t, Apply(t, accept).0, i, userID, accept.ids.member)
  {
    userID := "";
    var k :| 0 <= k < |t.invitations| && t.invitations[k] == i;
    if accept.now <= i.expiresAt {
      AcceptSucceedsExactly(t, accept.tokenHash, accept.displayName, accept.passwordHash, accept.now, accept.ids, i);
    }
    if Apply(t, accept).1 {
      userID := AcceptJoins(t, accept, i);
    }
  }

  lemma StepThenRun(t: Tables, step: Step, steps: seq<Step>)
    requires Inv(t) && Strangers(t) && Proper(step) && forall i :: 0 <= i < |steps| ==> Proper(steps[i])
    ensures Inv(After(Apply(t, step).0, steps)) && Strangers(After(Apply(t, step).0, steps))
  {
    StepKeepsInv(t, step);
    StepKeepsStrangers(t, step);
    RunKeepsStrangers(Apply(t, step).0, steps);
  }

  /** In every run, an invitation that was created can be accepted exactly until its lifetime is over,
      unless it was presented before or a disabled user then holds the email; the invitee then joins the
      inviter's organization in the invited role. */
  lemma InvitedMayAccept(before: seq<Step>, invite: Step, between: seq<Step>, accept: Step) returns (userID: ID)
    requires forall i :: 0 <= i < |before| ==> Proper(before[i])
    requires Proper(invite) && Creates(After(EMPTY_TABLES, before), invite)
    requires forall i :: 0 <= i < |between| ==> Proper(between[i]) && !Presents(between[i], Created(invite))
    requires accept.Accept? && accept.tokenHash == invite.invitation.tokenHash
    requires FreshIDs(After(Apply(After(EMPTY_TABLES, before), invite).0, between), accept.ids)
    ensures var t := After(Apply(After(EMPTY_TABLES, before), invite).0, between);
            && (Apply(t, accept).1 <==>
                  accept.now <= invite.now + invite.lifetime && !DisabledHolds(t.users, invite.invitation.email))
            && (Apply(t, accept).1 ==> Joined(t, Apply(t, accept).0, Created(invite), userID, accept.ids.member))
  {
    RunKeepsStrangers(EMPTY_TABLES, before);
    StepThenRun(After(EMPTY_TABLES, before), invite, between);
    CreatedIsFound(After(EMPTY_TABLES, before), invite, between);
    userID := AcceptedInTime(After(Apply(After(EMPTY_TABLES, before), invite).0, between), accept, Created(invite));
  }
}
