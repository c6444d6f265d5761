/** When an organization can invite, how long an invitation bars the next, and who can accept. */
module InvitationLaws {
  import opened Wrappers
  import opened SessionModel
  import opened AccountTables
  import opened Accounts
  import opened AccountsRuns
  import opened AccountsLaws

  // ---- when inviting succeeds ----

  /** A user that is not disabled has the email and is a member. */
  predicate LiveMember(t: Tables, organizationID: ID, email: string) {
    exists u, m :: 0 <= u < |t.users| && 0 <= m < |t.members|
                   && t.users[u].email == email && !t.users[u].disabled
                   && t.members[m].userID == t.users[u].id && t.members[m].organizationID == organizationID
  }

  /** Whether it has expired makes no difference. */
  predicate PendingFor(t: Tables, organizationID: ID, email: string) {
    exists i :: 0 <= i < |t.invitations| && t.invitations[i].organizationID == organizationID
                && t.invitations[i].email == email && t.invitations[i].status == Pending
  }

  /** The row can go in: its organization and inviter exist, and its ID and token are new. */
  predicate Insertable(t: Tables, inviter: Inviter, invitation: NewInvitation) {
    && HasOrganization(t.organizations, inviter.organizationID)
    && (exists u :: 0 <= u < |t.users| && t.users[u].id == inviter.userID)
    && forall i :: 0 <= i < |t.invitations| ==>
         t.invitations[i].id != invitation.id && t.invitations[i].tokenHash != invitation.tokenHash
  }

  lemma LiveMemberIsFound(t: Tables, organizationID: ID, email: string)
    requires UsersValid(t.users) && LiveMember(t, organizationID, email)
    requires HasOrganization(t.organizations, organizationID)
    ensures var user := FindUserByEmail(t, email);
            user.Some? && user.value.id != NIL && BelongsTo(t, user.value.id, organizationID)
  {
    var u, m :| 0 <= u < |t.users| && 0 <= m < |t.members|
                && t.users[u].email == email && !t.users[u].disabled
                && t.members[m].userID == t.users[u].id && t.members[m].organizationID == organizationID;
    assert LiveWithEmail(email)(t.users[u]) && Belongs(t.users[u].id, organizationID)(t.members[m]);
    var k :| 0 <= k < |t.users| && t.users[k] == FindUserByEmail(t, email).value;
    var o :| 0 <= o < |t.organizations| && t.organizations[o].id == organizationID;
    assert OrganizationIs(organizationID)(t.organizations[o]);
  }

  lemma FoundIsLiveMember(t: Tables, organizationID: ID, email: string)
    requires FindUserByEmail(t, email).Some? && BelongsTo(t, FindUserByEmail(t, email).value.id, organizationID)
    ensures LiveMember(t, organizationID, email)
  {
    var user := FindUserByEmail(t, email).value;
    var u :| 0 <= u < |t.users| && t.users[u] == user;
    var m :| 0 <= m < |t.members| && t.members[m] == Find(t.members, Belongs(user.id, organizationID)).value;
  }

  lemma FoundMember(t: Tables, organizationID: ID, email: string)
    requires UsersValid(t.users) && HasOrganization(t.organizations, organizationID)
    ensures var user := FindUserByEmail(t, email);
            (user.Some? && user.value.id != NIL && BelongsTo(t, user.value.id, organizationID)) <==>
              LiveMember(t, organizationID, email)
  {
    var user := FindUserByEmail(t, email);
    if user.Some? && BelongsTo(t, user.value.id, organizationID) {
      FoundIsLiveMember(t, organizationID, email);
    }
    if LiveMember(t, organizationID, email) {
      LiveMemberIsFound(t, organizationID, email);
    }
  }

  lemma FoundPending(t: Tables, organizationID: ID, email: string)
    requires Inv(t)
    ensures var pending := Find(t.invitations, IsPending(organizationID, email));
            (pending.Some? && pending.value.id != NIL) <==> PendingFor(t, organizationID, email)
  {
    var pending := Find(t.invitations, IsPending(organizationID, email));
    if pending.Some? {
      var i :| 0 <= i < |t.invitations| && t.invitations[i] == pending.value;
      assert t.invitations[i].organizationID == organizationID;
    } else {
      assert forall i :: 0 <= i < |t.invitations| ==> !IsPending(organizationID, email)(t.invitations[i]);
    }
  }

  lemma InsertedExactly(t: Tables, inviter: Inviter, invitation: NewInvitation, i: Invitation)
    requires i.id == invitation.id && i.tokenHash == invitation.tokenHash
    requires i.organizationID == inviter.organizationID && i.invitedBy == inviter.userID
    ensures InsertInvitation(t, i).Ok? <==> Insertable(t, inviter, invitation)
  {
    assert forall o :: 0 <= o < |t.organizations| ==>
        (OrganizationIs(i.organizationID)(t.organizations[o]) <==> t.organizations[o].id == i.organizationID);
    assert forall u :: 0 <= u < |t.users| ==> (UserIs(i.invitedBy)(t.users[u]) <==> t.users[u].id == i.invitedBy);
    assert forall j :: 0 <= j < |t.invitations| ==>
        (InvitationClash(i)(t.invitations[j]) <==>
           t.invitations[j].id == i.id || t.invitations[j].tokenHash == i.tokenHash);
    if Find(t.organizations, OrganizationIs(i.organizationID)).Some? {
      var found := Find(t.organizations, OrganizationIs(i.organizationID)).value;
      var o :| 0 <= o < |t.organizations| && t.organizations[o] == found;
      assert HasOrganization(t.organizations, i.organizationID);
    }
    if Find(t.users, UserIs(i.invitedBy)).Some? {
      var u := UserIn(t, i.invitedBy);
    }
  }

  /** An invitation succeeds exactly when mail is configured, the inviter has the permission, the email
      is no live member's, no invitation of that organization to that email is pending, and the row
      can go in. */
  lemma InviteSucceedsExactly(t: Tables, configured: bool, inviter: Inviter, invitation: NewInvitation,
                              now: Time, lifetime: Time)
    requires Inv(t)
    ensures CreateInvitation(t, configured, Some(inviter), invitation, now, lifetime).Ok? <==>
              && configured && AUTH_INVITATIONS_CREATE in inviter.permissions
              && !LiveMember(t, inviter.organizationID, invitation.email)
              && !PendingFor(t, inviter.organizationID, invitation.email)
              && Insertable(t, inviter, invitation)
  {
    FoundPending(t, inviter.organizationID, invitation.email);
    InsertedExactly(t, inviter, invitation,
                    Invitation(invitation.id, inviter.organizationID, invitation.email, invitation.role, Pending,
                               invitation.tokenHash, now + lifetime, inviter.userID, None));
    if HasOrganization(t.organizations, inviter.organizationID) {
      FoundMember(t, inviter.organizationID, invitation.email);
    }
  }

  /** Why an invitation is refused, first reason first. */
  lemma InviteRefusedExactly(t: Tables, configured: bool, inviter: Option<Inviter>, invitation: NewInvitation,
                             now: Time, lifetime: Time)
    requires Inv(t)
    ensures CreateInvitation(t, configured, inviter, invitation, now, lifetime) ==
              if !configured then Err(NotConfigured)
              else if inviter.None? then Err(Unauthenticated)
              else if "auth.invitations.create" !in inviter.value.permissions then Err(Forbidden)
              else if LiveMember(t, inviter.value.organizationID, invitation.email)
                      || PendingFor(t, inviter.value.organizationID, invitation.email) then Err(AlreadyInvited)
              else if !Insertable(t, inviter.value, invitation) then Err(StoreFailed)
              else Ok(t.(invitations := t.invitations + [
                Invitation(invitation.id, inviter.value.organizationID, invitation.email, invitation.role, Pending,
                           invitation.tokenHash, now + lifetime, inviter.value.userID, None)]))
  {
    if inviter.Some? {
      var organizationID := inviter.value.organizationID;
      FoundPending(t, organizationID, invitation.email);
      InsertedExactly(t, inviter.value, invitation,
                      Invitation(invitation.id, organizationID, invitation.email, invitation.role, Pending,
                                 invitation.tokenHash, now + lifetime, inviter.value.userID, None));
      if HasOrganization(t.organizations, organizationID) {
        FoundMember(t, organizationID, invitation.email);
      } else {
        NoMembersThere(t, organizationID, invitation.email);
      }
    }
  }

  lemma NoMembersThere(t: Tables, organizationID: ID, email: string)
    requires MembersValid(t.users, t.organizations, t.members) && !HasOrganization(t.organizations, organizationID)
    ensures !LiveMember(t, organizationID, email)
    ensures Find(t.organizations, OrganizationIs(organizationID)).None?
  {
    if Find(t.organizations, OrganizationIs(organizationID)).Some? {
      OrganizationIn(t, organizationID);
    }
  }

  // ---- an invitation nobody accepts ----

  /** The step presents the invitation's token in time. */
  predicate Presents(step: Step, i: Invitation) {
    step.Accept? && step.tokenHash == i.tokenHash && step.now <= i.expiresAt
  }

  predicate InvitesAgain(step: Step, i: Invitation) {
    step.Invite? && step.inviter.Some? && step.inviter.value.organizationID == i.organizationID
    && step.invitation.email == i.email
  }

  /** Presented too late, the token is refused. */
  lemma LateAcceptIsRefused(t: Tables, step: Step, k: nat)
    requires Inv(t) && k < |t.invitations| && step.Accept? && step.tokenHash == t.invitations[k].tokenHash
    requires t.invitations[k].expiresAt < step.now
    ensures Apply(t, step) == (t, false)
  {
    FoundByToken(t, k);
  }

  lemma InviteAgainIsRefused(t: Tables, step: Step, k: nat)
    requires Inv(t) && k < |t.invitations| && t.invitations[k].status == Pending && InvitesAgain(step, t.invitations[k])
    ensures Apply(t, step) == (t, false)
  {
    assert PendingFor(t, t.invitations[k].organizationID, t.invitations[k].email);
    InviteSucceedsExactly(t, step.configured, step.inviter.value, step.invitation, step.now, step.lifetime);
  }

  lemma StepKeepsPending(t: Tables, step: Step, k: nat)
    requires Inv(t) && Proper(step) && k < |t.invitations| && t.invitations[k].status == Pending
    requires !Presents(step, t.invitations[k])
    ensures k < |Apply(t, step).0.invitations| && Apply(t, step).0.invitations[k] == t.invitations[k]
    ensures InvitesAgain(step, t.invitations[k]) || (step.Accept? && step.tokenHash == t.invitations[k].tokenHash) ==>
              Apply(t, step) == (t, false)
  {
    if step.Accept? && step.tokenHash == t.invitations[k].tokenHash {
      LateAcceptIsRefused(t, step, k);
    } else {
      StepProgresses(t, step);
      if InvitesAgain(step, t.invitations[k]) {
        InviteAgainIsRefused(t, step, k);
      }
    }
  }

  lemma {:induction false} PendingStays(t: Tables, steps: seq<Step>, k: nat)
    requires Inv(t) && k < |t.invitations| && t.invitations[k].status == Pending
    requires forall i :: 0 <= i < |steps| ==> Proper(steps[i]) && !Presents(steps[i], t.invitations[k])
    ensures var t' := After(t, steps);
            Inv(t') && k < |t'.invitations| && t'.invitations[k] == t.invitations[k]
    decreases |steps|
  {
    if steps != [] {
      StepKeepsInv(t, steps[0]);
      StepKeepsPending(t, steps[0], k);
      PendingStays(Apply(t, steps[0]).0, steps[1..], k);
    }
  }

  /** A pending invitation whose token is not presented in time, because it expired or because the
      mail that was to carry it failed, stays pending for good, and as long as it does its
      organization cannot invite that email again: the lookup for a pending invitation does not
      regard its expiry. */
  lemma PendingBlocksForGood(t: Tables, steps: seq<Step>, k: nat, next: Step)
    requires Inv(t) && k < |t.invitations| && t.invitations[k].status == Pending
    requires forall i :: 0 <= i < |steps| ==> Proper(steps[i]) && !Presents(steps[i], t.invitations[k])
    requires Proper(next) && !Presents(next, t.invitations[k])
    ensures var t' := After(t, steps);
            && k < |t'.invitations| && t'.invitations[k] == t.invitations[k]
            && (InvitesAgain(next, t.invitations[k]) ==> Apply(t', next) == (t', false))
  {
    PendingStays(t, steps, k);
    StepKeepsPending(After(t, steps), next, k);
  }

  /** The row outlives the failure of its mail. */
  lemma UnsentInvitationIsPending(t: Tables, step: Step)
    requires step.Invite? && step.mailFails
    requires CreateInvitation(t, step.configured, step.inviter, step.invitation, step.now, step.lifetime).Ok?
    ensures !Apply(t, step).1
    ensures var invitations := Apply(t, step).0.invitations;
            && |invitations| == |t.invitations| + 1 && invitations[|t.invitations|].status == Pending
            && InvitesAgain(step, invitations[|t.invitations|])
  {
  }
}
