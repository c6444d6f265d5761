/** Setup, invitation and acceptance as an object: store calls one by one, each of which may fail,
    inside transactions that work on their own copy of the tables. */
module AccountsService {
  import opened Wrappers
  import opened SessionModel
  import opened AccountTables
  import opened Accounts
  import opened AccountsRuns

  /** No coming call fails. */
  predicate Quiet(faults: seq<bool>) {
    forall i :: 0 <= i < |faults| ==> !faults[i]
  }

  /** Success means what the specification says; failure is the one it says or, when calls fail, a
      failure of the store. */
  predicate Follows(quiet: bool, work: Tables, e: Option<Failure>, spec: Result<Tables, Failure>) {
    match e
    case None => spec == Ok(work)
    case Some(f) => spec == Err(f) || (!quiet && f == StoreFailed)
  }

  /** All of what the specification says, or nothing. A session is asked for, for the user the
      specification gives, exactly when the transaction is known to be committed. Failures are the one the
      specification says, or of the store, or of the session; without faults, the one it says. */
  predicate TransactionIs(spec: Result<(Tables, ID), Failure>, before: Tables, after: Tables, e: Option<Failure>,
                          login: Option<ID>, clean: bool, sessionFails: bool)
  {
    && (after == before || (spec.Ok? && after == spec.value.0))
    && (login.Some? <==> e.None? || e == Some(SessionFailed))
    && (login.Some? ==> spec.Ok? && after == spec.value.0 && login.value == spec.value.1)
    && (e.Some? ==> e.value == StoreFailed || (e.value == SessionFailed && sessionFails) || spec == Err(e.value))
    && (clean ==>
          && after == (if spec.Ok? then spec.value.0 else before)
          && e == (if spec.Err? then Some(spec.error) else if sessionFails then Some(SessionFailed) else None))
  }

  class Service {
    var tables: Tables
    var work: Tables
    var begins: nat
    var commits: nat
    var rollbacks: nat
    /** Which of the coming store calls fail; beyond its end none does. */
    var faults: seq<bool>

    /** The committed tables are consistent, and every opened transaction has ended once. */
    predicate Valid()
      reads this
    {
      Inv(tables) && begins == commits + rollbacks
    }

    constructor (faults: seq<bool>)
      ensures Valid() && tables == EMPTY_TABLES && this.faults == faults
    {
      tables, work, begins, commits, rollbacks := EMPTY_TABLES, EMPTY_TABLES, 0, 0, 0;
      this.faults := faults;
    }

    method Call() returns (failed: bool)
      modifies this`faults
      ensures failed ==> !Quiet(old(faults))
      ensures Quiet(old(faults)) ==> Quiet(faults)
    {
      if faults == [] {
        return false;
      }
      failed := faults[0];
      faults := faults[1..];
    }

    /** One statement of the transaction. */
    method Exec(result: Result<Tables, Failure>) returns (e: Option<Failure>)
      requires result.Err? ==> result.error == StoreFailed
      modifies this`work, this`faults
      ensures Follows(Quiet(old(faults)), work, e, result)
      ensures Quiet(old(faults)) ==> Quiet(faults)
      ensures e.Some? ==> e.value == StoreFailed
    {
      var failed := Call();
      if failed || result.Err? {
        return Some(StoreFailed);
      }
      work := result.value;
      return None;
    }

    method Begin() returns (ok: bool)
      modifies this
      ensures tables == old(tables) && commits == old(commits) && rollbacks == old(rollbacks)
      ensures begins == old(begins) + (if ok then 1 else 0) && (ok ==> work == tables)
      ensures (!ok ==> !Quiet(old(faults))) && (Quiet(old(faults)) ==> Quiet(faults))
    {
      var failed := Call();
      if failed {
        return false;
      }
      begins, work := begins + 1, tables;
      return true;
    }

    /** Ends the open transaction. Whether or not a failure of the rollback is reported, nothing of the
        transaction remains. */
    method Rollback()
      requires begins == commits + rollbacks + 1
      modifies this`rollbacks, this`faults
      ensures begins == commits + rollbacks
      ensures rollbacks == old(rollbacks) + 1
      ensures Quiet(old(faults)) ==> Quiet(faults)
    {
      var _ := Call();
      rollbacks := rollbacks + 1;
    }

    /** Ends the open transaction; one that fails may have taken effect. */
    method Commit(fault: Fault) returns (ok: bool)
      requires begins == commits + rollbacks + 1
      modifies this`commits, this`tables
      ensures begins == commits + rollbacks
      ensures commits == old(commits) + 1 && ok == fault.NoFault?
      ensures tables == if fault.Lost? then old(tables) else work
    {
      commits := commits + 1;
      if !fault.Lost? {
        tables := work;
      }
      return fault.NoFault?;
    }

    // ---- setup ----

    method CreateFirstUserRows(owner: NewOwner) returns (e: Option<Failure>)
      modifies this`work, this`faults
      ensures Follows(Quiet(old(faults)), work, e, CreateFirstUser(old(work), owner))
      ensures e.Some? ==> e.value == StoreFailed || e.value == SetupCompleted
      ensures Quiet(old(faults)) ==> Quiet(faults)
    {
      var failed := Call();
      if failed {
        return Some(StoreFailed);
      }
      if |work.users| > 0 {
        return Some(SetupCompleted);
      }
      e := Exec(InsertUser(work, User(owner.id, owner.email, owner.displayName, true, false)));
      if e.Some? {
        return;
      }
      e := Exec(InsertAccount(work, Account(owner.accountID, owner.id, PASSWORD, owner.email, owner.passwordHash)));
      if e.Some? {
        return;
      }
      e := Exec(InsertOrganization(
        work, Organization(owner.organizationID, owner.organizationName, owner.organizationSlug)));
      if e.Some? {
        return;
      }
      e := CreateRoles(owner);
      if e.Some? {
        return;
      }
      e := Exec(InsertMember(work, Member(owner.memberID, owner.organizationID, owner.id, ADMIN)));
    }

    /** The nested loops over roles and their permissions. */
    method CreateRoles(owner: NewOwner) returns (e: Option<Failure>)
      modifies this`work, this`faults
      ensures Follows(Quiet(old(faults)), work, e, InsertRoles(old(work), owner, BUILT_IN_ROLES))
      ensures e.Some? ==> e.value == StoreFailed
      ensures Quiet(old(faults)) ==> Quiet(faults)
    {
      e := None;
      var i := 0;
      while i < |BUILT_IN_ROLES|
        invariant 0 <= i <= |BUILT_IN_ROLES| && e.None?
        invariant Quiet(old(faults)) ==> Quiet(faults)
        invariant InsertRoles(work, owner, BUILT_IN_ROLES[i..]) == InsertRoles(old(work), owner, BUILT_IN_ROLES)
      {
        var role := BUILT_IN_ROLES[i];
        assert BUILT_IN_ROLES[i..][0] == role && BUILT_IN_ROLES[i..][1..] == BUILT_IN_ROLES[i + 1..];
        e := Exec(InsertRole(work, Role(owner.RoleID(role), owner.organizationID, role)));
        if e.Some? {
          return;
        }
        e := CreateGrants(owner.RoleID(role), DefaultRolePermissions(role));
        if e.Some? {
          return;
        }
        i := i + 1;
      }
    }

    method CreateGrants(roleID: ID, permissions: seq<string>) returns (e: Option<Failure>)
      modifies this`work, this`faults
      ensures Follows(Quiet(old(faults)), work, e, InsertGrants(old(work), roleID, permissions))
      ensures e.Some? ==> e.value == StoreFailed
      ensures Quiet(old(faults)) ==> Quiet(faults)
    {
      e := None;
      var i := 0;
      while i < |permissions|
        invariant 0 <= i <= |permissions| && e.None?
        invariant Quiet(old(faults)) ==> Quiet(faults)
        invariant InsertGrants(work, roleID, permissions[i..]) == InsertGrants(old(work), roleID, permissions)
      {
        assert permissions[i..][0] == permissions[i] && permissions[i..][1..] == permissions[i + 1..];
        e := Exec(InsertGrant(work, Grant(roleID, permissions[i])));
        if e.Some? {
          return;
        }
        i := i + 1;
      }
    }

    /** Setup leaves the tables as they were, or in full as specified. A transaction it opened ends in
        one commit or one rollback. Without faults it is the setup step; what may fail once the
        transaction is committed leaves its result. `login` is the user and organization a session is
        asked for. */
    method SetupFirstUser(owner: NewOwner, commitFault: Fault, eventFails: bool, sessionFails: bool)
      returns (e: Option<Failure>, login: Option<(ID, ID)>)
      requires Valid() && owner.id != NIL
      modifies this
      ensures Valid() && begins <= old(begins) + 1
      ensures || tables == old(tables)
              || (Apply(old(tables), Setup(owner)) == (tables, true) && commits == old(commits) + 1)
      ensures e.None? || e == Some(EventFailed) || e == Some(SessionFailed) ==>
                Apply(old(tables), Setup(owner)) == (tables, true)
      ensures login == if e.None? || e == Some(SessionFailed) then Some((owner.id, owner.organizationID)) else None
      ensures e.Some? ==> e.value in {StoreFailed, SetupCompleted, EventFailed, SessionFailed}
      ensures Quiet(old(faults)) && commitFault.NoFault? ==>
                && tables == Apply(old(tables), Setup(owner)).0
                && e == match CreateFirstUser(old(tables), owner)
                        case Err(failure) => Some(failure)
                        case Ok(_) => if eventFails then Some(EventFailed)
                                      else if sessionFails then Some(SessionFailed) else None
    {
      login := None;
      var begun := Begin();
      if !begun {
        return Some(StoreFailed), None;
      }
      e := CreateFirstUserRows(owner);
      if e.Some? {
        Rollback();
        return;
      }
      SetupKeepsInv(tables, owner);
      var committed := Commit(commitFault);
      if !committed {
        return Some(StoreFailed), None;
      }
      if eventFails {
        return Some(EventFailed), None;
      }
      login := Some((owner.id, owner.organizationID));
      e := if sessionFails then Some(SessionFailed) else None;
    }

    // ---- inviting ----

    /** The invitation is inserted outright, so it outlives the failure of its mail, and an insert whose
        reply is lost. */
    method Invite(configured: bool, inviter: Option<Inviter>, invitation: NewInvitation, now: Time, lifetime: Time,
                  tokenFails: bool, mailFails: bool, failedInsertApplies: bool)
      returns (e: Option<Failure>)
      requires Valid() && invitation.id != NIL
      modifies this`tables, this`faults
      ensures Valid()
      ensures var step := Step.Invite(configured, inviter, invitation, lifetime, mailFails, now);
              && (tables == old(tables) || tables == Apply(old(tables), step).0)
              && (e.None? ==> Apply(old(tables), step) == (tables, true))
              && (e == Some(MailFailed) ==> mailFails && tables == Apply(old(tables), step).0)
              && (Quiet(old(faults)) && !tokenFails ==> (tables, e.None?) == Apply(old(tables), step))
      ensures var r := CreateInvitation(old(tables), configured, inviter, invitation, now, lifetime);
              && (e.Some? ==> e.value == StoreFailed || e.value == MailFailed || r == Err(e.value))
              && (Quiet(old(faults)) && !tokenFails ==>
                    e == if r.Err? then Some(r.error) else if mailFails then Some(MailFailed) else None)
    {
      if !configured {
        return Some(NotConfigured);
      }
      if inviter.None? {
        return Some(Unauthenticated);
      }
      if AUTH_INVITATIONS_CREATE !in inviter.value.permissions {
        return Some(Forbidden);
      }
      var organizationID := inviter.value.organizationID;
      var failed := Call();
      if failed {
        return Some(StoreFailed);
      }
      var user := FindUserByEmail(tables, invitation.email);
      if user.Some? && user.value.id != NIL {
        failed := Call();
        if failed {
          return Some(StoreFailed);
        }
        if BelongsTo(tables, user.value.id, organizationID) {
          return Some(AlreadyInvited);
        }
      }
      failed := Call();
      if failed {
        return Some(StoreFailed);
      }
      var pending := Find(tables.invitations, IsPending(organizationID, invitation.email));
      if pending.Some? && pending.value.id != NIL {
        return Some(AlreadyInvited);
      }
      if tokenFails {
        return Some(StoreFailed);
      }
      var inserted := InsertInvitation(
        tables, Invitation(invitation.id, organizationID, invitation.email, invitation.role, Pending,
                           invitation.tokenHash, now + lifetime, inviter.value.userID, None));
      failed := Call();
      if inserted.Err? || (failed && !failedInsertApplies) {
        return Some(StoreFailed);
      }
      InviteKeepsInv(tables, configured, inviter, invitation, now, lifetime);
      tables := inserted.value;
      if failed {
        return Some(StoreFailed);
      }
      return if mailFails then Some(MailFailed) else None;
    }

    // ---- accepting ----

    /** Accepting is one function of many exits, cut here into four parts, each of which goes on to the
        next. Every exit but the last ends the transaction by a rollback of its own.

        As for setup, the tables are as before or hold the whole acceptance. */
    method Accept(token: string, displayName: string, hash: string, hashFails: bool, now: Time, ids: NewIDs,
                  commitFault: Fault, sessionFails: bool)
      returns (e: Option<Failure>, login: Option<(ID, ID)>)
      requires Valid() && ids.user != NIL
      modifies this
      ensures Valid() && begins <= old(begins) + 1
      ensures var step := Step.Accept(HashToken(token), displayName, hash, ids, now);
              && (tables == old(tables) || (Apply(old(tables), step) == (tables, true) && commits == old(commits) + 1))
              && (e.None? || e == Some(SessionFailed) ==> Apply(old(tables), step) == (tables, true))
              && (Quiet(old(faults)) && !hashFails && commitFault.NoFault? ==> tables == Apply(old(tables), step).0)
      ensures var found := Find(old(tables).invitations, HasToken(HashToken(token)));
              var r := AcceptInvitation(old(tables), HashToken(token), displayName, hash, now, ids);
              && (login.Some? <==> e.None? || e == Some(SessionFailed))
              && (login.Some? ==>
                    found.Some? && r.Ok? && login.value == (r.value.1, found.value.organizationID))
              && (e.Some? ==> e.value == StoreFailed || (e.value == SessionFailed && sessionFails) || r == Err(e.value))
              && (Quiet(old(faults)) && !hashFails && commitFault.NoFault? ==>
                    e == if r.Err? then Some(r.error) else if sessionFails then Some(SessionFailed) else None)
    {
      if AcceptInvitation(tables, HashToken(token), displayName, hash, now, ids).Ok? {
        AcceptKeepsInv(tables, HashToken(token), displayName, hash, now, ids);
      }
      var found := Find(tables.invitations, HasToken(HashToken(token)));
      var userID;
      e, userID := AcceptTransaction(token, displayName, hash, hashFails, now, ids, commitFault, sessionFails);
      login := if userID.Some? then Some((userID.value, found.value.organizationID)) else None;
    }

    /** Opening the transaction, and the invitation. */
    method AcceptTransaction(token: string, displayName: string, hash: string, hashFails: bool, now: Time, ids: NewIDs,
                             commitFault: Fault, sessionFails: bool)
      returns (e: Option<Failure>, login: Option<ID>)
      requires begins == commits + rollbacks
      modifies this
      ensures begins == commits + rollbacks && begins <= old(begins) + 1
      ensures tables == old(tables) || commits == old(commits) + 1
      ensures TransactionIs(AcceptInvitation(old(tables), HashToken(token), displayName, hash, now, ids),
                            old(tables), tables, e, login,
                            Quiet(old(faults)) && !hashFails && commitFault.NoFault?, sessionFails)
    {
      var begun := Begin();
      if !begun {
        return Some(StoreFailed), None;
      }
      var failed := Call();
      if failed {
        Rollback();
        return Some(StoreFailed), None;
      }
      var found := Find(work.invitations, HasToken(HashToken(token)));
      if found.None? {
        Rollback();
        return Some(InvalidInvitation), None;
      }
      var i := found.value;
      if i.id == NIL || i.status != Pending || i.acceptedAt.Some? || now > i.expiresAt {
        Rollback();
        return Some(InvalidInvitation), None;
      }
      if hashFails {
        Rollback();
        return Some(StoreFailed), None;
      }
      e, login := AcceptUser(i, displayName, hash, now, ids, commitFault, sessionFails);
    }

    /** The user of the invited email, found or created. */
    method AcceptUser(i: Invitation, displayName: string, hash: string, now: Time, ids: NewIDs,
                      commitFault: Fault, sessionFails: bool)
      returns (e: Option<Failure>, login: Option<ID>)
      requires begins == commits + rollbacks + 1
      modifies this
      ensures begins == commits + rollbacks == old(begins)
      ensures tables == old(tables) || commits == old(commits) + 1
      ensures TransactionIs(AcceptOpen(old(work), i, displayName, hash, now, ids),
                            old(tables), tables, e, login, Quiet(old(faults)) && commitFault.NoFault?, sessionFails)
    {
      var failed := Call();
      if failed {
        Rollback();
        return Some(StoreFailed), None;
      }
      var userID := ids.user;
      var user := FindUserByEmail(work, i.email);
      if user.Some? {
        userID := user.value.id;
        if userID == NIL {
          Rollback();
          return Some(InvalidInvitation), None;
        }
        if !user.value.verified {
          e := Exec(Ok(VerifyEmail(work, userID)));
          if e.Some? {
            Rollback();
            return e, None;
          }
        }
      } else {
        var name := if displayName == "" then i.email else displayName;
        e := Exec(InsertUser(work, User(userID, i.email, name, true, false)));
        if e.Some? {
          Rollback();
          return e, None;
        }
      }
      e, login := AcceptPassword(userID, i, hash, now, ids, commitFault, sessionFails);
    }

    /** The user's password account, updated or created. */
    method AcceptPassword(userID: ID, i: Invitation, hash: string, now: Time, ids: NewIDs,
                          commitFault: Fault, sessionFails: bool)
      returns (e: Option<Failure>, login: Option<ID>)
      requires begins == commits + rollbacks + 1
      modifies this
      ensures begins == commits + rollbacks == old(begins)
      ensures tables == old(tables) || commits == old(commits) + 1
      ensures TransactionIs(AcceptAs(old(work), userID, i, hash, now, ids),
                            old(tables), tables, e, login, Quiet(old(faults)) && commitFault.NoFault?, sessionFails)
    {
      var failed := Call();
      if failed {
        Rollback();
        return Some(StoreFailed), None;
      }
      if Find(work.accounts, PasswordOf(userID)).Some? {
        e := Exec(Ok(UpdatePasswordHash(work, userID, hash)));
        if e.Some? {
          Rollback();
          return e, None;
        }
      } else {
        e := Exec(InsertAccount(work, Account(ids.account, userID, PASSWORD, i.email, hash)));
        if e.Some? {
          Rollback();
          return e, None;
        }
      }
      e, login := AcceptMember(userID, i, now, ids, commitFault, sessionFails);
    }

    /** The membership, the invitation itself, and the commit. */
    method AcceptMember(userID: ID, i: Invitation, now: Time, ids: NewIDs, commitFault: Fault, sessionFails: bool)
      returns (e: Option<Failure>, login: Option<ID>)
      requires begins == commits + rollbacks + 1
      modifies this
      ensures begins == commits + rollbacks == old(begins)
      ensures tables == old(tables) || commits == old(commits) + 1
      ensures TransactionIs(AcceptWith(old(work), userID, i, now, ids),
                            old(tables), tables, e, login, Quiet(old(faults)) && commitFault.NoFault?, sessionFails)
    {
      var failed := Call();
      if failed {
        Rollback();
        return Some(StoreFailed), None;
      }
      if !BelongsTo(work, userID, i.organizationID) {
        e := Exec(InsertMember(work, Member(ids.member, i.organizationID, userID, i.role)));
        if e.Some? {
          Rollback();
          return e, None;
        }
      }
      e := Exec(Ok(ConsumeInvitation(work, i.id, now)));
      if e.Some? {
        Rollback();
        return e, None;
      }
      var committed := Commit(commitFault);
      if !committed {
        return Some(StoreFailed), None;
      }
      return if sessionFails then Some(SessionFailed) else None, Some(userID);
    }
  }
}
