/** Invitations over runs: who can always accept, and two runs in which somebody cannot. */
module InvitationRuns {
  import opened Wrappers
  import opened SessionModel
  import opened AccountTables
  import opened Accounts
  import opened AccountsRuns
  import opened AccountsLaws
  import opened InvitationLaws

  // ---- without disabled users an open invitation is accepted ----

  predicate NoneDisabled(users: seq<User>) {
    forall u :: 0 <= u < |users| ==> !users[u].disabled
  }

  lemma EnsuredKeepsNoneDisabled(users: seq<User>, users': seq<User>, userID: ID, email: string, displayName: string,
                                 id: ID)
    requires UserEnsured(users, users', userID, email, displayName, id) && NoneDisabled(users)
    ensures NoneDisabled(users')
  {
  }

  lemma AcceptKeepsNoneDisabled(t: Tables, step: Step)
    requires Inv(t) && Proper(step) && step.Accept? && Apply(t, step).1 && NoneDisabled(t.users)
    ensures NoneDisabled(Apply(t, step).0.users)
  {
    AcceptMeans(t, step.tokenHash, step.displayName, step.passwordHash, step.now, step.ids);
    var (t', userID) :=
      AcceptInvitation(t, step.tokenHash, step.displayName, step.passwordHash, step.now, step.ids).value;
    EnsuredKeepsNoneDisabled(t.users, t'.users, userID, Find(t.invitations, HasToken(step.tokenHash)).value.email,
                             step.displayName, step.ids.user);
  }

  lemma StepKeepsNoneDisabled(t: Tables, step: Step)
    requires Inv(t) && Proper(step) && !step.Disable? && NoneDisabled(t.users)
    ensures NoneDisabled(Apply(t, step).0.users)
  {
    match step
    case Accept(_, _, _, _, _) =>
      if Apply(t, step).1 {
        AcceptKeepsNoneDisabled(t, step);
      }
    case Setup(owner) =>
      if Apply(t, step).1 {
        SetupKeepsInv(t, owner);
      }
    case Invite(_, _, _, _, _, _) => InviteTouches(t, step);
  }

  lemma {:induction false} NoneDisabledInRuns(t: Tables, steps: seq<Step>)
    requires Inv(t) && NoneDisabled(t.users)
    requires forall i :: 0 <= i < |steps| ==> Proper(steps[i]) && !steps[i].Disable?
    ensures Inv(After(t, steps)) && NoneDisabled(After(t, steps).users)
    decreases |steps|
  {
    if steps != [] {
      StepKeepsInv(t, steps[0]);
      StepKeepsNoneDisabled(t, steps[0]);
      NoneDisabledInRuns(Apply(t, steps[0]).0, steps[1..]);
    }
  }

  /** In every run in which no administrator of the database disables a user, an open invitation is
      accepted: the transaction meets no uniqueness violation. */
  lemma OpenInvitationIsAccepted(steps: seq<Step>, h: TokenHash, displayName: string, hash: string, now: Time,
                                 ids: NewIDs, i: Invitation)
    requires forall k :: 0 <= k < |steps| ==> Proper(steps[k]) && !steps[k].Disable?
    requires FreshIDs(After(EMPTY_TABLES, steps), ids)
    requires Find(After(EMPTY_TABLES, steps).invitations, HasToken(h)) == Some(i) && Open(i, now)
    ensures AcceptInvitation(After(EMPTY_TABLES, steps), h, displayName, hash, now, ids).Ok?
  {
    NoneDisabledInRuns(EMPTY_TABLES, steps);
    AcceptSucceedsExactly(After(EMPTY_TABLES, steps), h, displayName, hash, now, ids, i);
  }

  // ---- a setup and an invitation, in values ----

  const ANN := User("u", "ann", "Ann", true, false)
  const BOB := User("v", "bob", "Bob", true, false)
  const OWNER := NewOwner("u", "a", "o", "m", "r", "s", "ann", "Ann", "secret", "O", "o")
  const INVITER := Inviter("u", "o", [AUTH_INVITATIONS_CREATE])
  const FIRST := HashToken("first")
  const SECOND := HashToken("second")

  function InviteBob(id: ID, h: TokenHash, now: Time): Step {
    Invite(true, Some(INVITER), NewInvitation(id, "bob", MEMBER, h), 10, false, now)
  }

  function AcceptBob(h: TokenHash, ids: NewIDs, now: Time): Step {
    Accept(h, "Bob", "hidden", ids, now)
  }

  /** Bob's invitation, ten units of time from `now`. */
  function Invited(id: ID, h: TokenHash, now: Time): Invitation {
    Invitation(id, "o", "bob", MEMBER, Pending, h, now + 10, "u", None)
  }

  function SetUp(): Tables {
    Tables([ANN], [Account("a", "u", PASSWORD, "ann", "secret")], [Organization("o", "O", "o")],
           [Role("r", "o", ADMIN), Role("s", "o", MEMBER)], AdminGrants("r"), [Member("m", "o", "u", ADMIN)], [])
  }

  lemma SetUpIsReached()
    ensures Apply(EMPTY_TABLES, Setup(OWNER)) == (SetUp(), true) && Inv(SetUp()) && OWNER.id != NIL
  {
    var t := SetupTables(EMPTY_TABLES, OWNER);
    assert |NIL| == 36;
    StepKeepsInv(EMPTY_TABLES, Setup(OWNER));
  }

  /** Inviting Bob when nothing stands against it appends his invitation. */
  lemma BobIsInvited(t: Tables, id: ID, h: TokenHash, now: Time)
    requires Inv(t) && t.organizations == [Organization("o", "O", "o")] && t.users != [] && t.users[0] == ANN
    requires !LiveMember(t, "o", "bob") && !PendingFor(t, "o", "bob") && id != NIL
    requires forall i :: 0 <= i < |t.invitations| ==> t.invitations[i].id != id && t.invitations[i].tokenHash != h
    ensures Apply(t, InviteBob(id, h, now)) == (t.(invitations := t.invitations + [Invited(id, h, now)]), true)
    ensures Inv(t.(invitations := t.invitations + [Invited(id, h, now)]))
  {
    assert t.organizations[0].id == "o" && t.users[0].id == "u" && INVITER.permissions[0] == AUTH_INVITATIONS_CREATE;
    assert Insertable(t, INVITER, NewInvitation(id, "bob", MEMBER, h));
    InviteSucceedsExactly(t, true, INVITER, NewInvitation(id, "bob", MEMBER, h), now, 10);
    StepKeepsInv(t, InviteBob(id, h, now));
  }

  function OnceInvited(): Tables {
    SetUp().(invitations := [] + [Invited("i", FIRST, 0)])
  }

  lemma OnceInvitedIsReached()
    ensures Apply(SetUp(), InviteBob("i", FIRST, 0)) == (OnceInvited(), true) && Inv(OnceInvited())
  {
    SetUpIsReached();
    assert SetUp().users[0] == ANN && |NIL| == 36;
    BobIsInvited(SetUp(), "i", FIRST, 0);
  }

  // ---- an expired invitation ----

  /** A run in which Bob's invitation expires: he can then not accept it, and cannot be invited again. */
  lemma ExpiredInvitationBars()
    ensures var t := After(EMPTY_TABLES, [Setup(OWNER), InviteBob("i", FIRST, 0)]);
            && t == OnceInvited()
            && Apply(t, AcceptBob(FIRST, NewIDs("v", "b", "n"), 11)) == (t, false)
            && Apply(t, InviteBob("j", SECOND, 11)) == (t, false)
  {
    SetUpIsReached();
    OnceInvitedIsReached();
    var t := OnceInvited();
    RunOfTwo(EMPTY_TABLES, Setup(OWNER), InviteBob("i", FIRST, 0));
    assert |NIL| == 36 && t.invitations[0] == Invited("i", FIRST, 0);
    StepKeepsPending(t, AcceptBob(FIRST, NewIDs("v", "b", "n"), 11), 0);
    StepKeepsPending(t, InviteBob("j", SECOND, 11), 0);
  }

  lemma RunOfTwo(t: Tables, first: Step, second: Step)
    ensures After(t, [first, second]) == Apply(Apply(t, first).0, second).0
  {
    assert [first, second][1..] == [second] && [second][1..] == [];
    assert After(Apply(t, first).0, [second]) == Apply(Apply(t, first).0, second).0;
  }

  // ---- a disabled user ----

  function Joined(): Tables {
    OnceInvited().(users := [ANN] + [BOB],
                   accounts := OnceInvited().accounts + [Account("b", "v", PASSWORD, "bob", "hidden")],
                   members := OnceInvited().members + [Member("n", "o", "v", MEMBER)],
                   invitations := [Invited("i", FIRST, 0).(status := Accepted, acceptedAt := Some(5))])
  }

  lemma BobMayJoin()
    ensures AcceptInvitation(OnceInvited(), FIRST, "Bob", "hidden", 5, NewIDs("v", "b", "n")).Ok?
    ensures Find(OnceInvited().invitations, HasToken(FIRST)) == Some(Invited("i", FIRST, 0)) && "v" != NIL
  {
    OnceInvitedIsReached();
    var t, ids := OnceInvited(), NewIDs("v", "b", "n");
    assert |NIL| == 36 && t.users[0] == ANN && t.invitations[0] == Invited("i", FIRST, 0);
    FoundByToken(t, 0);
    AcceptSucceedsExactly(t, FIRST, "Bob", "hidden", 5, ids, t.invitations[0]);
  }

  lemma JoinedRows(t': Tables, userID: ID)
    requires UserEnsured([ANN], t'.users, userID, "bob", "Bob", "v")
    requires PasswordEnsured(OnceInvited().accounts, t'.accounts, userID, "bob", "hidden", "b")
    requires MemberEnsured(OnceInvited().members, t'.members, userID, "o", MEMBER, "n")
    requires OneAccepted(OnceInvited().invitations, t'.invitations, FIRST, 5)
    ensures t'.users == Joined().users && t'.accounts == Joined().accounts
    ensures t'.members == Joined().members && t'.invitations == Joined().invitations
  {
    assert [ANN][0].email == "ann";
    assert OnceInvited().accounts[0].userID == "u" && OnceInvited().members[0].userID == "u";
    assert OnceInvited().invitations[0].tokenHash == FIRST;
  }

  lemma BobJoins()
    ensures Apply(OnceInvited(), AcceptBob(FIRST, NewIDs("v", "b", "n"), 5)) == (Joined(), true) && Inv(Joined())
  {
    OnceInvitedIsReached();
    BobMayJoin();
    var t, ids := OnceInvited(), NewIDs("v", "b", "n");
    AcceptMeans(t, FIRST, "Bob", "hidden", 5, ids);
    var (t', userID) := AcceptInvitation(t, FIRST, "Bob", "hidden", 5, ids).value;
    JoinedRows(t', userID);
    StepKeepsInv(t, AcceptBob(FIRST, ids, 5));
  }

  function BobDisabled(): Tables {
    Joined().(users := [ANN] + [BOB.(disabled := true)])
  }

  lemma BobIsDisabled()
    ensures Apply(Joined(), Disable("v")) == (BobDisabled(), true) && Inv(BobDisabled())
  {
    BobJoins();
    assert Joined().users[0] == ANN && Joined().users[1] == BOB;
    assert DisableUser(Joined(), "v").users == BobDisabled().users;
    StepKeepsInv(Joined(), Disable("v"));
  }

  function InvitedAgain(): Tables {
    BobDisabled().(invitations := BobDisabled().invitations + [Invited("j", SECOND, 20)])
  }

  lemma BobIsInvitedAgain()
    ensures Apply(BobDisabled(), InviteBob("j", SECOND, 20)) == (InvitedAgain(), true) && Inv(InvitedAgain())
  {
    BobIsDisabled();
    var t := BobDisabled();
    assert |NIL| == 36 && t.users[0] == ANN && t.users[1] == BOB.(disabled := true);
    assert t.invitations[0].status == Accepted && FIRST != SECOND;
    BobIsInvited(t, "j", SECOND, 20);
  }

  predicate AllSucceed(t: Tables, steps: seq<Step>)
    decreases |steps|
  {
    steps == [] || (Proper(steps[0]) && Apply(t, steps[0]).1 && AllSucceed(Apply(t, steps[0]).0, steps[1..]))
  }

  lemma Cons(t: Tables, step: Step, t': Tables, steps: seq<Step>)
    requires Proper(step) && Apply(t, step) == (t', true) && AllSucceed(t', steps)
    ensures AllSucceed(t, [step] + steps) && After(t, [step] + steps) == After(t', steps)
  {
    assert ([step] + steps)[1..] == steps;
  }

  lemma ReachInvitedAgain() returns (steps: seq<Step>)
    ensures AllSucceed(EMPTY_TABLES, steps) && After(EMPTY_TABLES, steps) == InvitedAgain()
  {
    SetUpIsReached();
    OnceInvitedIsReached();
    BobJoins();
    BobIsDisabled();
    BobIsInvitedAgain();
    assert |NIL| == 36;
    Cons(BobDisabled(), InviteBob("j", SECOND, 20), InvitedAgain(), []);
    steps := [InviteBob("j", SECOND, 20)] + [];
    Cons(Joined(), Disable("v"), BobDisabled(), steps);
    steps := [Disable("v")] + steps;
    Cons(OnceInvited(), AcceptBob(FIRST, NewIDs("v", "b", "n"), 5), Joined(), steps);
    steps := [AcceptBob(FIRST, NewIDs("v", "b", "n"), 5)] + steps;
    Cons(SetUp(), InviteBob("i", FIRST, 0), OnceInvited(), steps);
    steps := [InviteBob("i", FIRST, 0)] + steps;
    Cons(EMPTY_TABLES, Setup(OWNER), SetUp(), steps);
    steps := [Setup(OWNER)] + steps;
  }

  /** A run in which Bob joins, an administrator of the database disables him, and he is invited again
      as if unknown: each step succeeds, and then the open invitation is refused, whatever new IDs are
      generated. */
  lemma DisabledInviteeCannotAccept(displayName: string, hash: string, ids: NewIDs) returns (steps: seq<Step>)
    requires FreshIDs(InvitedAgain(), ids)
    ensures AllSucceed(EMPTY_TABLES, steps)
    ensures var t := After(EMPTY_TABLES, steps);
            && t == InvitedAgain()
            && Find(t.invitations, HasToken(SECOND)) == Some(Invited("j", SECOND, 20))
            && Open(Invited("j", SECOND, 20), 25)
            && AcceptInvitation(t, SECOND, displayName, hash, 25, ids).Err?
  {
    steps := ReachInvitedAgain();
    BobIsInvitedAgain();
    var t := InvitedAgain();
    assert |NIL| == 36 && t.users[1].email == "bob" && t.users[1].disabled;
    assert t.invitations[1] == Invited("j", SECOND, 20);
    FoundByToken(t, 1);
    AcceptSucceedsExactly(t, SECOND, displayName, hash, 25, ids, t.invitations[1]);
  }
}
