/** Resetting a password by mailed token: a password, a token and sessions written in order, without a
    transaction. */
module PasswordReset {
  import opened Wrappers
  import opened SessionModel
  import opened AccountTables
  import AccountsRuns
  import AccountsLaws
  import SessionRuns

  const PASSWORD_RESET := "password_reset"

  datatype VerificationToken = VerificationToken(
    id: ID, userID: Option<ID>, purpose: string, tokenHash: TokenHash, expiresAt: Time, consumedAt: Option<Time>)

  datatype World = World(tables: Tables, tokens: seq<VerificationToken>, sessions: State)

  datatype ResetFailure = InvalidToken | NoMailer | Store(stage: Stage) | Sessions(error: Error)

  datatype Stage =
    FindingUser | InsertingToken | SendingMail | FindingToken | Hashing | UpdatingPassword | ConsumingToken

  /** Which calls fail; a write may fail before or after it took effect. */
  datatype ResetFaults = ResetFaults(find: bool, hash: bool, update: Fault, consume: Fault, sessions: Faults)

  const CLEAN := ResetFaults(false, false, NoFault, NoFault, NO_FAULTS)

  const EMPTY_WORLD := World(EMPTY_TABLES, [], EMPTY)

  function ResetTokenOf(h: TokenHash): VerificationToken -> bool {
    (v: VerificationToken) => v.tokenHash == h && v.purpose == PASSWORD_RESET
  }

  function Unconsumed(id: ID): VerificationToken -> bool {
    (v: VerificationToken) => v.id == id && v.consumedAt.None?
  }

  function TokenClash(v: VerificationToken): VerificationToken -> bool {
    (w: VerificationToken) => w.id == v.id || w.tokenHash == v.tokenHash
  }

  function ConsumeToken(tokens: seq<VerificationToken>, id: ID, now: Time): seq<VerificationToken> {
    Update(tokens, Unconsumed(id), (v: VerificationToken) => v.(consumedAt := Some(now)))
  }

  predicate Usable(v: VerificationToken, now: Time) {
    v.userID.Some? && v.consumedAt.None? && now <= v.expiresAt
  }

  /** Forgetting a password: a token for a live user of that email, and silence for any other. */
  function ForgotPassword(w: World, configured: bool, email: string, id: ID, h: TokenHash, expiresAt: Time,
                          mailFails: bool): (World, Option<ResetFailure>)
  {
    if !configured then (w, Some(NoMailer)) else
    match FindUserByEmail(w.tables, email)
    case None => (w, None)
    case Some(user) =>
      if user.id == NIL then (w, None) else
      var v := VerificationToken(id, Some(user.id), PASSWORD_RESET, h, expiresAt, None);
      match Insert(w.tokens, v, TokenClash(v))
      case None => (w, Some(Store(InsertingToken)))
      case Some(tokens) => (w.(tokens := tokens), if mailFails then Some(Store(SendingMail)) else None)
  }

  function ResetPassword(cfg: Config, w: World, rawToken: string, hash: string, now: Time, revokedAt: Time,
                         f: ResetFaults): (World, Option<ResetFailure>)
  {
    if f.find then (w, Some(Store(FindingToken))) else
    match Find(w.tokens, ResetTokenOf(HashToken(rawToken)))
    case None => (w, Some(InvalidToken))
    case Some(v) =>
      if !Usable(v, now) then (w, Some(InvalidToken))
      else if f.hash then (w, Some(Store(Hashing)))
      else if f.update.Lost? then (w, Some(Store(UpdatingPassword)))
      else
        var w1 := w.(tables := UpdatePasswordHash(w.tables, v.userID.value, hash));
        if f.update.Applied? then (w1, Some(Store(UpdatingPassword)))
        else if f.consume.Lost? then (w1, Some(Store(ConsumingToken)))
        else
          var w2 := w1.(tokens := ConsumeToken(w.tokens, v.id, now));
          if f.consume.Applied? then (w2, Some(Store(ConsumingToken)))
          else
            var (sessions, r) := RevokeForUser(cfg, w.sessions, v.userID.value, revokedAt, f.sessions);
            (w2.(sessions := sessions), if r.Ok? then None else Some(Sessions(r.error)))
  }

  // ---- what a reset achieves ----

  predicate TokensValid(tokens: seq<VerificationToken>) {
    forall i, j :: 0 <= i < j < |tokens| ==>
      tokens[i].id != tokens[j].id && tokens[i].tokenHash != tokens[j].tokenHash
  }

  /** A reset token of this value is some user's, not consumed and not expired. */
  predicate IsUsable(w: World, rawToken: string, now: Time) {
    exists k :: 0 <= k < |w.tokens|
                && w.tokens[k].tokenHash == HashToken(rawToken) && w.tokens[k].purpose == "password_reset"
                && w.tokens[k].userID.Some? && w.tokens[k].consumedAt.None? && now <= w.tokens[k].expiresAt
  }

  lemma FoundIsTheOne(tokens: seq<VerificationToken>, h: TokenHash, k: nat)
    requires TokensValid(tokens) && k < |tokens| && ResetTokenOf(h)(tokens[k])
    ensures Find(tokens, ResetTokenOf(h)) == Some(tokens[k])
  {
    var found := Find(tokens, ResetTokenOf(h)).value;
    var j :| 0 <= j < |tokens| && tokens[j] == found;
  }

  /** A reset succeeds exactly when the token is usable and no call on the way fails. Purging cached
      sessions is not on the way: its failures are not reported. */
  lemma ResetSucceedsExactly(cfg: Config, w: World, rawToken: string, hash: string, now: Time, revokedAt: Time,
                             f: ResetFaults)
    requires TokensValid(w.tokens)
    ensures ResetPassword(cfg, w, rawToken, hash, now, revokedAt, f).1 == None <==>
              && IsUsable(w, rawToken, now)
              && !f.find && !f.hash && f.update.NoFault? && f.consume.NoFault? && f.sessions.write.NoFault?
  {
    if IsUsable(w, rawToken, now) {
      var k :| 0 <= k < |w.tokens|
               && w.tokens[k].tokenHash == HashToken(rawToken) && w.tokens[k].purpose == "password_reset"
               && w.tokens[k].userID.Some? && w.tokens[k].consumedAt.None? && now <= w.tokens[k].expiresAt;
      FoundIsTheOne(w.tokens, HashToken(rawToken), k);
    }
  }

  /** A successful reset sets the password of the token's user and of nobody else, and consumes that
      token and no other. */
  lemma ResetMeans(cfg: Config, w: World, rawToken: string, hash: string, now: Time, revokedAt: Time, f: ResetFaults)
    returns (k: nat)
    requires TokensValid(w.tokens) && ResetPassword(cfg, w, rawToken, hash, now, revokedAt, f).1 == None
    ensures k < |w.tokens| && w.tokens[k].tokenHash == HashToken(rawToken) && w.tokens[k].userID.Some?
    ensures w.tokens[k].consumedAt.None? && now <= w.tokens[k].expiresAt
    ensures var w', userID := ResetPassword(cfg, w, rawToken, hash, now, revokedAt, f).0, w.tokens[k].userID.value;
            && |w'.tables.accounts| == |w.tables.accounts|
            && (forall a :: 0 <= a < |w.tables.accounts| ==>
                  var account := w.tables.accounts[a];
                  w'.tables.accounts[a] == if account.userID == userID && account.provider == PASSWORD
                                           then account.(passwordHash := hash) else account)
            && w'.tables == w.tables.(accounts := w'.tables.accounts)
            && w'.tokens == w.tokens[k := w.tokens[k].(consumedAt := Some(now))]
            && w'.sessions == RevokeForUser(cfg, w.sessions, userID, revokedAt, f.sessions).0
  {
    var v := Find(w.tokens, ResetTokenOf(HashToken(rawToken))).value;
    k :| 0 <= k < |w.tokens| && w.tokens[k] == v;
  }

  /** The world after the first n of the three writes: the password, the token, the sessions. */
  function AfterWrites(w: World, v: VerificationToken, hash: string, now: Time, revokedAt: Time, n: nat): World
    requires v.userID.Some?
  {
    World(if 1 <= n then UpdatePasswordHash(w.tables, v.userID.value, hash) else w.tables,
          if 2 <= n then ConsumeToken(w.tokens, v.id, now) else w.tokens,
          if 3 <= n then RevokeRowsForUser(w.sessions, v.userID.value, revokedAt) else w.sessions)
  }

  /** How many writes took effect, when one of them reported a failure. */
  function WritesDone(f: ResetFaults): nat {
    if !f.update.NoFault? then (if f.update.Applied? then 1 else 0)
    else if !f.consume.NoFault? then (if f.consume.Applied? then 2 else 1)
    else if f.sessions.write.Applied? then 3 else 2
  }

  /** What a failed reset leaves done is a prefix of the writes, of the length its faults say. The token
      is usable again exactly when the prefix stops short of consuming it. */
  lemma FailedResetLeaves(cfg: Config, w: World, rawToken: string, hash: string, now: Time, revokedAt: Time,
                          f: ResetFaults, e: ResetFailure)
    requires TokensValid(w.tokens) && ResetPassword(cfg, w, rawToken, hash, now, revokedAt, f).1 == Some(e)
    ensures var w' := ResetPassword(cfg, w, rawToken, hash, now, revokedAt, f).0;
            var found := Find(w.tokens, ResetTokenOf(HashToken(rawToken)));
            if f.find || found.None? || !Usable(found.value, now) || f.hash then w' == w
            else
              && w' == AfterWrites(w, found.value, hash, now, revokedAt, WritesDone(f))
              && (IsUsable(w', rawToken, now) <==> WritesDone(f) < 2)
  {
    var found := Find(w.tokens, ResetTokenOf(HashToken(rawToken)));
    if !f.find && found.Some? && Usable(found.value, now) && !f.hash {
      FailedResetIs(cfg, w, rawToken, found.value, hash, now, revokedAt, f);
      UsableAfterWrites(w, rawToken, found.value, hash, now, revokedAt, WritesDone(f));
    }
  }

  lemma FailedResetIs(cfg: Config, w: World, rawToken: string, v: VerificationToken, hash: string,
                      now: Time, revokedAt: Time, f: ResetFaults)
    requires Find(w.tokens, ResetTokenOf(HashToken(rawToken))) == Some(v) && Usable(v, now) && !f.find && !f.hash
    requires ResetPassword(cfg, w, rawToken, hash, now, revokedAt, f).1.Some?
    ensures ResetPassword(cfg, w, rawToken, hash, now, revokedAt, f).0
         == AfterWrites(w, v, hash, now, revokedAt, WritesDone(f))
  {
  }

  lemma UsableAfterWrites(w: World, rawToken: string, v: VerificationToken, hash: string, now: Time,
                          revokedAt: Time, n: nat)
    requires TokensValid(w.tokens) && Find(w.tokens, ResetTokenOf(HashToken(rawToken))) == Some(v) && Usable(v, now)
    ensures IsUsable(AfterWrites(w, v, hash, now, revokedAt, n), rawToken, now) <==> n < 2
  {
    var k :| 0 <= k < |w.tokens| && w.tokens[k] == v;
    var tokens := AfterWrites(w, v, hash, now, revokedAt, n).tokens;
    if n < 2 {
      assert ResetTokenOf(HashToken(rawToken))(tokens[k]) && Usable(tokens[k], now);
    } else {
      assert tokens[k].consumedAt.Some?;
      forall j | 0 <= j < |tokens| && j != k ensures tokens[j].tokenHash != HashToken(rawToken) {
        assert tokens[j].tokenHash == w.tokens[j].tokenHash;
      }
    }
  }

  /** After a reset without faults no earlier token of the user resolves ever again, in any run of
      session operations that follows, and the sessions of others resolve as before. */
  lemma ResetEndsSessions(cfg: Config, w: World, clock: Time, rawToken: string, hash: string, now: Time,
                          revokedAt: Time, steps: seq<SessionRuns.Step>, token: string, t: Time, writtenAt: Time,
                          f: Faults)
    requires TokensValid(w.tokens) && SessionRuns.Inv(cfg, w.sessions, clock) && clock <= revokedAt && !f.rowRead
    requires ResetPassword(cfg, w, rawToken, hash, now, revokedAt, CLEAN).1 == None
    requires HashToken(token) in w.sessions.issued && HashToken(token) in w.sessions.sessions
    requires SessionRuns.LegalRun(cfg, ResetPassword(cfg, w, rawToken, hash, now, revokedAt, CLEAN).0.sessions,
                                  revokedAt, steps)
    ensures var s', owner := ResetPassword(cfg, w, rawToken, hash, now, revokedAt, CLEAN).0.sessions,
                             w.sessions.sessions[HashToken(token)].userID;
            exists k ::
              && 0 <= k < |w.tokens| && w.tokens[k].tokenHash == HashToken(rawToken) && w.tokens[k].userID.Some?
              && (owner == w.tokens[k].userID.value && SessionRuns.EndTime(revokedAt, steps) <= t ==>
                    Session(cfg, SessionRuns.Final(cfg, s', steps), token, t, writtenAt, f).1 == Ok(None))
              && (owner != w.tokens[k].userID.value && revokedAt <= t ==>
                    Session(cfg, s', token, t, writtenAt, f).1 == Session(cfg, w.sessions, token, t, writtenAt, f).1)
  {
    var k := ResetMeans(cfg, w, rawToken, hash, now, revokedAt, CLEAN);
    SessionRuns.RevokeForUserEnds(cfg, w.sessions, clock, w.tokens[k].userID.value, revokedAt, steps,
                                  token, t, writtenAt, f);
  }

  // ---- runs ----

  /** Accounts and sessions go on meanwhile; what becomes of the sessions is left open. */
  datatype Step =
    | Forget(configured: bool, email: string, id: ID, tokenHash: TokenHash, expiresAt: Time, mailFails: bool)
    | Reset(rawToken: string, hash: string, now: Time, revokedAt: Time, faults: ResetFaults)
    | Account(step: AccountsRuns.Step)
    | SessionsBecome(sessions: State)

  function Apply(cfg: Config, w: World, step: Step): (World, Option<ResetFailure>) {
    match step
    case Forget(configured, email, id, h, expiresAt, mailFails) =>
      ForgotPassword(w, configured, email, id, h, expiresAt, mailFails)
    case Reset(rawToken, hash, now, revokedAt, f) => ResetPassword(cfg, w, rawToken, hash, now, revokedAt, f)
    case Account(accountStep) => (w.(tables := AccountsRuns.Apply(w.tables, accountStep).0), None)
    case SessionsBecome(sessions) => (w.(sessions := sessions), None)
  }

  function After(cfg: Config, w: World, steps: seq<Step>): World
    decreases |steps|
  {
    if steps == [] then w else After(cfg, Apply(cfg, w, steps[0]).0, steps[1..])
  }

  predicate Consumed(w: World, h: TokenHash) {
    exists k :: 0 <= k < |w.tokens| && w.tokens[k].tokenHash == h && w.tokens[k].consumedAt.Some?
  }

  lemma ForgetKeepsTokens(cfg: Config, w: World, step: Step)
    requires TokensValid(w.tokens) && step.Forget?
    ensures TokensValid(Apply(cfg, w, step).0.tokens) && w.tokens <= Apply(cfg, w, step).0.tokens
  {
  }

  lemma ConsumingKeepsTokens(tokens: seq<VerificationToken>, id: ID, now: Time)
    requires TokensValid(tokens)
    ensures var tokens' := ConsumeToken(tokens, id, now);
            && TokensValid(tokens') && |tokens'| == |tokens|
            && forall k :: 0 <= k < |tokens| ==>
                 tokens'[k].userID == tokens[k].userID && (tokens[k].consumedAt.Some? ==> tokens'[k] == tokens[k])
  {
    var tokens' := ConsumeToken(tokens, id, now);
    assert forall k :: 0 <= k < |tokens| ==> tokens'[k] == tokens[k].(consumedAt := tokens'[k].consumedAt);
  }

  /** A reset leaves the tables or updates one user's password, and leaves the tokens or consumes one. */
  lemma ResetTouches(cfg: Config, w: World, step: Step)
    requires step.Reset?
    ensures var w' := Apply(cfg, w, step).0;
            && (w'.tables == w.tables
                || exists userID :: w'.tables == UpdatePasswordHash(w.tables, userID, step.hash))
            && (w'.tokens == w.tokens || exists id :: w'.tokens == ConsumeToken(w.tokens, id, step.now))
  {
    var found := Find(w.tokens, ResetTokenOf(HashToken(step.rawToken)));
    var w' := Apply(cfg, w, step).0;
    if w'.tables != w.tables {
      assert w'.tables == UpdatePasswordHash(w.tables, found.value.userID.value, step.hash);
    }
    if w'.tokens != w.tokens {
      assert w'.tokens == ConsumeToken(w.tokens, found.value.id, step.now);
    }
  }

  lemma ResetKeepsTokens(cfg: Config, w: World, step: Step)
    requires TokensValid(w.tokens) && step.Reset?
    ensures var tokens := Apply(cfg, w, step).0.tokens;
            && TokensValid(tokens) && |tokens| == |w.tokens|
            && forall k :: 0 <= k < |tokens| ==>
                 tokens[k].userID == w.tokens[k].userID && (w.tokens[k].consumedAt.Some? ==> tokens[k] == w.tokens[k])
  {
    ResetTouches(cfg, w, step);
    var tokens := Apply(cfg, w, step).0.tokens;
    if tokens != w.tokens {
      var id :| tokens == ConsumeToken(w.tokens, id, step.now);
      ConsumingKeepsTokens(w.tokens, id, step.now);
    }
  }

  lemma StepKeepsConsumed(cfg: Config, w: World, step: Step, h: TokenHash)
    requires TokensValid(w.tokens)
    ensures TokensValid(Apply(cfg, w, step).0.tokens)
    ensures Consumed(w, h) ==> Consumed(Apply(cfg, w, step).0, h)
  {
    if step.Forget? {
      ForgetKeepsTokens(cfg, w, step);
    } else if step.Reset? {
      ResetKeepsTokens(cfg, w, step);
    }
    if Consumed(w, h) {
      var k :| 0 <= k < |w.tokens| && w.tokens[k].tokenHash == h && w.tokens[k].consumedAt.Some?;
      assert Apply(cfg, w, step).0.tokens[k] == w.tokens[k];
    }
  }

  lemma {:induction false} ConsumedForGood(cfg: Config, w: World, steps: seq<Step>, h: TokenHash)
    requires TokensValid(w.tokens) && Consumed(w, h)
    ensures TokensValid(After(cfg, w, steps).tokens) && Consumed(After(cfg, w, steps), h)
    decreases |steps|
  {
    if steps != [] {
      StepKeepsConsumed(cfg, w, steps[0], h);
      ConsumedForGood(cfg, Apply(cfg, w, steps[0]).0, steps[1..], h);
    }
  }

  lemma ResetConsumes(cfg: Config, w: World, step: Step)
    requires TokensValid(w.tokens) && step.Reset? && Apply(cfg, w, step).1 == None
    ensures Consumed(Apply(cfg, w, step).0, HashToken(step.rawToken))
  {
    var k := ResetMeans(cfg, w, step.rawToken, step.hash, step.now, step.revokedAt, step.faults);
    assert Apply(cfg, w, step).0.tokens[k].consumedAt.Some?;
  }

  lemma ConsumedIsUnusable(w: World, h: TokenHash, now: Time)
    requires TokensValid(w.tokens) && Consumed(w, h)
    ensures var found := Find(w.tokens, ResetTokenOf(h)); found.Some? ==> !Usable(found.value, now)
  {
    var j :| 0 <= j < |w.tokens| && w.tokens[j].tokenHash == h && w.tokens[j].consumedAt.Some?;
    var found := Find(w.tokens, ResetTokenOf(h));
    if found.Some? {
      var i :| 0 <= i < |w.tokens| && w.tokens[i] == found.value;
    }
  }

  lemma ConsumedIsRefused(cfg: Config, w: World, step: Step)
    requires TokensValid(w.tokens) && step.Reset? && Consumed(w, HashToken(step.rawToken))
    ensures Apply(cfg, w, step).0 == w && Apply(cfg, w, step).1.Some?
  {
    ConsumedIsUnusable(w, HashToken(step.rawToken), step.now);
  }

  /** A reset token works at most once in a run. */
  lemma ResetOnce(cfg: Config, w: World, first: Step, between: seq<Step>, second: Step)
    requires TokensValid(w.tokens) && first.Reset? && second.Reset? && first.rawToken == second.rawToken
    requires Apply(cfg, w, first).1 == None
    ensures var w' := After(cfg, Apply(cfg, w, first).0, between);
            Apply(cfg, w', second).0 == w' && Apply(cfg, w', second).1.Some?
  {
    ResetConsumes(cfg, w, first);
    var h, w1 := HashToken(first.rawToken), Apply(cfg, w, first).0;
    StepKeepsConsumed(cfg, w, first, h);
    ConsumedForGood(cfg, w1, between, h);
    ConsumedIsRefused(cfg, After(cfg, w1, between), second);
  }

  // ---- the owner's password ----

  predicate TokensOwned(users: seq<User>, tokens: seq<VerificationToken>) {
    forall k :: 0 <= k < |tokens| && tokens[k].userID.Some? ==> AccountsRuns.HasUser(users, tokens[k].userID.value)
  }

  /** Every user has a password account, and every token is some user's. */
  predicate WorldInv(w: World) {
    && AccountsRuns.Inv(w.tables) && AccountsLaws.EveryoneHasPassword(w.tables) && TokensValid(w.tokens)
    && TokensOwned(w.tables.users, w.tokens)
  }

  predicate Proper(step: Step) {
    step.Account? ==> AccountsRuns.Proper(step.step)
  }

  lemma OwnersStay(users: seq<User>, users': seq<User>, tokens: seq<VerificationToken>)
    requires AccountsRuns.Continues(users, users') && TokensOwned(users, tokens)
    ensures TokensOwned(users', tokens)
  {
    forall k | 0 <= k < |tokens| && tokens[k].userID.Some?
      ensures AccountsRuns.HasUser(users', tokens[k].userID.value)
    {
      AccountsRuns.UserStays(users, users', tokens[k].userID.value);
    }
  }

  lemma ForgetAppends(cfg: Config, w: World, step: Step)
    requires step.Forget?
    ensures var w' := Apply(cfg, w, step).0;
            && w'.tables == w.tables
            && (w'.tokens == w.tokens
                || exists v: VerificationToken ::
                     w'.tokens == w.tokens + [v] && v.userID.Some?
                     && AccountsRuns.HasUser(w.tables.users, v.userID.value))
  {
    var found := FindUserByEmail(w.tables, step.email);
    if Apply(cfg, w, step).0.tokens != w.tokens {
      var u :| 0 <= u < |w.tables.users| && w.tables.users[u] == found.value;
      assert AccountsRuns.HasUser(w.tables.users, found.value.id);
      var v := VerificationToken(step.id, Some(found.value.id), PASSWORD_RESET, step.tokenHash, step.expiresAt, None);
      assert Apply(cfg, w, step).0.tokens == w.tokens + [v];
    }
  }

  lemma ForgetKeepsWorld(cfg: Config, w: World, step: Step)
    requires WorldInv(w) && step.Forget?
    ensures WorldInv(Apply(cfg, w, step).0)
  {
    ForgetKeepsTokens(cfg, w, step);
    ForgetAppends(cfg, w, step);
  }

  lemma RehashKeepsPasswords(t: Tables, userID: ID, hash: string)
    requires AccountsRuns.Inv(t) && AccountsLaws.EveryoneHasPassword(t)
    ensures AccountsRuns.Inv(UpdatePasswordHash(t, userID, hash))
    ensures AccountsLaws.EveryoneHasPassword(UpdatePasswordHash(t, userID, hash))
  {
    AccountsRuns.UpdatePasswordHashKeepsInv(t, userID, hash);
    var t' := UpdatePasswordHash(t, userID, hash);
    forall u | 0 <= u < |t'.users| ensures AccountsLaws.HasPassword(t', t'.users[u].id) {
      assert AccountsLaws.HasPassword(t, t.users[u].id);
      var a :| 0 <= a < |t.accounts| && t.accounts[a].userID == t.users[u].id && t.accounts[a].provider == PASSWORD;
      assert t'.accounts[a].userID == t.users[u].id;
    }
  }

  lemma ResetKeepsWorld(cfg: Config, w: World, step: Step)
    requires WorldInv(w) && step.Reset?
    ensures WorldInv(Apply(cfg, w, step).0)
  {
    ResetTouches(cfg, w, step);
    ResetKeepsTokens(cfg, w, step);
    RehashedWorld(w, Apply(cfg, w, step).0, step.hash);
  }

  lemma RehashedWorld(w: World, w': World, hash: string)
    requires WorldInv(w) && TokensValid(w'.tokens) && |w'.tokens| == |w.tokens|
    requires w'.tables == w.tables || exists userID :: w'.tables == UpdatePasswordHash(w.tables, userID, hash)
    requires forall k :: 0 <= k < |w.tokens| ==> w'.tokens[k].userID == w.tokens[k].userID
    ensures WorldInv(w')
  {
    if w'.tables != w.tables {
      var userID :| w'.tables == UpdatePasswordHash(w.tables, userID, hash);
      RehashKeepsPasswords(w.tables, userID, hash);
    }
    OwnersStay(w.tables.users, w'.tables.users, w.tokens);
  }

  lemma StepKeepsWorld(cfg: Config, w: World, step: Step)
    requires WorldInv(w) && Proper(step)
    ensures WorldInv(Apply(cfg, w, step).0)
  {
    match step
    case Forget(_, _, _, _, _, _) => ForgetKeepsWorld(cfg, w, step);
    case Reset(_, _, _, _, _) => ResetKeepsWorld(cfg, w, step);
    case Account(accountStep) =>
      AccountsRuns.StepKeepsInv(w.tables, accountStep);
      AccountsLaws.StepKeepsPasswords(w.tables, accountStep);
      OwnersStay(w.tables.users, AccountsRuns.Apply(w.tables, accountStep).0.users, w.tokens);
    case SessionsBecome(_) =>
  }

  lemma {:induction false} RunKeepsWorld(cfg: Config, w: World, steps: seq<Step>)
    requires WorldInv(w) && forall i :: 0 <= i < |steps| ==> Proper(steps[i])
    ensures WorldInv(After(cfg, w, steps))
    decreases |steps|
  {
    if steps != [] {
      StepKeepsWorld(cfg, w, steps[0]);
      RunKeepsWorld(cfg, Apply(cfg, w, steps[0]).0, steps[1..]);
    }
  }

  /** The user has a password account, and each password account of the user holds this hash. */
  predicate HoldsPassword(t: Tables, userID: ID, hash: string) {
    && AccountsLaws.HasPassword(t, userID)
    && forall a :: 0 <= a < |t.accounts| && t.accounts[a].userID == userID && t.accounts[a].provider == PASSWORD ==>
         t.accounts[a].passwordHash == hash
  }

  lemma OwnerHoldsPassword(t: Tables, userID: ID, hash: string)
    requires AccountsLaws.EveryoneHasPassword(t) && AccountsRuns.HasUser(t.users, userID)
    ensures HoldsPassword(UpdatePasswordHash(t, userID, hash), userID, hash)
  {
    var u :| 0 <= u < |t.users| && t.users[u].id == userID;
    assert AccountsLaws.HasPassword(t, t.users[u].id);
    var a :| 0 <= a < |t.accounts| && t.accounts[a].userID == userID && t.accounts[a].provider == PASSWORD;
    assert UpdatePasswordHash(t, userID, hash).accounts[a].userID == userID;
  }

  lemma ResetUpdates(cfg: Config, w: World, reset: Step, k: nat)
    requires TokensValid(w.tokens) && reset.Reset? && Apply(cfg, w, reset).1 == None
    requires k < |w.tokens| && w.tokens[k].tokenHash == HashToken(reset.rawToken) && w.tokens[k].userID.Some?
    ensures Apply(cfg, w, reset).0.tables == UpdatePasswordHash(w.tables, w.tokens[k].userID.value, reset.hash)
  {
    var found := Find(w.tokens, ResetTokenOf(HashToken(reset.rawToken))).value;
    var j :| 0 <= j < |w.tokens| && w.tokens[j] == found;
  }

  /** In every run, a reset that succeeds leaves its token's owner, who is a user, with a password
      account, and that account holds the new hash. */
  lemma ResetSetsPassword(cfg: Config, steps: seq<Step>, reset: Step)
    requires (forall i :: 0 <= i < |steps| ==> Proper(steps[i])) && reset.Reset?
    requires Apply(cfg, After(cfg, EMPTY_WORLD, steps), reset).1 == None
    ensures var w := After(cfg, EMPTY_WORLD, steps);
            var t' := Apply(cfg, w, reset).0.tables;
            exists k ::
              && 0 <= k < |w.tokens| && w.tokens[k].tokenHash == HashToken(reset.rawToken) && w.tokens[k].userID.Some?
              && AccountsRuns.HasUser(t'.users, w.tokens[k].userID.value)
              && HoldsPassword(t', w.tokens[k].userID.value, reset.hash)
  {
    RunKeepsWorld(cfg, EMPTY_WORLD, steps);
    var w := After(cfg, EMPTY_WORLD, steps);
    var k := ResetMeans(cfg, w, reset.rawToken, reset.hash, reset.now, reset.revokedAt, reset.faults);
    ResetUpdates(cfg, w, reset, k);
    OwnerHoldsPassword(w.tables, w.tokens[k].userID.value, reset.hash);
  }

  // ---- from the forgotten password to the reset ----

  /** Whoever holds the email, and is not disabled, is sent a token of their own. */
  lemma ForgetIssues(cfg: Config, w: World, forget: Step, u: nat)
    requires WorldInv(w) && forget.Forget? && forget.configured && u < |w.tables.users|
    requires w.tables.users[u].email == forget.email && !w.tables.users[u].disabled
    requires forall k :: 0 <= k < |w.tokens| ==>
               w.tokens[k].id != forget.id && w.tokens[k].tokenHash != forget.tokenHash
    ensures Apply(cfg, w, forget) ==
              (w.(tokens := w.tokens + [VerificationToken(forget.id, Some(w.tables.users[u].id), "password_reset",
                                                          forget.tokenHash, forget.expiresAt, None)]),
               if forget.mailFails then Some(Store(SendingMail)) else None)
  {
    assert LiveWithEmail(forget.email)(w.tables.users[u]);
    var found := FindUserByEmail(w.tables, forget.email).value;
    var j :| 0 <= j < |w.tables.users| && w.tables.users[j] == found;
  }

  /** For any other email nothing is issued, and the answer does not tell. */
  lemma ForgetIsSilent(cfg: Config, w: World, forget: Step)
    requires forget.Forget?
    requires forall u :: 0 <= u < |w.tables.users| ==>
               w.tables.users[u].email != forget.email || w.tables.users[u].disabled
    ensures Apply(cfg, w, forget) == (w, if forget.configured then None else Some(NoMailer))
  {
    assert forall u :: 0 <= u < |w.tables.users| ==> !LiveWithEmail(forget.email)(w.tables.users[u]);
  }

  /** Nothing changes of a token but that it is consumed. */
  predicate SameToken(v: VerificationToken, v': VerificationToken) {
    v' == v.(consumedAt := v'.consumedAt)
  }

  lemma ConsumingKeepsToken(tokens: seq<VerificationToken>, id: ID, now: Time, k: nat)
    requires k < |tokens|
    ensures SameToken(tokens[k], ConsumeToken(tokens, id, now)[k])
  {
  }

  lemma StepKeepsToken(cfg: Config, w: World, step: Step, k: nat)
    requires TokensValid(w.tokens) && k < |w.tokens|
    ensures k < |Apply(cfg, w, step).0.tokens| && SameToken(w.tokens[k], Apply(cfg, w, step).0.tokens[k])
  {
    if step.Forget? {
      ForgetKeepsTokens(cfg, w, step);
    } else if step.Reset? {
      ResetTouches(cfg, w, step);
      if Apply(cfg, w, step).0.tokens != w.tokens {
        var id :| Apply(cfg, w, step).0.tokens == ConsumeToken(w.tokens, id, step.now);
        ConsumingKeepsToken(w.tokens, id, step.now, k);
      }
    }
  }

  lemma {:induction false} RunKeepsToken(cfg: Config, w: World, steps: seq<Step>, k: nat)
    requires WorldInv(w) && k < |w.tokens| && forall i :: 0 <= i < |steps| ==> Proper(steps[i])
    ensures WorldInv(After(cfg, w, steps))
    ensures k < |After(cfg, w, steps).tokens| && SameToken(w.tokens[k], After(cfg, w, steps).tokens[k])
    decreases |steps|
  {
    if steps != [] {
      StepKeepsWorld(cfg, w, steps[0]);
      StepKeepsToken(cfg, w, steps[0], k);
      RunKeepsToken(cfg, Apply(cfg, w, steps[0]).0, steps[1..], k);
    }
  }

  predicate NoCallFails(f: ResetFaults) {
    !f.find && !f.hash && f.update.NoFault? && f.consume.NoFault? && f.sessions.write.NoFault?
  }

  /** The call that fails first. Of the session service it is the revocation. */
  function FirstFailure(f: ResetFaults): Option<ResetFailure> {
    if f.find then Some(Store(FindingToken))
    else if f.hash then Some(Store(Hashing))
    else if !f.update.NoFault? then Some(Store(UpdatingPassword))
    else if !f.consume.NoFault? then Some(Store(ConsumingToken))
    else if !f.sessions.write.NoFault? then Some(Sessions(RevokeSession))
    else None
  }

  lemma IssuedIsFound(w: World, rawToken: string, k: nat)
    requires TokensValid(w.tokens) && k < |w.tokens|
    requires w.tokens[k].tokenHash == HashToken(rawToken) && w.tokens[k].purpose == "password_reset"
    ensures Find(w.tokens, ResetTokenOf(HashToken(rawToken))) == Some(w.tokens[k])
    ensures Consumed(w, HashToken(rawToken)) <==> w.tokens[k].consumedAt.Some?
  {
    FoundIsTheOne(w.tokens, HashToken(rawToken), k);
  }

  /** What a reset by the token at k does: exactly in time and before it was consumed it succeeds, unless
      a call fails. */
  lemma ResetByToken(cfg: Config, w: World, reset: Step, k: nat)
    requires WorldInv(w) && reset.Reset? && k < |w.tokens| && w.tokens[k].userID.Some?
    requires w.tokens[k].tokenHash == HashToken(reset.rawToken) && w.tokens[k].purpose == "password_reset"
    ensures Apply(cfg, w, reset).1 == None <==>
              reset.now <= w.tokens[k].expiresAt && w.tokens[k].consumedAt.None? && NoCallFails(reset.faults)
    ensures Apply(cfg, w, reset).1 == None ==>
              && Apply(cfg, w, reset).0.tables == UpdatePasswordHash(w.tables, w.tokens[k].userID.value, reset.hash)
              && HoldsPassword(Apply(cfg, w, reset).0.tables, w.tokens[k].userID.value, reset.hash)
    ensures !reset.faults.find && (w.tokens[k].expiresAt < reset.now || w.tokens[k].consumedAt.Some?) ==>
              Apply(cfg, w, reset) == (w, Some(InvalidToken))
    ensures reset.now <= w.tokens[k].expiresAt && w.tokens[k].consumedAt.None? ==>
              Apply(cfg, w, reset).1 == FirstFailure(reset.faults)
  {
    IssuedIsFound(w, reset.rawToken, k);
    if Apply(cfg, w, reset).1 == None {
      OwnerHoldsPassword(w.tables, w.tokens[k].userID.value, reset.hash);
    }
  }

  /** In every run, a token mailed to a live user resets that user's password exactly until it expires,
      once, whatever comes between, unless a call fails; presented too late or a second time it is
      refused, and nothing changes. */
  lemma TokenResetsExactly(cfg: Config, before: seq<Step>, forget: Step, u: nat, between: seq<Step>, reset: Step)
    requires forall i :: 0 <= i < |before| ==> Proper(before[i])
    requires forall i :: 0 <= i < |between| ==> Proper(between[i])
    requires var w0 := After(cfg, EMPTY_WORLD, before);
             && forget.Forget? && forget.configured && u < |w0.tables.users|
             && w0.tables.users[u].email == forget.email && !w0.tables.users[u].disabled
             && forall k :: 0 <= k < |w0.tokens| ==>
                  w0.tokens[k].id != forget.id && w0.tokens[k].tokenHash != forget.tokenHash
    requires reset.Reset? && HashToken(reset.rawToken) == forget.tokenHash
    ensures var w0 := After(cfg, EMPTY_WORLD, before);
            var w := After(cfg, Apply(cfg, w0, forget).0, between);
            var (w', e) := Apply(cfg, w, reset);
            && (e == None <==>
                  reset.now <= forget.expiresAt && !Consumed(w, forget.tokenHash) && NoCallFails(reset.faults))
            && (e == None ==> HoldsPassword(w'.tables, w0.tables.users[u].id, reset.hash))
            && (!reset.faults.find && (forget.expiresAt < reset.now || Consumed(w, forget.tokenHash)) ==>
                  w' == w && e == Some(InvalidToken))
  {
    var w0 := After(cfg, EMPTY_WORLD, before);
    RunKeepsWorld(cfg, EMPTY_WORLD, before);
    ForgetIssues(cfg, w0, forget, u);
    StepKeepsWorld(cfg, w0, forget);
    RunKeepsToken(cfg, Apply(cfg, w0, forget).0, between, |w0.tokens|);
    var w := After(cfg, Apply(cfg, w0, forget).0, between);
    IssuedIsFound(w, reset.rawToken, |w0.tokens|);
    ResetByToken(cfg, w, reset, |w0.tokens|);
  }
}
