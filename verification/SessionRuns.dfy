/** Whole runs of atomic session operations: the cache and the cleanup job cannot be observed. */
module SessionRuns {
  import opened Wrappers
  import opened SessionModel

  /** One atomic operation at time `now`. Cache reads and writes may fail; hash loads, deletes and
      the store may not. A profile change carries the invalidation its caller owes. */
  datatype Step =
    | Create(token: string, userID: string, organizationID: string, now: Time)
    | Session(token: string, now: Time, writtenAt: Time, getFails: bool, setFails: bool)
    | Logout(token: string, now: Time, writtenAt: Time, revokedAt: Time, getFails: bool, setFails: bool)
    | RevokeForUser(userID: string, now: Time)
    | InvalidateForUser(userID: string, now: Time)
    | InvalidateForOrganization(organizationID: string, now: Time)
    | ChangeUser(userID: string, directory: map<(string, string), Profile>, now: Time)
    | ChangeOrganization(organizationID: string, directory: map<(string, string), Profile>, now: Time)
    | Cleanup(now: Time)

  datatype Output = Created(token: Result<string, Error>) | Resolved(principal: Result<Option<Principal>, Error>) | Done

  function CacheFaults(getFails: bool, setFails: bool): Faults {
    NO_FAULTS.(cacheGet := getFails, cacheSet := setFails)
  }

  function Apply(cfg: Config, s: State, step: Step): (State, Output) {
    match step
    case Create(token, userID, organizationID, now) =>
      var (s', r) := SessionModel.Create(cfg, s, token, userID, organizationID, now, NO_FAULTS); (s', Created(r))
    case Session(token, now, writtenAt, getFails, setFails) =>
      var (s', r) := SessionModel.Session(cfg, s, token, now, writtenAt, CacheFaults(getFails, setFails));
      (s', Resolved(r))
    case Logout(token, now, writtenAt, revokedAt, getFails, setFails) =>
      var (s', r) := SessionModel.Logout(cfg, s, token, now, writtenAt, revokedAt, CacheFaults(getFails, setFails));
      (s', Resolved(r))
    case RevokeForUser(userID, now) =>
      (SessionModel.RevokeForUser(cfg, s, userID, now, NO_FAULTS).0, Done)
    case InvalidateForUser(userID, now) =>
      (Invalidate(cfg, s, ActiveHashesForUser(s, userID), NO_FAULTS).0, Done)
    case InvalidateForOrganization(organizationID, now) =>
      (Invalidate(cfg, s, ActiveHashesForOrganization(s, organizationID), NO_FAULTS).0, Done)
    case ChangeUser(userID, directory, now) =>
      (Invalidate(cfg, s.(directory := directory), ActiveHashesForUser(s, userID), NO_FAULTS).0, Done)
    case ChangeOrganization(organizationID, directory, now) =>
      (Invalidate(cfg, s.(directory := directory), ActiveHashesForOrganization(s, organizationID), NO_FAULTS).0, Done)
    case Cleanup(now) => (SessionModel.Cleanup(s, now), Done)
  }

  /** `directory` and `directory'` agree on the pair. */
  predicate SameProfile(directory: map<(string, string), Profile>, directory': map<(string, string), Profile>,
                        key: (string, string))
  {
    (key in directory <==> key in directory') && (key in directory ==> directory[key] == directory'[key])
  }

  /** The clock does not go back, tokens are fresh, and a change touches only what it names. */
  ghost predicate Legal(s: State, clock: Time, step: Step) {
    && clock <= step.now
    && (step.Create? ==> HashToken(step.token) !in s.issued)
    && (step.ChangeUser? ==>
          forall key: (string, string) :: key.0 != step.userID ==> SameProfile(s.directory, step.directory, key))
    && (step.ChangeOrganization? ==>
          forall key: (string, string) ::
            key.1 != step.organizationID ==> SameProfile(s.directory, step.directory, key))
  }

  ghost predicate LegalRun(cfg: Config, s: State, clock: Time, steps: seq<Step>)
    decreases |steps|
  {
    steps == [] || (Legal(s, clock, steps[0]) && LegalRun(cfg, Apply(cfg, s, steps[0]).0, steps[0].now, steps[1..]))
  }

  function Final(cfg: Config, s: State, steps: seq<Step>): State
    decreases |steps|
  {
    if steps == [] then s else Final(cfg, Apply(cfg, s, steps[0]).0, steps[1..])
  }

  function EndTime(clock: Time, steps: seq<Step>): Time {
    if steps == [] then clock else steps[|steps| - 1].now
  }

  function Outputs(cfg: Config, s: State, steps: seq<Step>): seq<Output>
    decreases |steps|
  {
    if steps == [] then [] else [Apply(cfg, s, steps[0]).1] + Outputs(cfg, Apply(cfg, s, steps[0]).0, steps[1..])
  }

  /** The simple service: no cache, and a cleanup job that deletes nothing. */
  function Plain(cfg: Config): Config {
    cfg.(cacheEnabled := false)
  }

  function PlainApply(cfg: Config, s: State, step: Step): (State, Output) {
    if step.Cleanup? then (s, Done) else Apply(Plain(cfg), s, step)
  }

  function PlainOutputs(cfg: Config, s: State, steps: seq<Step>): seq<Output>
    decreases |steps|
  {
    if steps == [] then []
    else [PlainApply(cfg, s, steps[0]).1] + PlainOutputs(cfg, PlainApply(cfg, s, steps[0]).0, steps[1..])
  }

  // ---- the invariant and the simulation ----

  /** A cached value is the row as it stands, or belongs to a deleted row whose lifetime is over. */
  predicate EntryAgrees(s: State, clock: Time, h: TokenHash)
    requires h in s.cache
  {
    var cached := s.cache[h].value;
    if h in s.sessions then
      var row := GetSessionByTokenHash(s, h);
      row.Some? && row.value.revokedAt.None? && row.value.ToCache() == cached
    else
      cached.expiresAt < clock
  }

  ghost predicate Inv(cfg: Config, s: State, clock: Time) {
    && (!cfg.cacheEnabled ==> s.cache == map[])
    && s.sessions.Keys <= s.issued
    && s.cache.Keys <= s.issued
    && forall h :: h in s.cache ==> EntryAgrees(s, clock, h)
  }

  predicate Ended(row: SessionRow, clock: Time) {
    row.revokedAt.Some? || row.expiresAt < clock
  }

  /** Same rows, except that the ones cleanup removed had ended. */
  ghost predicate Simulates(s: State, plain: State, clock: Time) {
    && s.issued == plain.issued
    && s.directory == plain.directory
    && plain.sessions.Keys <= plain.issued
    && s.sessions.Keys <= plain.sessions.Keys
    && (forall h :: h in s.sessions ==> s.sessions[h] == plain.sessions[h])
    && (forall h :: h in plain.sessions && h !in s.sessions ==> Ended(plain.sessions[h], clock))
  }

  lemma SessionIsReference(cfg: Config, s: State, clock: Time, token: string, now: Time, writtenAt: Time, f: Faults)
    requires Inv(cfg, s, clock) && clock <= now && !f.rowRead
    ensures SessionModel.Session(cfg, s, token, now, writtenAt, f).1 == Ok(Reference(s, token, now))
  {
    if token != "" && CacheGet(cfg, s, HashToken(token), now, f.cacheGet).Some? {
      assert EntryAgrees(s, clock, HashToken(token));
    }
  }

  lemma ReferenceIsSimulated(s: State, plain: State, clock: Time, token: string, now: Time)
    requires Simulates(s, plain, clock) && clock <= now
    ensures Reference(s, token, now) == Reference(plain, token, now)
  {
    if token != "" && HashToken(token) in plain.sessions && HashToken(token) !in s.sessions {
      assert Ended(plain.sessions[HashToken(token)], clock);
    }
  }

  lemma SessionKeepsInv(cfg: Config, s: State, clock: Time, token: string, now: Time, writtenAt: Time, f: Faults)
    requires Inv(cfg, s, clock) && clock <= now
    ensures Inv(cfg, SessionModel.Session(cfg, s, token, now, writtenAt, f).0, now)
  {
    var s' := SessionModel.Session(cfg, s, token, now, writtenAt, f).0;
    forall h | h in s'.cache ensures EntryAgrees(s', now, h) {
      assert h in s.cache ==> EntryAgrees(s, clock, h);
    }
  }

  lemma LogoutKeepsInv(cfg: Config, s: State, clock: Time,
                       token: string, now: Time, writtenAt: Time, revokedAt: Time, f: Faults)
    requires Inv(cfg, s, clock) && clock <= now && f.write.NoFault? && !f.cacheDelete
    ensures Inv(cfg, SessionModel.Logout(cfg, s, token, now, writtenAt, revokedAt, f).0, now)
  {
    SessionKeepsInv(cfg, s, clock, token, now, writtenAt, f);
    var s1 := SessionModel.Session(cfg, s, token, now, writtenAt, f).0;
    var s' := SessionModel.Logout(cfg, s, token, now, writtenAt, revokedAt, f).0;
    forall h | h in s'.cache ensures EntryAgrees(s', now, h) {
      assert EntryAgrees(s1, now, h);
    }
  }

  lemma RevokeForUserKeepsInv(cfg: Config, s: State, clock: Time, userID: string, now: Time)
    requires Inv(cfg, s, clock) && clock <= now
    ensures Inv(cfg, SessionModel.RevokeForUser(cfg, s, userID, now, NO_FAULTS).0, now)
  {
    var s' := SessionModel.RevokeForUser(cfg, s, userID, now, NO_FAULTS).0;
    forall h | h in s'.cache ensures EntryAgrees(s', now, h) {
      assert EntryAgrees(s, clock, h);
    }
  }

  /** A change of profiles keeps the invariant when every live row whose pair it touches is purged. */
  lemma PurgeKeepsInv(cfg: Config, s: State, clock: Time, directory: map<(string, string), Profile>,
                      hashes: set<TokenHash>, now: Time)
    requires Inv(cfg, s, clock) && clock <= now
    requires forall h :: h in s.sessions && s.sessions[h].revokedAt.None? && h !in hashes ==>
               SameProfile(s.directory, directory, (s.sessions[h].userID, s.sessions[h].organizationID))
    ensures Inv(cfg, Invalidate(cfg, s.(directory := directory), hashes, NO_FAULTS).0, now)
  {
    var s' := Invalidate(cfg, s.(directory := directory), hashes, NO_FAULTS).0;
    forall h | h in s'.cache ensures EntryAgrees(s', now, h) {
      assert EntryAgrees(s, clock, h);
    }
  }

  lemma CleanupKeepsInv(cfg: Config, s: State, clock: Time, now: Time)
    requires Inv(cfg, s, clock) && clock <= now
    ensures Inv(cfg, SessionModel.Cleanup(s, now), now)
  {
    var s' := SessionModel.Cleanup(s, now);
    forall h | h in s'.cache ensures EntryAgrees(s', now, h) {
      assert EntryAgrees(s, clock, h);
    }
  }

  lemma StepKeepsInv(cfg: Config, s: State, clock: Time, step: Step)
    requires Inv(cfg, s, clock) && Legal(s, clock, step)
    ensures Inv(cfg, Apply(cfg, s, step).0, step.now)
  {
    match step
    case Create(token, userID, organizationID, now) =>
      var s' := Apply(cfg, s, step).0;
      forall h | h in s'.cache ensures EntryAgrees(s', now, h) {
        assert EntryAgrees(s, clock, h);
      }
    case Session(token, now, writtenAt, getFails, setFails) =>
      SessionKeepsInv(cfg, s, clock, token, now, writtenAt, CacheFaults(getFails, setFails));
    case Logout(token, now, writtenAt, revokedAt, getFails, setFails) =>
      LogoutKeepsInv(cfg, s, clock, token, now, writtenAt, revokedAt, CacheFaults(getFails, setFails));
    case RevokeForUser(userID, now) =>
      RevokeForUserKeepsInv(cfg, s, clock, userID, now);
    case InvalidateForUser(userID, now) =>
      PurgeKeepsInv(cfg, s, clock, s.directory, ActiveHashesForUser(s, userID), now);
    case InvalidateForOrganization(organizationID, now) =>
      PurgeKeepsInv(cfg, s, clock, s.directory, ActiveHashesForOrganization(s, organizationID), now);
    case ChangeUser(userID, directory, now) =>
      PurgeKeepsInv(cfg, s, clock, directory, ActiveHashesForUser(s, userID), now);
    case ChangeOrganization(organizationID, directory, now) =>
      PurgeKeepsInv(cfg, s, clock, directory, ActiveHashesForOrganization(s, organizationID), now);
    case Cleanup(now) =>
      CleanupKeepsInv(cfg, s, clock, now);
  }

  /** Resolving changes nothing but the cache, and gives the same answer on both sides. */
  lemma SessionSimulates(cfg: Config, s: State, plain: State, clock: Time,
                         token: string, now: Time, writtenAt: Time, f: Faults)
    requires Inv(cfg, s, clock) && Simulates(s, plain, clock) && clock <= now && !f.rowRead
    ensures var (s', r) := SessionModel.Session(cfg, s, token, now, writtenAt, f);
            var (plain', r') := SessionModel.Session(Plain(cfg), plain, token, now, writtenAt, f);
            s' == s.(cache := s'.cache) && plain' == plain && r == r' && r.Ok?
  {
    SessionIsReference(cfg, s, clock, token, now, writtenAt, f);
    ReferenceIsSimulated(s, plain, clock, token, now);
  }

  function RevokedAt(s: State, h: TokenHash, at: Time): State {
    if h in s.sessions then s.(sessions := s.sessions[h := RevokeRow(s.sessions[h], at)]) else s
  }

  lemma RevokedSimulates(s: State, plain: State, clock: Time, h: TokenHash, now: Time, at: Time)
    requires Simulates(s, plain, clock) && clock <= now
    ensures Simulates(RevokedAt(s, h, at), RevokedAt(plain, h, at), now)
  {
  }

  lemma LogoutIs(cfg: Config, s: State, token: string, now: Time, writtenAt: Time, revokedAt: Time, f: Faults)
    requires var (s', r) := SessionModel.Session(cfg, s, token, now, writtenAt, f);
             token != "" && s' == s.(cache := s'.cache) && r.Ok? && f.write.NoFault?
    ensures var (s', r) := SessionModel.Logout(cfg, s, token, now, writtenAt, revokedAt, f);
            && r == SessionModel.Session(cfg, s, token, now, writtenAt, f).1
            && s' == RevokedAt(s, HashToken(token), revokedAt).(cache := s'.cache)
  {
  }

  lemma LogoutSimulates(cfg: Config, s: State, plain: State, clock: Time,
                        token: string, now: Time, writtenAt: Time, revokedAt: Time, f: Faults)
    requires Inv(cfg, s, clock) && Simulates(s, plain, clock) && clock <= now && !f.rowRead && f.write.NoFault?
    ensures var (s', r) := SessionModel.Logout(cfg, s, token, now, writtenAt, revokedAt, f);
            var (plain', r') := SessionModel.Logout(Plain(cfg), plain, token, now, writtenAt, revokedAt, f);
            Simulates(s', plain', now) && r == r'
  {
    if token != "" {
      SessionSimulates(cfg, s, plain, clock, token, now, writtenAt, f);
      LogoutIs(cfg, s, token, now, writtenAt, revokedAt, f);
      LogoutIs(Plain(cfg), plain, token, now, writtenAt, revokedAt, f);
      RevokedSimulates(s, plain, clock, HashToken(token), now, revokedAt);
    }
  }

  lemma RevokeForUserSimulates(cfg: Config, s: State, plain: State, clock: Time, userID: string, now: Time, f: Faults)
    requires Simulates(s, plain, clock) && clock <= now && f.write.NoFault?
    ensures Simulates(SessionModel.RevokeForUser(cfg, s, userID, now, f).0,
                      SessionModel.RevokeForUser(Plain(cfg), plain, userID, now, f).0, now)
  {
    var s', plain' := RevokeRowsForUser(s, userID, now), RevokeRowsForUser(plain, userID, now);
    assert s'.sessions.Keys == s.sessions.Keys && plain'.sessions.Keys == plain.sessions.Keys;
  }

  lemma CleanupSimulates(s: State, plain: State, clock: Time, now: Time)
    requires Simulates(s, plain, clock) && clock <= now
    ensures Simulates(SessionModel.Cleanup(s, now), plain, now)
  {
  }

  lemma CreateSimulates(cfg: Config, s: State, plain: State, clock: Time,
                        token: string, userID: string, organizationID: string, now: Time)
    requires Simulates(s, plain, clock) && clock <= now && HashToken(token) !in s.issued
    ensures var (s', r) := SessionModel.Create(cfg, s, token, userID, organizationID, now, NO_FAULTS);
            var (plain', r') := SessionModel.Create(Plain(cfg), plain, token, userID, organizationID, now, NO_FAULTS);
            Simulates(s', plain', now) && r == r'
  {
  }

  lemma EndedStays(s: State, plain: State, clock: Time, now: Time)
    requires Simulates(s, plain, clock) && clock <= now
    ensures Simulates(s, plain, now)
  {
  }

  lemma StepSimulates(cfg: Config, s: State, plain: State, clock: Time, step: Step)
    requires Inv(cfg, s, clock) && Simulates(s, plain, clock) && Legal(s, clock, step)
    ensures Simulates(Apply(cfg, s, step).0, PlainApply(cfg, plain, step).0, step.now)
    ensures Apply(cfg, s, step).1 == PlainApply(cfg, plain, step).1
  {
    match step
    case Session(token, now, writtenAt, getFails, setFails) =>
      SessionSimulates(cfg, s, plain, clock, token, now, writtenAt, CacheFaults(getFails, setFails));
    case Logout(token, now, writtenAt, revokedAt, getFails, setFails) =>
      LogoutSimulates(cfg, s, plain, clock, token, now, writtenAt, revokedAt, CacheFaults(getFails, setFails));
    case RevokeForUser(userID, now) =>
      RevokeForUserSimulates(cfg, s, plain, clock, userID, now, NO_FAULTS);
    case Cleanup(now) =>
      CleanupSimulates(s, plain, clock, now);
    case Create(token, userID, organizationID, now) =>
      CreateSimulates(cfg, s, plain, clock, token, userID, organizationID, now);
    case _ =>
      EndedStays(s, plain, clock, step.now);
  }

  /** No run can tell the cached service with its cleanup job from the plain one. */
  lemma {:induction false} RunSimulates(cfg: Config, s: State, plain: State, clock: Time, steps: seq<Step>)
    requires Inv(cfg, s, clock) && Simulates(s, plain, clock) && LegalRun(cfg, s, clock, steps)
    ensures Outputs(cfg, s, steps) == PlainOutputs(cfg, plain, steps)
    decreases |steps|
  {
    if steps != [] {
      StepKeepsInv(cfg, s, clock, steps[0]);
      StepSimulates(cfg, s, plain, clock, steps[0]);
      RunSimulates(cfg, Apply(cfg, s, steps[0]).0, PlainApply(cfg, plain, steps[0]).0, steps[0].now, steps[1..]);
    }
  }

  lemma CacheAndCleanupAreUnobservable(cfg: Config, clock: Time, steps: seq<Step>)
    requires LegalRun(cfg, EMPTY, clock, steps)
    ensures Outputs(cfg, EMPTY, steps) == PlainOutputs(cfg, EMPTY, steps)
  {
    RunSimulates(cfg, EMPTY, EMPTY, clock, steps);
  }

  lemma {:induction false} RunKeepsInv(cfg: Config, s: State, clock: Time, steps: seq<Step>)
    requires Inv(cfg, s, clock) && LegalRun(cfg, s, clock, steps)
    ensures Inv(cfg, Final(cfg, s, steps), EndTime(clock, steps))
    decreases |steps|
  {
    if steps != [] {
      StepKeepsInv(cfg, s, clock, steps[0]);
      RunKeepsInv(cfg, Apply(cfg, s, steps[0]).0, steps[0].now, steps[1..]);
    }
  }

  /** After any run and at any later time, resolution with faults in Redis, or even in the store,
      never gives a wrong answer: it is the row's own answer or an error. */
  lemma SessionIsNeverWrong(cfg: Config, clock: Time, steps: seq<Step>,
                            token: string, now: Time, writtenAt: Time, f: Faults)
    requires LegalRun(cfg, EMPTY, clock, steps) && EndTime(clock, steps) <= now
    ensures var s := Final(cfg, EMPTY, steps);
            var r := SessionModel.Session(cfg, s, token, now, writtenAt, f).1;
            && (r.Ok? ==> r.value == Reference(s, token, now))
            && (!f.rowRead ==> r.Ok?)
            && (r.Err? ==> f.rowRead && CacheGet(cfg, s, HashToken(token), now, f.cacheGet).None?)
  {
    RunKeepsInv(cfg, EMPTY, clock, steps);
    var s := Final(cfg, EMPTY, steps);
    SessionIsReference(cfg, s, EndTime(clock, steps), token, now, writtenAt, f.(rowRead := false));
  }

  /** A lookup that has to read the row and finds someone remembers it, until the session's idle deadline
      or the cap, counted from the write; one that finds nobody, or has no time left, does not. */
  lemma LookupIsRemembered(cfg: Config, s: State, token: string, now: Time, writtenAt: Time, f: Faults)
    requires token != "" && CacheGet(cfg, s, HashToken(token), now, f.cacheGet).None? && !f.rowRead
    ensures var (s', r) := SessionModel.Session(cfg, s, token, now, writtenAt, f);
            if r.value.Some? && now < r.value.value.idleExpiresAt && 0 < cfg.ttlCap && cfg.cacheEnabled && !f.cacheSet
            then
              var p := r.value.value;
              s' == s.(cache := s.cache[HashToken(token) := CacheEntry(
                CachedPrincipal(p.sessionID, p.userID, p.organizationID, p.profile, p.idleExpiresAt, p.expiresAt),
                if p.idleExpiresAt - now < cfg.ttlCap then writtenAt + (p.idleExpiresAt - now)
                else writtenAt + cfg.ttlCap)])
            else s' == s
  {
  }

  // ---- a session that is over stays over ----

  /** No live row: never inserted or deleted, revoked, or past either deadline at `t`. */
  predicate Over(s: State, token: string, t: Time) {
    var h := HashToken(token);
    token == "" || h !in s.sessions || s.sessions[h].revokedAt.Some?
    || s.sessions[h].idleExpiresAt < t || s.sessions[h].expiresAt < t
  }

  /** A row once issued is deleted, or revoked, or stays as it is. */
  lemma StepKeepsRows(cfg: Config, s: State, clock: Time, step: Step, h: TokenHash)
    requires Legal(s, clock, step) && h in s.issued
    ensures var s' := Apply(cfg, s, step).0;
            && h in s'.issued
            && (h in s'.sessions ==>
                  && h in s.sessions
                  && (|| s'.sessions[h] == s.sessions[h]
                      || s'.sessions[h] == RevokeRow(s.sessions[h], s'.sessions[h].updatedAt)))
  {
  }

  lemma StepKeepsOver(cfg: Config, s: State, clock: Time, step: Step, token: string, t: Time)
    requires Legal(s, clock, step) && HashToken(token) in s.issued && Over(s, token, t)
    ensures Over(Apply(cfg, s, step).0, token, t) && HashToken(token) in Apply(cfg, s, step).0.issued
  {
    StepKeepsRows(cfg, s, clock, step, HashToken(token));
  }

  lemma {:induction false} OverForGood(cfg: Config, s: State, clock: Time, steps: seq<Step>, token: string, t: Time)
    requires LegalRun(cfg, s, clock, steps) && HashToken(token) in s.issued && Over(s, token, t)
    ensures Over(Final(cfg, s, steps), token, t)
    decreases |steps|
  {
    if steps != [] {
      StepKeepsOver(cfg, s, clock, steps[0], token, t);
      OverForGood(cfg, Apply(cfg, s, steps[0]).0, steps[0].now, steps[1..], token, t);
    }
  }

  /** The step changes the profile of this user or of this organization. */
  predicate ChangesProfile(step: Step, userID: string, organizationID: string) {
    || (step.ChangeUser? && step.userID == userID)
    || (step.ChangeOrganization? && step.organizationID == organizationID)
  }

  /** The step changes the profile of the user or organization of the token's session. */
  predicate ChangesOwner(s: State, step: Step, token: string) {
    var h := HashToken(token);
    h in s.sessions && ChangesProfile(step, s.sessions[h].userID, s.sessions[h].organizationID)
  }

  lemma StepKeepsUnjoined(cfg: Config, s: State, clock: Time, step: Step, token: string)
    requires Legal(s, clock, step) && HashToken(token) in s.issued && !ChangesOwner(s, step, token)
    requires GetSessionByTokenHash(s, HashToken(token)).None?
    ensures GetSessionByTokenHash(Apply(cfg, s, step).0, HashToken(token)).None?
    ensures HashToken(token) in Apply(cfg, s, step).0.issued
  {
  }

  /** A session's row stays with its user and organization, until it is deleted. */
  lemma StepKeepsOwner(cfg: Config, s: State, clock: Time, step: Step, later: Step, token: string)
    requires Legal(s, clock, step) && HashToken(token) in s.issued && !ChangesOwner(s, later, token)
    ensures !ChangesOwner(Apply(cfg, s, step).0, later, token)
  {
    StepKeepsRows(cfg, s, clock, step, HashToken(token));
  }

  lemma {:induction false} UnjoinedForGood(cfg: Config, s: State, clock: Time, steps: seq<Step>, token: string)
    requires LegalRun(cfg, s, clock, steps) && HashToken(token) in s.issued
    requires forall i :: 0 <= i < |steps| ==> !ChangesOwner(s, steps[i], token)
    requires GetSessionByTokenHash(s, HashToken(token)).None?
    ensures GetSessionByTokenHash(Final(cfg, s, steps), HashToken(token)).None?
    decreases |steps|
  {
    if steps != [] {
      var s' := Apply(cfg, s, steps[0]).0;
      StepKeepsUnjoined(cfg, s, clock, steps[0], token);
      forall i | 0 <= i < |steps[1..]| ensures !ChangesOwner(s', steps[1..][i], token) {
        StepKeepsOwner(cfg, s, clock, steps[0], steps[i + 1], token);
      }
      UnjoinedForGood(cfg, s', steps[0].now, steps[1..], token);
    }
  }

  /** An issued token that once resolves to nothing resolves to nothing ever after, in every run
      that leaves its own user and organization alone. */
  lemma NeverResolvesAgain(cfg: Config, s: State, clock: Time, steps: seq<Step>, token: string,
                           t: Time, t': Time, writtenAt: Time, f: Faults)
    requires Inv(cfg, s, clock) && LegalRun(cfg, s, clock, steps) && HashToken(token) in s.issued
    requires clock <= t <= t' && EndTime(clock, steps) <= t'
    requires forall i :: 0 <= i < |steps| ==> !ChangesOwner(s, steps[i], token)
    requires !f.rowRead && SessionModel.Session(cfg, s, token, t, writtenAt, f).1 == Ok(None)
    ensures forall writtenAt': Time, f': Faults :: !f'.rowRead ==>
              SessionModel.Session(cfg, Final(cfg, s, steps), token, t', writtenAt', f').1 == Ok(None)
  {
    var s' := Final(cfg, s, steps);
    SessionIsReference(cfg, s, clock, token, t, writtenAt, f);
    if Over(s, token, t) {
      OverForGood(cfg, s, clock, steps, token, t);
    } else {
      UnjoinedForGood(cfg, s, clock, steps, token);
    }
    RunKeepsInv(cfg, s, clock, steps);
    forall writtenAt': Time, f': Faults | !f'.rowRead
      ensures SessionModel.Session(cfg, s', token, t', writtenAt', f').1 == Ok(None)
    {
      SessionIsReference(cfg, s', EndTime(clock, steps), token, t', writtenAt', f');
    }
  }

  /** A token whose session is over resolves to nothing in any continuation, whatever happens to users
      and organizations. */
  lemma OverNeverResolves(cfg: Config, s: State, clock: Time, steps: seq<Step>, token: string,
                          t: Time, t': Time, writtenAt: Time, f: Faults)
    requires Inv(cfg, s, clock) && LegalRun(cfg, s, clock, steps) && HashToken(token) in s.issued
    requires Over(s, token, t) && t <= t' && EndTime(clock, steps) <= t' && !f.rowRead
    ensures SessionModel.Session(cfg, Final(cfg, s, steps), token, t', writtenAt, f).1 == Ok(None)
  {
    OverForGood(cfg, s, clock, steps, token, t);
    RunKeepsInv(cfg, s, clock, steps);
    SessionIsReference(cfg, Final(cfg, s, steps), EndTime(clock, steps), token, t', writtenAt, f);
  }

  /** After these steps the token resolves at t'. */
  ghost predicate ResolvesAfter(cfg: Config, s: State, clock: Time, steps: seq<Step>, token: string,
                                t: Time, t': Time)
  {
    && LegalRun(cfg, s, clock, steps) && t <= t' && EndTime(clock, steps) <= t'
    && SessionModel.Session(cfg, Final(cfg, s, steps), token, t', t', NO_FAULTS).1.Ok?
    && SessionModel.Session(cfg, Final(cfg, s, steps), token, t', t', NO_FAULTS).1.value.Some?
  }

  /** Giving the user back a membership that the join misses, at time t. */
  function Rejoin(s: State, h: TokenHash, t: Time): Step
    requires h in s.sessions
  {
    var row := s.sessions[h];
    ChangeUser(row.userID, s.directory[(row.userID, row.organizationID) := Profile("", "", "", "", "", [])], t)
  }

  lemma RejoinedResolves(cfg: Config, s: State, clock: Time, token: string, t: Time)
    requires Inv(cfg, s, clock) && clock <= t && !Over(s, token, t)
    ensures ResolvesAfter(cfg, s, clock, [Rejoin(s, HashToken(token), t)], token, t, t)
  {
    var step := Rejoin(s, HashToken(token), t);
    var s' := Apply(cfg, s, step).0;
    StepKeepsInv(cfg, s, clock, step);
    assert [step][1..] == [] && LegalRun(cfg, s', t, []);
    assert Final(cfg, s, [step]) == s';
    SessionIsReference(cfg, s', t, token, t, t, NO_FAULTS);
  }

  /** Exactly when a token can still resolve at or after t, in some continuation: unless its session is
      revoked, past a deadline, or gone. A token that stopped resolving only because its user had left
      the organization may resolve again. */
  lemma ResolvesAgainExactly(cfg: Config, s: State, clock: Time, token: string, t: Time)
    requires Inv(cfg, s, clock) && clock <= t && HashToken(token) in s.issued
    ensures (exists steps, t' :: ResolvesAfter(cfg, s, clock, steps, token, t, t')) <==> !Over(s, token, t)
  {
    if Over(s, token, t) {
      forall steps, t' | LegalRun(cfg, s, clock, steps) && t <= t' && EndTime(clock, steps) <= t'
        ensures !ResolvesAfter(cfg, s, clock, steps, token, t, t')
      {
        OverNeverResolves(cfg, s, clock, steps, token, t, t', t', NO_FAULTS);
      }
    } else {
      RejoinedResolves(cfg, s, clock, token, t);
    }
  }

  /** Revoking a user ends every earlier token of that user for good, whatever happens to users and
      organizations afterwards, and leaves every other user's resolution as it was. */
  lemma RevokeForUserEnds(cfg: Config, s: State, clock: Time, userID: string, now: Time, steps: seq<Step>,
                          token: string, t: Time, writtenAt: Time, f: Faults)
    requires Inv(cfg, s, clock) && clock <= now && HashToken(token) in s.issued && !f.rowRead
    requires LegalRun(cfg, SessionModel.RevokeForUser(cfg, s, userID, now, NO_FAULTS).0, now, steps)
    ensures var s1 := SessionModel.RevokeForUser(cfg, s, userID, now, NO_FAULTS).0;
            && (HashToken(token) in s.sessions && s.sessions[HashToken(token)].userID == userID
                && EndTime(now, steps) <= t ==>
                  SessionModel.Session(cfg, Final(cfg, s1, steps), token, t, writtenAt, f).1 == Ok(None))
            && (HashToken(token) in s.sessions && s.sessions[HashToken(token)].userID != userID && now <= t ==>
                  SessionModel.Session(cfg, s1, token, t, writtenAt, f).1
                  == SessionModel.Session(cfg, s, token, t, writtenAt, f).1)
  {
    var step := RevokeForUser(userID, now);
    var s1 := Apply(cfg, s, step).0;
    StepKeepsInv(cfg, s, clock, step);
    if HashToken(token) in s.sessions {
      if s.sessions[HashToken(token)].userID == userID {
        if EndTime(now, steps) <= t {
          RunKeepsInv(cfg, s1, now, steps);
          OverForGood(cfg, s1, now, steps, token, t);
          SessionIsReference(cfg, Final(cfg, s1, steps), EndTime(now, steps), token, t, writtenAt, f);
        }
      } else if now <= t {
        SessionIsReference(cfg, s, clock, token, t, writtenAt, f);
        SessionIsReference(cfg, s1, now, token, t, writtenAt, f);
      }
    }
  }

  // ---- how long a session lives ----

  /** The step revokes the token's session, or changes the profile of its user or organization. */
  predicate Touches(step: Step, token: string, userID: string, organizationID: string) {
    || (step.Logout? && step.token == token)
    || (step.RevokeForUser? && step.userID == userID)
    || ChangesProfile(step, userID, organizationID)
  }

  /** The row is as it was, or the cleanup removed it after its absolute deadline. */
  predicate RowKept(s: State, h: TokenHash, row: SessionRow, clock: Time) {
    h in s.issued && (if h in s.sessions then s.sessions[h] == row else row.expiresAt < clock)
  }

  lemma StepKeepsRow(cfg: Config, s: State, clock: Time, step: Step, token: string, row: SessionRow)
    requires Legal(s, clock, step) && row.revokedAt.None? && RowKept(s, HashToken(token), row, clock)
    requires !Touches(step, token, row.userID, row.organizationID)
    ensures RowKept(Apply(cfg, s, step).0, HashToken(token), row, step.now)
  {
  }

  lemma StepKeepsProfile(cfg: Config, s: State, clock: Time, step: Step, userID: string, organizationID: string)
    requires Legal(s, clock, step) && !ChangesProfile(step, userID, organizationID)
    ensures SameProfile(s.directory, Apply(cfg, s, step).0.directory, (userID, organizationID))
  {
  }

  lemma {:induction false} RunKeepsRow(cfg: Config, s: State, clock: Time, steps: seq<Step>, token: string,
                                       row: SessionRow)
    requires LegalRun(cfg, s, clock, steps) && row.revokedAt.None? && RowKept(s, HashToken(token), row, clock)
    requires forall i :: 0 <= i < |steps| ==> !Touches(steps[i], token, row.userID, row.organizationID)
    ensures RowKept(Final(cfg, s, steps), HashToken(token), row, EndTime(clock, steps))
    ensures SameProfile(s.directory, Final(cfg, s, steps).directory, (row.userID, row.organizationID))
    decreases |steps|
  {
    if steps != [] {
      StepKeepsRow(cfg, s, clock, steps[0], token, row);
      StepKeepsProfile(cfg, s, clock, steps[0], row.userID, row.organizationID);
      RunKeepsRow(cfg, Apply(cfg, s, steps[0]).0, steps[0].now, steps[1..], token, row);
    }
  }

  /** Creating with a new token succeeds. */
  lemma CreateAnswers(cfg: Config, s: State, clock: Time, create: Step) returns (token: string)
    requires Inv(cfg, s, clock) && create.Create? && Legal(s, clock, create)
    ensures Apply(cfg, s, create).1 == Created(Ok(token))
  {
    token := create.token;
  }

  /** The token that creation answers resolves to that user and organization, from then until the first
      of its two deadlines, whatever else happens to other sessions, users and organizations, as long as
      it is not revoked and its own user and organization stay as they are. */
  lemma SessionLivesExactly(cfg: Config, s: State, clock: Time, create: Step, token: string, steps: seq<Step>,
                            t: Time, writtenAt: Time, f: Faults)
    requires Inv(cfg, s, clock) && create.Create? && Legal(s, clock, create)
    requires Apply(cfg, s, create).1 == Created(Ok(token)) && token != ""
    requires LegalRun(cfg, Apply(cfg, s, create).0, create.now, steps)
    requires forall i :: 0 <= i < |steps| ==>
               !Touches(steps[i], token, create.userID, create.organizationID)
    requires EndTime(create.now, steps) <= t && !f.rowRead
    ensures var key := (create.userID, create.organizationID);
            var s' := Final(cfg, Apply(cfg, s, create).0, steps);
            SessionModel.Session(cfg, s', token, t, writtenAt, f).1 ==
              Ok(if key in s.directory && t <= create.now + cfg.idleTimeout && t <= create.now + cfg.maxLifetime then
                   Some(Principal(token, create.userID, create.organizationID, s.directory[key],
                                  create.now + cfg.idleTimeout, create.now + cfg.maxLifetime, None))
                 else None)
  {
    var h, s1 := HashToken(token), Apply(cfg, s, create).0;
    StepKeepsInv(cfg, s, clock, create);
    var row := SessionRow(token, create.userID, create.organizationID,
                          create.now + cfg.idleTimeout, create.now + cfg.maxLifetime, None, create.now);
    assert s1.sessions[h] == row;
    RunKeepsRow(cfg, s1, create.now, steps, token, row);
    RunKeepsInv(cfg, s1, create.now, steps);
    SessionIsReference(cfg, Final(cfg, s1, steps), EndTime(create.now, steps), token, t, writtenAt, f);
  }

  // ---- logging out ----

  lemma LogoutRevokes(cfg: Config, s: State, clock: Time, logout: Step, t: Time)
    requires Inv(cfg, s, clock) && logout.Logout? && Legal(s, clock, logout)
    ensures Over(Apply(cfg, s, logout).0, logout.token, t)
    ensures Apply(cfg, s, logout).0.issued == s.issued && Apply(cfg, s, logout).0.directory == s.directory
    ensures forall h :: h != HashToken(logout.token) ==>
              (h in Apply(cfg, s, logout).0.sessions <==> h in s.sessions)
              && (h in s.sessions ==> Apply(cfg, s, logout).0.sessions[h] == s.sessions[h])
  {
  }

  lemma LogoutAnswers(cfg: Config, s: State, clock: Time, logout: Step)
    requires Inv(cfg, s, clock) && logout.Logout? && Legal(s, clock, logout)
    ensures Apply(cfg, s, logout).1 == Resolved(Ok(Reference(s, logout.token, logout.now)))
  {
    SessionIsReference(cfg, s, clock, logout.token, logout.now, logout.writtenAt,
                       CacheFaults(logout.getFails, logout.setFails));
  }

  /** Logging out answers whom the token resolved to, and the token resolves to nothing in any
      continuation. */
  lemma LogoutEnds(cfg: Config, s: State, clock: Time, logout: Step, steps: seq<Step>,
                   t: Time, writtenAt: Time, f: Faults)
    requires Inv(cfg, s, clock) && logout.Logout? && Legal(s, clock, logout) && HashToken(logout.token) in s.issued
    requires LegalRun(cfg, Apply(cfg, s, logout).0, logout.now, steps)
    requires EndTime(logout.now, steps) <= t && !f.rowRead
    ensures Apply(cfg, s, logout).1 == Resolved(Ok(Reference(s, logout.token, logout.now)))
    ensures var s' := Final(cfg, Apply(cfg, s, logout).0, steps);
            SessionModel.Session(cfg, s', logout.token, t, writtenAt, f).1 == Ok(None)
  {
    LogoutAnswers(cfg, s, clock, logout);
    LogoutRevokes(cfg, s, clock, logout, t);
    StepKeepsInv(cfg, s, clock, logout);
    OverNeverResolves(cfg, Apply(cfg, s, logout).0, logout.now, steps, logout.token, t, t, writtenAt, f);
  }

  /** It leaves every other token's resolution as it was. */
  lemma LogoutSparesOthers(cfg: Config, s: State, clock: Time, logout: Step, other: string,
                           t: Time, writtenAt: Time, f: Faults)
    requires Inv(cfg, s, clock) && logout.Logout? && Legal(s, clock, logout)
    requires other != logout.token && logout.now <= t && !f.rowRead
    ensures SessionModel.Session(cfg, Apply(cfg, s, logout).0, other, t, writtenAt, f).1 ==
              SessionModel.Session(cfg, s, other, t, writtenAt, f).1
  {
    LogoutRevokes(cfg, s, clock, logout, t);
    StepKeepsInv(cfg, s, clock, logout);
    SessionIsReference(cfg, s, clock, other, t, writtenAt, f);
    SessionIsReference(cfg, Apply(cfg, s, logout).0, logout.now, other, t, writtenAt, f);
  }
}
