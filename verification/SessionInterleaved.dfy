/** Session requests cut into their separate Redis and store calls, interleaved in any order, with
    any call failing and any delete lost. A superseded answer survives only for a bounded time. */
module SessionInterleaved {
  import opened Wrappers
  import opened SessionModel

  /** How far a lookup has come. `now` is the clock reading it started from. */
  datatype Request =
    | Started(h: TokenHash, now: Time)
    | Missed(h: TokenHash, now: Time)
    | Loaded(h: TokenHash, now: Time, principal: Principal)
    | Answered

  /** How far a purge has come. Which hashes it loaded is left open: those of a user, of an
      organization or of one token, or none after a failed load. */
  datatype Purge = HashesLoaded(hashes: set<TokenHash>) | PurgeDone

  datatype World = World(base: State, requests: map<nat, Request>, purges: map<nat, Purge>, clock: Time)

  const START := World(EMPTY, map[], map[], 0)

  datatype Step =
    | Create(token: string, userID: string, organizationID: string, at: Time)
    | Begin(req: nat, h: TokenHash, at: Time)
    | GetCache(req: nat, fails: bool, at: Time)
    | ReadRow(req: nat, fails: bool, at: Time)
    | WriteCache(req: nat, fails: bool, at: Time)
    | LoadHashes(purge: nat, hashes: set<TokenHash>, at: Time)
    | RevokeUser(userID: string, at: Time)
    | RevokeToken(h: TokenHash, at: Time)
    | DeleteKeys(purge: nat, lost: bool, at: Time)
    | SetDirectory(directory: map<(string, string), Profile>, at: Time)
    | CleanUp(at: Time)

  datatype Answer = Answer(h: TokenHash, principal: Option<Principal>) | Failed(h: TokenHash) | Nothing

  /** The principal a row read would go on with. */
  function LiveRow(s: State, h: TokenHash): Option<Principal> {
    match GetSessionByTokenHash(s, h)
    case None => None
    case Some(p) => if p.revokedAt.Some? then None else Some(p)
  }

  ghost predicate Enabled(s: World, step: Step) {
    && s.clock <= step.at
    && match step
       case Create(token, userID, organizationID, at) => HashToken(token) !in s.base.issued
       case Begin(req, h, at) => req !in s.requests
       case GetCache(req, fails, at) => req in s.requests && s.requests[req].Started?
       case ReadRow(req, fails, at) => req in s.requests && s.requests[req].Missed?
       case WriteCache(req, fails, at) => req in s.requests && s.requests[req].Loaded?
       case LoadHashes(purge, hashes, at) => purge !in s.purges
       case DeleteKeys(purge, lost, at) => purge in s.purges && s.purges[purge].HashesLoaded?
       case _ => true
  }

  function GetCacheStep(cfg: Config, s: World, req: nat, fails: bool, at: Time): (World, Answer)
    requires req in s.requests && s.requests[req].Started?
  {
    var r := s.requests[req];
    match CacheGet(cfg, s.base, r.h, at, fails)
    case Some(cached) =>
      var p := cached.ToPrincipal();
      (s.(requests := s.requests[req := Answered], clock := at),
       Answer(r.h, if Expired(p, r.now) then None else Some(p)))
    case None =>
      (s.(requests := s.requests[req := Missed(r.h, r.now)], clock := at), Nothing)
  }

  function ReadRowStep(cfg: Config, s: World, req: nat, fails: bool, at: Time): (World, Answer)
    requires req in s.requests && s.requests[req].Missed?
  {
    var r := s.requests[req];
    var answered := s.(requests := s.requests[req := Answered], clock := at);
    if fails then (answered, Failed(r.h)) else
    match LiveRow(s.base, r.h)
    case None => (answered, Answer(r.h, None))
    case Some(p) =>
      if Expired(p, r.now) then (answered, Answer(r.h, None))
      else if CacheTTL(cfg, p, r.now) <= 0 then (answered, Answer(r.h, Some(p)))
      else (s.(requests := s.requests[req := Loaded(r.h, r.now, p)], clock := at), Nothing)
  }

  /** The answer is given whether or not the cache write succeeds. */
  function WriteCacheStep(cfg: Config, s: World, req: nat, fails: bool, at: Time): (World, Answer)
    requires req in s.requests && s.requests[req].Loaded?
  {
    var r := s.requests[req];
    (s.(base := CacheSet(cfg, s.base, r.h, r.principal.ToCache(), at + CacheTTL(cfg, r.principal, r.now), fails),
        requests := s.requests[req := Answered], clock := at),
     Answer(r.h, Some(r.principal)))
  }

  ghost function Apply(cfg: Config, s: World, step: Step): (World, Answer)
    requires Enabled(s, step)
  {
    match step
    case Create(token, userID, organizationID, at) =>
      var (base, _) := SessionModel.Create(cfg, s.base, token, userID, organizationID, at, NO_FAULTS);
      (s.(base := base, clock := at), Nothing)
    case Begin(req, h, at) => (s.(requests := s.requests[req := Started(h, at)], clock := at), Nothing)
    case GetCache(req, fails, at) => GetCacheStep(cfg, s, req, fails, at)
    case ReadRow(req, fails, at) => ReadRowStep(cfg, s, req, fails, at)
    case WriteCache(req, fails, at) => WriteCacheStep(cfg, s, req, fails, at)
    case LoadHashes(purge, hashes, at) => (s.(purges := s.purges[purge := HashesLoaded(hashes)], clock := at), Nothing)
    case RevokeUser(userID, at) => (s.(base := RevokeRowsForUser(s.base, userID, at), clock := at), Nothing)
    case RevokeToken(h, at) =>
      (s.(base := if h in s.base.sessions
                  then s.base.(sessions := s.base.sessions[h := RevokeRow(s.base.sessions[h], at)]) else s.base,
          clock := at), Nothing)
    case DeleteKeys(purge, lost, at) =>
      (s.(base := CacheDelete(cfg, s.base, s.purges[purge].hashes, lost),
          purges := s.purges[purge := PurgeDone], clock := at), Nothing)
    case SetDirectory(directory, at) => (s.(base := s.base.(directory := directory), clock := at), Nothing)
    case CleanUp(at) => (s.(base := Cleanup(s.base, at), clock := at), Nothing)
  }

  ghost predicate LegalRun(cfg: Config, s: World, steps: seq<Step>)
    decreases |steps|
  {
    steps == [] || (Enabled(s, steps[0]) && LegalRun(cfg, Apply(cfg, s, steps[0]).0, steps[1..]))
  }

  ghost function Final(cfg: Config, s: World, steps: seq<Step>): World
    requires LegalRun(cfg, s, steps)
    decreases |steps|
  {
    if steps == [] then s else Final(cfg, Apply(cfg, s, steps[0]).0, steps[1..])
  }

  ghost function Answers(cfg: Config, s: World, steps: seq<Step>): (answers: seq<Answer>)
    requires LegalRun(cfg, s, steps)
    ensures |answers| == |steps|
    decreases |steps|
  {
    if steps == [] then [] else [Apply(cfg, s, steps[0]).1] + Answers(cfg, Apply(cfg, s, steps[0]).0, steps[1..])
  }

  // ---- every entry dies within the cap of its writing ----

  ghost predicate Inv(cfg: Config, s: World) {
    && s.base.sessions.Keys <= s.base.issued
    && (forall h :: h in s.base.cache ==> s.base.cache[h].deadline <= s.clock + cfg.ttlCap)
    && (forall req :: req in s.requests && s.requests[req].Loaded? ==> s.requests[req].principal.revokedAt.None?)
  }

  lemma StepKeepsInv(cfg: Config, s: World, step: Step)
    requires Inv(cfg, s) && Enabled(s, step)
    ensures Inv(cfg, Apply(cfg, s, step).0) && Apply(cfg, s, step).0.clock == step.at
  {
  }

  lemma {:induction false} RunKeepsInv(cfg: Config, s: World, steps: seq<Step>)
    requires Inv(cfg, s) && LegalRun(cfg, s, steps)
    ensures Inv(cfg, Final(cfg, s, steps))
    decreases |steps|
  {
    if steps != [] {
      StepKeepsInv(cfg, s, steps[0]);
      RunKeepsInv(cfg, Apply(cfg, s, steps[0]).0, steps[1..]);
    }
  }

  // ---- a superseded principal ----

  function Max(a: Time, b: Time): Time {
    if a < b then b else a
  }

  /** The lookups that hold `p` for `h` and have not yet written it. */
  ghost function Holders(s: World, h: TokenHash, p: Principal): set<nat> {
    set req | req in s.requests && s.requests[req].Loaded? && s.requests[req].h == h && s.requests[req].principal == p
  }

  /** From here on the table never yields `p` for `h`. */
  ghost predicate Superseded(cfg: Config, s: World, steps: seq<Step>, h: TokenHash, p: Principal)
    requires LegalRun(cfg, s, steps)
    decreases |steps|
  {
    && LiveRow(s.base, h) != Some(p)
    && (steps != [] ==> Superseded(cfg, Apply(cfg, s, steps[0]).0, steps[1..], h, p))
  }

  predicate HoldersWriteBy(steps: seq<Step>, holders: set<nat>, w: Time) {
    forall i :: 0 <= i < |steps| && steps[i].WriteCache? && steps[i].req in holders ==> steps[i].at <= w
  }

  /** Only the lookups in `holders` still hold `p`, and a cached `p` dies by `bound`. */
  ghost predicate Fading(s: World, h: TokenHash, p: Principal, holders: set<nat>, bound: Time) {
    && p.revokedAt.None?
    && holders <= s.requests.Keys
    && Holders(s, h, p) <= holders
    && (h in s.base.cache && s.base.cache[h].value == p.ToCache() ==> s.base.cache[h].deadline <= bound)
  }

  lemma StepKeepsFading(cfg: Config, s: World, step: Step, h: TokenHash, p: Principal,
                        holders: set<nat>, w: Time, bound: Time)
    requires Inv(cfg, s) && Enabled(s, step) && Fading(s, h, p, holders, bound)
    requires LiveRow(s.base, h) != Some(p)
    requires step.WriteCache? && step.req in holders ==> step.at <= w
    requires w + cfg.ttlCap <= bound && 0 < cfg.ttlCap
    ensures Fading(Apply(cfg, s, step).0, h, p, holders, bound)
    ensures bound <= step.at ==> Apply(cfg, s, step).1 != Answer(h, Some(p))
  {
    if step.WriteCache? && s.requests[step.req].h == h && s.requests[step.req].principal == p {
      assert step.req in Holders(s, h, p);
    }
    var s' := Apply(cfg, s, step).0;
    assert Holders(s', h, p) <= Holders(s, h, p);
  }

  /** A superseded principal is never answered from max(r, w) + cap on, where r is when it was
      superseded and w is when the last lookup that had read it before wrote its entry. */
  lemma {:induction false} SupersededFades(cfg: Config, s: World, steps: seq<Step>, h: TokenHash, p: Principal,
                                           holders: set<nat>, w: Time, bound: Time)
    requires Inv(cfg, s) && LegalRun(cfg, s, steps) && Superseded(cfg, s, steps, h, p)
    requires Fading(s, h, p, holders, bound) && HoldersWriteBy(steps, holders, w)
    requires w + cfg.ttlCap <= bound && 0 < cfg.ttlCap
    ensures forall i :: 0 <= i < |steps| && bound <= steps[i].at ==> Answers(cfg, s, steps)[i] != Answer(h, Some(p))
    decreases |steps|
  {
    if steps != [] {
      StepKeepsInv(cfg, s, steps[0]);
      StepKeepsFading(cfg, s, steps[0], h, p, holders, w, bound);
      assert forall i :: 0 <= i < |steps| - 1 ==> steps[1..][i] == steps[i + 1];
      SupersededFades(cfg, Apply(cfg, s, steps[0]).0, steps[1..], h, p, holders, w, bound);
    }
  }

  lemma StaleAnswersEnd(cfg: Config, before: seq<Step>, after: seq<Step>, h: TokenHash, p: Principal, w: Time)
    requires 0 < cfg.ttlCap && p.revokedAt.None? && LegalRun(cfg, START, before)
    requires LegalRun(cfg, Final(cfg, START, before), after)
    requires Superseded(cfg, Final(cfg, START, before), after, h, p)
    requires HoldersWriteBy(after, Holders(Final(cfg, START, before), h, p), w)
    ensures var s := Final(cfg, START, before);
            forall i :: 0 <= i < |after| && Max(s.clock, w) + cfg.ttlCap <= after[i].at ==>
              Answers(cfg, s, after)[i] != Answer(h, Some(p))
  {
    RunKeepsInv(cfg, START, before);
    var s := Final(cfg, START, before);
    SupersededFades(cfg, s, after, h, p, Holders(s, h, p), w, Max(s.clock, w) + cfg.ttlCap);
  }

  // ---- revocation ----

  /** The token was issued and has no unrevoked row. */
  predicate Revoked(s: State, h: TokenHash) {
    h in s.issued && (h in s.sessions ==> s.sessions[h].revokedAt.Some?)
  }

  lemma StepKeepsRevoked(cfg: Config, s: World, step: Step, h: TokenHash)
    requires Enabled(s, step) && Revoked(s.base, h)
    ensures Revoked(Apply(cfg, s, step).0.base, h)
  {
  }

  lemma {:induction false} RevokedSupersedes(cfg: Config, s: World, steps: seq<Step>, h: TokenHash, p: Principal)
    requires LegalRun(cfg, s, steps) && Revoked(s.base, h)
    ensures Superseded(cfg, s, steps, h, p)
    decreases |steps|
  {
    if steps != [] {
      StepKeepsRevoked(cfg, s, steps[0], h);
      RevokedSupersedes(cfg, Apply(cfg, s, steps[0]).0, steps[1..], h, p);
    }
  }

  ghost function AllHolders(s: World, h: TokenHash): set<nat> {
    set req | req in s.requests && s.requests[req].Loaded? && s.requests[req].h == h
  }

  ghost predicate AnswersNothing(answer: Answer, h: TokenHash) {
    answer.Answer? && answer.h == h ==> answer.principal.None?
  }

  lemma {:induction false} AnswersAreUnrevoked(cfg: Config, s: World, steps: seq<Step>)
    requires Inv(cfg, s) && LegalRun(cfg, s, steps)
    ensures forall i :: 0 <= i < |steps|
                && Answers(cfg, s, steps)[i].Answer? && Answers(cfg, s, steps)[i].principal.Some?
              ==> Answers(cfg, s, steps)[i].principal.value.revokedAt.None?
    decreases |steps|
  {
    if steps != [] {
      StepKeepsInv(cfg, s, steps[0]);
      AnswersAreUnrevoked(cfg, Apply(cfg, s, steps[0]).0, steps[1..]);
    }
  }

  /** A session that is revoked in some reachable state answers nothing from max(r, w) + cap on,
      whatever deletes were lost and however calls interleaved. */
  lemma RevocationTakesHold(cfg: Config, before: seq<Step>, after: seq<Step>, h: TokenHash, w: Time)
    requires 0 < cfg.ttlCap && LegalRun(cfg, START, before)
    requires LegalRun(cfg, Final(cfg, START, before), after)
    requires Revoked(Final(cfg, START, before).base, h)
    requires HoldersWriteBy(after, AllHolders(Final(cfg, START, before), h), w)
    ensures var s := Final(cfg, START, before);
            forall i :: 0 <= i < |after| && Max(s.clock, w) + cfg.ttlCap <= after[i].at ==>
              AnswersNothing(Answers(cfg, s, after)[i], h)
  {
    RunKeepsInv(cfg, START, before);
    var s := Final(cfg, START, before);
    var answers := Answers(cfg, s, after);
    forall i | 0 <= i < |after| && Max(s.clock, w) + cfg.ttlCap <= after[i].at
      ensures AnswersNothing(answers[i], h)
    {
      if answers[i].Answer? && answers[i].h == h && answers[i].principal.Some? {
        var p := answers[i].principal.value;
        AnswersAreUnrevoked(cfg, s, after);
        RevokedSupersedes(cfg, s, after, h, p);
        assert Holders(s, h, p) <= AllHolders(s, h);
        StaleAnswersEnd(cfg, before, after, h, p, w);
      }
    }
  }

  // ---- the bound is attained ----

  lemma Cons(cfg: Config, s: World, step: Step, steps: seq<Step>)
    requires Enabled(s, step) && LegalRun(cfg, Apply(cfg, s, step).0, steps)
    ensures LegalRun(cfg, s, [step] + steps)
    ensures Final(cfg, s, [step] + steps) == Final(cfg, Apply(cfg, s, step).0, steps)
    ensures Answers(cfg, s, [step] + steps) == [Apply(cfg, s, step).1] + Answers(cfg, Apply(cfg, s, step).0, steps)
  {
    assert ([step] + steps)[1..] == steps;
  }

  const H := HashToken("t")

  function HeldRow(cfg: Config): SessionRow {
    SessionRow("t", "u", "o", cfg.idleTimeout, cfg.maxLifetime, None, 0)
  }

  /** Lookup 0 has read the live row of the token. */
  function Holding(cfg: Config, profile: Profile): World {
    World(State(map[H := HeldRow(cfg)], map[("u", "o") := profile], map[], {H}),
          map[0 := Loaded(H, 0, FromGetSessionRow(HeldRow(cfg), profile))], map[], 0)
  }

  /** The token was revoked and purged at time 1, with lookup 0 still to write. */
  function Purged(cfg: Config, profile: Profile): World {
    World(State(map[H := RevokeRow(HeldRow(cfg), 1)], map[("u", "o") := profile], map[], {H}),
          map[0 := Loaded(H, 0, FromGetSessionRow(HeldRow(cfg), profile))], map[0 := PurgeDone], 1)
  }

  lemma ReachPurged(cfg: Config, profile: Profile) returns (steps: seq<Step>)
    requires cfg.cacheEnabled
    ensures LegalRun(cfg, Holding(cfg, profile), steps)
    ensures Final(cfg, Holding(cfg, profile), steps) == Purged(cfg, profile)
  {
    steps := [LoadHashes(0, {H}, 1), RevokeToken(H, 1), Step.DeleteKeys(0, false, 1)];
    var s5 := Holding(cfg, profile);
    var s6 := Apply(cfg, s5, steps[0]).0;
    var s7 := Apply(cfg, s6, steps[1]).0;
    assert Apply(cfg, s7, steps[2]).0 == Purged(cfg, profile);
    Cons(cfg, s7, steps[2], []);
    Cons(cfg, s6, steps[1], [steps[2]]);
    Cons(cfg, s5, steps[0], [steps[1], steps[2]]);
    assert steps == [steps[0]] + ([steps[1]] + ([steps[2]] + []));
  }

  lemma ReachHolding(cfg: Config, profile: Profile, rest: seq<Step>) returns (steps: seq<Step>)
    requires cfg.cacheEnabled && 1 <= cfg.ttlCap && 1 <= cfg.idleTimeout && 1 <= cfg.maxLifetime
    requires LegalRun(cfg, Holding(cfg, profile), rest)
    ensures LegalRun(cfg, START, steps) && Final(cfg, START, steps) == Final(cfg, Holding(cfg, profile), rest)
  {
    var create, directory := Create("t", "u", "o", 0), SetDirectory(map[("u", "o") := profile], 0);
    var begin, get, read := Begin(0, H, 0), GetCache(0, false, 0), ReadRow(0, false, 0);
    var s1 := Apply(cfg, START, create).0;
    var s2 := Apply(cfg, s1, directory).0;
    var s3 := Apply(cfg, s2, begin).0;
    var s4 := Apply(cfg, s3, get).0;
    assert s4 == Holding(cfg, profile).(requests := map[0 := Missed(H, 0)]);
    assert Apply(cfg, s4, read).0 == Holding(cfg, profile);
    Cons(cfg, s4, read, rest);
    Cons(cfg, s3, get, [read] + rest);
    Cons(cfg, s2, begin, [get] + ([read] + rest));
    Cons(cfg, s1, directory, [begin] + ([get] + ([read] + rest)));
    steps := [create] + ([directory] + ([begin] + ([get] + ([read] + rest))));
    Cons(cfg, START, create, [directory] + ([begin] + ([get] + ([read] + rest))));
  }

  lemma LateWrite(cfg: Config, profile: Profile, w: Time, after: seq<Step>)
    requires cfg.cacheEnabled && 1 <= cfg.ttlCap && 1 <= w
    requires w + cfg.ttlCap <= cfg.idleTimeout && w + cfg.ttlCap <= cfg.maxLifetime
    requires after == [WriteCache(0, false, w), Begin(1, H, w + cfg.ttlCap - 1), GetCache(1, false, w + cfg.ttlCap - 1)]
    ensures LegalRun(cfg, Purged(cfg, profile), after)
    ensures Answers(cfg, Purged(cfg, profile), after)[2]
         == Answer(H, Some(FromGetSessionRow(HeldRow(cfg), profile)))
  {
    var s8 := Purged(cfg, profile);
    var s9 := Apply(cfg, s8, after[0]).0;
    var s10 := Apply(cfg, s9, after[1]).0;
    assert s10.requests[1] == Started(H, w + cfg.ttlCap - 1);
    Cons(cfg, s10, after[2], []);
    Cons(cfg, s9, after[1], [after[2]]);
    Cons(cfg, s8, after[0], [after[1], after[2]]);
    assert after == [after[0]] + ([after[1]] + ([after[2]] + []));
  }

  /** The purge at time 1 succeeds in every call, and yet the token still resolves one tick before
      w + cap, for every w: the cap alone, counted from the revocation, bounds nothing. */
  lemma LateWriteOutlivesPurge(cfg: Config, profile: Profile, w: Time)
    returns (before: seq<Step>, after: seq<Step>)
    requires cfg.cacheEnabled && 1 <= cfg.ttlCap && 1 <= w
    requires w + cfg.ttlCap <= cfg.idleTimeout && w + cfg.ttlCap <= cfg.maxLifetime
    ensures LegalRun(cfg, START, before) && LegalRun(cfg, Final(cfg, START, before), after)
    ensures var s := Final(cfg, START, before);
            && s.clock == 1 && Revoked(s.base, H) && H !in s.base.cache
            && HoldersWriteBy(after, AllHolders(s, H), w)
            && |after| == 3 && after[2].at == w + cfg.ttlCap - 1
            && Answers(cfg, s, after)[2].Answer? && !AnswersNothing(Answers(cfg, s, after)[2], H)
  {
    var purge := ReachPurged(cfg, profile);
    before := ReachHolding(cfg, profile, purge);
    after := [WriteCache(0, false, w), Begin(1, H, w + cfg.ttlCap - 1), GetCache(1, false, w + cfg.ttlCap - 1)];
    LateWrite(cfg, profile, w, after);
  }
}
