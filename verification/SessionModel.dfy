/** Session resolution over its table and its read-through cache, one operation a function.
    Class SessionService.Service performs these operations in place; the run theorems are
    about these functions. */
module SessionModel {
  import opened Wrappers

  type Time = int

  /** The digest of a raw token. A free constructor: digests of distinct tokens are distinct. */
  datatype TokenHash = HashToken(rawToken: string)

  datatype Config = Config(idleTimeout: Time, maxLifetime: Time, ttlCap: Time, cacheEnabled: bool)

  /** What the join over users, organizations, members and role permissions contributes. */
  datatype Profile = Profile(
    email: string, displayName: string, organizationName: string, organizationSlug: string,
    role: string, permissions: seq<string>)

  datatype SessionRow = SessionRow(
    id: string, userID: string, organizationID: string,
    idleExpiresAt: Time, expiresAt: Time, revokedAt: Option<Time>, updatedAt: Time)

  datatype Principal = Principal(
    sessionID: string, userID: string, organizationID: string, profile: Profile,
    idleExpiresAt: Time, expiresAt: Time, revokedAt: Option<Time>)
  {
    function ToCache(): CachedPrincipal {
      CachedPrincipal(sessionID, userID, organizationID, profile, idleExpiresAt, expiresAt)
    }
  }

  /** The stored projection of a principal; it has no revocation time. */
  datatype CachedPrincipal = CachedPrincipal(
    sessionID: string, userID: string, organizationID: string, profile: Profile,
    idleExpiresAt: Time, expiresAt: Time)
  {
    function ToPrincipal(): Principal {
      Principal(sessionID, userID, organizationID, profile, idleExpiresAt, expiresAt, None)
    }
  }

  datatype CacheEntry = CacheEntry(value: CachedPrincipal, deadline: Time)

  /** `directory` maps (user, organization) to the joined columns; a missing pair means the join
      yields no row. `issued` is every hash a token was ever generated for. */
  datatype State = State(
    sessions: map<TokenHash, SessionRow>,
    directory: map<(string, string), Profile>,
    cache: map<TokenHash, CacheEntry>,
    issued: set<TokenHash>)

  const EMPTY := State(map[], map[], map[], {})

  datatype Error = GetSession | CreateSession | RevokeSession | DeleteKeys

  /** Which calls to Redis and to the store fail during one operation; the write to the store may fail
      after it took effect. */
  datatype Faults = Faults(
    cacheGet: bool, cacheSet: bool, cacheDelete: bool,
    rowRead: bool, hashLoad: bool, write: Fault)

  const NO_FAULTS := Faults(false, false, false, false, false, NoFault)

  // ---- rows and cache entries ----

  function FromGetSessionRow(row: SessionRow, profile: Profile): Principal {
    Principal(row.id, row.userID, row.organizationID, profile, row.idleExpiresAt, row.expiresAt, row.revokedAt)
  }

  function GetSessionByTokenHash(s: State, h: TokenHash): Option<Principal> {
    if h in s.sessions && (s.sessions[h].userID, s.sessions[h].organizationID) in s.directory then
      Some(FromGetSessionRow(s.sessions[h], s.directory[(s.sessions[h].userID, s.sessions[h].organizationID)]))
    else
      None
  }

  predicate Expired(p: Principal, now: Time) {
    now > p.idleExpiresAt || now > p.expiresAt
  }

  function CacheTTL(cfg: Config, p: Principal, now: Time): Time {
    if p.idleExpiresAt - now < cfg.ttlCap then p.idleExpiresAt - now else cfg.ttlCap
  }

  /** Redis serves a key strictly before its deadline. */
  function CacheGet(cfg: Config, s: State, h: TokenHash, now: Time, fails: bool): Option<CachedPrincipal> {
    if cfg.cacheEnabled && !fails && h in s.cache && now < s.cache[h].deadline then Some(s.cache[h].value) else None
  }

  function CacheSet(cfg: Config, s: State, h: TokenHash, value: CachedPrincipal, deadline: Time, fails: bool): State {
    if cfg.cacheEnabled && !fails then s.(cache := s.cache[h := CacheEntry(value, deadline)]) else s
  }

  function CacheDelete(cfg: Config, s: State, hashes: set<TokenHash>, fails: bool): State {
    if cfg.cacheEnabled && !fails then s.(cache := s.cache - hashes) else s
  }

  function ActiveHashesForUser(s: State, userID: string): set<TokenHash> {
    set h | h in s.sessions && s.sessions[h].userID == userID && s.sessions[h].revokedAt.None?
  }

  function ActiveHashesForOrganization(s: State, organizationID: string): set<TokenHash> {
    set h | h in s.sessions && s.sessions[h].organizationID == organizationID && s.sessions[h].revokedAt.None?
  }

  function RevokeRow(row: SessionRow, now: Time): SessionRow {
    if row.revokedAt.None? then row.(revokedAt := Some(now), updatedAt := now) else row
  }

  // ---- operations ----

  /** What resolution means: the row, unless revoked, expired or without a join partner. */
  function Reference(s: State, rawToken: string, now: Time): Option<Principal> {
    if rawToken == "" then None
    else match GetSessionByTokenHash(s, HashToken(rawToken))
      case None => None
      case Some(p) => if p.revokedAt.Some? || Expired(p, now) then None else Some(p)
  }

  /** `now` is read before the row; the cache write starts its TTL at `writtenAt`. */
  function Session(cfg: Config, s: State, rawToken: string, now: Time, writtenAt: Time, f: Faults)
    : (State, Result<Option<Principal>, Error>)
  {
    if rawToken == "" then (s, Ok(None)) else
    var h := HashToken(rawToken);
    match CacheGet(cfg, s, h, now, f.cacheGet)
    case Some(cached) =>
      (s, Ok(if Expired(cached.ToPrincipal(), now) then None else Some(cached.ToPrincipal())))
    case None =>
      if f.rowRead then (s, Err(GetSession)) else
      match GetSessionByTokenHash(s, h)
      case None => (s, Ok(None))
      case Some(p) =>
        if p.revokedAt.Some? || Expired(p, now) then (s, Ok(None)) else
        var ttl := CacheTTL(cfg, p, now);
        (if ttl > 0 then CacheSet(cfg, s, h, p.ToCache(), writtenAt + ttl, f.cacheSet) else s, Ok(Some(p)))
  }

  function Create(cfg: Config, s: State, token: string, userID: string, organizationID: string, now: Time, f: Faults)
    : (State, Result<string, Error>)
  {
    var h := HashToken(token);
    var s' := s.(issued := s.issued + {h});
    if f.write.Lost? || h in s.sessions then (s', Err(CreateSession)) else
    var row := SessionRow(token, userID, organizationID, now + cfg.idleTimeout, now + cfg.maxLifetime, None, now);
    (s'.(sessions := s.sessions[h := row]), if f.write.NoFault? then Ok(token) else Err(CreateSession))
  }

  /** Logout resolves the token first, then reads the clock again as `revokedAt`. */
  function Logout(cfg: Config, s: State, rawToken: string, now: Time, writtenAt: Time, revokedAt: Time, f: Faults)
    : (State, Result<Option<Principal>, Error>)
  {
    if rawToken == "" then (s, Ok(None)) else
    var (s1, r) := Session(cfg, s, rawToken, now, writtenAt, f);
    if r.Err? then (s1, r) else
    if f.write.Lost? then (s1, Err(RevokeSession)) else
    var h := HashToken(rawToken);
    var s2 := if h in s1.sessions then s1.(sessions := s1.sessions[h := RevokeRow(s1.sessions[h], revokedAt)]) else s1;
    if f.write.Applied? then (s2, Err(RevokeSession)) else (CacheDelete(cfg, s2, {h}, f.cacheDelete), r)
  }

  function RevokeRowsForUser(s: State, userID: string, now: Time): State {
    s.(sessions := map h | h in s.sessions ::
         if s.sessions[h].userID == userID then RevokeRow(s.sessions[h], now) else s.sessions[h])
  }

  function RevokeForUser(cfg: Config, s: State, userID: string, now: Time, f: Faults): (State, Result<(), Error>) {
    var hashes := if cfg.cacheEnabled && !f.hashLoad then ActiveHashesForUser(s, userID) else {};
    if f.write.Lost? then (s, Err(RevokeSession))
    else if f.write.Applied? then (RevokeRowsForUser(s, userID, now), Err(RevokeSession))
    else (CacheDelete(cfg, RevokeRowsForUser(s, userID, now), hashes, f.cacheDelete), Ok(()))
  }

  /** Purging by user and by organization differ only in the rows they select. */
  function Invalidate(cfg: Config, s: State, hashes: set<TokenHash>, f: Faults): (State, Result<(), Error>) {
    if !cfg.cacheEnabled then (s, Ok(()))
    else if f.hashLoad then (s, Err(GetSession))
    else (CacheDelete(cfg, s, hashes, f.cacheDelete),
          if f.cacheDelete && hashes != {} then Err(DeleteKeys) else Ok(()))
  }

  const RETENTION: Time := 24 * 60 * 60 * 1000

  /** The rows DeleteEndedSessionsOlderThan removes. */
  predicate Removable(row: SessionRow, now: Time) {
    (row.revokedAt.Some? || row.expiresAt < now - RETENTION) && row.updatedAt < now
  }

  function Cleanup(s: State, now: Time): State {
    s.(sessions := map h | h in s.sessions && !Removable(s.sessions[h], now) :: s.sessions[h])
  }
}
