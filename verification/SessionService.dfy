/** The session service as an object: its methods change the session table and the cache in
    sequence, and each is proved to perform the operation of the same name in SessionModel. */
module SessionService {
  import opened Wrappers
  import opened SessionModel

  class Service {
    const config: Config
    var sessions: map<TokenHash, SessionRow>
    var directory: map<(string, string), Profile>
    var principals: map<TokenHash, CacheEntry>
    var issued: set<TokenHash>

    function State(): State
      reads this
    {
      SessionModel.State(sessions, directory, principals, issued)
    }

    constructor (config: Config)
      ensures this.config == config && State() == EMPTY
    {
      this.config := config;
      sessions, directory, principals, issued := map[], map[], map[], {};
    }

    method Get(h: TokenHash, now: Time, fails: bool) returns (value: Option<CachedPrincipal>)
      ensures value == CacheGet(config, State(), h, now, fails)
    {
      value := None;
      if config.cacheEnabled && !fails && h in principals && now < principals[h].deadline {
        value := Some(principals[h].value);
      }
    }

    method SetWithTTL(h: TokenHash, value: CachedPrincipal, deadline: Time, fails: bool)
      modifies this`principals
      ensures State() == CacheSet(config, old(State()), h, value, deadline, fails)
      ensures config.cacheEnabled && !fails ==>
                forall t :: CacheGet(config, State(), h, t, false) == if t < deadline then Some(value) else None
      ensures forall h', t :: h' != h ==>
                CacheGet(config, State(), h', t, false) == CacheGet(config, old(State()), h', t, false)
    {
      if config.cacheEnabled && !fails {
        principals := principals[h := CacheEntry(value, deadline)];
      }
    }

    method Delete(hashes: set<TokenHash>, fails: bool)
      modifies this`principals
      ensures State() == CacheDelete(config, old(State()), hashes, fails)
      ensures !fails ==> forall h, t :: h in hashes ==> CacheGet(config, State(), h, t, false) == None
      ensures forall h, t :: h !in hashes ==>
                CacheGet(config, State(), h, t, false) == CacheGet(config, old(State()), h, t, false)
    {
      if config.cacheEnabled && !fails {
        principals := principals - hashes;
      }
    }

    method Session(rawToken: string, now: Time, writtenAt: Time, f: Faults)
      returns (r: Result<Option<Principal>, Error>)
      modifies this`principals
      ensures (State(), r) == SessionModel.Session(config, old(State()), rawToken, now, writtenAt, f)
    {
      if rawToken == "" {
        return Ok(None);
      }
      var h := HashToken(rawToken);
      var cached := Get(h, now, f.cacheGet);
      if cached.Some? {
        var principal := cached.value.ToPrincipal();
        if Expired(principal, now) {
          return Ok(None);
        }
        return Ok(Some(principal));
      }
      if f.rowRead {
        return Err(GetSession);
      }
      var row := GetSessionByTokenHash(State(), h);
      if row.None? {
        return Ok(None);
      }
      var principal := row.value;
      if principal.revokedAt.Some? || Expired(principal, now) {
        return Ok(None);
      }
      var ttl := CacheTTL(config, principal, now);
      if ttl > 0 {
        SetWithTTL(h, principal.ToCache(), writtenAt + ttl, f.cacheSet);
      }
      return Ok(Some(principal));
    }

    method Create(token: string, userID: string, organizationID: string, now: Time, f: Faults)
      returns (r: Result<string, Error>)
      modifies this`sessions, this`issued
      ensures (State(), r) == SessionModel.Create(config, old(State()), token, userID, organizationID, now, f)
      ensures var h := HashToken(token);
              if f.write.Lost? || h in old(sessions) then
                r == Err(CreateSession) && sessions == old(sessions)
              else
                && r == (if f.write.NoFault? then Ok(token) else Err(CreateSession))
                && sessions == old(sessions)[h := SessionRow(token, userID, organizationID,
                     now + config.idleTimeout, now + config.maxLifetime, None, now)]
    {
      var h := HashToken(token);
      issued := issued + {h};
      if f.write.Lost? || h in sessions {
        return Err(CreateSession);
      }
      sessions := sessions[h := SessionRow(token, userID, organizationID,
        now + config.idleTimeout, now + config.maxLifetime, None, now)];
      return if f.write.NoFault? then Ok(token) else Err(CreateSession);
    }

    method Logout(rawToken: string, now: Time, writtenAt: Time, revokedAt: Time, f: Faults)
      returns (r: Result<Option<Principal>, Error>)
      modifies this`sessions, this`principals
      ensures (State(), r) == SessionModel.Logout(config, old(State()), rawToken, now, writtenAt, revokedAt, f)
      ensures var resolved := SessionModel.Session(config, old(State()), rawToken, now, writtenAt, f).1;
              && r == (if rawToken == "" || resolved.Err? || f.write.NoFault? then resolved else Err(RevokeSession))
              && sessions.Keys == old(sessions).Keys
              && forall h :: h in sessions ==>
                   sessions[h] == var row := old(sessions)[h];
                     if h == HashToken(rawToken) && rawToken != "" && resolved.Ok? && !f.write.Lost?
                        && row.revokedAt.None?
                     then row.(revokedAt := Some(revokedAt), updatedAt := revokedAt) else row
    {
      if rawToken == "" {
        return Ok(None);
      }
      r := Session(rawToken, now, writtenAt, f);
      if r.Err? {
        return;
      }
      var h := HashToken(rawToken);
      if f.write.Lost? {
        return Err(RevokeSession);
      }
      if h in sessions {
        sessions := sessions[h := RevokeRow(sessions[h], revokedAt)];
      }
      if f.write.Applied? {
        return Err(RevokeSession);
      }
      Delete({h}, f.cacheDelete);
    }

    method RevokeForUser(userID: string, now: Time, f: Faults) returns (r: Result<(), Error>)
      modifies this`sessions, this`principals
      ensures (State(), r) == SessionModel.RevokeForUser(config, old(State()), userID, now, f)
      ensures r == if f.write.NoFault? then Ok(()) else Err(RevokeSession)
      ensures sessions.Keys == old(sessions).Keys
      ensures forall h :: h in sessions ==>
                sessions[h] == var row := old(sessions)[h];
                  if row.userID == userID && row.revokedAt.None? && !f.write.Lost?
                  then row.(revokedAt := Some(now), updatedAt := now) else row
      ensures principals == old(principals) - set h |
                h in old(sessions) && old(sessions)[h].userID == userID && old(sessions)[h].revokedAt.None?
                && f.write.NoFault? && config.cacheEnabled && !f.hashLoad && !f.cacheDelete
    {
      var hashes := {};
      if config.cacheEnabled && !f.hashLoad {
        hashes := ActiveHashesForUser(State(), userID);
      }
      if f.write.Lost? {
        return Err(RevokeSession);
      }
      sessions := map h | h in sessions ::
        if sessions[h].userID == userID then RevokeRow(sessions[h], now) else sessions[h];
      if f.write.Applied? {
        return Err(RevokeSession);
      }
      Delete(hashes, f.cacheDelete);
      return Ok(());
    }

    method InvalidateForUser(userID: string, f: Faults) returns (r: Result<(), Error>)
      modifies this`principals
      ensures (State(), r) == Invalidate(config, old(State()), ActiveHashesForUser(old(State()), userID), f)
      ensures var hashes := set h | h in sessions && sessions[h].userID == userID && sessions[h].revokedAt.None?;
              && r == (if !config.cacheEnabled then Ok(()) else if f.hashLoad then Err(GetSession)
                       else if f.cacheDelete && hashes != {} then Err(DeleteKeys) else Ok(()))
              && principals ==
                   old(principals) - if config.cacheEnabled && !f.hashLoad && !f.cacheDelete then hashes else {}
    {
      if !config.cacheEnabled {
        return Ok(());
      }
      if f.hashLoad {
        return Err(GetSession);
      }
      var hashes := ActiveHashesForUser(State(), userID);
      Delete(hashes, f.cacheDelete);
      return if f.cacheDelete && hashes != {} then Err(DeleteKeys) else Ok(());
    }

    method InvalidateForOrganization(organizationID: string, f: Faults) returns (r: Result<(), Error>)
      modifies this`principals
      ensures (State(), r)
           == Invalidate(config, old(State()), ActiveHashesForOrganization(old(State()), organizationID), f)
      ensures var hashes := set h |
                h in sessions && sessions[h].organizationID == organizationID && sessions[h].revokedAt.None?;
              && r == (if !config.cacheEnabled then Ok(()) else if f.hashLoad then Err(GetSession)
                       else if f.cacheDelete && hashes != {} then Err(DeleteKeys) else Ok(()))
              && principals ==
                   old(principals) - if config.cacheEnabled && !f.hashLoad && !f.cacheDelete then hashes else {}
    {
      if !config.cacheEnabled {
        return Ok(());
      }
      if f.hashLoad {
        return Err(GetSession);
      }
      var hashes := ActiveHashesForOrganization(State(), organizationID);
      Delete(hashes, f.cacheDelete);
      return if f.cacheDelete && hashes != {} then Err(DeleteKeys) else Ok(());
    }

    /** The background job, which shares the session table but not the cache. */
    method CleanupEndedSessions(now: Time)
      modifies this`sessions
      ensures State() == Cleanup(old(State()), now)
      ensures forall h :: h in sessions ==> h in old(sessions) && sessions[h] == old(sessions)[h]
      ensures forall h :: h in old(sessions) ==>
                (h !in sessions <==>
                   var row := old(sessions)[h];
                   (row.revokedAt.Some? || row.expiresAt < now - 86_400_000) && row.updatedAt < now)
      ensures forall token, t :: now <= t ==> Reference(State(), token, t) == Reference(old(State()), token, t)
    {
      sessions := map h | h in sessions && !Removable(sessions[h], now) :: sessions[h];
    }
  }
}
