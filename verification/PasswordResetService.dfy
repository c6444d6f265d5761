/** Password reset as an object that writes to the tables and to the session service it holds. */
module PasswordResetService {
  import opened Wrappers
  import opened SessionModel
  import opened AccountTables
  import opened PasswordReset
  import SessionService

  class Service {
    const sessions: SessionService.Service
    var tables: Tables
    var tokens: seq<VerificationToken>

    function World(): World
      reads this, sessions
    {
      PasswordReset.World(tables, tokens, sessions.State())
    }

    constructor (sessions: SessionService.Service, tables: Tables)
      ensures this.sessions == sessions
      ensures World() == PasswordReset.World(tables, [], sessions.State())
    {
      this.sessions, this.tables, tokens := sessions, tables, [];
    }

    /** The writes happen in order, each only when those before it succeeded; one that fails may have
        taken effect. */
    method ResetPassword(rawToken: string, hash: string, now: Time, revokedAt: Time, f: ResetFaults)
      returns (e: Option<ResetFailure>)
      modifies this, sessions
      ensures (World(), e)
           == PasswordReset.ResetPassword(sessions.config, old(World()), rawToken, hash, now, revokedAt, f)
      ensures TokensValid(old(tokens)) ==>
                (e == None <==>
                   && IsUsable(old(World()), rawToken, now)
                   && !f.find && !f.hash && f.update.NoFault? && f.consume.NoFault? && f.sessions.write.NoFault?)
    {
      if TokensValid(tokens) {
        ResetSucceedsExactly(sessions.config, World(), rawToken, hash, now, revokedAt, f);
      }
      if f.find {
        return Some(Store(FindingToken));
      }
      var found := Find(tokens, ResetTokenOf(HashToken(rawToken)));
      if found.None? {
        return Some(InvalidToken);
      }
      var v := found.value;
      if v.userID.None? || v.consumedAt.Some? || now > v.expiresAt {
        return Some(InvalidToken);
      }
      if f.hash {
        return Some(Store(Hashing));
      }
      if f.update.Lost? {
        return Some(Store(UpdatingPassword));
      }
      tables := UpdatePasswordHash(tables, v.userID.value, hash);
      if f.update.Applied? {
        return Some(Store(UpdatingPassword));
      }
      if f.consume.Lost? {
        return Some(Store(ConsumingToken));
      }
      tokens := ConsumeToken(tokens, v.id, now);
      if f.consume.Applied? {
        return Some(Store(ConsumingToken));
      }
      var r := sessions.RevokeForUser(v.userID.value, revokedAt, f.sessions);
      return if r.Ok? then None else Some(Sessions(r.error));
    }
  }
}
