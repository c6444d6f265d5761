/** The two-factor row of a user: enrollment, confirmation, login and lockout. */
module TwoFactor {
  import opened Wrappers

  /** Microseconds since the epoch, the resolution of the store's timestamps. */
  type Time = int

  const FAILURE_LIMIT: int := 5
  const LOCK_DURATION: Time := 15 * 60 * 1_000_000

  datatype Row = Row(
    secret: string, verified: bool, lastUsedStep: Option<int>,
    failedVerificationCount: nat, lockedUntil: Option<Time>)
  {
    predicate Locked(now: Time) {
      lockedUntil.Some? && now < lockedUntil.value
    }
  }

  /** Answers to confirm and login. `NoRow` is the store's own no-rows error, handed on as it is. */
  datatype Error = InvalidTOTP | TOTPRequired | TOTPLocked | NoRow | StoreFailed | EventFailed

  /** Unix seconds over 30, divided toward zero as the program does it. */
  function TotpStep(t: Time): int {
    var seconds := t / 1_000_000;
    if 0 <= seconds then seconds / 30 else -((-seconds) / 30)
  }

  lemma StepIsMonotone(a: Time, b: Time)
    requires a <= b
    ensures TotpStep(a) <= TotpStep(b)
  {
  }

  /** A step is thirty seconds; the one around the epoch is as long to either side. */
  lemma StepIsThirtySeconds(t: Time)
    ensures 0 <= t ==> TotpStep(t) * 30_000_000 <= t < (TotpStep(t) + 1) * 30_000_000
    ensures t < 0 ==> TotpStep(t) <= 0 && (TotpStep(t) - 1) * 30_000_000 < t
    ensures t < 0 ==> t < TotpStep(t) * 30_000_000 + 1_000_000
  {
  }

  // ---- statements ----

  /** InsertOrReplaceTwoFactor keeps last_used_step of a row it replaces. */
  function InsertOrReplace(row: Option<Row>, secret: string): Row {
    Row(secret, false, if row.Some? then row.value.lastUsedStep else None, 0, None)
  }

  function RegisterFailure(row: Row, failureLimit: int, lockedUntil: Option<Time>): Row {
    row.(failedVerificationCount := row.failedVerificationCount + 1,
         lockedUntil := if row.failedVerificationCount + 1 >= failureLimit then lockedUntil else row.lockedUntil)
  }

  function MarkUsed(row: Row, step: int): Row {
    row.(lastUsedStep := Some(step), failedVerificationCount := 0, lockedUntil := None)
  }

  // ---- one request on one user's row ----

  /** Which calls fail; `event` is the publication that follows a confirmation or a removal. */
  datatype Faults = Faults(read: bool, write: Fault, event: bool)

  const NO_FAULTS := Faults(false, NoFault, false)

  /** The row and the answer after the one write of a request, which may fail before or after it took
      effect. */
  function Written(row: Option<Row>, row': Option<Row>, r: Result<(), Error>, fault: Fault)
    : (Option<Row>, Result<(), Error>)
  {
    (if fault.Lost? then row else row', if fault.NoFault? then r else Err(StoreFailed))
  }

  function Announced(f: Faults): Result<(), Error> {
    if f.event then Err(EventFailed) else Ok(())
  }

  function Enroll(row: Option<Row>, secret: string, f: Faults): (Option<Row>, Result<(), Error>) {
    Written(row, Some(InsertOrReplace(row, secret)), Ok(()), f.write)
  }

  function Disable(row: Option<Row>, f: Faults): (Option<Row>, Result<(), Error>) {
    Written(row, None, Announced(f), f.write)
  }

  function RecordFailure(row: Row, now: Time, error: Error, f: Faults): (Option<Row>, Result<(), Error>) {
    var nextCount := row.failedVerificationCount + 1;
    var lockedUntil := if nextCount >= FAILURE_LIMIT then Some(now + LOCK_DURATION) else None;
    Written(Some(row), Some(RegisterFailure(row, nextCount, lockedUntil)),
            Err(if lockedUntil.Some? then TOTPLocked else error), f.write)
  }

  /** `valid` is the verdict of the code check. */
  function Confirm(row: Option<Row>, now: Time, valid: bool, f: Faults): (Option<Row>, Result<(), Error>) {
    if f.read then (row, Err(StoreFailed))
    else if row.None? then (row, Err(InvalidTOTP))
    else if row.value.Locked(now) then (row, Err(TOTPLocked))
    else if !valid then RecordFailure(row.value, now, InvalidTOTP, f)
    else Written(row, Some(MarkUsed(row.value, TotpStep(now)).(verified := true)), Announced(f), f.write)
  }

  function Login(row: Option<Row>, now: Time, emptyCode: bool, valid: bool, f: Faults)
    : (Option<Row>, Result<(), Error>)
  {
    if f.read then (row, Err(StoreFailed))
    else if row.None? then (row, Err(NoRow))
    else if !row.value.verified then (row, Ok(()))
    else if row.value.Locked(now) then (row, Err(TOTPLocked))
    else if emptyCode || !valid then
      RecordFailure(row.value, now, if emptyCode then TOTPRequired else InvalidTOTP, f)
    else if row.value.lastUsedStep == Some(TotpStep(now)) then (row, Err(InvalidTOTP))
    else Written(row, Some(MarkUsed(row.value, TotpStep(now))), Ok(()), f.write)
  }

  // ---- the service ----

  class Service {
    var rows: map<string, Row>

    function Find(userID: string): Option<Row>
      reads this
    {
      if userID in rows then Some(rows[userID]) else None
    }

    constructor ()
      ensures rows == map[]
    {
      rows := map[];
    }

    method StartTOTPEnrollment(userID: string, secret: string, f: Faults) returns (r: Result<(), Error>)
      modifies this
      ensures (Find(userID), r) == Enroll(old(Find(userID)), secret, f)
      ensures r == if f.write.NoFault? then Ok(()) else Err(StoreFailed)
      ensures rows - {userID} == old(rows) - {userID}
    {
      if f.write.Lost? {
        return Err(StoreFailed);
      }
      rows := rows[userID := InsertOrReplace(Find(userID), secret)];
      return if f.write.NoFault? then Ok(()) else Err(StoreFailed);
    }

    method DisableTOTP(userID: string, f: Faults) returns (r: Result<(), Error>)
      modifies this
      ensures (Find(userID), r) == Disable(old(Find(userID)), f)
      ensures f.write.Lost? || userID !in rows
      ensures r == if !f.write.NoFault? then Err(StoreFailed) else if f.event then Err(EventFailed) else Ok(())
      ensures rows - {userID} == old(rows) - {userID}
    {
      if f.write.Lost? {
        return Err(StoreFailed);
      }
      rows := rows - {userID};
      if f.write.Applied? {
        return Err(StoreFailed);
      }
      return if f.event then Err(EventFailed) else Ok(());
    }

    method RecordTOTPFailure(userID: string, currentCount: nat, now: Time, error: Error, f: Faults)
      returns (r: Result<(), Error>)
      requires userID in rows && rows[userID].failedVerificationCount == currentCount
      modifies this
      ensures (Find(userID), r) == RecordFailure(old(rows)[userID], now, error, f)
      ensures userID in rows
      ensures rows[userID] == var row := old(rows)[userID];
                if f.write.Lost? then row
                else row.(failedVerificationCount := currentCount + 1,
                          lockedUntil := if 5 <= currentCount + 1 then Some(now + 900_000_000) else None)
      ensures r == if !f.write.NoFault? then Err(StoreFailed)
                   else if 5 <= currentCount + 1 then Err(TOTPLocked) else Err(error)
      ensures rows - {userID} == old(rows) - {userID}
    {
      var nextCount := currentCount + 1;
      var lockedUntil: Option<Time> := None;
      if nextCount >= FAILURE_LIMIT {
        lockedUntil := Some(now + LOCK_DURATION);
      }
      if f.write.Lost? {
        return Err(StoreFailed);
      }
      rows := rows[userID := RegisterFailure(rows[userID], nextCount, lockedUntil)];
      if f.write.Applied? {
        return Err(StoreFailed);
      }
      if lockedUntil.Some? {
        return Err(TOTPLocked);
      }
      return Err(error);
    }

    method ConfirmTOTP(userID: string, now: Time, valid: bool, f: Faults) returns (r: Result<(), Error>)
      modifies this
      ensures (Find(userID), r) == Confirm(old(Find(userID)), now, valid, f)
      ensures rows - {userID} == old(rows) - {userID}
    {
      if f.read {
        return Err(StoreFailed);
      }
      var row := Find(userID);
      if row.None? {
        return Err(InvalidTOTP);
      }
      if row.value.Locked(now) {
        return Err(TOTPLocked);
      }
      if !valid {
        r := RecordTOTPFailure(userID, row.value.failedVerificationCount, now, InvalidTOTP, f);
        return;
      }
      if f.write.Lost? {
        return Err(StoreFailed);
      }
      rows := rows[userID := MarkUsed(row.value, TotpStep(now)).(verified := true)];
      if f.write.Applied? {
        return Err(StoreFailed);
      }
      return if f.event then Err(EventFailed) else Ok(());
    }

    method VerifyTOTPForLogin(userID: string, now: Time, emptyCode: bool, valid: bool, f: Faults)
      returns (r: Result<(), Error>)
      modifies this
      ensures (Find(userID), r) == Login(old(Find(userID)), now, emptyCode, valid, f)
      ensures rows - {userID} == old(rows) - {userID}
    {
      if f.read {
        return Err(StoreFailed);
      }
      var row := Find(userID);
      if row.None? {
        return Err(NoRow);
      }
      if !row.value.verified {
        return Ok(());
      }
      if row.value.Locked(now) {
        return Err(TOTPLocked);
      }
      var step := TotpStep(now);
      if emptyCode || !valid {
        r := RecordTOTPFailure(userID, row.value.failedVerificationCount, now,
                               if emptyCode then TOTPRequired else InvalidTOTP, f);
        return;
      }
      if row.value.lastUsedStep == Some(step) {
        return Err(InvalidTOTP);
      }
      if f.write.Lost? {
        return Err(StoreFailed);
      }
      rows := rows[userID := MarkUsed(row.value, step)];
      return if f.write.NoFault? then Ok(()) else Err(StoreFailed);
    }
  }
}
