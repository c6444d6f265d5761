/** Serial runs on one user's two-factor row: lockout arithmetic and replay. */
module TwoFactorRuns {
  import opened Wrappers
  import opened TwoFactor

  datatype Request = Enrolls(secret: string) | Disables | Confirms(valid: bool) | LogsIn(emptyCode: bool, valid: bool)

  datatype Step = Step(request: Request, now: Time, faults: Faults)

  /** A step marked as used by a login or a confirmation; `accepted` says whether the answer was yes. */
  datatype Use = Use(login: bool, step: int, accepted: bool)

  /** What the user last enrolled, and whether it was confirmed since. */
  datatype Enrollment = NotEnrolled | Enrolled(secret: string, confirmed: bool)

  /** The row with its history: what is enrolled, the times of the failures recorded since the counter
      was last reset, and the code uses marked since the row was inserted. */
  datatype Track = Track(row: Option<Row>, enrollment: Enrollment, failures: seq<Time>, uses: seq<Use>)

  const NO_ROW := Track(None, NotEnrolled, [], [])

  function Perform(row: Option<Row>, step: Step): (Option<Row>, Result<(), Error>) {
    match step.request
    case Enrolls(secret) => Enroll(row, secret, step.faults)
    case Disables => Disable(row, step.faults)
    case Confirms(valid) => Confirm(row, step.now, valid, step.faults)
    case LogsIn(emptyCode, valid) => Login(row, step.now, emptyCode, valid, step.faults)
  }

  /** The fifth failure and each later one lock the row for a while. */
  predicate LockedOut(failures: seq<Time>, now: Time) {
    var n := |failures|;
    5 <= n && now < failures[n - 1] + 15 * 60 * 1_000_000
  }

  predicate WrongCode(request: Request) {
    (request.Confirms? && !request.valid) || (request.LogsIn? && (request.emptyCode || !request.valid))
  }

  /** A code is looked at to confirm what is enrolled, and to log in once that is confirmed. */
  predicate Asked(e: Enrollment, request: Request) {
    e.Enrolled? && (request.Confirms? || (request.LogsIn? && e.confirmed))
  }

  predicate Judged(t: Track, step: Step) {
    && Asked(t.enrollment, step.request) && !LockedOut(t.failures, step.now)
    && !step.faults.read && !step.faults.write.Lost?
  }

  /** A wrong code is recorded, unless the row is locked or the store fails. */
  predicate Recorded(t: Track, step: Step) {
    Judged(t, step) && WrongCode(step.request)
  }

  /** A right one marks its step, unless it is a login in the step marked last. */
  predicate Marked(t: Track, step: Step) {
    && Judged(t, step) && !WrongCode(step.request)
    && (step.request.LogsIn? && t.uses != [] ==> t.uses[|t.uses| - 1].step != TotpStep(step.now))
  }

  /** The row is what the service makes of it; its history is told by the requests alone. */
  function Advance(t: Track, step: Step): Track {
    var (row', r) := Perform(t.row, step);
    var t' := t.(row := row');
    if step.request.Enrolls? && !step.faults.write.Lost? then
      t'.(enrollment := Enrolled(step.request.secret, false), failures := [])
    else if step.request.Disables? && !step.faults.write.Lost? then
      t'.(enrollment := NotEnrolled, failures := [], uses := [])
    else if Recorded(t, step) then
      t'.(failures := t.failures + [step.now])
    else if Marked(t, step) then
      t'.(enrollment := t.enrollment.(confirmed := true), failures := [],
          uses := t.uses + [Use(step.request.LogsIn?, TotpStep(step.now), r.Ok?)])
    else
      t'
  }

  /** The clock does not go back. */
  predicate Ordered(clock: Time, steps: seq<Step>)
    decreases |steps|
  {
    steps == [] || (clock <= steps[0].now && Ordered(steps[0].now, steps[1..]))
  }

  function Run(t: Track, steps: seq<Step>): Track
    decreases |steps|
  {
    if steps == [] then t else Run(Advance(t, steps[0]), steps[1..])
  }

  function EndTime(clock: Time, steps: seq<Step>): Time {
    if steps == [] then clock else steps[|steps| - 1].now
  }

  // ---- the invariant ----

  /** From the fifth failure on, each failure waits out the lock of the one before. */
  ghost predicate Spaced(failures: seq<Time>) {
    && (forall i, j :: 0 <= i < j < |failures| ==> failures[i] <= failures[j])
    && (forall i :: FAILURE_LIMIT <= i < |failures| ==> failures[i - 1] + LOCK_DURATION <= failures[i])
  }

  /** No accepted login repeats or goes behind an earlier accepted use. */
  ghost predicate Increasing(uses: seq<Use>) {
    && (forall i, j :: 0 <= i < j < |uses| ==> uses[i].step <= uses[j].step)
    && (forall i, j :: 0 <= i < j < |uses| && uses[j].login ==> uses[i].step < uses[j].step)
  }

  predicate IsEnrolled(row: Option<Row>, e: Enrollment) {
    match e
    case NotEnrolled => row.None?
    case Enrolled(secret, confirmed) => row.Some? && row.value.secret == secret && row.value.verified == confirmed
  }

  ghost predicate Inv(t: Track, clock: Time) {
    && IsEnrolled(t.row, t.enrollment)
    && (t.row.None? ==> t.failures == [] && t.uses == [])
    && (t.row.Some? ==>
          var row := t.row.value;
          && row.failedVerificationCount == |t.failures|
          && (row.lockedUntil.Some? <==> FAILURE_LIMIT <= |t.failures|)
          && (row.lockedUntil.Some? ==> row.lockedUntil.value == t.failures[|t.failures| - 1] + LOCK_DURATION)
          && row.lastUsedStep == (if t.uses == [] then None else Some(t.uses[|t.uses| - 1].step)))
    && Spaced(t.failures)
    && Increasing(t.uses)
    && (t.failures != [] ==> t.failures[|t.failures| - 1] <= clock)
    && (t.uses != [] ==> t.uses[|t.uses| - 1].step <= TotpStep(clock))
  }

  lemma FailureKeepsSpaced(t: Track, clock: Time, now: Time)
    requires Inv(t, clock) && clock <= now && t.row.Some? && !t.row.value.Locked(now)
    ensures Spaced(t.failures + [now])
  {
  }

  lemma UseKeepsIncreasing(t: Track, clock: Time, now: Time, login: bool, accepted: bool)
    requires Inv(t, clock) && clock <= now && t.row.Some?
    requires login ==> t.row.value.lastUsedStep != Some(TotpStep(now))
    ensures Increasing(t.uses + [Use(login, TotpStep(now), accepted)])
  {
    StepIsMonotone(clock, now);
    var uses, step := t.uses, TotpStep(now);
    if uses != [] {
      var last := uses[|uses| - 1].step;
      assert forall i :: 0 <= i < |uses| ==> uses[i].step <= last;
      assert last <= step && (login ==> last != step);
    }
  }

  lemma TimeKeepsInv(t: Track, clock: Time, now: Time)
    requires Inv(t, clock) && clock <= now
    ensures Inv(t, now)
  {
    StepIsMonotone(clock, now);
  }

  function Failed(t: Track, now: Time, error: Error): Track
    requires t.row.Some?
  {
    t.(row := RecordFailure(t.row.value, now, error, NO_FAULTS).0, failures := t.failures + [now])
  }

  function Used(t: Track, now: Time, login: bool, accepted: bool): Track
    requires t.row.Some?
  {
    Track(Some(MarkUsed(t.row.value, TotpStep(now)).(verified := true)), Enrolled(t.row.value.secret, true), [],
          t.uses + [Use(login, TotpStep(now), accepted)])
  }

  lemma FailureKeepsInv(t: Track, clock: Time, now: Time, error: Error)
    requires Inv(t, clock) && clock <= now && t.row.Some? && !t.row.value.Locked(now)
    ensures Inv(Failed(t, now, error), now)
  {
    FailureKeepsSpaced(t, clock, now);
    StepIsMonotone(clock, now);
  }

  lemma UseKeepsInv(t: Track, clock: Time, now: Time, login: bool, accepted: bool)
    requires Inv(t, clock) && clock <= now && t.row.Some?
    requires login ==> t.row.value.lastUsedStep != Some(TotpStep(now))
    ensures Inv(Used(t, now, login, accepted), now)
  {
    UseKeepsIncreasing(t, clock, now, login, accepted);
  }

  lemma LockedAsCounted(t: Track, clock: Time, now: Time)
    requires Inv(t, clock) && t.row.Some?
    ensures t.row.value.Locked(now) <==> LockedOut(t.failures, now)
  {
  }

  lemma ConfirmIs(t: Track, clock: Time, step: Step)
    requires Inv(t, clock) && t.row.Some? && step.request.Confirms?
    ensures var t' := Advance(t, step);
            || t' == t
            || (!t.row.value.Locked(step.now) && t' == Failed(t, step.now, InvalidTOTP))
            || exists accepted :: t' == Used(t, step.now, false, accepted)
  {
    var (row', r) := Perform(t.row, step);
    LockedAsCounted(t, clock, step.now);
    if Marked(t, step) {
      assert Advance(t, step) == Used(t, step.now, false, r.Ok?);
    }
  }

  lemma LoginIs(t: Track, clock: Time, step: Step)
    requires Inv(t, clock) && t.row.Some? && step.request.LogsIn?
    ensures var t' := Advance(t, step);
            || t' == t
            || (!t.row.value.Locked(step.now)
                && t' == Failed(t, step.now, if step.request.emptyCode then TOTPRequired else InvalidTOTP))
            || (t.row.value.lastUsedStep != Some(TotpStep(step.now))
                && exists accepted :: t' == Used(t, step.now, true, accepted))
  {
    var (row', r) := Perform(t.row, step);
    LockedAsCounted(t, clock, step.now);
    if Marked(t, step) {
      assert Advance(t, step) == Used(t, step.now, true, r.Ok?);
    }
  }

  lemma ConfirmKeepsInv(t: Track, clock: Time, step: Step)
    requires Inv(t, clock) && clock <= step.now && t.row.Some? && step.request.Confirms?
    ensures Inv(Advance(t, step), step.now)
  {
    ConfirmIs(t, clock, step);
    TimeKeepsInv(t, clock, step.now);
    if !t.row.value.Locked(step.now) {
      FailureKeepsInv(t, clock, step.now, InvalidTOTP);
    }
    UseKeepsInv(t, clock, step.now, false, true);
    UseKeepsInv(t, clock, step.now, false, false);
  }

  lemma LoginKeepsInv(t: Track, clock: Time, step: Step)
    requires Inv(t, clock) && clock <= step.now && t.row.Some? && step.request.LogsIn?
    ensures Inv(Advance(t, step), step.now)
  {
    LoginIs(t, clock, step);
    TimeKeepsInv(t, clock, step.now);
    if !t.row.value.Locked(step.now) {
      FailureKeepsInv(t, clock, step.now, if step.request.emptyCode then TOTPRequired else InvalidTOTP);
    }
    if t.row.value.lastUsedStep != Some(TotpStep(step.now)) {
      UseKeepsInv(t, clock, step.now, true, true);
      UseKeepsInv(t, clock, step.now, true, false);
    }
  }

  lemma StepKeepsInv(t: Track, clock: Time, step: Step)
    requires Inv(t, clock) && clock <= step.now
    ensures Inv(Advance(t, step), step.now)
  {
    TimeKeepsInv(t, clock, step.now);
    if t.row.Some? && step.request.Confirms? {
      ConfirmKeepsInv(t, clock, step);
    } else if t.row.Some? && step.request.LogsIn? {
      LoginKeepsInv(t, clock, step);
    }
  }

  lemma {:induction false} RunKeepsInv(t: Track, clock: Time, steps: seq<Step>)
    requires Inv(t, clock) && Ordered(clock, steps)
    ensures Inv(Run(t, steps), EndTime(clock, steps))
    decreases |steps|
  {
    if steps != [] {
      StepKeepsInv(t, clock, steps[0]);
      RunKeepsInv(Advance(t, steps[0]), steps[0].now, steps[1..]);
    }
  }

  // ---- lockout ----

  function RecordedBy(failures: seq<Time>, t: Time): nat {
    if failures == [] then 0
    else RecordedBy(failures[..|failures| - 1], t) + (if failures[|failures| - 1] <= t then 1 else 0)
  }

  lemma {:induction false} SpacedFailuresAreFew(failures: seq<Time>, t: Time)
    requires Spaced(failures) && FAILURE_LIMIT <= |failures| && failures[FAILURE_LIMIT - 1] <= t
    ensures RecordedBy(failures, t) <= FAILURE_LIMIT + (t - failures[FAILURE_LIMIT - 1]) / LOCK_DURATION
    ensures failures[FAILURE_LIMIT - 1] + (|failures| - FAILURE_LIMIT) * LOCK_DURATION <= failures[|failures| - 1]
    decreases |failures|
  {
    var rest := failures[..|failures| - 1];
    RecordedAtMostAll(rest, t);
    if |failures| > FAILURE_LIMIT {
      SpacedFailuresAreFew(rest, t);
    }
  }

  lemma {:induction false} RecordedAtMostAll(failures: seq<Time>, t: Time)
    ensures RecordedBy(failures, t) <= |failures|
  {
    if failures != [] {
      RecordedAtMostAll(failures[..|failures| - 1], t);
    }
  }

  /** In every run, a row is locked exactly from the fifth failure since its last reset on, and the
      failures recorded by any later time t number at most 5 + floor((t - t5) / 15 min). */
  lemma LockoutBoundsFailures(clock: Time, steps: seq<Step>, t: Time)
    requires Ordered(clock, steps)
    ensures var track := Run(NO_ROW, steps);
            && (track.row.Some? ==>
                  && track.row.value.failedVerificationCount == |track.failures|
                  && (track.row.value.lockedUntil.Some? <==> FAILURE_LIMIT <= |track.failures|))
            && (FAILURE_LIMIT <= |track.failures| && track.failures[FAILURE_LIMIT - 1] <= t ==>
                  RecordedBy(track.failures, t)
                  <= FAILURE_LIMIT + (t - track.failures[FAILURE_LIMIT - 1]) / LOCK_DURATION)
  {
    RunKeepsInv(NO_ROW, clock, steps);
    var failures := Run(NO_ROW, steps).failures;
    if FAILURE_LIMIT <= |failures| && failures[FAILURE_LIMIT - 1] <= t {
      SpacedFailuresAreFew(failures, t);
    }
  }

  // ---- replay ----

  /** An accepted login by code is a use. */
  lemma AcceptedIsUsed(clock: Time, steps: seq<Step>, step: Step)
    requires Ordered(clock, steps) && EndTime(clock, steps) <= step.now && step.request.LogsIn?
    requires Run(NO_ROW, steps).row.Some? && Run(NO_ROW, steps).row.value.verified
    requires Perform(Run(NO_ROW, steps).row, step).1.Ok?
    ensures Advance(Run(NO_ROW, steps), step).uses ==
              Run(NO_ROW, steps).uses + [Use(true, TotpStep(step.now), true)]
  {
    RunKeepsInv(NO_ROW, clock, steps);
  }

  /** In every run, a login that marks a step, as every accepted one does, marks one above that of every
      earlier login or confirmation on the same row, through any re-enrollment. */
  lemma AcceptedStepsIncrease(clock: Time, steps: seq<Step>)
    requires Ordered(clock, steps)
    ensures Increasing(Run(NO_ROW, steps).uses)
  {
    RunKeepsInv(NO_ROW, clock, steps);
  }

  // ---- no row, no login ----

  function Answers(row: Option<Row>, steps: seq<Step>): (answers: seq<Result<(), Error>>)
    ensures |answers| == |steps|
    decreases |steps|
  {
    if steps == [] then [] else [Perform(row, steps[0]).1] + Answers(Perform(row, steps[0]).0, steps[1..])
  }

  /** Without a row (never enrolled, or disabled) no login passes until the user enrolls: the missing
      row is an error of the login, not a two-factor check to skip. */
  lemma {:induction false} NoRowNoLogin(steps: seq<Step>)
    requires forall i :: 0 <= i < |steps| ==> !steps[i].request.Enrolls?
    ensures forall i :: 0 <= i < |steps| && steps[i].request.LogsIn? ==>
              Answers(None, steps)[i] == Err(if steps[i].faults.read then StoreFailed else NoRow)
    decreases |steps|
  {
    if steps != [] {
      assert forall i :: 0 <= i < |steps| - 1 ==> steps[1..][i] == steps[i + 1];
      NoRowNoLogin(steps[1..]);
    }
  }

  lemma StepAboveUses(t: Track, clock: Time, now: Time)
    requires Inv(t, clock) && clock <= now && t.row.Some?
    ensures t.row.value.lastUsedStep != Some(TotpStep(now))
      <==> forall i :: 0 <= i < |t.uses| ==> t.uses[i].step < TotpStep(now)
  {
    StepIsMonotone(clock, now);
    var uses := t.uses;
    if uses != [] {
      var last := uses[|uses| - 1].step;
      assert last <= TotpStep(now);
      forall i | 0 <= i < |uses| ensures uses[i].step <= last {
      }
    }
  }

  /** Something is enrolled; and if it was confirmed, the code is right, the latest failure from the fifth on is
      a lock duration ago, and no accepted use has this step or a later one. */
  ghost predicate MayLogIn(t: Track, now: Time, emptyCode: bool, valid: bool) {
    var n := |t.failures|;
    && t.enrollment.Enrolled?
    && (t.enrollment.confirmed ==>
          && !emptyCode && valid
          && (FAILURE_LIMIT <= n ==> t.failures[n - 1] + LOCK_DURATION <= now)
          && forall i :: 0 <= i < |t.uses| ==> t.uses[i].step < TotpStep(now))
  }

  lemma RowPasses(row: Row, now: Time, emptyCode: bool, valid: bool)
    ensures Login(Some(row), now, emptyCode, valid, NO_FAULTS).1.Ok? <==>
              (row.verified ==> !row.Locked(now) && !emptyCode && valid && row.lastUsedStep != Some(TotpStep(now)))
  {
  }

  lemma TrackPasses(t: Track, clock: Time, now: Time, emptyCode: bool, valid: bool)
    requires Inv(t, clock) && clock <= now
    ensures Login(t.row, now, emptyCode, valid, NO_FAULTS).1.Ok? <==> MayLogIn(t, now, emptyCode, valid)
  {
    if t.row.Some? {
      RowPasses(t.row.value, now, emptyCode, valid);
      StepAboveUses(t, clock, now);
      LockedAsCounted(t, clock, now);
    }
  }

  /** Exactly which logins pass, in any state a run can reach: an enrolled row that is not yet
      confirmed asks for no code; a confirmed one wants a right code, no running lock since its
      last failure, and a step after that of its last use. */
  lemma LoginPassesExactly(clock: Time, steps: seq<Step>, now: Time, emptyCode: bool, valid: bool)
    requires Ordered(clock, steps) && EndTime(clock, steps) <= now
    ensures var track := Run(NO_ROW, steps);
            Login(track.row, now, emptyCode, valid, NO_FAULTS).1.Ok? <==> MayLogIn(track, now, emptyCode, valid)
  {
    RunKeepsInv(NO_ROW, clock, steps);
    TrackPasses(Run(NO_ROW, steps), EndTime(clock, steps), now, emptyCode, valid);
  }

  /** Exactly which confirmations pass, in any state a run can reach, and that one that passes starts
      the count of failures over and bars its own step from logins. */
  lemma ConfirmPassesExactly(clock: Time, steps: seq<Step>, now: Time, valid: bool)
    requires Ordered(clock, steps) && EndTime(clock, steps) <= now
    ensures var track := Run(NO_ROW, steps);
            var n := |track.failures|;
            var (row', r) := Confirm(track.row, now, valid, NO_FAULTS);
            && (r.Ok? <==> track.row.Some? && valid
                           && (FAILURE_LIMIT <= n ==> track.failures[n - 1] + LOCK_DURATION <= now))
            && (r.Ok? ==> row'.Some? && row'.value.verified && row'.value.failedVerificationCount == 0
                          && forall emptyCode, valid', later ::
                               TotpStep(later) == TotpStep(now) ==>
                                 Login(row', later, emptyCode, valid', NO_FAULTS).1.Err?)
  {
    RunKeepsInv(NO_ROW, clock, steps);
    var track := Run(NO_ROW, steps);
    if track.row.Some? {
      LockedAsCounted(track, EndTime(clock, steps), now);
    }
  }

  // ---- every answer ----

  function WrongAnswer(failures: seq<Time>, error: Error, f: Faults): Error {
    if !f.write.NoFault? then StoreFailed else if 5 <= |failures| + 1 then TOTPLocked else error
  }

  /** What a login is answered, told by the history, and whatever fails: the fifth wrong code in a row and
      each later one answer that the row is locked. */
  function LoginAnswer(t: Track, now: Time, emptyCode: bool, valid: bool, f: Faults): Result<(), Error> {
    if f.read then Err(StoreFailed)
    else if t.enrollment.NotEnrolled? then Err(NoRow)
    else if !t.enrollment.confirmed then Ok(())
    else if LockedOut(t.failures, now) then Err(TOTPLocked)
    else if emptyCode then Err(WrongAnswer(t.failures, TOTPRequired, f))
    else if !valid then Err(WrongAnswer(t.failures, InvalidTOTP, f))
    else if t.uses != [] && t.uses[|t.uses| - 1].step == TotpStep(now) then Err(InvalidTOTP)
    else if f.write.NoFault? then Ok(()) else Err(StoreFailed)
  }

  function ConfirmAnswer(t: Track, now: Time, valid: bool, f: Faults): Result<(), Error> {
    if f.read then Err(StoreFailed)
    else if t.enrollment.NotEnrolled? then Err(InvalidTOTP)
    else if LockedOut(t.failures, now) then Err(TOTPLocked)
    else if !valid then Err(WrongAnswer(t.failures, InvalidTOTP, f))
    else if !f.write.NoFault? then Err(StoreFailed)
    else if f.event then Err(EventFailed) else Ok(())
  }

  lemma AnswersOf(t: Track, clock: Time, now: Time, emptyCode: bool, valid: bool, f: Faults)
    requires Inv(t, clock)
    ensures Login(t.row, now, emptyCode, valid, f).1 == LoginAnswer(t, now, emptyCode, valid, f)
    ensures Confirm(t.row, now, valid, f).1 == ConfirmAnswer(t, now, valid, f)
  {
    if t.row.Some? {
      LockedAsCounted(t, clock, now);
    }
  }

  /** In any state a run can reach, logins and confirmations are answered as the history tells. */
  lemma AnswersExactly(clock: Time, steps: seq<Step>, now: Time, emptyCode: bool, valid: bool, f: Faults)
    requires Ordered(clock, steps)
    ensures var t := Run(NO_ROW, steps);
            && Login(t.row, now, emptyCode, valid, f).1 == LoginAnswer(t, now, emptyCode, valid, f)
            && Confirm(t.row, now, valid, f).1 == ConfirmAnswer(t, now, valid, f)
  {
    RunKeepsInv(NO_ROW, clock, steps);
    AnswersOf(Run(NO_ROW, steps), EndTime(clock, steps), now, emptyCode, valid, f);
  }

  // ---- what is enrolled ----

  /** In every run the row holds what was enrolled last, and is verified exactly if that was confirmed
      since: no failure and no login changes either. */
  lemma RowIsEnrollment(clock: Time, steps: seq<Step>)
    requires Ordered(clock, steps)
    ensures var track := Run(NO_ROW, steps);
            match track.enrollment
            case NotEnrolled => track.row.None?
            case Enrolled(secret, confirmed) =>
              track.row.Some? && track.row.value.secret == secret && track.row.value.verified == confirmed
  {
    RunKeepsInv(NO_ROW, clock, steps);
  }

  predicate LeavesEnrolled(steps: seq<Step>) {
    forall i :: 0 <= i < |steps| ==> !steps[i].request.Enrolls? && !steps[i].request.Disables?
  }

  predicate IsConfirmed(t: Track, secret: string) {
    t.enrollment == Enrolled(secret, true)
  }

  lemma LoginNeedsCode(t: Track, clock: Time, step: Step)
    requires Inv(t, clock) && step.request.LogsIn? && t.enrollment.Enrolled? && t.enrollment.confirmed
    requires Perform(t.row, step).1.Ok?
    ensures !step.request.emptyCode && step.request.valid
  {
  }

  predicate NeedCodes(steps: seq<Step>, answers: seq<Result<(), Error>>)
    requires |answers| == |steps|
  {
    forall i :: 0 <= i < |steps| && steps[i].request.LogsIn? && answers[i].Ok? ==>
      !steps[i].request.emptyCode && steps[i].request.valid
  }

  lemma NeedCodesCons(steps: seq<Step>, answer: Result<(), Error>, answers: seq<Result<(), Error>>)
    requires steps != [] && |answers| == |steps| - 1 && NeedCodes(steps[1..], answers)
    requires steps[0].request.LogsIn? && answer.Ok? ==> !steps[0].request.emptyCode && steps[0].request.valid
    ensures NeedCodes(steps, [answer] + answers)
  {
    forall i | 0 < i < |steps| && steps[i].request.LogsIn? && ([answer] + answers)[i].Ok?
      ensures !steps[i].request.emptyCode && steps[i].request.valid
    {
      assert steps[1..][i - 1] == steps[i] && answers[i - 1] == ([answer] + answers)[i];
    }
  }

  lemma StaysConfirmed(t: Track, clock: Time, step: Step, secret: string)
    requires Inv(t, clock) && clock <= step.now && IsConfirmed(t, secret)
    requires !step.request.Enrolls? && !step.request.Disables?
    ensures Inv(Advance(t, step), step.now) && IsConfirmed(Advance(t, step), secret)
    ensures Advance(t, step).row == Perform(t.row, step).0
  {
    StepKeepsInv(t, clock, step);
  }

  lemma {:induction false} ConfirmedStays(t: Track, clock: Time, steps: seq<Step>, secret: string)
    requires Inv(t, clock) && Ordered(clock, steps) && LeavesEnrolled(steps) && IsConfirmed(t, secret)
    ensures IsConfirmed(Run(t, steps), secret) && NeedCodes(steps, Answers(t.row, steps))
    decreases |steps|
  {
    if steps != [] {
      StaysConfirmed(t, clock, steps[0], secret);
      ConfirmedStays(Advance(t, steps[0]), steps[0].now, steps[1..], secret);
      if steps[0].request.LogsIn? && Perform(t.row, steps[0]).1.Ok? {
        LoginNeedsCode(t, clock, steps[0]);
      }
      NeedCodesCons(steps, Perform(t.row, steps[0]).1, Answers(Perform(t.row, steps[0]).0, steps[1..]));
    }
  }

  lemma AcceptedConfirms(t: Track, clock: Time, confirm: Step)
    requires Inv(t, clock) && clock <= confirm.now && confirm.request.Confirms?
    requires var r := Perform(t.row, confirm).1; r.Ok? || r == Err(EventFailed)
    ensures t.row.Some? && IsConfirmed(Advance(t, confirm), t.row.value.secret)
    ensures Inv(Advance(t, confirm), confirm.now)
  {
    assert t.row.Some?;
    LockedAsCounted(t, clock, confirm.now);
    StepKeepsInv(t, clock, confirm);
  }

  /** Once a confirmation is answered yes, or its event fails, the row stays verified, with its secret, in
      every continuation that does not enroll or disable, whatever codes are tried; and no login in it
      passes without a right code. */
  lemma SecondFactorHolds(clock: Time, before: seq<Step>, confirm: Step, after: seq<Step>)
    requires Ordered(clock, before) && EndTime(clock, before) <= confirm.now && Ordered(confirm.now, after)
    requires confirm.request.Confirms? && LeavesEnrolled(after)
    requires var r := Perform(Run(NO_ROW, before).row, confirm).1; r.Ok? || r == Err(EventFailed)
    ensures var t, t' := Run(NO_ROW, before), Advance(Run(NO_ROW, before), confirm);
            && t.row.Some? && Run(t', after).row.Some?
            && Run(t', after).row.value.verified && Run(t', after).row.value.secret == t.row.value.secret
            && NeedCodes(after, Answers(t'.row, after))
  {
    var t := Run(NO_ROW, before);
    RunKeepsInv(NO_ROW, clock, before);
    AcceptedConfirms(t, EndTime(clock, before), confirm);
    ConfirmedStays(Advance(t, confirm), confirm.now, after, t.row.value.secret);
    RunKeepsInv(Advance(t, confirm), confirm.now, after);
  }

  lemma {:induction false} UnconfirmedStays(t: Track, clock: Time, steps: seq<Step>)
    requires Inv(t, clock) && Ordered(clock, steps) && t.enrollment.Enrolled? && !t.enrollment.confirmed
    requires forall i :: 0 <= i < |steps| ==> steps[i].request.LogsIn?
    ensures Run(t, steps).enrollment == t.enrollment
    decreases |steps|
  {
    if steps != [] {
      StepKeepsInv(t, clock, steps[0]);
      UnconfirmedStays(Advance(t, steps[0]), steps[0].now, steps[1..]);
    }
  }

  /** Enrolling, again or for the first time, replaces the secret, forgets failures and lock and keeps the
      step used last; and until it is confirmed every login passes, with any code or none. */
  lemma EnrollingSuspends(clock: Time, before: seq<Step>, enroll: Step, logins: seq<Step>, now: Time,
                          emptyCode: bool, valid: bool)
    requires Ordered(clock, before) && EndTime(clock, before) <= enroll.now && Ordered(enroll.now, logins)
    requires enroll.request.Enrolls? && !enroll.faults.write.Lost? && EndTime(enroll.now, logins) <= now
    requires forall i :: 0 <= i < |logins| ==> logins[i].request.LogsIn?
    ensures var t, t' := Run(NO_ROW, before), Advance(Run(NO_ROW, before), enroll);
            && t'.row == Some(Row(enroll.request.secret, false,
                                  if t.row.Some? then t.row.value.lastUsedStep else None, 0, None))
            && Login(Run(t', logins).row, now, emptyCode, valid, NO_FAULTS).1.Ok?
  {
    var t := Run(NO_ROW, before);
    RunKeepsInv(NO_ROW, clock, before);
    StepKeepsInv(t, EndTime(clock, before), enroll);
    UnconfirmedStays(Advance(t, enroll), enroll.now, logins);
    RunKeepsInv(Advance(t, enroll), enroll.now, logins);
  }
}
