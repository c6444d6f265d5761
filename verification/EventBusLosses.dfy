/** Which events can still reach the audit log: trimming drops entries by age alone, handled or not. */
module EventBusLosses {
  import opened Wrappers
  import opened EventRecords
  import opened EventBus
  import opened EventBusRuns

  /** The worker can go on from its entry j: it handled it already, or can handle it. */
  predicate GoesOn(cfg: Config, s: Bus, p: Pass, j: nat)
    requires j < |p.batch|
  {
    (j == p.done && p.handled) || (p.batch[j] < |s.published| && Handleable(cfg, s, p.batch[j]))
  }

  /** Entry i of the batch is k, still before the worker, and nothing on the way to it stops the worker. */
  predicate ClearTo(cfg: Config, s: Bus, p: Pass, i: nat, k: nat) {
    && p.done <= i < |p.batch| && p.batch[i] == k
    && forall j :: p.done <= j < i ==> GoesOn(cfg, s, p, j)
  }

  /** Some worker can get to the entry. */
  ghost predicate InReach(cfg: Config, s: Bus, k: nat) {
    exists w, i :: w in s.workers && ClearTo(cfg, s, s.workers[w], i, k)
  }

  /** Trimmed, not in the audit log, and no worker can get to it. */
  ghost predicate Lost(cfg: Config, s: Bus, k: nat) {
    k < s.first && !Logged(cfg, s, k) && !InReach(cfg, s, k)
  }

  // ---- lost for good ----

  /** How a step moves a worker's pass: not at all, from handling one it can handle to having handled
      it, or from there to the next. */
  predicate Moves(cfg: Config, s: Bus, p: Pass, p': Pass) {
    && p'.batch == p.batch
    && (|| p' == p
        || (!p.handled && p' == p.(handled := true) && p.done < |p.batch| && GoesOn(cfg, s, p, p.done))
        || (p.handled && p' == Pass(p.batch, p.done + 1, false)))
  }

  predicate LogKept(s: Bus, s': Bus) {
    s.published <= s'.published && s.log.Keys <= s'.log.Keys
  }

  lemma StaysUnhandleable(cfg: Config, s: Bus, s': Bus, j: nat)
    requires LogKept(s, s') && j < |s.published| && Handleable(cfg, s', j)
    ensures Handleable(cfg, s, j)
  {
    assert s'.published[j] == s.published[j];
  }

  lemma ClearBefore(cfg: Config, s: Bus, s': Bus, p: Pass, p': Pass, i: nat, k: nat)
    requires LogKept(s, s') && Moves(cfg, s, p, p') && ClearTo(cfg, s', p', i, k)
    requires forall j :: 0 <= j < |p.batch| ==> p.batch[j] < |s.published|
    ensures ClearTo(cfg, s, p, i, k)
  {
    forall j | p.done <= j < i ensures GoesOn(cfg, s, p, j) {
      if p'.done <= j && !(j == p'.done && p'.handled) {
        assert GoesOn(cfg, s', p', j);
        StaysUnhandleable(cfg, s, s', p.batch[j]);
      }
    }
  }

  /** Passes that only move on, and new ones without the entry, bring it into nobody's reach. */
  lemma StaysOutOfReach(cfg: Config, s: Bus, s': Bus, k: nat)
    requires WorkersValid(s) && LogKept(s, s') && !InReach(cfg, s, k)
    requires forall w :: w in s'.workers ==>
               || (w in s.workers && Moves(cfg, s, s.workers[w], s'.workers[w]))
               || k !in s'.workers[w].batch
    ensures !InReach(cfg, s', k)
  {
    forall w, i: nat | w in s'.workers && ClearTo(cfg, s', s'.workers[w], i, k) ensures false {
      assert s'.workers[w].batch[i] == k;
      ClearBefore(cfg, s, s', s.workers[w], s'.workers[w], i, k);
    }
  }

  lemma PublishKeepsLost(cfg: Config, s: Bus, step: Step, k: nat)
    requires Inv(cfg, s) && Enabled(cfg, s, step) && step.Publish? && Lost(cfg, s, k)
    ensures Lost(cfg, Apply(cfg, s, step), k)
  {
    var s' := Apply(cfg, s, step);
    assert s'.published[k] == s.published[k] && s'.workers == s.workers && s'.log == s.log;
    StaysOutOfReach(cfg, s, s', k);
  }

  lemma ReadGivesWhatIsThere(cfg: Config, s: Bus, claimed: seq<nat>, count: nat, at: Time, k: nat)
    requires ReadAllowed(cfg, s, claimed, count, at) && k < s.first
    ensures k !in Batch(s, claimed, count)
  {
  }

  lemma ReadKeepsLost(cfg: Config, s: Bus, step: Step, k: nat)
    requires WorkersValid(s) && Enabled(cfg, s, step) && step.Read? && k < |s.published| && Lost(cfg, s, k)
    ensures Lost(cfg, Apply(cfg, s, step), k)
  {
    ReadGivesWhatIsThere(cfg, s, step.claimed, step.count, step.at, k);
    StaysOutOfReach(cfg, s, Apply(cfg, s, step), k);
  }

  lemma HandleKeepsUnlogged(cfg: Config, s: Bus, step: Step, k: nat)
    requires Published(cfg, s) && WorkersValid(s) && Enabled(cfg, s, step) && step.Handle?
    requires k < |s.published| && !Logged(cfg, s, k) && Current(s.workers[step.worker]) != k
    ensures !Logged(cfg, Apply(cfg, s, step), k)
  {
    var j := Current(s.workers[step.worker]);
    HandleInserts(cfg, s, j, step.newID, ToNanos(step.at));
    if RowOf(cfg, s, k).Some? && RowOf(cfg, s, j).Some? {
      assert RowOf(cfg, s, k).value.id != RowOf(cfg, s, j).value.id;
    }
  }

  lemma CurrentIsInReach(cfg: Config, s: Bus, w: nat)
    requires WorkersValid(s) && w in s.workers
    ensures InReach(cfg, s, Current(s.workers[w]))
  {
    var p := s.workers[w];
    assert ClearTo(cfg, s, p, p.done, p.batch[p.done]);
  }

  lemma HandleMoves(cfg: Config, s: Bus, step: Step)
    requires Published(cfg, s) && WorkersValid(s) && Enabled(cfg, s, step) && step.Handle?
    ensures var s' := Apply(cfg, s, step);
            && LogKept(s, s') && s'.first == s.first
            && forall w :: w in s'.workers ==> w in s.workers && Moves(cfg, s, s.workers[w], s'.workers[w])
  {
    HandleIs(cfg, s, step.worker, step.newID, step.fault, step.at);
    HandleInserts(cfg, s, Current(s.workers[step.worker]), step.newID, ToNanos(step.at));
  }

  lemma HandleKeepsLost(cfg: Config, s: Bus, step: Step, k: nat)
    requires Published(cfg, s) && WorkersValid(s) && Enabled(cfg, s, step) && step.Handle?
    requires k < |s.published| && Lost(cfg, s, k)
    ensures Lost(cfg, Apply(cfg, s, step), k)
  {
    HandleMoves(cfg, s, step);
    CurrentIsInReach(cfg, s, step.worker);
    HandleKeepsUnlogged(cfg, s, step, k);
    StaysOutOfReach(cfg, s, Apply(cfg, s, step), k);
  }

  lemma AckOrCrashMoves(cfg: Config, s: Bus, step: Step)
    requires WorkersValid(s) && Enabled(cfg, s, step) && (step.Ack? || step.Crash?)
    ensures var s' := Apply(cfg, s, step);
            && s'.published == s.published && s'.log == s.log && s'.first == s.first
            && forall w :: w in s'.workers ==> w in s.workers && Moves(cfg, s, s.workers[w], s'.workers[w])
  {
    if step.Ack? {
      AckIs(cfg, s, step.worker, step.fault, step.at);
    }
  }

  lemma OtherStepKeepsLost(cfg: Config, s: Bus, step: Step, k: nat)
    requires WorkersValid(s) && Enabled(cfg, s, step) && (step.Ack? || step.Crash?)
    requires k < |s.published| && Lost(cfg, s, k)
    ensures Lost(cfg, Apply(cfg, s, step), k)
  {
    AckOrCrashMoves(cfg, s, step);
    StaysOutOfReach(cfg, s, Apply(cfg, s, step), k);
  }

  lemma StepKeepsLost(cfg: Config, s: Bus, step: Step, k: nat)
    requires Inv(cfg, s) && Enabled(cfg, s, step) && Lost(cfg, s, k)
    ensures Lost(cfg, Apply(cfg, s, step), k)
  {
    match step
    case Publish(_, _, _, _) => PublishKeepsLost(cfg, s, step, k);
    case Read(_, _, _, _) => ReadKeepsLost(cfg, s, step, k);
    case Handle(_, _, _, _) => HandleKeepsLost(cfg, s, step, k);
    case _ => OtherStepKeepsLost(cfg, s, step, k);
  }

  /** A lost event never reaches the audit log. */
  lemma {:induction false} LostForGood(cfg: Config, s: Bus, steps: seq<Step>, k: nat)
    requires Inv(cfg, s) && LegalRun(cfg, s, steps) && Lost(cfg, s, k)
    ensures Lost(cfg, Final(cfg, s, steps), k)
    decreases |steps|
  {
    if steps != [] {
      StepKeepsInv(cfg, s, steps[0]);
      StepKeepsLost(cfg, s, steps[0], k);
      LostForGood(cfg, Apply(cfg, s, steps[0]), steps[1..], k);
    }
  }

  // ---- what can still be logged ----

  lemma {:induction false} RunExtends(cfg: Config, s: Bus, steps: seq<Step>)
    requires Inv(cfg, s) && LegalRun(cfg, s, steps)
    ensures s.published <= Final(cfg, s, steps).published
    decreases |steps|
  {
    if steps != [] {
      StepKeepsInv(cfg, s, steps[0]);
      StepLosesNothing(cfg, s, steps[0]);
      RunExtends(cfg, Apply(cfg, s, steps[0]), steps[1..]);
    }
  }

  lemma {:induction false} Above(ks: set<nat>) returns (n: nat)
    ensures forall k :: k in ks ==> k < n
  {
    n := 0;
    if ks != {} {
      var k :| k in ks;
      var m := Above(ks - {k});
      n := if k < m then m else k + 1;
      forall j | j in ks ensures j < n {
        assert j == k || j in ks - {k};
      }
    }
  }

  /** The key of an entry that is not in the log is free. */
  lemma KeyIsFree(cfg: Config, s: Bus, k: nat)
    requires Published(cfg, s) && WorkersValid(s) && LogSound(cfg, s) && k < |s.published|
    requires RowOf(cfg, s, k).Some? && !Logged(cfg, s, k)
    ensures RowOf(cfg, s, k).value.id !in s.log
  {
    var u := RowOf(cfg, s, k).value.id;
    if u in s.log {
      assert HasSource(cfg, s, u);
      var j: nat :| j < |s.published| && RowOf(cfg, s, j) == Some(s.log[u]) && s.log[u].id == u;
      SameIDSameEntry(cfg, s, j, k);
    }
  }

  lemma HandleKeepsHandleable(cfg: Config, s: Bus, step: Step, j: nat)
    requires Published(cfg, s) && WorkersValid(s) && Enabled(cfg, s, step) && step.Handle?
    requires j < |s.published| && Handleable(cfg, s, j) && Current(s.workers[step.worker]) != j
    ensures Handleable(cfg, Apply(cfg, s, step), j)
  {
    var k := Current(s.workers[step.worker]);
    HandleIs(cfg, s, step.worker, step.newID, step.fault, step.at);
    HandleInserts(cfg, s, k, step.newID, ToNanos(step.at));
    if RowOf(cfg, s, k).Some? {
      assert RowOf(cfg, s, k).value.id != RowOf(cfg, s, j).value.id;
    }
  }

  /** Handling an entry that can be handled, without faults, logs it and marks it. */
  lemma HandleLogs(cfg: Config, s: Bus, w: nat)
    requires Inv(cfg, s) && w in s.workers && !s.workers[w].handled
    requires Handleable(cfg, s, Current(s.workers[w]))
    ensures var step, p := Handle(w, "", NoFault, s.clock), s.workers[w];
            && Enabled(cfg, s, step) && Inv(cfg, Apply(cfg, s, step))
            && Logged(cfg, Apply(cfg, s, step), Current(p))
            && Apply(cfg, s, step).published == s.published
            && Apply(cfg, s, step).workers == s.workers[w := p.(handled := true)]
  {
    var step := Handle(w, "", NoFault, s.clock);
    HandleIs(cfg, s, w, "", NoFault, s.clock);
    HandleInserts(cfg, s, Current(s.workers[w]), "", ToNanos(s.clock));
    StepKeepsInv(cfg, s, step);
  }

  /** Worker w can get to its entry i, which is k, and k converts and is not in the log. */
  ghost predicate OnTheWay(cfg: Config, s: Bus, w: nat, i: nat, k: nat) {
    && w in s.workers && ClearTo(cfg, s, s.workers[w], i, k)
    && k < |s.published| && s.published[k].record.createdAt.Some? && RowOf(cfg, s, k).Some? && !Logged(cfg, s, k)
  }

  lemma HandleOnTheWay(cfg: Config, s: Bus, w: nat, i: nat, k: nat)
    requires Inv(cfg, s) && OnTheWay(cfg, s, w, i, k) && !s.workers[w].handled && s.workers[w].done < i
    ensures var step, p := Handle(w, "", NoFault, s.clock), s.workers[w];
            && Enabled(cfg, s, step) && Inv(cfg, Apply(cfg, s, step))
            && OnTheWay(cfg, Apply(cfg, s, step), w, i, k)
            && Apply(cfg, s, step).workers[w] == p.(handled := true)
  {
    var p, step := s.workers[w], Handle(w, "", NoFault, s.clock);
    assert GoesOn(cfg, s, p, p.done);
    HandleLogs(cfg, s, w);
    assert p.batch[p.done] != p.batch[i];
    HandleKeepsUnlogged(cfg, s, step, k);
    forall j | p.done < j < i ensures GoesOn(cfg, Apply(cfg, s, step), p.(handled := true), j) {
      assert GoesOn(cfg, s, p, j) && p.batch[p.done] != p.batch[j];
      HandleKeepsHandleable(cfg, s, step, p.batch[j]);
    }
  }

  lemma ClearAfterAck(cfg: Config, s: Bus, s': Bus, p: Pass, i: nat, k: nat)
    requires ClearTo(cfg, s, p, i, k) && p.handled && p.done < i && s'.published == s.published && s'.log == s.log
    ensures ClearTo(cfg, s', Pass(p.batch, p.done + 1, false), i, k)
  {
    var p' := Pass(p.batch, p.done + 1, false);
    forall j: nat | p'.done <= j < i ensures GoesOn(cfg, s', p', j) {
      assert GoesOn(cfg, s, p, j);
    }
  }

  lemma OnTheWayAfterAck(cfg: Config, s: Bus, s': Bus, w: nat, i: nat, k: nat)
    requires OnTheWay(cfg, s, w, i, k) && s.workers[w].handled && s.workers[w].done < i
    requires s'.published == s.published && s'.log == s.log
    requires w in s'.workers && s'.workers[w] == Pass(s.workers[w].batch, s.workers[w].done + 1, false)
    ensures OnTheWay(cfg, s', w, i, k)
  {
    ClearAfterAck(cfg, s, s', s.workers[w], i, k);
  }

  lemma HandledIsBefore(cfg: Config, s: Bus, w: nat, i: nat, k: nat)
    requires Inv(cfg, s) && OnTheWay(cfg, s, w, i, k) && s.workers[w].handled
    ensures s.workers[w].done < i
  {
    HeldIsLogged(cfg, s, w);
  }

  lemma AckGoesOn(cfg: Config, s: Bus, w: nat)
    requires Inv(cfg, s) && w in s.workers && s.workers[w].handled
    requires s.workers[w].done + 1 < |s.workers[w].batch|
    ensures var step, p := Ack(w, NoFault, s.clock), s.workers[w];
            && Enabled(cfg, s, step) && Inv(cfg, Apply(cfg, s, step))
            && Apply(cfg, s, step).published == s.published && Apply(cfg, s, step).log == s.log
            && Apply(cfg, s, step).workers == s.workers[w := Pass(p.batch, p.done + 1, false)]
  {
    AckIs(cfg, s, w, NoFault, s.clock);
    StepKeepsInv(cfg, s, Ack(w, NoFault, s.clock));
  }

  lemma AckOnTheWay(cfg: Config, s: Bus, w: nat, i: nat, k: nat)
    requires Inv(cfg, s) && OnTheWay(cfg, s, w, i, k) && s.workers[w].handled
    ensures var step, p := Ack(w, NoFault, s.clock), s.workers[w];
            && Enabled(cfg, s, step) && Inv(cfg, Apply(cfg, s, step))
            && OnTheWay(cfg, Apply(cfg, s, step), w, i, k)
            && p.done < i && Apply(cfg, s, step).workers[w] == Pass(p.batch, p.done + 1, false)
  {
    HandledIsBefore(cfg, s, w, i, k);
    AckGoesOn(cfg, s, w);
    OnTheWayAfterAck(cfg, s, Apply(cfg, s, Ack(w, NoFault, s.clock)), w, i, k);
  }

  lemma ThereIsHandled(cfg: Config, s: Bus, w: nat, i: nat, k: nat) returns (steps: seq<Step>)
    requires Inv(cfg, s) && OnTheWay(cfg, s, w, i, k) && !s.workers[w].handled && s.workers[w].done == i
    ensures Reaches(cfg, s, steps, k)
  {
    KeyIsFree(cfg, s, k);
    HandleLogs(cfg, s, w);
    Cons(cfg, s, Handle(w, "", NoFault, s.clock), []);
    steps := [Handle(w, "", NoFault, s.clock)] + [];
  }

  /** The steps are possible and bring the entry to the audit log. */
  ghost predicate Reaches(cfg: Config, s: Bus, steps: seq<Step>, k: nat) {
    LegalRun(cfg, s, steps) && Logged(cfg, Final(cfg, s, steps), k)
  }

  lemma ReachesBy(cfg: Config, s: Bus, step: Step, rest: seq<Step>, k: nat)
    requires WorkersValid(s) && Enabled(cfg, s, step) && Reaches(cfg, Apply(cfg, s, step), rest, k)
    ensures Reaches(cfg, s, [step] + rest, k)
  {
    Cons(cfg, s, step, rest);
  }

  /** A worker that can get to an entry can log it, if it converts. */
  lemma {:induction false} ReachedIsLogged(cfg: Config, s: Bus, w: nat, i: nat, k: nat) returns (steps: seq<Step>)
    requires Inv(cfg, s) && OnTheWay(cfg, s, w, i, k)
    ensures Reaches(cfg, s, steps, k)
    decreases i - s.workers[w].done, !s.workers[w].handled
  {
    if s.workers[w].done == i && !s.workers[w].handled {
      steps := ThereIsHandled(cfg, s, w, i, k);
    } else {
      var step := if s.workers[w].handled then Ack(w, NoFault, s.clock) else Handle(w, "", NoFault, s.clock);
      if s.workers[w].handled {
        AckOnTheWay(cfg, s, w, i, k);
      } else {
        HandleOnTheWay(cfg, s, w, i, k);
      }
      var rest := ReachedIsLogged(cfg, Apply(cfg, s, step), w, i, k);
      ReachesBy(cfg, s, step, rest, k);
      steps := [step] + rest;
    }
  }

  lemma OneGiven(cfg: Config, s: Bus, step: Step, k: nat)
    requires Inv(cfg, s) && Enabled(cfg, s, step) && step.Read? && Batch(s, step.claimed, step.count) == [k]
    ensures var s' := Apply(cfg, s, step);
            && Inv(cfg, s') && s'.workers == s.workers[step.worker := Pass([k], 0, false)]
            && s'.published == s.published && s'.log == s.log && s'.first == s.first && s'.clock == step.at
  {
    StepKeepsInv(cfg, s, step);
  }

  /** Reading one entry, and then handling it. */
  lemma ReadAndHandle(cfg: Config, s: Bus, read: Step, k: nat) returns (steps: seq<Step>)
    requires Inv(cfg, s) && Enabled(cfg, s, read) && read.Read? && Batch(s, read.claimed, read.count) == [k]
    requires k < |s.published| && RowOf(cfg, s, k).Some? && !Logged(cfg, s, k)
    ensures LegalRun(cfg, s, steps) && Logged(cfg, Final(cfg, s, steps), k)
  {
    OneGiven(cfg, s, read, k);
    var s' := Apply(cfg, s, read);
    assert RowOf(cfg, s', k) == RowOf(cfg, s, k) && !Logged(cfg, s', k);
    steps := ReachedIsLogged(cfg, s', read.worker, 0, k);
    Cons(cfg, s, read, steps);
    steps := [read] + steps;
  }

  function Passed(s: Bus, w: nat): Bus {
    s.(next := Start(s) + 1, pending := s.pending[Start(s) := s.clock])
  }

  lemma NextIsRead(cfg: Config, s: Bus, w: nat)
    requires Inv(cfg, s) && w !in s.workers && 1 <= cfg.batchSize && Start(s) < |s.published|
    ensures var read := Read(w, [], 1, s.clock);
            && Enabled(cfg, s, read) && Inv(cfg, Apply(cfg, s, read))
            && Apply(cfg, s, read) == Passed(s, w).(workers := s.workers[w := Pass([Start(s)], 0, false)])
  {
    assert Batch(s, [], 1) == [Start(s)];
    assert Deliver(s.pending, [Start(s)], s.clock) == s.pending[Start(s) := s.clock] by {
      assert [Start(s)][0] == Start(s);
    }
    StepKeepsInv(cfg, s, Read(w, [], 1, s.clock));
  }

  /** Passing the next entry over: a worker reads it and goes away. */
  lemma PassOver(cfg: Config, s: Bus, w: nat)
    requires Inv(cfg, s) && w !in s.workers && 1 <= cfg.batchSize && Start(s) < |s.published|
    ensures var read, crash := Read(w, [], 1, s.clock), Crash(w, s.clock);
            && Enabled(cfg, s, read) && Enabled(cfg, Apply(cfg, s, read), crash)
            && Apply(cfg, Apply(cfg, s, read), crash) == Passed(s, w) && Inv(cfg, Passed(s, w))
  {
    NextIsRead(cfg, s, w);
    assert s.workers[w := Pass([Start(s)], 0, false)] - {w} == s.workers;
    FewerWorkersKeepInv(cfg, Apply(cfg, s, Read(w, [], 1, s.clock)), Passed(s, w));
  }

  lemma PassedOver(cfg: Config, s: Bus, w: nat, rest: seq<Step>)
    requires Inv(cfg, s) && w !in s.workers && 1 <= cfg.batchSize && Start(s) < |s.published|
    requires LegalRun(cfg, Passed(s, w), rest)
    ensures var steps := [Read(w, [], 1, s.clock)] + ([Crash(w, s.clock)] + rest);
            LegalRun(cfg, s, steps) && Final(cfg, s, steps) == Final(cfg, Passed(s, w), rest)
  {
    PassOver(cfg, s, w);
    Cons(cfg, Apply(cfg, s, Read(w, [], 1, s.clock)), Crash(w, s.clock), rest);
    Cons(cfg, s, Read(w, [], 1, s.clock), [Crash(w, s.clock)] + rest);
  }

  /** An entry still in the stream, which converts and has no row, can be brought to the log. */
  lemma {:induction false} CanBeLogged(cfg: Config, s: Bus, k: nat) returns (steps: seq<Step>)
    requires Inv(cfg, s) && 1 <= cfg.batchSize && s.first <= k < |s.published|
    requires RowOf(cfg, s, k).Some? && !Logged(cfg, s, k)
    ensures LegalRun(cfg, s, steps) && Logged(cfg, Final(cfg, s, steps), k)
    decreases |s.published| - s.next
  {
    var w := Above(s.workers.Keys);
    if k in s.pending {
      var idle := s.pending[k] + cfg.claimMinIdle;
      steps := ReadAndHandle(cfg, s, Read(w, [k], 0, if s.clock < idle then idle else s.clock), k);
    } else {
      assert s.next <= k;
      assert Batch(s, [], 1) == [Start(s)];
      if Start(s) == k {
        steps := ReadAndHandle(cfg, s, Read(w, [], 1, s.clock), k);
      } else {
        PassOver(cfg, s, w);
        assert RowOf(cfg, Passed(s, w), k) == RowOf(cfg, s, k) && !Logged(cfg, Passed(s, w), k);
        var rest := CanBeLogged(cfg, Passed(s, w), k);
        steps := [Read(w, [], 1, s.clock)] + ([Crash(w, s.clock)] + rest);
        PassedOver(cfg, s, w, rest);
      }
    }
  }

  lemma UnconvertedIsUnlogged(cfg: Config, s: Bus, steps: seq<Step>, k: nat)
    requires Inv(cfg, s) && LegalRun(cfg, s, steps) && k < |s.published| && RowOf(cfg, s, k).None?
    ensures !Logged(cfg, Final(cfg, s, steps), k)
  {
    RunExtends(cfg, s, steps);
    assert Final(cfg, s, steps).published[k] == s.published[k];
  }

  lemma NeverLogged(cfg: Config, s: Bus, steps: seq<Step>, k: nat)
    requires Inv(cfg, s) && LegalRun(cfg, s, steps) && k < |s.published| && !Logged(cfg, s, k)
    requires RowOf(cfg, s, k).None? || (k < s.first && !InReach(cfg, s, k))
    ensures !Logged(cfg, Final(cfg, s, steps), k)
  {
    if RowOf(cfg, s, k).None? {
      UnconvertedIsUnlogged(cfg, s, steps, k);
    } else {
      LostForGood(cfg, s, steps, k);
    }
  }

  /** Exactly when an event that is not in the audit log can still get there: its record converts, and
      it is still in the stream or some worker can get to it. */
  lemma LoggableExactly(cfg: Config, s: Bus, k: nat)
    requires Inv(cfg, s) && 1 <= cfg.batchSize && k < |s.published| && !Logged(cfg, s, k)
    ensures (exists steps :: Reaches(cfg, s, steps, k)) <==>
              RowOf(cfg, s, k).Some? && (s.first <= k || InReach(cfg, s, k))
  {
    if RowOf(cfg, s, k).Some? && s.first <= k {
      var steps := CanBeLogged(cfg, s, k);
      assert Reaches(cfg, s, steps, k);
    } else if RowOf(cfg, s, k).Some? && InReach(cfg, s, k) {
      var w, i :| w in s.workers && ClearTo(cfg, s, s.workers[w], i, k);
      var steps := ReachedIsLogged(cfg, s, w, i, k);
      assert Reaches(cfg, s, steps, k);
    } else {
      forall steps ensures !Reaches(cfg, s, steps, k) {
        if LegalRun(cfg, s, steps) {
          NeverLogged(cfg, s, steps, k);
        }
      }
    }
  }

  // ---- runs that lose an event ----

  /** The next publication, long enough after the first event to trim it. */
  function SecondPublish(cfg: Config, second: Record): Step {
    var at := if cfg.retention + 1 <= cfg.skew then 0 else cfg.retention + 1 - cfg.skew;
    Publish(second, cfg.retention + 1, 1, at)
  }

  ghost predicate TwoRecords(cfg: Config, first: Record, second: Record) {
    && first.id != "" && first.createdAt.Some? && second.id != "" && second.createdAt.Some?
    && (cfg.parse(second.id).Some? ==> cfg.parse(first.id) != cfg.parse(second.id))
  }

  lemma SecondPublishLoses(cfg: Config, s: Bus, first: Record, second: Record)
    requires 0 < cfg.retention && TwoRecords(cfg, first, second)
    requires s.published == [Entry(first, 0)] && s.first == 0 && s.clock == 0 && s.log == map[] && s.workers == map[]
    ensures Enabled(cfg, s, SecondPublish(cfg, second)) && WorkersValid(s)
    ensures Lost(cfg, Apply(cfg, s, SecondPublish(cfg, second)), 0)
    ensures Apply(cfg, s, SecondPublish(cfg, second)).pending == s.pending
  {
    var step := SecondPublish(cfg, second);
    var published := s.published + [Entry(second, step.at)];
    assert published[0] == Entry(first, 0) && |published| == 2;
    assert TrimAllowed(cfg, s, step);
  }

  /** Two publications far enough apart lose the first event, though nothing failed: the group was never
      given it. */
  lemma TrimLosesUnread(cfg: Config, first: Record, second: Record) returns (steps: seq<Step>)
    requires 0 < cfg.retention && TwoRecords(cfg, first, second)
    ensures LegalRun(cfg, START, steps) && Lost(cfg, Final(cfg, START, steps), 0)
    ensures forall more :: LegalRun(cfg, Final(cfg, START, steps), more) ==>
              !Logged(cfg, Final(cfg, Final(cfg, START, steps), more), 0)
  {
    FirstPublish(cfg, first);
    SecondPublishLoses(cfg, OnePublished(first), first, second);
    Cons(cfg, OnePublished(first), SecondPublish(cfg, second), []);
    Cons(cfg, START, Publish(first, cfg.skew, 0, 0), [SecondPublish(cfg, second)] + []);
    steps := [Publish(first, cfg.skew, 0, 0)] + ([SecondPublish(cfg, second)] + []);
    LostAfter(cfg, steps);
  }

  lemma LostAfter(cfg: Config, steps: seq<Step>)
    requires LegalRun(cfg, START, steps) && Lost(cfg, Final(cfg, START, steps), 0)
    ensures forall more :: LegalRun(cfg, Final(cfg, START, steps), more) ==>
              !Logged(cfg, Final(cfg, Final(cfg, START, steps), more), 0)
  {
    RunKeepsInv(cfg, START, steps);
    var s := Final(cfg, START, steps);
    forall more | LegalRun(cfg, s, more) ensures !Logged(cfg, Final(cfg, s, more), 0) {
      LostForGood(cfg, s, more, 0);
    }
  }

  lemma CrashBeforeHandling(cfg: Config, record: Record)
    requires record.createdAt.Some?
    ensures var s, step := OneDelivered(record, false, map[]), Crash(0, 0);
            Enabled(cfg, s, step) && WorkersValid(s) && Apply(cfg, s, step) == s.(workers := map[])
  {
  }

  /** So does a worker that crashes with an entry before it, when the entry is trimmed before it is idle
      long enough to be claimed: it stays pending, and no read can give it any more. */
  lemma TrimLosesDelivered(cfg: Config, first: Record, second: Record) returns (steps: seq<Step>)
    requires 0 < cfg.retention && 1 <= cfg.batchSize && TwoRecords(cfg, first, second)
    ensures LegalRun(cfg, START, steps) && Lost(cfg, Final(cfg, START, steps), 0)
    ensures 0 in Final(cfg, START, steps).pending
    ensures forall more :: LegalRun(cfg, Final(cfg, START, steps), more) ==>
              !Logged(cfg, Final(cfg, Final(cfg, START, steps), more), 0)
  {
    FirstPublish(cfg, first);
    FirstRead(cfg, first);
    CrashBeforeHandling(cfg, first);
    var s := OneDelivered(first, false, map[]).(workers := map[]);
    SecondPublishLoses(cfg, s, first, second);
    Cons(cfg, s, SecondPublish(cfg, second), []);
    steps := [SecondPublish(cfg, second)] + [];
    Cons(cfg, OneDelivered(first, false, map[]), Crash(0, 0), steps);
    steps := [Crash(0, 0)] + steps;
    Cons(cfg, OnePublished(first), Read(0, [], 1, 0), steps);
    steps := [Read(0, [], 1, 0)] + steps;
    Cons(cfg, START, Publish(first, cfg.skew, 0, 0), steps);
    steps := [Publish(first, cfg.skew, 0, 0)] + steps;
    LostAfter(cfg, steps);
  }
}
