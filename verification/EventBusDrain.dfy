/** How many passes it takes a subscriber that never fails to drain the stream. */
module EventBusDrain {
  import opened Wrappers
  import opened EventRecords
  import opened EventBus
  import opened EventBusRuns
  import opened EventBusService

  /** In the stream and not acknowledged. */
  function Outstanding(s: Bus): set<nat> {
    set k | s.first <= k < |s.published| && k !in s.acked
  }

  /** What a group read may give at this time: pending and idle long enough, or not yet delivered. */
  function Available(cfg: Config, s: Bus, at: Time): set<nat> {
    set k | s.first <= k < |s.published|
            && (Start(s) <= k || (k in s.pending && s.pending[k] + cfg.claimMinIdle <= at))
  }

  /** At this time every pending entry that is still in the stream may be claimed. */
  ghost predicate AllIdle(cfg: Config, s: Bus, at: Time) {
    forall k :: k in s.pending && s.first <= k ==> s.pending[k] + cfg.claimMinIdle <= at
  }

  ghost predicate AllHandleable(cfg: Config, s: Bus) {
    forall k :: k in Outstanding(s) ==> Handleable(cfg, s, k)
  }

  function Min(a: nat, b: nat): nat {
    if a <= b then a else b
  }

  /** One pass that reads as much as it may, and whose every message is handled and acknowledged. */
  ghost predicate CompletePass(cfg: Config, s: Bus, s': Bus, claimed: seq<nat>, count: nat, at: Time) {
    && s.clock <= at && ((claimed == [] && count == 0) || ReadAllowed(cfg, s, claimed, count, at))
    && |claimed| + count == Min(cfg.batchSize, |Available(cfg, s, at)|)
    && PassDone(cfg, s, s', Batch(s, claimed, count), |claimed| + count)
    && Kept(s, s') && s'.clock == if |claimed| + count == 0 then s.clock else at
  }

  lemma {:induction false} DistinctCount(batch: seq<nat>, n: nat)
    requires n <= |batch| && forall i, j :: 0 <= i < j < |batch| ==> batch[i] != batch[j]
    ensures |Taken(batch, n)| == n
  {
    if n > 0 {
      DistinctCount(batch, n - 1);
      assert Taken(batch, n) == Taken(batch, n - 1) + {batch[n - 1]};
    } else {
      assert Taken(batch, 0) == {};
    }
  }

  lemma AllAvailable(cfg: Config, s: Bus, at: Time)
    requires Delivery(s) && AllIdle(cfg, s, at)
    ensures Available(cfg, s, at) == Outstanding(s)
  {
  }

  lemma BatchAt(cfg: Config, s: Bus, claimed: seq<nat>, count: nat, at: Time, i: nat)
    requires Delivery(s) && i < |claimed| + count
    requires (claimed == [] && count == 0) || ReadAllowed(cfg, s, claimed, count, at)
    ensures var k := Batch(s, claimed, count)[i];
            && k in Outstanding(s)
            && (i < |claimed| ==> k == claimed[i] && k < s.next)
            && (|claimed| <= i ==> k == Start(s) + (i - |claimed|) && s.next <= k)
  {
  }

  /** A batch is of different entries, each outstanding. */
  lemma BatchIsOutstanding(cfg: Config, s: Bus, claimed: seq<nat>, count: nat, at: Time)
    requires Delivery(s)
    requires (claimed == [] && count == 0) || ReadAllowed(cfg, s, claimed, count, at)
    ensures var batch := Batch(s, claimed, count);
            && (forall i, j :: 0 <= i < j < |batch| ==> batch[i] != batch[j])
            && Taken(batch, |batch|) <= Outstanding(s)
  {
    var batch := Batch(s, claimed, count);
    forall i | 0 <= i < |batch| ensures batch[i] in Outstanding(s) {
      BatchAt(cfg, s, claimed, count, at, i);
    }
    forall i, j | 0 <= i < j < |batch| ensures batch[i] != batch[j] {
      BatchAt(cfg, s, claimed, count, at, i);
      BatchAt(cfg, s, claimed, count, at, j);
    }
  }

  lemma BatchIsAvailable(cfg: Config, s: Bus, claimed: seq<nat>, count: nat, at: Time)
    requires Delivery(s)
    requires (claimed == [] && count == 0) || ReadAllowed(cfg, s, claimed, count, at)
    ensures var batch := Batch(s, claimed, count); Taken(batch, |batch|) <= Available(cfg, s, at)
  {
    var batch := Batch(s, claimed, count);
    forall i | 0 <= i < |batch| ensures batch[i] in Available(cfg, s, at) {
      BatchAt(cfg, s, claimed, count, at, i);
    }
  }

  /** A complete pass takes a batch of what is available, or all of it. */
  lemma PassTakes(cfg: Config, s: Bus, s': Bus, claimed: seq<nat>, count: nat, at: Time)
    requires Delivery(s) && CompletePass(cfg, s, s', claimed, count, at)
    ensures Outstanding(s') <= Outstanding(s)
    ensures |Outstanding(s')| == |Outstanding(s)| - Min(cfg.batchSize, |Available(cfg, s, at)|)
  {
    var batch := Batch(s, claimed, count);
    BatchIsOutstanding(cfg, s, claimed, count, at);
    DistinctCount(batch, |batch|);
    assert Outstanding(s') == Outstanding(s) - Taken(batch, |batch|);
  }

  /** What was available and is still outstanding after the pass is available to a later one. */
  lemma StaysAvailable(cfg: Config, s: Bus, s': Bus, claimed: seq<nat>, count: nat, at: Time, later: Time, k: nat)
    requires Delivery(s) && Delivery(s') && CompletePass(cfg, s, s', claimed, count, at) && at <= later
    requires k in Available(cfg, s, at) && k in Outstanding(s')
    ensures k in Available(cfg, s', later)
  {
    var all := Taken(Batch(s, claimed, count), |claimed| + count);
    assert k !in all;
    if k in s'.pending {
      assert k in s'.pending - all && k in s.pending - all;
      assert (s'.pending - all)[k] == (s.pending - all)[k];
    }
  }

  lemma NoRowAmong(cfg: Config, s: Bus, batch: seq<nat>, k: nat, u: Uuid)
    requires Published(cfg, s) && k < |s.published| && k !in Taken(batch, |batch|)
    requires cfg.parse(s.published[k].record.id) == Some(u)
    ensures !RowAmong(cfg, s, batch, |batch|, u)
  {
    forall i | 0 <= i < |batch| && batch[i] < |s.published|
      ensures cfg.parse(s.published[batch[i]].record.id) != Some(u)
    {
      assert batch[i] in Taken(batch, |batch|);
      assert batch[i] < k || k < batch[i];
    }
  }

  /** An entry outside the batch stays handleable: its ID is its own. */
  lemma PassKeepsHandleable(cfg: Config, s: Bus, s': Bus, claimed: seq<nat>, count: nat, at: Time)
    requires Published(cfg, s) && AllHandleable(cfg, s) && CompletePass(cfg, s, s', claimed, count, at)
    ensures AllHandleable(cfg, s')
  {
    var batch := Batch(s, claimed, count);
    forall k | k in Outstanding(s') ensures Handleable(cfg, s', k) {
      assert k in Outstanding(s) && k !in Taken(batch, |batch|);
      NoRowAmong(cfg, s, batch, k, InsertParams(cfg.parse, s.published[k].record).value.id);
    }
  }

  /** With everything outstanding handleable, a pass without faults does not fail. */
  lemma CleanPassSucceeds(cfg: Config, s: Bus, s': Bus, claimed: seq<nat>, count: nat, at: Time, n: nat,
                          r: Result<(), Failure>)
    requires Delivery(s) && AllHandleable(cfg, s) && n < |claimed| + count
    requires ReadAllowed(cfg, s, claimed, count, at)
    ensures !PassFailed(cfg, s, s', Batch(s, claimed, count), n, NoFault, NoFault, r)
  {
    var batch := Batch(s, claimed, count);
    BatchIsOutstanding(cfg, s, claimed, count, at);
    assert batch[n] in Taken(batch, |batch|);
  }

  // ---- draining ----

  /** The reads and results of successive complete passes. */
  datatype PassRecord = PassRecord(claimed: seq<nat>, count: nat, at: Time, result: Bus)

  ghost function After(s: Bus, passes: seq<PassRecord>): Bus {
    if passes == [] then s else passes[|passes| - 1].result
  }

  /** The last pass starts where those before it ended, and not before them. */
  ghost predicate LastPass(cfg: Config, s: Bus, front: seq<PassRecord>, p: PassRecord) {
    && CompletePass(cfg, After(s, front), p.result, p.claimed, p.count, p.at) && Inv(cfg, p.result)
    && (front != [] ==> front[|front| - 1].at <= p.at)
  }

  ghost predicate Passes(cfg: Config, s: Bus, passes: seq<PassRecord>)
    decreases |passes|
  {
    passes == [] ||
    (var n := |passes| - 1; Passes(cfg, s, passes[..n]) && LastPass(cfg, s, passes[..n], passes[n]))
  }

  /** Left(k, n, b) is what is left of k after n times taking b, or all. */
  function Left(k: nat, n: nat, b: nat): nat {
    if k <= n * b then 0 else k - n * b
  }

  lemma LastOfPasses(cfg: Config, s: Bus, passes: seq<PassRecord>)
    requires Passes(cfg, s, passes) && passes != []
    ensures Passes(cfg, s, passes[..|passes| - 1])
    ensures LastPass(cfg, s, passes[..|passes| - 1], passes[|passes| - 1])
  {
  }

  lemma LastKeepsAvailable(cfg: Config, s: Bus, front: seq<PassRecord>, p: PassRecord, later: Time, ks: set<nat>)
    requires LastPass(cfg, s, front, p) && Delivery(After(s, front)) && p.at <= later
    requires ks * Outstanding(After(s, front)) <= Available(cfg, After(s, front), p.at)
    ensures Delivery(p.result) && Outstanding(p.result) <= Outstanding(After(s, front))
    ensures ks * Outstanding(p.result) <= Available(cfg, p.result, later)
  {
    var s1 := After(s, front);
    PassTakes(cfg, s1, p.result, p.claimed, p.count, p.at);
    forall k | k in ks * Outstanding(p.result) ensures k in Available(cfg, p.result, later) {
      StaysAvailable(cfg, s1, p.result, p.claimed, p.count, p.at, later, k);
    }
  }

  /** Passes from `at` on: what was available then is available later, unless it was acknowledged. */
  lemma {:induction false} PassesKeepAvailable(cfg: Config, s: Bus, passes: seq<PassRecord>, at: Time, later: Time)
    requires Delivery(s) && Passes(cfg, s, passes)
    requires if passes == [] then at <= later else at <= passes[0].at && passes[|passes| - 1].at <= later
    ensures Delivery(After(s, passes)) && Outstanding(After(s, passes)) <= Outstanding(s)
    ensures Available(cfg, s, at) * Outstanding(After(s, passes)) <= Available(cfg, After(s, passes), later)
    decreases |passes|
  {
    if passes != [] {
      var n := |passes| - 1;
      LastOfPasses(cfg, s, passes);
      PassesKeepAvailable(cfg, s, passes[..n], at, passes[n].at);
      LastKeepsAvailable(cfg, s, passes[..n], passes[n], later, Available(cfg, s, at));
    }
  }

  lemma AtLeast(ks: set<nat>, before: set<nat>, after: set<nat>)
    requires ks <= before && after <= before
    ensures |ks| - (|before| - |after|) <= |ks * after|
  {
    assert ks == ks * after + (ks - after) && (ks * after) !! (ks - after);
    Smaller(ks - after, before - after);
    assert before == after + (before - after) && after !! (before - after);
  }

  lemma {:induction false} Smaller(a: set<nat>, b: set<nat>)
    requires a <= b
    ensures |a| <= |b|
  {
    assert b == a + (b - a) && a !! (b - a);
  }

  /** Of k, n batches of b took all or filled up; more than n batches they never take. */
  predicate Took(k: nat, n: nat, b: nat, taken: int) {
    (k <= taken || n * b <= taken) && taken <= n * b
  }

  lemma TookOneMore(k: nat, n: nat, b: nat, taken: int, available: nat)
    requires Took(k, n, b, taken) && k - taken <= available
    ensures Took(k, n + 1, b, taken + Min(b, available))
  {
    assert (n + 1) * b == n * b + b;
  }

  lemma LastPassTakes(cfg: Config, s: Bus, front: seq<PassRecord>, p: PassRecord, at: Time)
    requires Delivery(s) && Passes(cfg, s, front) && LastPass(cfg, s, front, p)
    requires at <= (if front == [] then p.at else front[0].at)
    requires Took(|Available(cfg, s, at)|, |front|, cfg.batchSize,
                  |Outstanding(s)| - |Outstanding(After(s, front))|)
    ensures Took(|Available(cfg, s, at)|, |front| + 1, cfg.batchSize,
                 |Outstanding(s)| - |Outstanding(p.result)|)
  {
    var s1 := After(s, front);
    PassesKeepAvailable(cfg, s, front, at, p.at);
    AtLeast(Available(cfg, s, at), Outstanding(s), Outstanding(s1));
    Smaller(Available(cfg, s, at) * Outstanding(s1), Available(cfg, s1, p.at));
    PassTakes(cfg, s1, p.result, p.claimed, p.count, p.at);
    TookOneMore(|Available(cfg, s, at)|, |front|, cfg.batchSize, |Outstanding(s)| - |Outstanding(s1)|,
                |Available(cfg, s1, p.at)|);
  }

  /** With nothing published or trimmed meanwhile, n complete passes from `at` on acknowledge as many as
      were available then, or n batches if that is less; and never more than n batches. */
  lemma {:induction false} PassesTake(cfg: Config, s: Bus, passes: seq<PassRecord>, at: Time)
    requires Delivery(s) && Passes(cfg, s, passes) && (passes != [] ==> at <= passes[0].at)
    ensures Took(|Available(cfg, s, at)|, |passes|, cfg.batchSize,
                 |Outstanding(s)| - |Outstanding(After(s, passes))|)
    decreases |passes|
  {
    if passes != [] {
      LastOfPasses(cfg, s, passes);
      PassesTake(cfg, s, passes[..|passes| - 1], at);
      LastPassTakes(cfg, s, passes[..|passes| - 1], passes[|passes| - 1], at);
    }
  }

  /** When the first pass comes, every pending entry is idle long enough. */
  ghost predicate ReadyFor(cfg: Config, s: Bus, passes: seq<PassRecord>) {
    passes != [] ==> AllIdle(cfg, s, passes[0].at)
  }

  /** So with all that is outstanding available, they leave k - n * batchSize of k, or none. */
  lemma PassesLeave(cfg: Config, s: Bus, passes: seq<PassRecord>)
    requires Delivery(s) && ReadyFor(cfg, s, passes) && Passes(cfg, s, passes)
    ensures |Outstanding(After(s, passes))| == Left(|Outstanding(s)|, |passes|, cfg.batchSize)
  {
    if passes != [] {
      AllAvailable(cfg, s, passes[0].at);
      PassesTake(cfg, s, passes, passes[0].at);
    }
  }

  lemma CeilingExactly(k: nat, n: nat, b: nat)
    requires 0 < b
    ensures k <= n * b <==> (k + b - 1) / b <= n
  {
    var q := (k + b - 1) / b;
    assert k + b - 1 == q * b + (k + b - 1) % b;
    if q <= n {
      assert q * b <= n * b;
    } else {
      assert (n + 1) * b <= q * b;
      assert (n + 1) * b == n * b + b;
    }
  }

  /** k outstanding entries are drained by the passes exactly when there are at least
      k / batchSize of them, rounded up. */
  lemma DrainedExactly(cfg: Config, s: Bus, passes: seq<PassRecord>)
    requires Delivery(s) && ReadyFor(cfg, s, passes) && Passes(cfg, s, passes) && 0 < cfg.batchSize
    ensures Outstanding(After(s, passes)) == {} <==>
              (|Outstanding(s)| + cfg.batchSize - 1) / cfg.batchSize <= |passes|
  {
    PassesLeave(cfg, s, passes);
    CeilingExactly(|Outstanding(s)|, |passes|, cfg.batchSize);
    assert Outstanding(After(s, passes)) == {} <==> |Outstanding(After(s, passes))| == 0;
  }

  // ---- the worker drains ----

  function Undelivered(s: Bus): nat {
    if Start(s) < |s.published| then |s.published| - Start(s) else 0
  }

  function Idle(cfg: Config, s: Bus, at: Time): set<nat> {
    set k | k in s.pending && s.first <= k && s.pending[k] + cfg.claimMinIdle <= at
  }

  function Interval(lo: nat, n: nat): (ks: set<nat>)
    ensures forall k :: k in ks <==> lo <= k < lo + n
    ensures |ks| == n
  {
    if n == 0 then {} else Interval(lo, n - 1) + {lo + n - 1}
  }

  lemma AvailableCount(cfg: Config, s: Bus, at: Time)
    requires Delivery(s)
    ensures |Available(cfg, s, at)| == |Idle(cfg, s, at)| + Undelivered(s)
  {
    var unread := Interval(Start(s), Undelivered(s));
    assert Available(cfg, s, at) == Idle(cfg, s, at) + unread;
    assert Idle(cfg, s, at) !! unread;
  }

  /** As many of the elements as a batch holds, each once. */
  method Pick(ks: set<nat>, limit: nat) returns (picked: seq<nat>)
    ensures |picked| == Min(limit, |ks|)
    ensures forall i :: 0 <= i < |picked| ==> picked[i] in ks
    ensures forall i, j :: 0 <= i < j < |picked| ==> picked[i] != picked[j]
  {
    picked := [];
    var rest := ks;
    while rest != {} && |picked| < limit
      invariant |picked| + |rest| == |ks| && |picked| <= limit && rest <= ks
      invariant forall i :: 0 <= i < |picked| ==> picked[i] in ks && picked[i] !in rest
      invariant forall i, j :: 0 <= i < j < |picked| ==> picked[i] != picked[j]
      decreases rest
    {
      var k :| k in rest;
      picked := picked + [k];
      rest := rest - {k};
    }
  }

  /** A read that gives as much as it may. */
  method FullRead(cfg: Config, s: Bus, at: Time) returns (claimed: seq<nat>, count: nat)
    requires Delivery(s)
    ensures (claimed == [] && count == 0) || ReadAllowed(cfg, s, claimed, count, at)
    ensures |claimed| + count == Min(cfg.batchSize, |Available(cfg, s, at)|)
  {
    AvailableCount(cfg, s, at);
    claimed := Pick(Idle(cfg, s, at), cfg.batchSize);
    count := Min(cfg.batchSize - |claimed|, Undelivered(s));
  }

  function NoFaults(n: nat): seq<Fault> {
    seq(n, i => NoFault)
  }

  lemma ServiceInv(service: Service)
    requires service.Valid()
    ensures Inv(service.config, service.bus)
  {
    RunKeepsInv(service.config, START, service.history);
  }

  /** One tick of the worker, when nothing fails: the pass is complete, and leaves the rest handleable. */
  method CleanPass(service: Service, w: nat, at: Time) returns (claimed: seq<nat>, count: nat)
    requires service.Valid() && w !in service.bus.workers && service.bus.clock <= at
    requires AllHandleable(service.config, service.bus)
    modifies service
    ensures service.Valid() && service.bus.workers == old(service.bus).workers && service.bus.clock <= at
    ensures CompletePass(service.config, old(service.bus), service.bus, claimed, count, at)
    ensures AllHandleable(service.config, service.bus)
  {
    ServiceInv(service);
    ghost var start := service.bus;
    claimed, count := FullRead(service.config, service.bus, at);
    var faults := NoFaults(|claimed| + count);
    var n, r := service.ProcessSubscriber(w, claimed, count, at, NoFault, faults, faults);
    if r.Err? {
      CleanPassSucceeds(service.config, start, service.bus, claimed, count, at, n, r);
    }
    PassKeepsHandleable(service.config, start, service.bus, claimed, count, at);
  }

  lemma PassesSnoc(cfg: Config, s: Bus, passes: seq<PassRecord>, p: PassRecord)
    requires Passes(cfg, s, passes) && LastPass(cfg, s, passes, p)
    ensures Passes(cfg, s, passes + [p]) && After(s, passes + [p]) == p.result
  {
    assert (passes + [p])[..|passes|] == passes;
  }

  /** The passes so far, at the first of these times. */
  ghost predicate Draining(cfg: Config, start: Bus, s: Bus, passes: seq<PassRecord>, times: seq<Time>) {
    && |passes| <= |times| && Passes(cfg, start, passes) && After(start, passes) == s && Kept(start, s)
    && forall i :: 0 <= i < |passes| ==> passes[i].at == times[i]
  }

  lemma OneMorePass(cfg: Config, start: Bus, s: Bus, s': Bus, passes: seq<PassRecord>, times: seq<Time>,
                    claimed: seq<nat>, count: nat)
    requires Draining(cfg, start, s, passes, times) && |passes| < |times| && Inv(cfg, s')
    requires forall i, j :: 0 <= i < j < |times| ==> times[i] <= times[j]
    requires CompletePass(cfg, s, s', claimed, count, times[|passes|])
    ensures Draining(cfg, start, s', passes + [PassRecord(claimed, count, times[|passes|], s')], times)
  {
    var p := PassRecord(claimed, count, times[|passes|], s');
    assert LastPass(cfg, start, passes, p);
    PassesSnoc(cfg, start, passes, p);
  }

  lemma DrainedIsLogged(cfg: Config, start: Bus, s: Bus)
    requires Inv(cfg, s) && Kept(start, s)
    ensures forall k :: k in Outstanding(start) && k !in Outstanding(s) ==> Logged(cfg, s, k)
  {
  }

  /** What draining at these times leaves. */
  ghost predicate Drained(cfg: Config, start: Bus, s: Bus, times: seq<Time>) {
    && (times != [] ==>
          Took(|Available(cfg, start, times[0])|, |times|, cfg.batchSize, |Outstanding(start)| - |Outstanding(s)|))
    && (times != [] && AllIdle(cfg, start, times[0]) ==>
          |Outstanding(s)| == Left(|Outstanding(start)|, |times|, cfg.batchSize))
    && (times != [] && AllIdle(cfg, start, times[0]) && 0 < cfg.batchSize ==>
          (Outstanding(s) == {} <==> (|Outstanding(start)| + cfg.batchSize - 1) / cfg.batchSize <= |times|))
    && forall k :: k in Outstanding(start) && k !in Outstanding(s) ==> Logged(cfg, s, k)
  }

  lemma DrainingEnds(cfg: Config, start: Bus, s: Bus, passes: seq<PassRecord>, times: seq<Time>)
    requires Delivery(start) && Inv(cfg, s) && Draining(cfg, start, s, passes, times) && |passes| == |times|
    ensures Drained(cfg, start, s, times)
  {
    DrainedIsLogged(cfg, start, s);
    if times != [] {
      PassesTake(cfg, start, passes, times[0]);
      if AllIdle(cfg, start, times[0]) {
        PassesLeave(cfg, start, passes);
        if 0 < cfg.batchSize {
          DrainedExactly(cfg, start, passes);
        }
      }
    }
  }

  lemma DrainEnds(cfg: Config, before: seq<Step>, history: seq<Step>, start: Bus, s: Bus,
                  passes: seq<PassRecord>, times: seq<Time>)
    requires RunsTo(cfg, START, before, start) && RunsTo(cfg, START, history, s)
    requires Draining(cfg, start, s, passes, times) && |passes| == |times|
    ensures Drained(cfg, start, s, times)
  {
    RunKeepsInv(cfg, START, before);
    RunKeepsInv(cfg, START, history);
    DrainingEnds(cfg, start, s, passes, times);
  }

  /** The worker ticks at these times, and nothing fails or is published meanwhile. The passes are there,
      they acknowledge what was available at the first, as far as their batches go, and what they
      acknowledge is in the audit log. With all that is outstanding available at the first, the stream
      is drained exactly when they are enough. */
  method Drain(service: Service, w: nat, times: seq<Time>) returns (ghost passes: seq<PassRecord>)
    requires service.Valid() && w !in service.bus.workers && AllHandleable(service.config, service.bus)
    requires forall i, j :: 0 <= i < j < |times| ==> times[i] <= times[j]
    requires times != [] ==> service.bus.clock <= times[0]
    modifies service
    ensures service.Valid() && |passes| == |times|
    ensures Draining(service.config, old(service.bus), service.bus, passes, times)
    ensures Drained(service.config, old(service.bus), service.bus, times)
  {
    ghost var start, before := service.bus, service.history;
    passes := DrainLoop(service, w, times);
    DrainEnds(service.config, before, service.history, start, service.bus, passes, times);
  }

  method DrainLoop(service: Service, w: nat, times: seq<Time>) returns (ghost passes: seq<PassRecord>)
    requires service.Valid() && w !in service.bus.workers && AllHandleable(service.config, service.bus)
    requires forall i, j :: 0 <= i < j < |times| ==> times[i] <= times[j]
    requires times != [] ==> service.bus.clock <= times[0]
    modifies service
    ensures service.Valid() && |passes| == |times|
    ensures Draining(service.config, old(service.bus), service.bus, passes, times)
  {
    passes := [];
    ghost var start := service.bus;
    for i := 0 to |times|
      invariant service.Valid() && w !in service.bus.workers && AllHandleable(service.config, service.bus)
      invariant |passes| == i && (i < |times| ==> service.bus.clock <= times[i])
      invariant Draining(service.config, start, service.bus, passes, times)
    {
      ghost var before := service.bus;
      var claimed, count := CleanPass(service, w, times[i]);
      ServiceInv(service);
      OneMorePass(service.config, start, before, service.bus, passes, times, claimed, count);
      passes := passes + [PassRecord(claimed, count, times[i], service.bus)];
    }
  }
}
