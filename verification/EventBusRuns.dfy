/** What every run of the bus protocol keeps. */
module EventBusRuns {
  import opened Wrappers
  import opened EventRecords
  import opened EventBus

  ghost predicate LegalRun(cfg: Config, s: Bus, steps: seq<Step>)
    decreases |steps|
  {
    steps == [] || (Enabled(cfg, s, steps[0]) && WorkersValid(s) && LegalRun(cfg, Apply(cfg, s, steps[0]), steps[1..]))
  }

  ghost function Final(cfg: Config, s: Bus, steps: seq<Step>): Bus
    requires LegalRun(cfg, s, steps)
    decreases |steps|
  {
    if steps == [] then s else Final(cfg, Apply(cfg, s, steps[0]), steps[1..])
  }

  // ---- preservation, step by step ----

  lemma LoggedStays(cfg: Config, s: Bus, s': Bus, k: nat)
    requires Logged(cfg, s, k)
    requires s.published <= s'.published
    requires forall u :: u in s.log ==> u in s'.log && s'.log[u] == s.log[u]
    ensures Logged(cfg, s', k)
  {
    assert s'.published[k] == s.published[k];
  }

  lemma SourceStays(cfg: Config, s: Bus, s': Bus, u: Uuid)
    requires Published(cfg, s) && Published(cfg, s') && s.published <= s'.published
    requires u in s.log && HasSource(cfg, s, u) && u in s'.log && s'.log[u] == s.log[u]
    ensures HasSource(cfg, s', u)
  {
    var k: nat :| k < |s.published| && RowOf(cfg, s, k) == Some(s.log[u]) && s.log[u].id == u;
    assert s'.published[k] == s.published[k];
    assert RowOf(cfg, s', k) == Some(s'.log[u]);
  }

  /** With the log as it was, only already logged entries may become acknowledged. */
  lemma SameLogSound(cfg: Config, s: Bus, s': Bus)
    requires Published(cfg, s) && WorkersValid(s) && LogSound(cfg, s)
    requires Published(cfg, s') && WorkersValid(s')
    requires s.published <= s'.published && s'.log == s.log
    requires forall k :: k in s'.acked ==> Logged(cfg, s, k)
    requires forall w :: w in s'.workers && s'.workers[w].handled ==> w in s.workers && s.workers[w] == s'.workers[w]
    ensures LogSound(cfg, s')
  {
    forall k | k in s'.acked ensures Logged(cfg, s', k) {
      LoggedStays(cfg, s, s', k);
    }
    forall w | w in s'.workers && s'.workers[w].handled ensures Logged(cfg, s', Current(s'.workers[w])) {
      LoggedStays(cfg, s, s', Current(s.workers[w]));
    }
    forall u | u in s'.log ensures HasSource(cfg, s', u) {
      SourceStays(cfg, s, s', u);
    }
  }

  lemma PublishKeepsInv(cfg: Config, s: Bus, step: Step)
    requires Inv(cfg, s) && Enabled(cfg, s, step) && step.Publish?
    ensures Inv(cfg, Apply(cfg, s, step))
  {
    var s' := Apply(cfg, s, step);
    PublishKeepsPublished(cfg, s, step);
    SameLogSound(cfg, s, s');
  }

  lemma PublishKeepsPublished(cfg: Config, s: Bus, step: Step)
    requires Inv(cfg, s) && Enabled(cfg, s, step) && step.Publish?
    ensures Published(cfg, Apply(cfg, s, step)) && TrimmedOld(cfg, Apply(cfg, s, step))
  {
  }

  lemma DeliverIs(cfg: Config, s: Bus, claimed: seq<nat>, count: nat, at: Time)
    requires Delivery(s) && ReadAllowed(cfg, s, claimed, count, at)
    ensures var pending := Deliver(s.pending, Batch(s, claimed, count), at);
            && (forall i :: 0 <= i < |Batch(s, claimed, count)| ==> Batch(s, claimed, count)[i] in pending)
            && (forall k :: k in s.pending ==> k in pending)
            && (forall k :: Start(s) <= k < Start(s) + count ==> k in pending)
            && (forall k :: k in pending ==> k in s.pending || Start(s) <= k < Start(s) + count)
  {
    var batch := Batch(s, claimed, count);
    forall k | Start(s) <= k < Start(s) + count
      ensures k in Deliver(s.pending, batch, at)
    {
      assert batch[|claimed| + (k - Start(s))] == k;
    }
    forall i | 0 <= i < |batch|
      ensures batch[i] in s.pending || Start(s) <= batch[i] < Start(s) + count
    {
      if i < |claimed| {
        assert batch[i] == claimed[i];
      }
    }
  }

  /** Claimed entries were delivered before, so they are none of the next ones. */
  lemma BatchDistinct(cfg: Config, s: Bus, claimed: seq<nat>, count: nat, at: Time)
    requires Delivery(s) && ReadAllowed(cfg, s, claimed, count, at)
    ensures var batch := Batch(s, claimed, count);
            && (forall i, j :: 0 <= i < j < |batch| ==> batch[i] != batch[j])
            && (forall i :: 0 <= i < |batch| ==> batch[i] < |s.published|)
  {
    var batch := Batch(s, claimed, count);
    assert forall i :: 0 <= i < |claimed| ==> batch[i] == claimed[i] && batch[i] < s.next;
    assert forall i :: |claimed| <= i < |batch| ==> batch[i] == Start(s) + (i - |claimed|);
  }

  lemma ReadKeepsDelivery(cfg: Config, s: Bus, step: Step)
    requires WorkersValid(s) && Delivery(s) && Enabled(cfg, s, step) && step.Read?
    ensures Delivery(Apply(cfg, s, step)) && WorkersValid(Apply(cfg, s, step))
  {
    var s' := Apply(cfg, s, step);
    DeliverIs(cfg, s, step.claimed, step.count, step.at);
    BatchDistinct(cfg, s, step.claimed, step.count, step.at);
    var batch := Batch(s, step.claimed, step.count);
    assert s'.workers[step.worker].batch == batch;
    forall w | w in s'.workers
      ensures forall i :: 0 <= i < |s'.workers[w].batch| ==>
                s'.workers[w].batch[i] in s'.pending || s'.workers[w].batch[i] in s'.acked
    {
      assert w != step.worker ==> s'.workers[w] == s.workers[w];
    }
  }

  lemma ReadKeepsLog(cfg: Config, s: Bus, step: Step)
    requires Inv(cfg, s) && Enabled(cfg, s, step) && step.Read? && WorkersValid(Apply(cfg, s, step))
    ensures var s' := Apply(cfg, s, step); Published(cfg, s') && LogSound(cfg, s') && TrimmedOld(cfg, s')
  {
    SameLogSound(cfg, s, Apply(cfg, s, step));
  }

  lemma ReadKeepsInv(cfg: Config, s: Bus, step: Step)
    requires Inv(cfg, s) && Enabled(cfg, s, step) && step.Read?
    ensures Inv(cfg, Apply(cfg, s, step))
  {
    ReadKeepsDelivery(cfg, s, step);
    ReadKeepsLog(cfg, s, step);
  }

  /** A published record is inserted as it was published, unless its key is taken. */
  lemma HandleInserts(cfg: Config, s: Bus, k: nat, newID: string, now: Nanos)
    requires Published(cfg, s) && k < |s.published|
    ensures var r := HandleRecord(cfg, s.log, s.published[k].record, newID, now);
            && (r.Ok? <==> RowOf(cfg, s, k).Some? && RowOf(cfg, s, k).value.id !in s.log)
            && (r.Ok? ==> r.value == s.log[RowOf(cfg, s, k).value.id := RowOf(cfg, s, k).value])
  {
    assert Assign(s.published[k].record, newID, now) == s.published[k].record;
  }

  /** Changing only the clock and the workers, to no more than was there. */
  lemma FewerWorkersKeepInv(cfg: Config, s: Bus, s': Bus)
    requires Inv(cfg, s) && s.clock <= s'.clock && s' == s.(clock := s'.clock, workers := s'.workers)
    requires forall w :: w in s'.workers ==> w in s.workers && s'.workers[w] == s.workers[w]
    ensures Inv(cfg, s')
  {
    SameLogSound(cfg, s, s');
  }

  ghost predicate RowInserted(cfg: Config, s: Bus, s': Bus, k: nat) {
    && k < |s.published| && s.published[k].record.createdAt.Some?
    && RowOf(cfg, s, k).Some? && RowOf(cfg, s, k).value.id !in s.log && s'.published == s.published
    && s'.log == s.log[RowOf(cfg, s, k).value.id := RowOf(cfg, s, k).value]
  }

  lemma InsertedIsLogged(cfg: Config, s: Bus, s': Bus, k: nat, j: nat)
    requires Published(cfg, s) && RowInserted(cfg, s, s', k) && (j == k || Logged(cfg, s, j))
    ensures Logged(cfg, s', j)
  {
  }

  lemma InsertedHasSource(cfg: Config, s: Bus, s': Bus, k: nat, u: Uuid)
    requires Published(cfg, s) && Published(cfg, s') && RowInserted(cfg, s, s', k)
    requires u in s'.log && (u in s.log ==> HasSource(cfg, s, u))
    ensures HasSource(cfg, s', u)
  {
    if u in s.log {
      SourceStays(cfg, s, s', u);
    } else {
      assert RowOf(cfg, s', k) == Some(s'.log[u]);
    }
  }

  /** Inserting entry k's row, with at most its own worker marked as having handled it. */
  lemma InsertKeepsLogSound(cfg: Config, s: Bus, s': Bus, k: nat)
    requires Published(cfg, s) && WorkersValid(s) && LogSound(cfg, s) && RowInserted(cfg, s, s', k)
    requires s'.acked == s.acked && WorkersValid(s')
    requires forall w :: w in s'.workers && s'.workers[w].handled ==>
               Current(s'.workers[w]) == k || (w in s.workers && s.workers[w] == s'.workers[w])
    ensures Published(cfg, s') && LogSound(cfg, s')
  {
    forall j | j in s'.acked ensures Logged(cfg, s', j) {
      InsertedIsLogged(cfg, s, s', k, j);
    }
    forall w | w in s'.workers && s'.workers[w].handled ensures Logged(cfg, s', Current(s'.workers[w])) {
      InsertedIsLogged(cfg, s, s', k, Current(s'.workers[w]));
    }
    forall u | u in s'.log ensures HasSource(cfg, s', u) {
      InsertedHasSource(cfg, s, s', k, u);
    }
  }

  lemma HandleIs(cfg: Config, s: Bus, w: nat, newID: string, fault: Fault, at: Time)
    requires WorkersValid(s) && w in s.workers && !s.workers[w].handled && s.clock <= at
    ensures var p, step := s.workers[w], Handle(w, newID, fault, at);
            && p.done < |p.batch| && p.batch[p.done] < |s.published| && Enabled(cfg, s, step)
            && var r := HandleRecord(cfg, s.log, s.published[p.batch[p.done]].record, newID, ToNanos(at));
            Apply(cfg, s, step) ==
              s.(clock := at, log := if r.Ok? && !fault.Lost? then r.value else s.log,
                 workers := if r.Ok? && fault.NoFault? then s.workers[w := p.(handled := true)] else s.workers - {w})
  {
  }

  lemma InsertedKeepsInv(cfg: Config, s: Bus, s': Bus, k: nat)
    requires Inv(cfg, s) && RowInserted(cfg, s, s', k) && s.clock <= s'.clock && WorkersValid(s')
    requires s' == s.(clock := s'.clock, log := s'.log, workers := s'.workers)
    requires forall w :: w in s'.workers ==>
               && w in s.workers && s'.workers[w].batch == s.workers[w].batch
               && (s'.workers[w].handled ==> Current(s'.workers[w]) == k || s'.workers[w] == s.workers[w])
    ensures Inv(cfg, s')
  {
    InsertKeepsLogSound(cfg, s, s', k);
  }

  lemma HandleKeepsInv(cfg: Config, s: Bus, step: Step)
    requires Inv(cfg, s) && Enabled(cfg, s, step) && step.Handle?
    ensures Inv(cfg, Apply(cfg, s, step))
  {
    var s' := Apply(cfg, s, step);
    var k := Current(s.workers[step.worker]);
    HandleIs(cfg, s, step.worker, step.newID, step.fault, step.at);
    HandleInserts(cfg, s, k, step.newID, ToNanos(step.at));
    if s'.log == s.log {
      HandleUnloggedKeepsInv(cfg, s, step);
    } else {
      InsertedKeepsInv(cfg, s, s', k);
    }
  }

  lemma HandleUnloggedKeepsInv(cfg: Config, s: Bus, step: Step)
    requires Inv(cfg, s) && Enabled(cfg, s, step) && step.Handle? && Apply(cfg, s, step).log == s.log
    ensures Inv(cfg, Apply(cfg, s, step))
  {
    HandleIs(cfg, s, step.worker, step.newID, step.fault, step.at);
    HandleInserts(cfg, s, Current(s.workers[step.worker]), step.newID, ToNanos(step.at));
    FewerWorkersKeepInv(cfg, s, Apply(cfg, s, step));
  }

  lemma AckKeepsDelivery(s: Bus, s': Bus, k: nat)
    requires Delivery(s) && (k in s.pending || k in s.acked)
    requires s' == s.(clock := s'.clock, workers := s'.workers, pending := s.pending - {k}, acked := s.acked + {k})
    requires forall w :: w in s'.workers ==> w in s.workers && s'.workers[w].batch == s.workers[w].batch
    ensures Delivery(s')
  {
  }

  lemma AckKeepsWorkers(cfg: Config, s: Bus, step: Step)
    requires WorkersValid(s) && Enabled(cfg, s, step) && step.Ack?
    ensures WorkersValid(Apply(cfg, s, step))
    ensures var s' := Apply(cfg, s, step);
            forall w :: w in s'.workers ==>
              && w in s.workers && s'.workers[w].batch == s.workers[w].batch
              && (s'.workers[w].handled ==> s'.workers[w] == s.workers[w] && w != step.worker)
  {
  }

  lemma AckedKeepsLog(cfg: Config, s: Bus, s': Bus, k: nat)
    requires Published(cfg, s) && WorkersValid(s) && LogSound(cfg, s) && Logged(cfg, s, k) && WorkersValid(s')
    requires s'.published == s.published && s'.log == s.log && s'.acked == s.acked + {k}
    requires forall w :: w in s'.workers && s'.workers[w].handled ==> w in s.workers && s'.workers[w] == s.workers[w]
    ensures Published(cfg, s') && LogSound(cfg, s')
  {
    SameLogSound(cfg, s, s');
  }

  /** Acknowledging a logged entry, with no worker newly marked as having handled one. */
  lemma AckedKeepsInv(cfg: Config, s: Bus, s': Bus, k: nat)
    requires Inv(cfg, s) && Logged(cfg, s, k) && (k in s.pending || k in s.acked) && s.clock <= s'.clock
    requires s' == s.(clock := s'.clock, workers := s'.workers, pending := s.pending - {k}, acked := s.acked + {k})
    requires WorkersValid(s')
    requires forall w :: w in s'.workers ==>
               && w in s.workers && s'.workers[w].batch == s.workers[w].batch
               && (s'.workers[w].handled ==> s'.workers[w] == s.workers[w])
    ensures Inv(cfg, s')
  {
    AckKeepsDelivery(s, s', k);
    AckedKeepsLog(cfg, s, s', k);
  }

  lemma AckIs(cfg: Config, s: Bus, w: nat, fault: Fault, at: Time)
    requires WorkersValid(s) && w in s.workers && s.workers[w].handled && s.clock <= at
    ensures var p, step := s.workers[w], Ack(w, fault, at);
            && p.done < |p.batch| && Enabled(cfg, s, step)
            && Apply(cfg, s, step) ==
                 s.(clock := at,
                    pending := if fault.Lost? then s.pending else s.pending - {p.batch[p.done]},
                    acked := if fault.Lost? then s.acked else s.acked + {p.batch[p.done]},
                    workers := if fault.NoFault? && p.done + 1 < |p.batch|
                               then s.workers[w := Pass(p.batch, p.done + 1, false)] else s.workers - {w})
  {
  }

  lemma HeldIsLogged(cfg: Config, s: Bus, w: nat)
    requires Inv(cfg, s) && w in s.workers && s.workers[w].handled
    ensures var k := Current(s.workers[w]); Logged(cfg, s, k) && (k in s.pending || k in s.acked)
  {
    var p := s.workers[w];
    assert p.batch[p.done] == Current(p);
  }

  lemma AckKeepsInv(cfg: Config, s: Bus, step: Step)
    requires Inv(cfg, s) && Enabled(cfg, s, step) && step.Ack?
    ensures Inv(cfg, Apply(cfg, s, step))
  {
    AckIs(cfg, s, step.worker, step.fault, step.at);
    if step.fault.Lost? {
      FewerWorkersKeepInv(cfg, s, Apply(cfg, s, step));
    } else {
      HeldIsLogged(cfg, s, step.worker);
      AckKeepsWorkers(cfg, s, step);
      AckedKeepsInv(cfg, s, Apply(cfg, s, step), Current(s.workers[step.worker]));
    }
  }

  lemma StepKeepsInv(cfg: Config, s: Bus, step: Step)
    requires Inv(cfg, s) && Enabled(cfg, s, step)
    ensures Inv(cfg, Apply(cfg, s, step))
  {
    match step
    case Publish(_, _, _, _) => PublishKeepsInv(cfg, s, step);
    case Read(_, _, _, _) => ReadKeepsInv(cfg, s, step);
    case Handle(_, _, _, _) => HandleKeepsInv(cfg, s, step);
    case Ack(_, _, _) => AckKeepsInv(cfg, s, step);
    case Crash(_, _) => FewerWorkersKeepInv(cfg, s, Apply(cfg, s, step));
  }

  lemma {:induction false} RunKeepsInv(cfg: Config, s: Bus, steps: seq<Step>)
    requires Inv(cfg, s) && LegalRun(cfg, s, steps)
    ensures Inv(cfg, Final(cfg, s, steps))
    decreases |steps|
  {
    if steps != [] {
      StepKeepsInv(cfg, s, steps[0]);
      RunKeepsInv(cfg, Apply(cfg, s, steps[0]), steps[1..]);
    }
  }

  lemma {:induction false} RunSplits(cfg: Config, s: Bus, a: seq<Step>, b: seq<Step>)
    requires LegalRun(cfg, s, a + b)
    ensures LegalRun(cfg, s, a) && LegalRun(cfg, Final(cfg, s, a), b)
    ensures Final(cfg, Final(cfg, s, a), b) == Final(cfg, s, a + b)
    decreases |a|
  {
    if a == [] {
      assert a + b == b;
    } else {
      assert (a + b)[0] == a[0] && (a + b)[1..] == a[1..] + b;
      RunSplits(cfg, Apply(cfg, s, a[0]), a[1..], b);
    }
  }

  // ---- what the invariant says ----

  /** No worker holds more than a batch, and without a retention window nothing is trimmed. */
  ghost predicate Bounded(cfg: Config, s: Bus) {
    && (forall w :: w in s.workers ==> |s.workers[w].batch| <= cfg.batchSize)
    && (cfg.retention <= 0 ==> s.first == 0)
  }

  lemma {:induction false} RunKeepsBounded(cfg: Config, s: Bus, steps: seq<Step>)
    requires Inv(cfg, s) && Bounded(cfg, s) && LegalRun(cfg, s, steps)
    ensures Bounded(cfg, Final(cfg, s, steps))
    decreases |steps|
  {
    if steps != [] {
      StepKeepsInv(cfg, s, steps[0]);
      StepKeepsBounded(cfg, s, steps[0]);
      RunKeepsBounded(cfg, Apply(cfg, s, steps[0]), steps[1..]);
    }
  }

  lemma StepKeepsBounded(cfg: Config, s: Bus, step: Step)
    requires WorkersValid(s) && Bounded(cfg, s) && Enabled(cfg, s, step)
    ensures Bounded(cfg, Apply(cfg, s, step))
  {
    match step
    case Publish(_, _, _, _) =>
    case Read(_, claimed, count, _) =>
      assert |Batch(s, claimed, count)| == |claimed| + count <= cfg.batchSize;
    case Handle(w, newID, fault, at) => HandleIs(cfg, s, w, newID, fault, at);
    case Ack(w, fault, at) => AckIs(cfg, s, w, fault, at);
    case Crash(_, _) =>
  }

  /** In every run: what the group has passed and the stream still holds is pending or acknowledged,
      never both; what is acknowledged is in the audit log; what was trimmed was older than the
      retention window, up to clock skew, and where there is no window nothing was. */
  lemma DeliveryIsAccounted(cfg: Config, steps: seq<Step>, k: nat)
    requires LegalRun(cfg, START, steps) && k < |Final(cfg, START, steps).published|
    ensures var s := Final(cfg, START, steps);
            && (s.first <= k < s.next ==> (k in s.pending <==> k !in s.acked))
            && !(k in s.pending && k in s.acked)
            && (k in s.acked ==> Logged(cfg, s, k))
            && (k < s.first ==> 0 < cfg.retention && s.published[k].at < s.clock - cfg.retention + cfg.skew)
            && forall w :: w in s.workers ==> |s.workers[w].batch| <= cfg.batchSize
  {
    RunKeepsInv(cfg, START, steps);
    RunKeepsBounded(cfg, START, steps);
  }

  lemma SameIDSameEntry(cfg: Config, s: Bus, j: nat, k: nat)
    requires Published(cfg, s) && j < |s.published| && k < |s.published|
    requires cfg.parse(s.published[j].record.id).Some?
    requires cfg.parse(s.published[j].record.id) == cfg.parse(s.published[k].record.id)
    ensures j == k
  {
  }

  ghost predicate OnlySource(cfg: Config, s: Bus, u: Uuid, k: nat)
    requires u in s.log
  {
    && k < |s.published| && s.published[k].record.createdAt.Some?
    && InsertParams(cfg.parse, s.published[k].record) == Some(s.log[u])
    && forall j: nat :: j < |s.published| && cfg.parse(s.published[j].record.id) == Some(u) ==> j == k
  }

  lemma SourceIsOnly(cfg: Config, s: Bus, u: Uuid) returns (k: nat)
    requires Published(cfg, s) && u in s.log && HasSource(cfg, s, u)
    ensures OnlySource(cfg, s, u, k)
  {
    k :| k < |s.published| && RowOf(cfg, s, k) == Some(s.log[u]) && s.log[u].id == u;
    assert cfg.parse(s.published[k].record.id) == Some(u);
    forall j: nat | j < |s.published| && cfg.parse(s.published[j].record.id) == Some(u) ensures j == k {
      SameIDSameEntry(cfg, s, j, k);
    }
  }

  /** In every run, each audit row is the row that the record of exactly one published event converts to. */
  lemma OneRowPerEvent(cfg: Config, steps: seq<Step>, u: Uuid)
    requires LegalRun(cfg, START, steps) && u in Final(cfg, START, steps).log
    ensures exists k :: OnlySource(cfg, Final(cfg, START, steps), u, k)
  {
    RunKeepsInv(cfg, START, steps);
    assert HasSource(cfg, Final(cfg, START, steps), u);
    var k := SourceIsOnly(cfg, Final(cfg, START, steps), u);
  }

  // ---- redelivery ----

  ghost predicate Held(s: Bus, k: nat) {
    exists w :: w in s.workers && s.workers[w].handled && s.workers[w].done < |s.workers[w].batch|
                && Current(s.workers[w]) == k
  }

  /** In the audit log, not acknowledged, and no worker is about to acknowledge it. */
  ghost predicate Stranded(cfg: Config, s: Bus, k: nat) {
    Logged(cfg, s, k) && k !in s.acked && !Held(s, k)
  }

  /** Only handling makes a worker hold an entry, and only one whose row it could insert. */
  lemma HandledIsCurrent(cfg: Config, s: Bus, step: Step, w: nat)
    requires WorkersValid(s) && Published(cfg, s) && Enabled(cfg, s, step)
    requires w in Apply(cfg, s, step).workers && Apply(cfg, s, step).workers[w].handled
    ensures w in s.workers
    ensures var p, p' := s.workers[w], Apply(cfg, s, step).workers[w];
            p' == p || (step.Handle? && w == step.worker && p' == p.(handled := true) && !Logged(cfg, s, Current(p)))
  {
    if step.Handle? {
      HandleInserts(cfg, s, Current(s.workers[step.worker]), step.newID, ToNanos(step.at));
    }
  }

  lemma StepNeverHolds(cfg: Config, s: Bus, step: Step, k: nat)
    requires Inv(cfg, s) && Enabled(cfg, s, step) && Stranded(cfg, s, k)
    ensures !Held(Apply(cfg, s, step), k)
  {
    var s' := Apply(cfg, s, step);
    forall w | w in s'.workers && s'.workers[w].handled && s'.workers[w].done < |s'.workers[w].batch|
      ensures Current(s'.workers[w]) != k
    {
      HandledIsCurrent(cfg, s, step, w);
    }
  }

  lemma HandleGrowsLog(cfg: Config, s: Bus, worker: nat, k: nat, newID: string, fault: Fault, now: Nanos)
    requires Published(cfg, s) && worker in s.workers && k < |s.published|
    ensures var s' := HandleStep(cfg, s, worker, s.published[k].record, newID, fault, now);
            && s'.published == s.published
            && (s'.log == s.log || (exists row :: InsertParams(cfg.parse, s.published[k].record) == Some(row)
                                      && row.id !in s.log && s'.log == s.log[row.id := row]))
  {
    HandleInserts(cfg, s, k, newID, now);
  }

  /** Nothing published or logged is lost. */
  predicate Extends(s: Bus, s': Bus) {
    s.published <= s'.published && forall u :: u in s.log ==> u in s'.log && s'.log[u] == s.log[u]
  }

  lemma HandleLosesNothing(cfg: Config, s: Bus, step: Step)
    requires Published(cfg, s) && WorkersValid(s) && Enabled(cfg, s, step) && step.Handle?
    ensures Extends(s, Apply(cfg, s, step))
  {
    HandleGrowsLog(cfg, s.(clock := step.at), step.worker, Current(s.workers[step.worker]),
                   step.newID, step.fault, ToNanos(step.at));
  }

  lemma StepLosesNothing(cfg: Config, s: Bus, step: Step)
    requires Published(cfg, s) && WorkersValid(s) && Enabled(cfg, s, step)
    ensures Extends(s, Apply(cfg, s, step))
  {
    if step.Handle? {
      HandleLosesNothing(cfg, s, step);
    }
  }

  lemma OthersAckNothing(cfg: Config, s: Bus, step: Step)
    requires WorkersValid(s) && Enabled(cfg, s, step) && !step.Ack?
    ensures Apply(cfg, s, step).acked == s.acked
  {
  }

  /** Only its holder acknowledges an entry. */
  lemma StepAcksHeld(cfg: Config, s: Bus, step: Step, k: nat)
    requires WorkersValid(s) && Enabled(cfg, s, step) && k !in s.acked && !Held(s, k)
    ensures k !in Apply(cfg, s, step).acked
  {
    if step.Ack? {
      AckIs(cfg, s, step.worker, step.fault, step.at);
      assert Current(s.workers[step.worker]) != k;
    } else {
      OthersAckNothing(cfg, s, step);
    }
  }

  lemma StepKeepsStranded(cfg: Config, s: Bus, step: Step, k: nat)
    requires Inv(cfg, s) && Enabled(cfg, s, step) && Stranded(cfg, s, k)
    ensures Stranded(cfg, Apply(cfg, s, step), k)
  {
    StepNeverHolds(cfg, s, step, k);
    StepLosesNothing(cfg, s, step);
    LoggedStays(cfg, s, Apply(cfg, s, step), k);
    StepAcksHeld(cfg, s, step, k);
  }

  /** An entry whose row was written but whose acknowledgement was missed is never acknowledged: each
      redelivery inserts the same primary key again and fails. */
  lemma {:induction false} StrandedForGood(cfg: Config, s: Bus, steps: seq<Step>, k: nat)
    requires Inv(cfg, s) && LegalRun(cfg, s, steps) && Stranded(cfg, s, k)
    ensures Stranded(cfg, Final(cfg, s, steps), k)
    decreases |steps|
  {
    if steps != [] {
      StepKeepsInv(cfg, s, steps[0]);
      StepKeepsStranded(cfg, s, steps[0], k);
      StrandedForGood(cfg, Apply(cfg, s, steps[0]), steps[1..], k);
    }
  }

  lemma Cons(cfg: Config, s: Bus, step: Step, steps: seq<Step>)
    requires WorkersValid(s) && Enabled(cfg, s, step) && LegalRun(cfg, Apply(cfg, s, step), steps)
    ensures LegalRun(cfg, s, [step] + steps)
    ensures Final(cfg, s, [step] + steps) == Final(cfg, Apply(cfg, s, step), steps)
  {
    assert ([step] + steps)[1..] == steps;
  }

  lemma AckStepAcks(cfg: Config, s: Bus, w: nat)
    requires WorkersValid(s) && w in s.workers && s.workers[w].handled
    ensures var step := Ack(w, NoFault, s.clock);
            Enabled(cfg, s, step) && Current(s.workers[w]) in Apply(cfg, s, step).acked
  {
  }

  lemma HeldCanBeAcked(cfg: Config, s: Bus, k: nat) returns (steps: seq<Step>)
    requires Inv(cfg, s) && Held(s, k)
    ensures LegalRun(cfg, s, steps) && k in Final(cfg, s, steps).acked
  {
    var w :| w in s.workers && s.workers[w].handled && s.workers[w].done < |s.workers[w].batch|
             && Current(s.workers[w]) == k;
    AckStepAcks(cfg, s, w);
    Cons(cfg, s, Ack(w, NoFault, s.clock), []);
    steps := [Ack(w, NoFault, s.clock)] + [];
  }

  /** Exactly when a logged entry can still be acknowledged: some worker is between handling it and
      acknowledging it. */
  lemma AcknowledgeableExactly(cfg: Config, s: Bus, k: nat)
    requires Inv(cfg, s) && Logged(cfg, s, k) && k !in s.acked
    ensures Held(s, k) <==> exists steps :: LegalRun(cfg, s, steps) && k in Final(cfg, s, steps).acked
  {
    if Held(s, k) {
      var steps := HeldCanBeAcked(cfg, s, k);
    } else {
      forall steps | LegalRun(cfg, s, steps) ensures k !in Final(cfg, s, steps).acked {
        StrandedForGood(cfg, s, steps, k);
      }
    }
  }

  // ---- runs that show what is not promised ----

  lemma MoveFirst(steps: seq<Step>, step: Step)
    requires steps != []
    ensures steps + [step] == [steps[0]] + (steps[1..] + [step])
  {
  }

  lemma {:induction false} Snoc(cfg: Config, s: Bus, steps: seq<Step>, step: Step)
    requires LegalRun(cfg, s, steps) && WorkersValid(Final(cfg, s, steps)) && Enabled(cfg, Final(cfg, s, steps), step)
    ensures LegalRun(cfg, s, steps + [step])
    ensures Final(cfg, s, steps + [step]) == Apply(cfg, Final(cfg, s, steps), step)
    decreases |steps|
  {
    if steps == [] {
      assert steps + [step] == [step] + [];
      Cons(cfg, s, step, []);
    } else {
      Snoc(cfg, Apply(cfg, s, steps[0]), steps[1..], step);
      MoveFirst(steps, step);
      Cons(cfg, s, steps[0], steps[1..] + [step]);
    }
  }

  /** The stream after one event, and the group with that event delivered to worker 0. */
  function OnePublished(record: Record): Bus {
    START.(published := [Entry(record, 0)])
  }

  function OneDelivered(record: Record, handled: bool, log: map<Uuid, AuditRow>): Bus {
    OnePublished(record).(next := 1, pending := map[0 := 0], log := log, workers := map[0 := Pass([0], 0, handled)])
  }

  lemma FirstPublish(cfg: Config, record: Record)
    requires record.id != "" && record.createdAt.Some?
    ensures var step := Publish(record, cfg.skew, 0, 0);
            Enabled(cfg, START, step) && Apply(cfg, START, step) == OnePublished(record)
  {
  }

  lemma FirstRead(cfg: Config, record: Record)
    requires 1 <= cfg.batchSize
    ensures var step := Read(0, [], 1, 0);
            Enabled(cfg, OnePublished(record), step)
            && Apply(cfg, OnePublished(record), step) == OneDelivered(record, false, map[])
  {
    var s := OnePublished(record);
    assert Batch(s, [], 1) == [0];
    assert [0][0] == 0;
    assert Deliver(s.pending, [0], 0) == map[0 := 0];
  }

  lemma FirstHandle(cfg: Config, record: Record, row: AuditRow)
    requires record.id != "" && record.createdAt.Some? && InsertParams(cfg.parse, record) == Some(row)
    ensures var s, step := OneDelivered(record, false, map[]), Handle(0, "", NoFault, 0);
            Enabled(cfg, s, step) && WorkersValid(s)
            && Apply(cfg, s, step) == OneDelivered(record, true, map[row.id := row])
  {
    assert Assign(record, "", 0) == record;
  }

  lemma FirstCrash(cfg: Config, record: Record, row: AuditRow)
    requires record.createdAt.Some? && InsertParams(cfg.parse, record) == Some(row)
    ensures var s, step := OneDelivered(record, true, map[row.id := row]), Crash(0, 0);
            && Enabled(cfg, s, step) && WorkersValid(s)
            && Apply(cfg, s, step) == s.(workers := map[])
            && Stranded(cfg, s.(workers := map[]), 0)
  {
  }

  /** A worker that crashes between handling an entry and acknowledging it strands the entry: it is in
      the audit log, pending, and in no continuation ever acknowledged. */
  lemma CrashStrands(cfg: Config, record: Record, row: AuditRow) returns (steps: seq<Step>)
    requires 1 <= cfg.batchSize
    requires record.id != "" && record.createdAt.Some? && InsertParams(cfg.parse, record) == Some(row)
    ensures LegalRun(cfg, START, steps)
    ensures var s := Final(cfg, START, steps);
            && Stranded(cfg, s, 0) && 0 in s.pending
            && forall more :: LegalRun(cfg, s, more) ==> 0 !in Final(cfg, s, more).acked
  {
    FirstPublish(cfg, record);
    FirstRead(cfg, record);
    FirstHandle(cfg, record, row);
    FirstCrash(cfg, record, row);
    var s := OneDelivered(record, true, map[row.id := row]).(workers := map[]);
    var read, handle, crash := Read(0, [], 1, 0), Handle(0, "", NoFault, 0), Crash(0, 0);
    Cons(cfg, OneDelivered(record, true, map[row.id := row]), crash, []);
    Cons(cfg, OneDelivered(record, false, map[]), handle, [crash] + []);
    Cons(cfg, OnePublished(record), read, [handle] + ([crash] + []));
    steps := [read] + ([handle] + ([crash] + []));
    Cons(cfg, START, Publish(record, cfg.skew, 0, 0), steps);
    steps := [Publish(record, cfg.skew, 0, 0)] + steps;
    RunKeepsInv(cfg, START, steps);
    forall more | LegalRun(cfg, s, more) ensures 0 !in Final(cfg, s, more).acked {
      StrandedForGood(cfg, s, more, 0);
    }
  }
}
