/** The event bus as an object: publishing, and one subscriber pass. */
module EventBusService {
  import opened Wrappers
  import opened EventRecords
  import opened EventBus
  import opened EventBusRuns

  datatype Failure = UndefinedEvent | StreamFailed | ReadFailed | HandleFailed | AckFailed

  /** The entries the first n messages of a batch stand for. */
  function Taken(batch: seq<nat>, n: nat): set<nat>
    requires n <= |batch|
  {
    set i | 0 <= i < n :: batch[i]
  }

  lemma TakenNone(acked: set<nat>, batch: seq<nat>)
    ensures acked + Taken(batch, 0) == acked
  {
  }

  lemma TakenNext(acked: set<nat>, batch: seq<nat>, n: nat)
    requires n < |batch|
    ensures acked + Taken(batch, n + 1) == acked + Taken(batch, n) + {batch[n]}
  {
  }

  lemma Overwritten<K, V>(m: map<K, V>, k: K, x: V, y: V)
    ensures m[k := x][k := y] == m[k := y] && m[k := x] - {k} == m - {k}
    ensures k !in m ==> m[k := x] - {k} == m
  {
  }

  /** Nothing published, trimmed or, unless acknowledged, forgotten. */
  predicate Kept(s: Bus, s': Bus) {
    s'.published == s.published && s'.first == s.first
  }

  predicate LogGrows(cfg: Config, s: Bus, s': Bus, k: nat)
    requires k < |s.published|
  {
    s'.log == s.log || (Handleable(cfg, s, k) &&
      var row := InsertParams(cfg.parse, s.published[k].record).value; s'.log == s.log[row.id := row])
  }

  /** The log has kept its rows, and those it gained are rows of the first n messages. */
  ghost predicate LogGrowsBy(cfg: Config, s: Bus, s': Bus, batch: seq<nat>, n: nat) {
    && (forall u :: u in s.log ==> u in s'.log && s'.log[u] == s.log[u])
    && (forall u :: u in s'.log && u !in s.log ==> RowAmong(cfg, s, batch, n, u))
  }

  ghost predicate RowAmong(cfg: Config, s: Bus, batch: seq<nat>, n: nat, u: Uuid) {
    exists i :: 0 <= i < n && i < |batch| && batch[i] < |s.published|
                && cfg.parse(s.published[batch[i]].record.id) == Some(u)
  }

  lemma GrowsByOneMore(cfg: Config, s: Bus, t: Bus, t': Bus, batch: seq<nat>, n: nat)
    requires LogGrowsBy(cfg, s, t, batch, n) && Kept(s, t)
    requires n < |batch| && batch[n] < |s.published| && LogGrows(cfg, t, t', batch[n])
    ensures LogGrowsBy(cfg, s, t', batch, n + 1)
  {
    forall u | u in t'.log && u !in s.log ensures RowAmong(cfg, s, batch, n + 1, u) {
      if u in t.log {
        assert RowAmong(cfg, s, batch, n, u);
      } else {
        assert cfg.parse(s.published[batch[n]].record.id) == Some(u);
      }
    }
  }

  /** An entry stays handleable while only earlier, different ones of the batch gain rows. */
  lemma StillHandleable(cfg: Config, s: Bus, t: Bus, batch: seq<nat>, n: nat)
    requires Published(cfg, s) && Kept(s, t) && LogGrowsBy(cfg, s, t, batch, n)
    requires n < |batch| && batch[n] < |s.published| && forall i :: 0 <= i < n ==> batch[i] != batch[n]
    ensures Handleable(cfg, s, batch[n]) ==> Handleable(cfg, t, batch[n])
  {
    if Handleable(cfg, s, batch[n]) {
      var u := InsertParams(cfg.parse, s.published[batch[n]].record).value.id;
      if u in t.log {
        assert RowAmong(cfg, s, batch, n, u);
        var i :| 0 <= i < n && batch[i] < |s.published| && cfg.parse(s.published[batch[i]].record.id) == Some(u);
        SameIDSameEntry(cfg, s, batch[i], batch[n]);
      }
    }
  }

  ghost predicate RunsTo(cfg: Config, s: Bus, steps: seq<Step>, t: Bus) {
    LegalRun(cfg, s, steps) && Final(cfg, s, steps) == t
  }

  lemma RunsOn(cfg: Config, s: Bus, steps: seq<Step>, t: Bus, step: Step, t': Bus)
    requires RunsTo(cfg, s, steps, t)
    requires Enabled(cfg, t, step) && WorkersValid(t) && t' == Apply(cfg, t, step)
    ensures RunsTo(cfg, s, steps + [step], t')
  {
    Snoc(cfg, s, steps, step);
  }

  lemma ReadExtends(cfg: Config, history: seq<Step>, s: Bus, w: nat, claimed: seq<nat>, count: nat, at: Time)
    requires RunsTo(cfg, START, history, s) && Enabled(cfg, s, Read(w, claimed, count, at))
    ensures var batch, step := Batch(s, claimed, count), Read(w, claimed, count, at);
            RunsTo(cfg, START, history + [step],
                   s.(pending := Deliver(s.pending, batch, at),
                      next := if count == 0 then s.next else Start(s) + count,
                      workers := s.workers[w := Pass(batch, 0, false)], clock := at))
  {
    RunKeepsInv(cfg, START, history);
    RunsOn(cfg, START, history, s, Read(w, claimed, count, at), Apply(cfg, s, Read(w, claimed, count, at)));
  }

  lemma HandleExtends(cfg: Config, history: seq<Step>, s: Bus, w: nat, newID: string, fault: Fault)
    requires RunsTo(cfg, START, history, s) && w in s.workers && !s.workers[w].handled
    ensures var p := s.workers[w];
            && p.done < |p.batch| && p.batch[p.done] < |s.published|
            && var r := HandleRecord(cfg, s.log, s.published[p.batch[p.done]].record, newID, ToNanos(s.clock));
            && (r.Ok? <==> Handleable(cfg, s, p.batch[p.done]))
            && (r.Ok? ==> LogGrows(cfg, s, s.(log := r.value), p.batch[p.done]))
            && RunsTo(cfg, START, history + [Handle(w, newID, fault, s.clock)],
                      s.(log := if r.Ok? && !fault.Lost? then r.value else s.log,
                         workers := if r.Ok? && fault.NoFault? then s.workers[w := p.(handled := true)]
                                    else s.workers - {w}))
  {
    RunKeepsInv(cfg, START, history);
    HandleIs(cfg, s, w, newID, fault, s.clock);
    HandleInserts(cfg, s, s.workers[w].batch[s.workers[w].done], newID, ToNanos(s.clock));
    RunsOn(cfg, START, history, s, Handle(w, newID, fault, s.clock), Apply(cfg, s, Handle(w, newID, fault, s.clock)));
  }

  lemma AckExtends(cfg: Config, history: seq<Step>, s: Bus, w: nat, fault: Fault)
    requires RunsTo(cfg, START, history, s) && w in s.workers && s.workers[w].handled
    ensures var p := s.workers[w];
            && p.done < |p.batch|
            && RunsTo(cfg, START, history + [Ack(w, fault, s.clock)],
                      s.(pending := if fault.Lost? then s.pending else s.pending - {p.batch[p.done]},
                         acked := if fault.Lost? then s.acked else s.acked + {p.batch[p.done]},
                         workers := if fault.NoFault? && p.done + 1 < |p.batch|
                                    then s.workers[w := Pass(p.batch, p.done + 1, false)] else s.workers - {w}))
  {
    RunKeepsInv(cfg, START, history);
    AckIs(cfg, s, w, fault, s.clock);
    RunsOn(cfg, START, history, s, Ack(w, fault, s.clock), Apply(cfg, s, Ack(w, fault, s.clock)));
  }

  /** What processing the next message of w's pass does, and when it succeeds. */
  ghost predicate MessageDone(cfg: Config, s: Bus, s': Bus, w: nat, handleFault: Fault, ackFault: Fault,
                              r: Result<(), Failure>)
    requires w in s.workers && s.workers[w].done < |s.workers[w].batch|
  {
    var p := s.workers[w];
    && Kept(s, s') && Current(p) < |s.published|
    && (r.Ok? <==> handleFault.NoFault? && ackFault.NoFault? && Handleable(cfg, s, Current(p)))
    && LogGrows(cfg, s, s', Current(p))
    && s'.acked == (if r.Ok? || (r == Err(AckFailed) && ackFault.Applied?) then s.acked + {Current(p)} else s.acked)
    && s'.pending - {Current(p)} == s.pending - {Current(p)} && s'.clock == s.clock
    && s'.workers == if r.Ok? && p.done + 1 < |p.batch| then s.workers[w := Pass(p.batch, p.done + 1, false)]
                     else s.workers - {w}
  }

  /** The first n messages of the batch handled and acknowledged, and no other; what is pending besides
      the batch is as it was. */
  ghost predicate PassDone(cfg: Config, s: Bus, s': Bus, batch: seq<nat>, n: nat)
    requires n <= |batch|
  {
    && s'.acked == s.acked + Taken(batch, n) && LogGrowsBy(cfg, s, s', batch, n)
    && s'.pending - Taken(batch, |batch|) == s.pending - Taken(batch, |batch|)
  }

  /** The first n messages handled and acknowledged, and the next one failed; those behind it are pending. */
  ghost predicate PassFailed(cfg: Config, s: Bus, s': Bus, batch: seq<nat>, n: nat, handleFault: Fault, ackFault: Fault,
                             r: Result<(), Failure>)
    requires n < |batch|
  {
    && s'.acked == (if r == Err(AckFailed) && ackFault.Applied? then s.acked + Taken(batch, n) + {batch[n]}
                    else s.acked + Taken(batch, n))
    && LogGrowsBy(cfg, s, s', batch, n + 1)
    && s'.workers == s.workers && Kept(s, s')
    && (forall i :: n < i < |batch| ==> batch[i] in s'.pending)
    && (handleFault.NoFault? && ackFault.NoFault? ==>
          batch[n] < |s.published| && !Handleable(cfg, s, batch[n]))
  }

  function WorkersAt(workers: map<nat, Pass>, w: nat, batch: seq<nat>, n: nat): map<nat, Pass> {
    if n < |batch| then workers[w := Pass(batch, n, false)] else workers
  }

  /** A pass of w over distinct entries, n messages along. */
  ghost predicate InPass(cfg: Config, s: Bus, t: Bus, batch: seq<nat>, w: nat, n: nat) {
    && Published(cfg, s) && w !in s.workers && n <= |batch|
    && (forall i, j :: 0 <= i < j < |batch| ==> batch[i] != batch[j])
    && Kept(s, t) && PassDone(cfg, s, t, batch, n) && t.workers == WorkersAt(s.workers, w, batch, n)
    && forall i :: n <= i < |batch| ==> batch[i] in t.pending
  }

  lemma CrashExtends(cfg: Config, history: seq<Step>, s: Bus, w: nat)
    requires RunsTo(cfg, START, history, s) && w in s.workers
    ensures RunsTo(cfg, START, history + [Crash(w, s.clock)], s.(workers := s.workers - {w}))
  {
    RunKeepsInv(cfg, START, history);
    RunsOn(cfg, START, history, s, Crash(w, s.clock), s.(workers := s.workers - {w}));
  }

  /** Nothing acknowledged or logged; the reader may be gone with what it was given. */
  predicate ReadAbandoned(s: Bus, s': Bus) {
    Kept(s, s') && s'.acked == s.acked && s'.log == s.log && s'.workers == s.workers
  }

  lemma AbandonedAfterRead(cfg: Config, s: Bus, t: Bus, batch: seq<nat>, w: nat)
    requires InPass(cfg, s, t, batch, w, 0) && batch != [] && t.acked == s.acked && t.log == s.log
    ensures ReadAbandoned(s, t.(workers := t.workers - {w}))
  {
    Overwritten(s.workers, w, Pass(batch, 0, false), Pass(batch, 0, false));
  }

  lemma EmptyPass(cfg: Config, history: seq<Step>, s: Bus, w: nat)
    requires RunsTo(cfg, START, history, s) && w !in s.workers
    ensures InPass(cfg, s, s, Batch(s, [], 0), w, 0)
  {
    RunKeepsInv(cfg, START, history);
    TakenNone(s.acked, Batch(s, [], 0));
  }

  lemma ReadIsDistinct(cfg: Config, history: seq<Step>, s: Bus, claimed: seq<nat>, count: nat, at: Time)
    requires RunsTo(cfg, START, history, s) && ReadAllowed(cfg, s, claimed, count, at)
    ensures Published(cfg, s)
    ensures var batch := Batch(s, claimed, count);
            && (forall i, j :: 0 <= i < j < |batch| ==> batch[i] != batch[j])
            && (forall i :: 0 <= i < |batch| ==> batch[i] < |s.published|)
  {
    RunKeepsInv(cfg, START, history);
    BatchDistinct(cfg, s, claimed, count, at);
  }

  lemma PassStarts(cfg: Config, history: seq<Step>, s: Bus, t: Bus, w: nat, claimed: seq<nat>, count: nat, at: Time)
    requires RunsTo(cfg, START, history, s) && w !in s.workers && ReadAllowed(cfg, s, claimed, count, at)
    requires Kept(s, t) && t.acked == s.acked && t.log == s.log
    requires t.pending == Deliver(s.pending, Batch(s, claimed, count), at)
    requires t.workers == s.workers[w := Pass(Batch(s, claimed, count), 0, false)]
    ensures InPass(cfg, s, t, Batch(s, claimed, count), w, 0)
  {
    ReadIsDistinct(cfg, history, s, claimed, count, at);
    TakenNone(s.acked, Batch(s, claimed, count));
    DeliveredApart(s.pending, Batch(s, claimed, count), at);
    forall i | 0 <= i < |claimed| + count ensures Batch(s, claimed, count)[i] in t.pending {
    }
  }

  lemma MessageInPass(cfg: Config, s: Bus, t: Bus, t': Bus, batch: seq<nat>, w: nat, n: nat,
                      handleFault: Fault, ackFault: Fault, r: Result<(), Failure>)
    requires InPass(cfg, s, t, batch, w, n) && n < |batch|
    requires MessageDone(cfg, t, t', w, handleFault, ackFault, r)
    ensures r.Ok? ==> InPass(cfg, s, t', batch, w, n + 1)
    ensures r.Err? ==> PassFailed(cfg, s, t', batch, n, handleFault, ackFault, r)
    ensures t'.clock == t.clock
  {
    assert t.workers[w] == Pass(batch, n, false);
    Overwritten(s.workers, w, Pass(batch, n, false), Pass(batch, n + 1, false));
    GrowsByOneMore(cfg, s, t, t', batch, n);
    StillHandleable(cfg, s, t, batch, n);
    TakenNext(s.acked, batch, n);
    StillApart(t'.pending, t.pending, Taken(batch, |batch|), batch[n]);
    forall i | n < i < |batch| ensures batch[i] in t'.pending {
      assert batch[i] in t.pending - {batch[n]};
    }
  }

  lemma StillApart<V>(m: map<nat, V>, m': map<nat, V>, ks: set<nat>, k: nat)
    requires k in ks && m - {k} == m' - {k}
    ensures m - ks == m' - ks
  {
    assert m - ks == (m - {k}) - ks && m' - ks == (m' - {k}) - ks;
  }

  lemma DeliveredApart(pending: map<nat, Time>, batch: seq<nat>, at: Time)
    ensures Deliver(pending, batch, at) - Taken(batch, |batch|) == pending - Taken(batch, |batch|)
  {
  }

  class Service {
    const config: Config
    const definitions: map<string, Definition>
    var bus: Bus
    ghost var history: seq<Step>

    /** The bus is where its history, a run of the protocol, has brought it. */
    ghost predicate Valid()
      reads this
    {
      RunsTo(config, START, history, bus)
    }

    constructor (config: Config, definitions: map<string, Definition>)
      ensures this.config == config && this.definitions == definitions
      ensures Valid() && bus == START && history == []
    {
      this.config, this.definitions := config, definitions;
      bus, history := START, [];
    }

    /** Publish adds one entry, with an ID and a time, and trims as the reply to XADD allows. Its effect
        is the publish step, also when the reply is lost; an event outside the catalog, or an XADD that
        never took effect, changes nothing. */
    method Publish(event: Event, newID: string, stampedAt: Nanos, publisherNow: Time, trimTo: nat, at: Time,
                   fault: Fault)
      returns (r: Result<(), Failure>)
      requires Valid() && newID != ""
      requires event.eventType in definitions ==>
                 Enabled(config, bus, Step.Publish(PublishedRecord(definitions, event, newID, stampedAt).value,
                                                   publisherNow, trimTo, at))
      modifies this
      ensures Valid()
      ensures r == if event.eventType !in definitions then Err(UndefinedEvent)
                   else if fault.NoFault? then Ok(()) else Err(StreamFailed)
      ensures if event.eventType in definitions && !fault.Lost? then
                history == old(history) + [Step.Publish(
                  PublishedRecord(definitions, event, newID, stampedAt).value, publisherNow, trimTo, at)]
              else bus == old(bus) && history == old(history)
      ensures event.eventType in definitions && !fault.Lost? ==>
                var n := |old(bus).published|;
                && |bus.published| == n + 1 && bus.published[..n] == old(bus).published
                && bus.published[n].at == at
                && Carries(bus.published[n].record, event, definitions[event.eventType], newID, stampedAt)
    {
      if event.eventType !in definitions {
        return Err(UndefinedEvent);
      }
      var record := NewRecord(event, definitions[event.eventType]);
      if record.id == "" {
        record := record.(id := newID);
      }
      if record.createdAt.None? {
        record := record.(createdAt := Some(stampedAt));
      }
      if fault.Lost? {
        return Err(StreamFailed);
      }
      ghost var before, step := bus, Step.Publish(record, publisherNow, trimTo, at);
      RunKeepsInv(config, START, history);
      bus := bus.(published := bus.published + [Entry(record, at)], first := trimTo, clock := at);
      RunsOn(config, START, history, before, step, bus);
      history := history + [step];
      return if fault.NoFault? then Ok(()) else Err(StreamFailed);
    }

    /** The group read: a read step that starts a pass. */
    method ReadGroup(w: nat, claimed: seq<nat>, count: nat, at: Time) returns (batch: seq<nat>)
      requires Valid() && w !in bus.workers && bus.clock <= at && ReadAllowed(config, bus, claimed, count, at)
      modifies this
      ensures Valid() && history == old(history) + [Read(w, claimed, count, at)]
      ensures batch == Batch(old(bus), claimed, count)
      ensures InPass(config, old(bus), bus, batch, w, 0) && bus.clock == at
      ensures w in bus.workers && bus.acked == old(bus).acked && bus.log == old(bus).log
    {
      ReadExtends(config, history, bus, w, claimed, count, at);
      var start := if bus.next < bus.first then bus.first else bus.next;
      batch := claimed + seq(count, i => start + i);
      assert batch == Batch(bus, claimed, count);
      var delivered := bus.pending + map i | 0 <= i < |batch| :: batch[i] := at;
      assert delivered == Deliver(bus.pending, batch, at);
      ghost var before := bus;
      bus := bus.(pending := delivered,
                  next := if count == 0 then bus.next else start + count,
                  workers := bus.workers[w := Pass(batch, 0, false)],
                  clock := at);
      PassStarts(config, history, before, bus, w, claimed, count, at);
      history := history + [Read(w, claimed, count, at)];
    }

    /** A worker that goes away leaves what it was given pending. */
    method Abandon(w: nat)
      requires Valid() && w in bus.workers
      modifies this
      ensures Valid() && history == old(history) + [Crash(w, old(bus).clock)]
      ensures bus == old(bus).(workers := old(bus).workers - {w})
    {
      CrashExtends(config, history, bus, w);
      history := history + [Crash(w, bus.clock)];
      bus := bus.(workers := bus.workers - {w});
    }

    /** Handle persists one record: the primary key refuses a second row of the same ID. */
    method HandleEvent(record: Record, newID: string, now: Nanos, fault: Fault) returns (ok: bool)
      modifies this`bus
      ensures var r := HandleRecord(config, old(bus).log, record, newID, now);
              && (ok <==> r.Ok? && fault.NoFault?)
              && bus == if r.Ok? && !fault.Lost? then old(bus).(log := r.value) else old(bus)
    {
      var event := record;
      if event.id == "" {
        event := event.(id := newID);
      }
      if event.createdAt.None? {
        event := event.(createdAt := Some(now));
      }
      var params := InsertParams(config.parse, event);
      if params.None? || params.value.id in bus.log || fault.Lost? {
        return false;
      }
      bus := bus.(log := bus.log[params.value.id := params.value]);
      return fault.NoFault?;
    }

    /** Handling the next message of w's pass: a handle step, after which the pass goes on or is over. */
    method HandleMessage(w: nat, newID: string, fault: Fault) returns (ok: bool)
      requires Valid() && w in bus.workers && !bus.workers[w].handled && bus.workers[w].done < |bus.workers[w].batch|
      modifies this
      ensures Valid() && history == old(history) + [Handle(w, newID, fault, old(bus).clock)]
      ensures Kept(old(bus), bus) && bus.acked == old(bus).acked && bus.clock == old(bus).clock
      ensures bus.pending == old(bus).pending
      ensures var p := old(bus).workers[w];
              && Current(p) < |bus.published|
              && (ok <==> fault.NoFault? && Handleable(config, old(bus), Current(p)))
              && LogGrows(config, old(bus), bus, Current(p))
              && bus.workers == if ok then old(bus).workers[w := p.(handled := true)] else old(bus).workers - {w}
    {
      HandleExtends(config, history, bus, w, newID, fault);
      history := history + [Handle(w, newID, fault, bus.clock)];
      var p := bus.workers[w];
      ok := HandleEvent(bus.published[p.batch[p.done]].record, newID, ToNanos(bus.clock), fault);
      bus := bus.(workers := if ok then bus.workers[w := p.(handled := true)] else bus.workers - {w});
    }

    /** Acknowledging it: an acknowledge step, likewise. */
    method AckMessage(w: nat, fault: Fault) returns (ok: bool)
      requires Valid() && w in bus.workers && bus.workers[w].handled && bus.workers[w].done < |bus.workers[w].batch|
      modifies this
      ensures Valid() && history == old(history) + [Ack(w, fault, old(bus).clock)]
      ensures Kept(old(bus), bus) && bus.log == old(bus).log && bus.clock == old(bus).clock
      ensures var p := old(bus).workers[w];
              && (ok <==> fault.NoFault?)
              && bus.acked == (if fault.Lost? then old(bus).acked else old(bus).acked + {Current(p)})
              && bus.pending == (if fault.Lost? then old(bus).pending else old(bus).pending - {Current(p)})
              && bus.workers == if ok && p.done + 1 < |p.batch|
                                then old(bus).workers[w := Pass(p.batch, p.done + 1, false)]
                                else old(bus).workers - {w}
    {
      AckExtends(config, history, bus, w, fault);
      history := history + [Ack(w, fault, bus.clock)];
      var p := bus.workers[w];
      if !fault.Lost? {
        bus := bus.(pending := bus.pending - {p.batch[p.done]}, acked := bus.acked + {p.batch[p.done]});
      }
      ok := fault.NoFault?;
      bus := bus.(workers := if ok && p.done + 1 < |p.batch| then bus.workers[w := Pass(p.batch, p.done + 1, false)]
                             else bus.workers - {w});
    }

    /** One message of w's pass, handled and then acknowledged. */
    method ProcessMessage(w: nat, handleFault: Fault, ackFault: Fault) returns (r: Result<(), Failure>)
      requires Valid() && w in bus.workers && !bus.workers[w].handled && bus.workers[w].done < |bus.workers[w].batch|
      modifies this
      ensures Valid() && old(history) <= history
      ensures MessageDone(config, old(bus), bus, w, handleFault, ackFault, r)
    {
      ghost var p := bus.workers[w];
      Overwritten(bus.workers, w, p.(handled := true), Pass(p.batch, p.done + 1, false));
      var handled := HandleMessage(w, "", handleFault);
      if !handled {
        return Err(HandleFailed);
      }
      var acknowledged := AckMessage(w, ackFault);
      r := if acknowledged then Ok(()) else Err(AckFailed);
    }

    /** One pass of worker w over the batch the group read gives, which extends the run. It returns n
        with the first n entries of the batch acknowledged and, when it fails, nothing handled beyond
        entry n + 1; that entry is acknowledged only by an acknowledgement that took effect and then
        failed. Without faults it fails only at an entry no handler can insert. A read that fails
        handles nothing, even when the server has taken its entries for given. */
    method ProcessSubscriber(w: nat, claimed: seq<nat>, count: nat, at: Time,
                             readFault: Fault, handleFaults: seq<Fault>, ackFaults: seq<Fault>)
      returns (processed: nat, r: Result<(), Failure>)
      requires Valid() && w !in bus.workers && bus.clock <= at
      requires (claimed == [] && count == 0) || ReadAllowed(config, bus, claimed, count, at)
      requires |handleFaults| == |ackFaults| == |claimed| + count
      modifies this
      ensures Valid() && old(history) <= history
      ensures !readFault.NoFault? ==> processed == 0 && r == Err(ReadFailed) && ReadAbandoned(old(bus), bus)
      ensures readFault.NoFault? ==> processed <= |claimed| + count && (r.Ok? <==> processed == |claimed| + count)
      ensures readFault.NoFault? ==>
                var batch := Batch(old(bus), claimed, count);
                if r.Ok? then InPass(config, old(bus), bus, batch, w, processed)
                else PassFailed(config, old(bus), bus, batch, processed,
                                handleFaults[processed], ackFaults[processed], r)
      ensures readFault.NoFault? ==> bus.clock == if |claimed| + count == 0 then old(bus).clock else at
    {
      processed, r := 0, Ok(());
      if readFault.Lost? || (readFault.Applied? && |claimed| + count == 0) {
        return 0, Err(ReadFailed);
      }
      ghost var start := bus;
      if |claimed| + count == 0 {
        EmptyPass(config, history, bus, w);
        return;
      }
      var batch := ReadGroup(w, claimed, count, at);
      if readFault.Applied? {
        AbandonedAfterRead(config, start, bus, batch, w);
        Abandon(w);
        return 0, Err(ReadFailed);
      }
      processed, r := ProcessBatch(w, batch, start, handleFaults, ackFaults);
    }

    /** The loop over the messages that were read. */
    method ProcessBatch(w: nat, batch: seq<nat>, ghost start: Bus, handleFaults: seq<Fault>, ackFaults: seq<Fault>)
      returns (processed: nat, r: Result<(), Failure>)
      requires Valid() && InPass(config, start, bus, batch, w, 0)
      requires |handleFaults| == |ackFaults| == |batch|
      modifies this
      ensures Valid() && old(history) <= history && bus.clock == old(bus).clock
      ensures processed <= |batch| && (r.Ok? <==> processed == |batch|)
      ensures if r.Ok? then InPass(config, start, bus, batch, w, processed)
              else PassFailed(config, start, bus, batch, processed, handleFaults[processed], ackFaults[processed], r)
    {
      processed, r := 0, Ok(());
      while processed < |batch|
        invariant 0 <= processed <= |batch| && r.Ok?
        invariant Valid() && old(history) <= history && bus.clock == old(bus).clock
        invariant InPass(config, start, bus, batch, w, processed)
      {
        ghost var now := bus;
        r := ProcessMessage(w, handleFaults[processed], ackFaults[processed]);
        MessageInPass(config, start, now, bus, batch, w, processed, handleFaults[processed], ackFaults[processed], r);
        if r.Err? {
          return;
        }
        processed := processed + 1;
      }
    }
  }
}
