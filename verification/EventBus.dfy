/** The event bus as a step protocol: one stream, one consumer group, the audit subscriber, and any
    number of workers reading, handling and acknowledging, each of which may crash at any point. */
module EventBus {
  import opened Wrappers
  import opened EventRecords

  /** `skew` bounds how far a publisher's clock runs ahead of the stream's. */
  datatype Config = Config(
    parse: Parser, batchSize: nat, retention: Time, claimMinIdle: Time, skew: Time)

  datatype Entry = Entry(record: Record, at: Time)

  /** A pass under way: `done` entries are acknowledged, and `handled` says whether the next one is
      handled and not yet acknowledged. */
  datatype Pass = Pass(batch: seq<nat>, done: nat, handled: bool)

  /** Entries are known by their position in the order of publication. Those before `first` have
      been trimmed; the group has been given everything before `next` that was there to give. */
  datatype Bus = Bus(
    published: seq<Entry>, first: nat, next: nat,
    pending: map<nat, Time>, acked: set<nat>,
    log: map<Uuid, AuditRow>,
    workers: map<nat, Pass>, clock: Time)

  const START := Bus([], 0, 0, map[], {}, map[], map[], 0)

  datatype Step =
    | Publish(record: Record, publisherNow: Time, trimTo: nat, at: Time)
    | Read(worker: nat, claimed: seq<nat>, count: nat, at: Time)
    | Handle(worker: nat, newID: string, fault: Fault, at: Time)
    | Ack(worker: nat, fault: Fault, at: Time)
    | Crash(worker: nat, at: Time)

  // ---- publishing ----

  /** Trimming drops a prefix of entries with IDs below the minimum; being approximate, it may stop early. */
  ghost predicate TrimAllowed(cfg: Config, s: Bus, step: Step)
    requires step.Publish?
  {
    var published := s.published + [Entry(step.record, step.at)];
    && s.first <= step.trimTo <= |published|
    && (cfg.retention <= 0 ==> step.trimTo == s.first)
    && forall k :: s.first <= k < step.trimTo ==> published[k].at < step.publisherNow - cfg.retention
  }

  /** What Publish puts on the stream: an ID and a time are set, and the ID is new. */
  ghost predicate Publishable(cfg: Config, s: Bus, record: Record) {
    && record.id != "" && record.createdAt.Some?
    && (cfg.parse(record.id).Some? ==>
          forall k :: 0 <= k < |s.published| ==> cfg.parse(s.published[k].record.id) != cfg.parse(record.id))
  }

  // ---- reading ----

  function Start(s: Bus): nat {
    if s.next < s.first then s.first else s.next
  }

  function NextEntries(s: Bus, count: nat): seq<nat> {
    seq(count, i => Start(s) + i)
  }

  function Batch(s: Bus, claimed: seq<nat>, count: nat): seq<nat> {
    claimed + NextEntries(s, count)
  }

  /** A group read gives idle pending entries that are still in the stream, and then the next
      undelivered ones in order, a batch at most. */
  ghost predicate ReadAllowed(cfg: Config, s: Bus, claimed: seq<nat>, count: nat, at: Time) {
    && 0 < |claimed| + count <= cfg.batchSize
    && (forall i, j :: 0 <= i < j < |claimed| ==> claimed[i] != claimed[j])
    && (forall i :: 0 <= i < |claimed| ==>
          claimed[i] in s.pending && s.first <= claimed[i] && s.pending[claimed[i]] + cfg.claimMinIdle <= at)
    && (0 < count ==> Start(s) + count <= |s.published|)
  }

  function Deliver(pending: map<nat, Time>, batch: seq<nat>, at: Time): map<nat, Time> {
    pending + map i | 0 <= i < |batch| :: batch[i] := at
  }

  // ---- handling ----

  /** Handle: assign what is missing, convert, insert under the primary key. */
  function HandleRecord(cfg: Config, log: map<Uuid, AuditRow>, record: Record, newID: string, now: Nanos)
    : Result<map<Uuid, AuditRow>, ()>
  {
    match InsertParams(cfg.parse, Assign(record, newID, now))
    case None => Err(())
    case Some(row) => if row.id in log then Err(()) else Ok(log[row.id := row])
  }

  function EndPass(s: Bus, worker: nat): Bus {
    s.(workers := s.workers - {worker})
  }

  function HandleStep(cfg: Config, s: Bus, worker: nat, record: Record, newID: string, fault: Fault, now: Nanos): Bus
    requires worker in s.workers
  {
    var r := HandleRecord(cfg, s.log, record, newID, now);
    if r.Err? || fault.Lost? then EndPass(s, worker)
    else if fault.Applied? then EndPass(s.(log := r.value), worker)
    else s.(log := r.value, workers := s.workers[worker := s.workers[worker].(handled := true)])
  }

  /** Acknowledging removes the entry from the pending list, if another worker has not already. */
  function AckEntry(s: Bus, k: nat): Bus {
    s.(pending := s.pending - {k}, acked := s.acked + {k})
  }

  function AckStep(s: Bus, worker: nat, k: nat, fault: Fault): Bus
    requires worker in s.workers
  {
    var p := s.workers[worker];
    if fault.Lost? then EndPass(s, worker)
    else if fault.Applied? || p.done + 1 == |p.batch| then EndPass(AckEntry(s, k), worker)
    else AckEntry(s, k).(workers := s.workers[worker := Pass(p.batch, p.done + 1, false)])
  }

  // ---- steps ----

  ghost predicate Enabled(cfg: Config, s: Bus, step: Step) {
    && s.clock <= step.at
    && match step
       case Publish(record, publisherNow, trimTo, at) =>
         Publishable(cfg, s, record) && publisherNow <= at + cfg.skew && TrimAllowed(cfg, s, step)
       case Read(worker, claimed, count, at) => worker !in s.workers && ReadAllowed(cfg, s, claimed, count, at)
       case Handle(worker, newID, fault, at) => worker in s.workers && !s.workers[worker].handled
       case Ack(worker, fault, at) => worker in s.workers && s.workers[worker].handled
       case Crash(worker, at) => worker in s.workers
  }

  ghost predicate WorkersValid(s: Bus) {
    forall w :: w in s.workers ==>
      var p := s.workers[w];
      && p.done < |p.batch|
      && (forall i :: 0 <= i < |p.batch| ==> p.batch[i] < |s.published|)
      && forall i, j :: 0 <= i < j < |p.batch| ==> p.batch[i] != p.batch[j]
  }

  function Current(p: Pass): nat
    requires p.done < |p.batch|
  {
    p.batch[p.done]
  }

  ghost function Apply(cfg: Config, s: Bus, step: Step): Bus
    requires Enabled(cfg, s, step) && WorkersValid(s)
  {
    var s' := s.(clock := step.at);
    match step
    case Publish(record, publisherNow, trimTo, at) =>
      s'.(published := s.published + [Entry(record, at)], first := trimTo)
    case Read(worker, claimed, count, at) =>
      s'.(pending := Deliver(s.pending, Batch(s, claimed, count), at),
          next := if count == 0 then s.next else Start(s) + count,
          workers := s.workers[worker := Pass(Batch(s, claimed, count), 0, false)])
    case Handle(worker, newID, fault, at) =>
      HandleStep(cfg, s', worker, s.published[Current(s.workers[worker])].record, newID, fault, ToNanos(at))
    case Ack(worker, fault, at) => AckStep(s', worker, Current(s.workers[worker]), fault)
    case Crash(worker, at) => EndPass(s', worker)
  }

  // ---- the invariant ----

  ghost predicate Published(cfg: Config, s: Bus) {
    && (forall k :: 0 <= k < |s.published| ==> s.published[k].record.id != "" && s.published[k].record.createdAt.Some?)
    && (forall j, k :: 0 <= j < k < |s.published| && cfg.parse(s.published[j].record.id).Some? ==>
          cfg.parse(s.published[j].record.id) != cfg.parse(s.published[k].record.id))
  }

  /** The row the audit log should hold for entry k. */
  ghost function RowOf(cfg: Config, s: Bus, k: nat): Option<AuditRow>
    requires k < |s.published| && s.published[k].record.createdAt.Some?
  {
    InsertParams(cfg.parse, s.published[k].record)
  }

  /** The handler can insert entry k: it converts, and its key is free. */
  predicate Handleable(cfg: Config, s: Bus, k: nat)
    requires k < |s.published|
  {
    var record := s.published[k].record;
    && record.createdAt.Some? && InsertParams(cfg.parse, record).Some?
    && InsertParams(cfg.parse, record).value.id !in s.log
  }

  ghost predicate Logged(cfg: Config, s: Bus, k: nat) {
    && k < |s.published| && s.published[k].record.createdAt.Some?
    && RowOf(cfg, s, k).Some?
    && RowOf(cfg, s, k).value.id in s.log
    && s.log[RowOf(cfg, s, k).value.id] == RowOf(cfg, s, k).value
  }

  /** What was passed and is still there is pending or acknowledged, and not both. */
  ghost predicate Delivery(s: Bus) {
    && s.first <= |s.published| && s.next <= |s.published|
    && (forall k :: s.first <= k < s.next ==> k in s.pending || k in s.acked)
    && (forall k :: k in s.pending ==> k < s.next && k !in s.acked)
    && (forall k :: k in s.acked ==> k < s.next)
    && (forall w :: w in s.workers ==> forall i :: 0 <= i < |s.workers[w].batch| ==>
          s.workers[w].batch[i] in s.pending || s.workers[w].batch[i] in s.acked)
  }

  /** What was acknowledged, or is about to be, is in the log, and the log holds nothing else. */
  ghost predicate LogSound(cfg: Config, s: Bus)
    requires Published(cfg, s) && WorkersValid(s)
  {
    && (forall k :: k in s.acked ==> Logged(cfg, s, k))
    && (forall w :: w in s.workers && s.workers[w].handled ==> Logged(cfg, s, Current(s.workers[w])))
    && (forall u :: u in s.log ==> HasSource(cfg, s, u))
  }

  /** The row is that of some published event. */
  ghost predicate HasSource(cfg: Config, s: Bus, u: Uuid)
    requires Published(cfg, s) && u in s.log
  {
    exists k: nat :: k < |s.published| && RowOf(cfg, s, k) == Some(s.log[u]) && s.log[u].id == u
  }

  ghost predicate TrimmedOld(cfg: Config, s: Bus) {
    && s.first <= |s.published|
    && forall k :: 0 <= k < s.first ==> s.published[k].at + cfg.retention < s.clock + cfg.skew
  }

  ghost predicate Inv(cfg: Config, s: Bus) {
    Published(cfg, s) && WorkersValid(s) && Delivery(s) && LogSound(cfg, s) && TrimmedOld(cfg, s)
  }
}
