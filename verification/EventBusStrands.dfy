/** What a stranded entry does to the passes that meet it, and to the entries behind it. */
module EventBusStrands {
  import opened Wrappers
  import opened EventRecords
  import opened EventBus
  import opened EventBusRuns
  import opened EventBusService

  lemma StillStranded(cfg: Config, before: seq<Step>, history: seq<Step>, s: Bus, s': Bus, k: nat)
    requires before <= history && RunsTo(cfg, START, before, s) && RunsTo(cfg, START, history, s')
    requires Stranded(cfg, s, k)
    ensures Inv(cfg, s) && k !in s'.acked
  {
    assert history == before + history[|before|..];
    RunSplits(cfg, START, before, history[|before|..]);
    RunKeepsInv(cfg, START, before);
    StrandedForGood(cfg, s, history[|before|..], k);
  }

  lemma TakenHas(batch: seq<nat>, n: nat, i: nat)
    requires i < n <= |batch|
    ensures batch[i] in Taken(batch, n)
  {
  }

  lemma StopsBefore(cfg: Config, s: Bus, s': Bus, batch: seq<nat>, n: nat, i: nat)
    requires n <= |batch| && i < |batch| && s.acked + Taken(batch, n) <= s'.acked && batch[i] !in s'.acked
    ensures n <= i
  {
    if i < n {
      TakenHas(batch, n, i);
    }
  }

  /** A pass over a batch with a stranded entry at position i fails, whatever else fails, and stops at i
      or before. The entries behind it are not acknowledged, and stay pending once the read was served. */
  method PassMeetsStranded(service: Service, w: nat, claimed: seq<nat>, count: nat, at: Time,
                           readFault: Fault, handleFaults: seq<Fault>, ackFaults: seq<Fault>, ghost i: nat)
    returns (processed: nat, r: Result<(), Failure>)
    requires service.Valid() && w !in service.bus.workers && service.bus.clock <= at
    requires ReadAllowed(service.config, service.bus, claimed, count, at)
    requires |handleFaults| == |ackFaults| == |claimed| + count
    requires i < |claimed| + count && Stranded(service.config, service.bus, Batch(service.bus, claimed, count)[i])
    modifies service
    ensures service.Valid() && r.Err? && processed <= i
    ensures var batch := Batch(old(service.bus), claimed, count);
            && batch[i] !in service.bus.acked
            && (readFault.NoFault? ==> forall j :: i < j < |batch| ==> batch[j] in service.bus.pending)
  {
    ghost var start, before, batch := service.bus, service.history, Batch(service.bus, claimed, count);
    processed, r := service.ProcessSubscriber(w, claimed, count, at, readFault, handleFaults, ackFaults);
    StillStranded(service.config, before, service.history, start, service.bus, batch[i]);
    if readFault.NoFault? {
      StopsBefore(service.config, start, service.bus, batch, processed, i);
    }
  }
}
