/** What the audit log lists, after any run of the bus. */
module AuditListing {
  import opened Wrappers
  import opened Text
  import opened EventRecords
  import opened EventBus
  import opened EventBusRuns

  /** An empty text filters nothing. */
  datatype Filter = Filter(
    category: string, subcategory: string, eventType: string, actorUserID: string,
    targetType: string, targetID: string, outcome: string, before: Option<Nanos>, limit: nat)

  predicate Passes(filter: string, value: string) {
    filter == "" || value == filter
  }

  predicate Admits(parse: Parser, f: Filter, row: AuditRow) {
    && Passes(f.category, row.definition.category) && Passes(f.subcategory, row.definition.subcategory)
    && Passes(f.eventType, row.eventType) && Passes(f.outcome, row.definition.outcome)
    && Passes(f.targetType, row.target.targetType) && Passes(f.targetID, row.target.targetID)
    && (f.actorUserID == "" || (row.actorUserID.Some? && row.actorUserID == parse(f.actorUserID)))
    && (f.before.Some? ==> row.createdAt <= ToMicros(f.before.value))
  }

  /** Newest first, and of one time the greatest ID first. */
  predicate ComesBefore(a: AuditRow, b: AuditRow) {
    b.createdAt < a.createdAt || (a.createdAt == b.createdAt && Less(b.id, a.id))
  }

  /** What the query gives: admitted rows in order, and all of them unless the limit cuts the rest off. */
  ghost predicate IsListing(parse: Parser, log: map<Uuid, AuditRow>, f: Filter, rows: seq<AuditRow>) {
    && |rows| <= f.limit
    && (forall i :: 0 <= i < |rows| ==> rows[i].id in log && log[rows[i].id] == rows[i] && Admits(parse, f, rows[i]))
    && (forall i, j :: 0 <= i < j < |rows| ==> ComesBefore(rows[i], rows[j]))
    && forall u :: u in log && Admits(parse, f, log[u]) ==>
         log[u] in rows || (|rows| == f.limit && forall i :: 0 <= i < |rows| ==> ComesBefore(rows[i], log[u]))
  }

  function Listed(rows: seq<AuditRow>): seq<Record> {
    seq(|rows|, i requires 0 <= i < |rows| => LogFromRow(rows[i]))
  }

  /** An actor filter that is no ID is refused; otherwise every row is converted, in order. */
  method List(parse: Parser, f: Filter, rows: seq<AuditRow>) returns (r: Result<seq<Record>, ()>)
    ensures r.Err? <==> f.actorUserID != "" && parse(f.actorUserID).None?
    ensures r.Ok? ==> r.value == Listed(rows)
  {
    if f.actorUserID != "" && parse(f.actorUserID).None? {
      return Err(());
    }
    var out := [];
    for i := 0 to |rows|
      invariant out == Listed(rows)[..i]
    {
      out := out + [LogFromRow(rows[i])];
    }
    return Ok(out);
  }

  /** The record is that of the only event published under its ID, as stored; and unchanged exactly when
      its IDs are in canonical spelling and its time is a whole number of microseconds. */
  ghost predicate Shows(cfg: Config, s: Bus, record: Record, k: nat) {
    && k < |s.published| && s.published[k].record.createdAt.Some?
    && record == AsStored(cfg.parse, s.published[k].record)
    && (record == s.published[k].record <==> Lossless(cfg.parse, s.published[k].record))
    && forall j :: 0 <= j < |s.published| && cfg.parse(s.published[j].record.id) == Some(record.id) ==> j == k
  }

  lemma SourceIsShown(cfg: Config, s: Bus, row: AuditRow) returns (k: nat)
    requires Published(cfg, s) && row.id in s.log && s.log[row.id] == row && HasSource(cfg, s, row.id)
    ensures Shows(cfg, s, LogFromRow(row), k)
  {
    k :| k < |s.published| && RowOf(cfg, s, k) == Some(row);
    var record := s.published[k].record;
    ListedIsStored(cfg.parse, record);
    AuditRoundTrip(cfg.parse, record);
    forall j | 0 <= j < |s.published| && cfg.parse(s.published[j].record.id) == Some(row.id) ensures j == k {
      SameIDSameEntry(cfg, s, j, k);
    }
  }

  /** The records are newest first, and those of one time by their IDs, the greatest first. */
  lemma ListIsNewestFirst(parse: Parser, log: map<Uuid, AuditRow>, f: Filter, rows: seq<AuditRow>, i: nat, j: nat)
    requires IsListing(parse, log, f, rows) && i < j < |rows|
    ensures var a, b := Listed(rows)[i], Listed(rows)[j];
            && a.createdAt.Some? && b.createdAt.Some?
            && (|| b.createdAt.value < a.createdAt.value
                || (b.createdAt == a.createdAt && (b.id < a.id || exists n: nat :: DifferAt(b.id, a.id, n))))
  {
    assert ComesBefore(rows[i], rows[j]);
    LessExactly(rows[j].id, rows[i].id);
  }

  /** After any run, whatever is listed is the stored form of exactly one published event. */
  lemma ListShowsWhatWasPublished(cfg: Config, steps: seq<Step>, f: Filter, rows: seq<AuditRow>, i: nat)
    requires LegalRun(cfg, START, steps) && IsListing(cfg.parse, Final(cfg, START, steps).log, f, rows) && i < |rows|
    ensures exists k :: Shows(cfg, Final(cfg, START, steps), Listed(rows)[i], k)
  {
    var s := Final(cfg, START, steps);
    RunKeepsInv(cfg, START, steps);
    var k := SourceIsShown(cfg, s, rows[i]);
    assert Listed(rows)[i] == LogFromRow(rows[i]);
  }

  /** After any run, every acknowledged event that the filter admits is listed, unless the limit is
      reached by rows that come before it. */
  lemma AcknowledgedIsListed(cfg: Config, steps: seq<Step>, f: Filter, rows: seq<AuditRow>, k: nat)
    requires LegalRun(cfg, START, steps) && IsListing(cfg.parse, Final(cfg, START, steps).log, f, rows)
    requires k in Final(cfg, START, steps).acked
    ensures var s := Final(cfg, START, steps);
            && Logged(cfg, s, k)
            && var row := RowOf(cfg, s, k).value;
            Admits(cfg.parse, f, row) ==>
              AsStored(cfg.parse, s.published[k].record) in Listed(rows)
              || (|rows| == f.limit && forall i :: 0 <= i < |rows| ==> ComesBefore(rows[i], row))
  {
    var s := Final(cfg, START, steps);
    RunKeepsInv(cfg, START, steps);
    assert Logged(cfg, s, k);
    var row := RowOf(cfg, s, k).value;
    ListedIsStored(cfg.parse, s.published[k].record);
    if row in rows {
      var i :| 0 <= i < |rows| && rows[i] == row;
      assert Listed(rows)[i] == AsStored(cfg.parse, s.published[k].record);
    }
  }

  // ---- back to the events ----

  /** A call of Publish: the event, and the ID and time it is given if it has none. */
  datatype Publication = Publication(event: Event, newID: string, stampedAt: Nanos)

  /** The publish steps of the run are those of these calls, in order. */
  ghost predicate PublishedBy(definitions: map<string, Definition>, steps: seq<Step>, calls: seq<Publication>)
    decreases |steps|
  {
    if steps == [] then calls == []
    else if steps[0].Publish? then
      && calls != [] && calls[0].event.eventType in definitions
      && PublishedRecord(definitions, calls[0].event, calls[0].newID, calls[0].stampedAt) == Some(steps[0].record)
      && PublishedBy(definitions, steps[1..], calls[1..])
    else PublishedBy(definitions, steps[1..], calls)
  }

  ghost predicate EntriesOf(definitions: map<string, Definition>, entries: seq<Entry>, calls: seq<Publication>) {
    && |entries| == |calls|
    && forall k :: 0 <= k < |calls| ==>
         calls[k].event.eventType in definitions
         && Carries(entries[k].record, calls[k].event, definitions[calls[k].event.eventType],
                    calls[k].newID, calls[k].stampedAt)
  }

  lemma OneEntryMore(definitions: map<string, Definition>, entries: seq<Entry>, calls: seq<Publication>,
                     record: Record, at: Time, call: Publication)
    requires EntriesOf(definitions, entries, calls) && call.event.eventType in definitions
    requires PublishedRecord(definitions, call.event, call.newID, call.stampedAt) == Some(record)
    ensures EntriesOf(definitions, entries + [Entry(record, at)], calls + [call])
  {
    PublishedCarries(definitions, call.event, call.newID, call.stampedAt);
  }

  lemma PublishedNext(cfg: Config, s: Bus, step: Step)
    requires WorkersValid(s) && Enabled(cfg, s, step)
    ensures Apply(cfg, s, step).published ==
              if step.Publish? then s.published + [Entry(step.record, step.at)] else s.published
  {
  }

  lemma {:induction false} RunPublishes(cfg: Config, definitions: map<string, Definition>, s: Bus, steps: seq<Step>,
                                        before: seq<Publication>, calls: seq<Publication>)
    requires LegalRun(cfg, s, steps) && EntriesOf(definitions, s.published, before)
    requires PublishedBy(definitions, steps, calls)
    ensures EntriesOf(definitions, Final(cfg, s, steps).published, before + calls)
    decreases |steps|
  {
    if steps == [] {
      assert before + calls == before;
      return;
    }
    PublishedNext(cfg, s, steps[0]);
    if steps[0].Publish? {
      OneEntryMore(definitions, s.published, before, steps[0].record, steps[0].at, calls[0]);
      RunPublishes(cfg, definitions, Apply(cfg, s, steps[0]), steps[1..], before + [calls[0]], calls[1..]);
      assert before + calls == (before + [calls[0]]) + calls[1..];
    } else {
      RunPublishes(cfg, definitions, Apply(cfg, s, steps[0]), steps[1..], before, calls);
    }
  }

  /** What the audit log says of a published event: all of it, with IDs in canonical spelling and the time
      in whole microseconds. */
  predicate ShowsEvent(parse: Parser, definitions: map<string, Definition>, call: Publication, record: Record) {
    var event := call.event;
    && Some(record.id) == parse(EventID(event, call.newID))
    && record.eventType == event.eventType
    && event.eventType in definitions && record.definition == definitions[event.eventType]
    && record.actorUserID == Spelled(parse, event.envelope.actorUserID)
    && record.actorOrganizationID == Spelled(parse, event.envelope.actorOrganizationID)
    && record.target == event.envelope.target
    && record.request == event.envelope.request
    && record.metadata == event.metadata
    && record.changes == event.changes
    && record.createdAt == Some(EventTime(event, call.stampedAt) / 1000 * 1000)
  }

  /** The filter asks for such events. */
  predicate AsksFor(parse: Parser, definitions: map<string, Definition>, f: Filter, call: Publication)
    requires call.event.eventType in definitions
  {
    var event, definition := call.event, definitions[call.event.eventType];
    && (f.category == "" || definition.category == f.category)
    && (f.subcategory == "" || definition.subcategory == f.subcategory)
    && (f.eventType == "" || event.eventType == f.eventType)
    && (f.outcome == "" || definition.outcome == f.outcome)
    && (f.targetType == "" || event.envelope.target.targetType == f.targetType)
    && (f.targetID == "" || event.envelope.target.targetID == f.targetID)
    && (f.actorUserID == "" ||
        (event.envelope.actorUserID != "" && parse(event.envelope.actorUserID) == parse(f.actorUserID)))
    && (f.before.Some? ==> EventTime(event, call.stampedAt) / 1000 <= f.before.value / 1000)
  }

  lemma RowTellsEvent(cfg: Config, definitions: map<string, Definition>, entries: seq<Entry>, calls: seq<Publication>,
                      k: nat, row: AuditRow, f: Filter)
    requires EntriesOf(definitions, entries, calls) && k < |entries| && entries[k].record.createdAt.Some?
    requires entries[k].record.id != "" && InsertParams(cfg.parse, entries[k].record) == Some(row)
    ensures ShowsEvent(cfg.parse, definitions, calls[k], LogFromRow(row))
    ensures Admits(cfg.parse, f, row) <==> AsksFor(cfg.parse, definitions, f, calls[k])
  {
    ListedIsStored(cfg.parse, entries[k].record);
  }

  lemma EntriesOfRun(cfg: Config, definitions: map<string, Definition>, steps: seq<Step>, calls: seq<Publication>)
    requires LegalRun(cfg, START, steps) && PublishedBy(definitions, steps, calls)
    ensures EntriesOf(definitions, Final(cfg, START, steps).published, calls)
  {
    RunPublishes(cfg, definitions, START, steps, [], calls);
    assert [] + calls == calls;
  }

  /** After any run, whatever is listed tells of one event passed to Publish, and of one the filter asks
      for; no other event was published under its ID. */
  lemma ListShowsEvents(cfg: Config, definitions: map<string, Definition>, steps: seq<Step>, calls: seq<Publication>,
                        f: Filter, rows: seq<AuditRow>, i: nat) returns (k: nat)
    requires LegalRun(cfg, START, steps) && PublishedBy(definitions, steps, calls)
    requires IsListing(cfg.parse, Final(cfg, START, steps).log, f, rows) && i < |rows|
    ensures k < |calls| && ShowsEvent(cfg.parse, definitions, calls[k], Listed(rows)[i])
    ensures AsksFor(cfg.parse, definitions, f, calls[k])
    ensures forall j :: 0 <= j < |calls| && j != k ==>
              cfg.parse(EventID(calls[j].event, calls[j].newID)) != Some(Listed(rows)[i].id)
  {
    var s := Final(cfg, START, steps);
    RunKeepsInv(cfg, START, steps);
    EntriesOfRun(cfg, definitions, steps, calls);
    k := SourceIsOnly(cfg, s, rows[i].id);
    RowTellsEvent(cfg, definitions, s.published, calls, k, rows[i], f);
    assert Listed(rows)[i] == LogFromRow(rows[i]);
    assert forall j :: 0 <= j < |calls| ==> s.published[j].record.id == EventID(calls[j].event, calls[j].newID);
  }

  /** After any run, every acknowledged event the filter asks for is listed, unless the limit is reached
      by rows that come before its own. */
  lemma AcknowledgedEventIsListed(cfg: Config, definitions: map<string, Definition>, steps: seq<Step>,
                                  calls: seq<Publication>, f: Filter, rows: seq<AuditRow>, k: nat)
    requires LegalRun(cfg, START, steps) && PublishedBy(definitions, steps, calls)
    requires IsListing(cfg.parse, Final(cfg, START, steps).log, f, rows)
    requires k in Final(cfg, START, steps).acked
    ensures k < |calls| && calls[k].event.eventType in definitions
    ensures AsksFor(cfg.parse, definitions, f, calls[k]) ==>
              || (exists i :: 0 <= i < |rows| && ShowsEvent(cfg.parse, definitions, calls[k], Listed(rows)[i]))
              || |rows| == f.limit
  {
    var s := Final(cfg, START, steps);
    RunKeepsInv(cfg, START, steps);
    EntriesOfRun(cfg, definitions, steps, calls);
    assert Logged(cfg, s, k);
    var row := RowOf(cfg, s, k).value;
    RowTellsEvent(cfg, definitions, s.published, calls, k, row, f);
    if AsksFor(cfg.parse, definitions, f, calls[k]) && row in rows {
      var i :| 0 <= i < |rows| && rows[i] == row;
      assert Listed(rows)[i] == LogFromRow(row);
    }
  }
}
