/** Event records as published and as audited. */
module EventRecords {
  import opened Wrappers

  /** Milliseconds, the resolution of stream IDs. */
  type Time = int

  /** Nanoseconds, the resolution of the clock an event is stamped with. */
  type Nanos = int

  /** Microseconds, the resolution of a TIMESTAMPTZ column. */
  type Micros = int

  function ToNanos(t: Time): Nanos {
    t * 1_000_000
  }

  /** What the store keeps of a time: it drops what lies below a microsecond. */
  function ToMicros(t: Nanos): Micros {
    t / 1000
  }

  function FromMicros(t: Micros): Nanos {
    t * 1000
  }

  predicate WholeMicros(t: Nanos) {
    t % 1000 == 0
  }

  datatype Target = Target(targetType: string, targetID: string, display: string)

  datatype RequestMeta = RequestMeta(
    requestID: string, traceID: string, spanID: string, ipAddress: string, userAgent: string)

  datatype Envelope = Envelope(
    id: string, actorUserID: string, actorOrganizationID: string,
    target: Target, request: RequestMeta, createdAt: Option<Nanos>)

  datatype Event = Event(
    eventType: string, envelope: Envelope, metadata: map<string, string>, changes: map<string, string>)

  datatype Definition = Definition(category: string, subcategory: string, action: string, outcome: string)

  datatype Record = Record(
    id: string, eventType: string, definition: Definition,
    actorUserID: string, actorOrganizationID: string, target: Target, request: RequestMeta,
    metadata: map<string, string>, changes: map<string, string>, createdAt: Option<Nanos>)

  /** A UUID in canonical spelling. */
  type Uuid = string

  /** Parsing a UUID gives its canonical spelling; several spellings may parse to one. */
  type Parser = string -> Option<Uuid>

  function NewRecord(event: Event, definition: Definition): Record {
    var e := event.envelope;
    Record(e.id, event.eventType, definition, e.actorUserID, e.actorOrganizationID, e.target, e.request,
           event.metadata, event.changes, e.createdAt)
  }

  /** An ID and a time where the record has none. */
  function Assign(record: Record, newID: string, now: Nanos): Record {
    record.(id := if record.id == "" then newID else record.id,
            createdAt := if record.createdAt.None? then Some(now) else record.createdAt)
  }

  /** The record Publish serialises; an event type outside the catalog is refused. */
  function PublishedRecord(definitions: map<string, Definition>, event: Event, newID: string, now: Nanos)
    : Option<Record>
  {
    if event.eventType !in definitions then None
    else Some(Assign(NewRecord(event, definitions[event.eventType]), newID, now))
  }

  /** The ID an event is published under, and the time. */
  function EventID(event: Event, newID: string): string {
    if event.envelope.id == "" then newID else event.envelope.id
  }

  function EventTime(event: Event, stampedAt: Nanos): Nanos {
    if event.envelope.createdAt.None? then stampedAt else event.envelope.createdAt.value
  }

  /** The record says of the event what the event says, field by field, and what its type is defined as. */
  predicate Carries(record: Record, event: Event, definition: Definition, newID: string, stampedAt: Nanos) {
    && record.id == EventID(event, newID)
    && record.eventType == event.eventType
    && record.definition == definition
    && record.actorUserID == event.envelope.actorUserID
    && record.actorOrganizationID == event.envelope.actorOrganizationID
    && record.target == event.envelope.target
    && record.request == event.envelope.request
    && record.metadata == event.metadata
    && record.changes == event.changes
    && record.createdAt == Some(EventTime(event, stampedAt))
  }

  /** An event of a defined type is published as it is. */
  lemma PublishedCarries(definitions: map<string, Definition>, event: Event, newID: string, stampedAt: Nanos)
    requires event.eventType in definitions
    ensures PublishedRecord(definitions, event, newID, stampedAt).Some?
    ensures Carries(PublishedRecord(definitions, event, newID, stampedAt).value, event, definitions[event.eventType],
                    newID, stampedAt)
  {
  }

  datatype AuditRow = AuditRow(
    id: Uuid, eventType: string, definition: Definition,
    actorUserID: Option<Uuid>, actorOrganizationID: Option<Uuid>, target: Target,
    requestID: Option<string>, traceID: Option<string>, spanID: Option<string>, ipAddress: string, userAgent: string,
    metadata: map<string, string>, changes: map<string, string>, createdAt: Micros)

  /** The empty string stands for SQL NULL. */
  function NullText(s: string): Option<string> {
    if s == "" then None else Some(s)
  }

  function TextValue(s: Option<string>): string {
    if s.None? then "" else s.value
  }

  function NullUUID(parse: Parser, s: string): Result<Option<Uuid>, ()> {
    if s == "" then Ok(None) else if parse(s).None? then Err(()) else Ok(parse(s))
  }

  function InsertParams(parse: Parser, r: Record): Option<AuditRow>
    requires r.createdAt.Some?
  {
    if parse(r.id).None? then None else
    match (NullUUID(parse, r.actorUserID), NullUUID(parse, r.actorOrganizationID))
    case (Ok(user), Ok(organization)) =>
      Some(AuditRow(parse(r.id).value, r.eventType, r.definition, user, organization, r.target,
                    NullText(r.request.requestID), NullText(r.request.traceID), NullText(r.request.spanID),
                    r.request.ipAddress, r.request.userAgent, r.metadata, r.changes, ToMicros(r.createdAt.value)))
    case _ => None
  }

  function LogFromRow(row: AuditRow): Record {
    Record(row.id, row.eventType, row.definition, TextValue(row.actorUserID), TextValue(row.actorOrganizationID),
           row.target,
           RequestMeta(TextValue(row.requestID), TextValue(row.traceID), TextValue(row.spanID),
                       row.ipAddress, row.userAgent),
           row.metadata, row.changes, Some(FromMicros(row.createdAt)))
  }

  predicate Canonical(parse: Parser, s: string) {
    s == "" || parse(s) == Some(s)
  }

  function Spelled(parse: Parser, s: string): string {
    if s == "" || parse(s).None? then s else parse(s).value
  }

  /** The record as the audit log gives it back: IDs spelled canonically, the time in whole microseconds. */
  function AsStored(parse: Parser, r: Record): Record
    requires r.createdAt.Some?
  {
    r.(id := Spelled(parse, r.id), actorUserID := Spelled(parse, r.actorUserID),
       actorOrganizationID := Spelled(parse, r.actorOrganizationID),
       createdAt := Some(FromMicros(ToMicros(r.createdAt.value))))
  }

  /** Whatever is inserted is listed as it was stored. */
  lemma ListedIsStored(parse: Parser, r: Record)
    requires r.createdAt.Some? && r.id != "" && InsertParams(parse, r).Some?
    ensures LogFromRow(InsertParams(parse, r).value) == AsStored(parse, r)
  {
  }

  predicate Lossless(parse: Parser, r: Record) {
    && Canonical(parse, r.id) && Canonical(parse, r.actorUserID) && Canonical(parse, r.actorOrganizationID)
    && r.createdAt.Some? && WholeMicros(r.createdAt.value)
  }

  /** What was published is what the audit log lists exactly when its IDs are in canonical spelling and
      its time is a whole number of microseconds. */
  lemma AuditRoundTrip(parse: Parser, r: Record)
    requires r.createdAt.Some? && r.id != ""
    ensures (InsertParams(parse, r).Some? && LogFromRow(InsertParams(parse, r).value) == r) <==> Lossless(parse, r)
  {
    assert FromMicros(ToMicros(r.createdAt.value)) == r.createdAt.value <==> WholeMicros(r.createdAt.value);
    if InsertParams(parse, r).Some? {
      ListedIsStored(parse, r);
    }
  }

  /** A time read from the clock in nanoseconds usually is not: this record comes back changed. */
  lemma FractionIsLost(parse: Parser, r: Record)
    requires Lossless(parse, r) && r.id != ""
    ensures var r' := r.(createdAt := Some(r.createdAt.value + 1));
            InsertParams(parse, r').Some? && LogFromRow(InsertParams(parse, r').value) == r != r'
  {
    var r' := r.(createdAt := Some(r.createdAt.value + 1));
    AuditRoundTrip(parse, r);
    assert ToMicros(r'.createdAt.value) == ToMicros(r.createdAt.value);
  }

  /** A published record carries an ID and a time, so an assignment on the way out changes nothing. */
  lemma PublishedIsAssigned(definitions: map<string, Definition>, event: Event, newID: string, now: Nanos,
                            newID': string, now': Nanos)
    requires newID != "" && PublishedRecord(definitions, event, newID, now).Some?
    ensures var record := PublishedRecord(definitions, event, newID, now).value;
            record.id != "" && record.createdAt.Some? && Assign(record, newID', now') == record
  {
  }
}
