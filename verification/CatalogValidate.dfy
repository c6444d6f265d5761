/** The catalog validator: a nested traversal that threads two sets of names seen so far. */
module CatalogValidate {
  import opened Wrappers
  import opened CatalogMerge
  import opened CatalogMergeLaws
  import opened Naming

  datatype Invalid =
    | NoModules
    | EmptyModuleID
    | DuplicateModuleID(id: string)
    | EmptyEventID
    | DuplicateEventID(id: string)
    | EmptyAction
    | EmptyOutcome
    | DuplicateType(name: string)
    | DuplicateConstant(name: string)
    | EmptyKey
    | EmptyKeyType
    | DuplicateKey(name: string)
    | UnsupportedType(name: string)

  datatype Seen = Seen(types: set<string>, names: set<string>)

  const SUPPORTED := {"string", "bool", "int", "int64", "float64", "time.Time"}

  // ---- the traversal, in its own order ----

  function ValidateFields(fields: seq<Field>, seenKeys: set<string>): Result<(), Invalid>
    decreases |fields|
  {
    if fields == [] then Ok(())
    else if fields[0].name == "" then Err(EmptyKey)
    else if fields[0].fieldType == "" then Err(EmptyKeyType)
    else if fields[0].name in seenKeys then Err(DuplicateKey(fields[0].name))
    else if fields[0].fieldType !in SUPPORTED then Err(UnsupportedType(fields[0].fieldType))
    else ValidateFields(fields[1..], seenKeys + {fields[0].name})
  }

  function ValidateEvent(event: EventDefinition, path: seq<string>, seenEventIDs: set<string>, seen: Seen)
    : Result<Seen, Invalid>
  {
    if event.id == "" then Err(EmptyEventID)
    else if event.id in seenEventIDs then Err(DuplicateEventID(event.id))
    else if event.action == "" then Err(EmptyAction)
    else if event.outcome == "" then Err(EmptyOutcome)
    else
      var fullType := EventTypeFor(path, event.id);
      if fullType in seen.types then Err(DuplicateType(fullType)) else
      var constName := EventConstantName(path, event.id);
      if constName in seen.names then Err(DuplicateConstant(constName)) else
      var _ :- ValidateFields(event.metadataKeys, {});
      var _ :- ValidateFields(event.changeKeys, {});
      Ok(Seen(seen.types + {fullType}, seen.names + {constName}))
  }

  function ValidateEvents(events: seq<EventDefinition>, path: seq<string>, seenEventIDs: set<string>, seen: Seen)
    : Result<Seen, Invalid>
    decreases |events|
  {
    if events == [] then Ok(seen) else
    var seen' :- ValidateEvent(events[0], path, seenEventIDs, seen);
    ValidateEvents(events[1..], path, seenEventIDs + {events[0].id}, seen')
  }

  function ValidateModules(ms: Catalog, path: seq<string>, seenModuleIDs: set<string>, seen: Seen)
    : Result<Seen, Invalid>
    decreases ms
  {
    if ms == [] then Ok(seen)
    else if ms[0].id == "" then Err(EmptyModuleID)
    else if ms[0].id in seenModuleIDs then Err(DuplicateModuleID(ms[0].id))
    else
      var currentPath := path + [ms[0].id];
      var seen1 :- ValidateEvents(ms[0].events, currentPath, {}, seen);
      var seen2 :- ValidateModules(ms[0].modules, currentPath, {}, seen1);
      ValidateModules(ms[1..], path, seenModuleIDs + {ms[0].id}, seen2)
  }

  function ValidateEventCatalog(ms: Catalog): Result<(), Invalid> {
    if |ms| == 0 then Err(NoModules) else
    var _ :- ValidateModules(ms, [], {}, Seen({}, {}));
    Ok(())
  }

  // ---- the loops ----

  method ValidateTypedFields(fields: seq<Field>) returns (r: Result<(), Invalid>)
    ensures r == ValidateFields(fields, {})
  {
    var seenKeys: set<string> := {};
    for i := 0 to |fields|
      invariant ValidateFields(fields, {}) == ValidateFields(fields[i..], seenKeys)
    {
      var field := fields[i];
      assert fields[i..][1..] == fields[i + 1..];
      if field.name == "" {
        return Err(EmptyKey);
      }
      if field.fieldType == "" {
        return Err(EmptyKeyType);
      }
      if field.name in seenKeys {
        return Err(DuplicateKey(field.name));
      }
      if field.fieldType !in SUPPORTED {
        return Err(UnsupportedType(field.fieldType));
      }
      seenKeys := seenKeys + {field.name};
    }
    return Ok(());
  }

  /** The two maps are shared by the whole recursion and filled in place. */
  class Validator {
    var seenTypes: set<string>
    var seenNames: set<string>

    function Marks(): Seen
      reads this
    {
      Seen(seenTypes, seenNames)
    }

    constructor ()
      ensures Marks() == Seen({}, {})
    {
      seenTypes, seenNames := {}, {};
    }

    method CheckEvent(event: EventDefinition, path: seq<string>, seenEventIDs: set<string>)
      returns (r: Result<(), Invalid>)
      modifies this
      ensures r.Ok? ==> ValidateEvent(event, path, seenEventIDs, old(Marks())) == Ok(Marks())
      ensures r.Err? ==> ValidateEvent(event, path, seenEventIDs, old(Marks())) == Err(r.error)
    {
      if event.id == "" {
        return Err(EmptyEventID);
      }
      if event.id in seenEventIDs {
        return Err(DuplicateEventID(event.id));
      }
      if event.action == "" {
        return Err(EmptyAction);
      }
      if event.outcome == "" {
        return Err(EmptyOutcome);
      }
      var fullType := EventTypeFor(path, event.id);
      if fullType in seenTypes {
        return Err(DuplicateType(fullType));
      }
      var constName := EventConstantName(path, event.id);
      if constName in seenNames {
        return Err(DuplicateConstant(constName));
      }
      var _ :- ValidateTypedFields(event.metadataKeys);
      var _ :- ValidateTypedFields(event.changeKeys);
      seenTypes := seenTypes + {fullType};
      seenNames := seenNames + {constName};
      return Ok(());
    }

    method CheckEvents(events: seq<EventDefinition>, path: seq<string>) returns (r: Result<(), Invalid>)
      modifies this
      ensures r.Ok? ==> ValidateEvents(events, path, {}, old(Marks())) == Ok(Marks())
      ensures r.Err? ==> ValidateEvents(events, path, {}, old(Marks())) == Err(r.error)
    {
      var seenEventIDs: set<string> := {};
      for i := 0 to |events|
        invariant ValidateEvents(events, path, {}, old(Marks())) ==
                  ValidateEvents(events[i..], path, seenEventIDs, Marks())
      {
        assert events[i..][1..] == events[i + 1..];
        var _ :- CheckEvent(events[i], path, seenEventIDs);
        seenEventIDs := seenEventIDs + {events[i].id};
      }
      return Ok(());
    }

    method ValidateEventModules(ms: Catalog, path: seq<string>) returns (r: Result<(), Invalid>)
      modifies this
      ensures r.Ok? ==> ValidateModules(ms, path, {}, old(Marks())) == Ok(Marks())
      ensures r.Err? ==> ValidateModules(ms, path, {}, old(Marks())) == Err(r.error)
      decreases ms
    {
      var seenModuleIDs: set<string> := {};
      for i := 0 to |ms|
        invariant ValidateModules(ms, path, {}, old(Marks())) == ValidateModules(ms[i..], path, seenModuleIDs, Marks())
      {
        var m := ms[i];
        assert ms[i..][0] == m && ms[i..][1..] == ms[i + 1..];
        if m.id == "" {
          return Err(EmptyModuleID);
        }
        if m.id in seenModuleIDs {
          return Err(DuplicateModuleID(m.id));
        }
        seenModuleIDs := seenModuleIDs + {m.id};
        var currentPath := path + [m.id];
        var _ :- CheckEvents(m.events, currentPath);
        var _ :- ValidateEventModules(m.modules, currentPath);
      }
      return Ok(());
    }
  }

  method Validate(ms: Catalog) returns (r: Result<(), Invalid>)
    ensures r == ValidateEventCatalog(ms)
  {
    if |ms| == 0 {
      return Err(NoModules);
    }
    var validator := new Validator();
    var _ :- validator.ValidateEventModules(ms, []);
    return Ok(());
  }

  // ---- what a valid catalog is ----

  predicate Distinct(names: seq<string>) {
    forall i, j :: 0 <= i < j < |names| ==> names[i] != names[j]
  }

  predicate FieldsValid(fields: seq<Field>) {
    && (forall i :: 0 <= i < |fields| ==>
          && fields[i].name != ""
          && fields[i].fieldType in {"string", "bool", "int", "int64", "float64", "time.Time"})
    && (forall i, j :: 0 <= i < j < |fields| ==> fields[i].name != fields[j].name)
  }

  predicate EventValid(event: EventDefinition) {
    event.id != "" && event.action != "" && event.outcome != ""
    && FieldsValid(event.metadataKeys) && FieldsValid(event.changeKeys)
  }

  predicate ModuleValid(m: EventModule)
    decreases m, 0
  {
    && m.id != ""
    && (forall i :: 0 <= i < |m.events| ==> EventValid(m.events[i]))
    && (forall i, j :: 0 <= i < j < |m.events| ==> m.events[i].id != m.events[j].id)
    && ModulesValid(m.modules)
  }

  predicate ModulesValid(ms: Catalog)
    decreases ms, 1
  {
    && (forall i :: 0 <= i < |ms| ==> ModuleValid(ms[i]))
    && DistinctIDs(ms)
  }

  function Types(entries: seq<Entry>): seq<string> {
    seq(|entries|, i requires 0 <= i < |entries| => EventTypeFor(entries[i].path, entries[i].event.id))
  }

  function Constants(entries: seq<Entry>): seq<string> {
    seq(|entries|, i requires 0 <= i < |entries| => EventConstantName(entries[i].path, entries[i].event.id))
  }

  predicate CatalogValid(ms: Catalog) {
    && ms != []
    && ModulesValid(ms)
    && Distinct(Types(Flatten(ms, [])))
    && Distinct(Constants(Flatten(ms, [])))
  }

  // ---- the traversal accepts exactly the valid catalogs ----

  function Elements(names: seq<string>): set<string> {
    set i | 0 <= i < |names| :: names[i]
  }

  lemma ElementsOne(name: string)
    ensures Elements([name]) == {name}
  {
    assert [name][0] == name;
  }

  /** No repetition among `names`, and none of them seen before. */
  predicate Fresh(names: seq<string>, seen: set<string>) {
    Distinct(names) && forall i :: 0 <= i < |names| ==> names[i] !in seen
  }

  lemma FreshAppend(a: seq<string>, b: seq<string>, seen: set<string>)
    ensures Fresh(a + b, seen) <==> Fresh(a, seen) && Fresh(b, seen + Elements(a))
    ensures Elements(a + b) == Elements(a) + Elements(b)
  {
    var ab := a + b;
    assert forall i :: 0 <= i < |a| ==> ab[i] == a[i];
    assert forall i :: 0 <= i < |b| ==> ab[|a| + i] == b[i];
    if Fresh(ab, seen) {
      forall i | 0 <= i < |b| ensures b[i] !in seen + Elements(a) {
        assert ab[|a| + i] !in seen;
      }
      assert Distinct(b) by {
        forall i, j | 0 <= i < j < |b| ensures b[i] != b[j] {
          assert ab[|a| + i] != ab[|a| + j];
        }
      }
    }
    if Fresh(a, seen) && Fresh(b, seen + Elements(a)) {
      forall i, j | 0 <= i < j < |ab| ensures ab[i] != ab[j] {
        if i < |a| <= j {
          assert a[i] in Elements(a);
          assert b[j - |a|] !in seen + Elements(a);
        } else if |a| <= i {
          assert b[i - |a|] != b[j - |a|];
        }
      }
    }
  }

  lemma {:induction false} FieldsExactly(fields: seq<Field>, seenKeys: set<string>)
    ensures ValidateFields(fields, seenKeys).Ok? <==>
              FieldsValid(fields) && forall i :: 0 <= i < |fields| ==> fields[i].name !in seenKeys
    decreases |fields|
  {
    if fields != [] {
      var rest := fields[1..];
      FieldsExactly(rest, seenKeys + {fields[0].name});
      assert forall i :: 0 <= i < |rest| ==> rest[i] == fields[i + 1];
      assert fields == [fields[0]] + rest;
    }
  }

  /** What an event list or a module list must satisfy by itself, and what it must not repeat. */
  predicate Passes(entries: seq<Entry>, seen: Seen) {
    Fresh(Types(entries), seen.types) && Fresh(Constants(entries), seen.names)
  }

  function Add(entries: seq<Entry>, seen: Seen): Seen {
    Seen(seen.types + Elements(Types(entries)), seen.names + Elements(Constants(entries)))
  }

  lemma TypesAppend(a: seq<Entry>, b: seq<Entry>)
    ensures Types(a + b) == Types(a) + Types(b)
  {
  }

  lemma ConstantsAppend(a: seq<Entry>, b: seq<Entry>)
    ensures Constants(a + b) == Constants(a) + Constants(b)
  {
  }

  lemma PassesAppend(a: seq<Entry>, b: seq<Entry>, seen: Seen)
    ensures Passes(a + b, seen) <==> Passes(a, seen) && Passes(b, Add(a, seen))
    ensures Add(a + b, seen) == Add(b, Add(a, seen))
  {
    TypesAppend(a, b);
    ConstantsAppend(a, b);
    FreshAppend(Types(a), Types(b), seen.types);
    FreshAppend(Constants(a), Constants(b), seen.names);
  }

  predicate EventsValid(events: seq<EventDefinition>, seenEventIDs: set<string>) {
    && (forall i :: 0 <= i < |events| ==> EventValid(events[i]) && events[i].id !in seenEventIDs)
    && (forall i, j :: 0 <= i < j < |events| ==> events[i].id != events[j].id)
  }

  lemma EventExactly(event: EventDefinition, path: seq<string>, seenEventIDs: set<string>, seen: Seen)
    ensures var r := ValidateEvent(event, path, seenEventIDs, seen);
            && (r.Ok? <==> EventValid(event) && event.id !in seenEventIDs && Passes([Entry(path, event)], seen))
            && (r.Ok? ==> r.value == Add([Entry(path, event)], seen))
  {
    FieldsExactly(event.metadataKeys, {});
    FieldsExactly(event.changeKeys, {});
    var entries := [Entry(path, event)];
    assert Types(entries) == [EventTypeFor(path, event.id)];
    assert Constants(entries) == [EventConstantName(path, event.id)];
    ElementsOne(EventTypeFor(path, event.id));
    ElementsOne(EventConstantName(path, event.id));
  }

  lemma {:induction false} EventsExactly(events: seq<EventDefinition>, path: seq<string>, seenEventIDs: set<string>,
                                         seen: Seen)
    ensures var r := ValidateEvents(events, path, seenEventIDs, seen);
            && (r.Ok? <==> EventsValid(events, seenEventIDs) && Passes(EventEntries(path, events), seen))
            && (r.Ok? ==> r.value == Add(EventEntries(path, events), seen))
    decreases |events|
  {
    if events == [] {
      assert EventEntries(path, events) == [];
    } else {
      var e, rest := events[0], events[1..];
      assert forall i :: 0 <= i < |rest| ==> rest[i] == events[i + 1];
      assert EventEntries(path, events) == [Entry(path, e)] + EventEntries(path, rest);
      EventExactly(e, path, seenEventIDs, seen);
      PassesAppend([Entry(path, e)], EventEntries(path, rest), seen);
      EventsValidCons(events, seenEventIDs);
      if ValidateEvent(e, path, seenEventIDs, seen).Ok? {
        EventsExactly(rest, path, seenEventIDs + {e.id}, Add([Entry(path, e)], seen));
      }
    }
  }

  lemma EventsValidCons(events: seq<EventDefinition>, seenEventIDs: set<string>)
    requires events != []
    ensures EventsValid(events, seenEventIDs) <==>
              EventValid(events[0]) && events[0].id !in seenEventIDs
              && EventsValid(events[1..], seenEventIDs + {events[0].id})
  {
    var rest := events[1..];
    assert forall i :: 0 <= i < |rest| ==> rest[i] == events[i + 1];
    assert events == [events[0]] + rest;
  }

  predicate ModulesPass(ms: Catalog, seenModuleIDs: set<string>) {
    ModulesValid(ms) && forall i :: 0 <= i < |ms| ==> ms[i].id !in seenModuleIDs
  }

  lemma ModulesPassCons(ms: Catalog, seenModuleIDs: set<string>)
    requires ms != []
    ensures ModulesPass(ms, seenModuleIDs) <==>
              && ModuleValid(ms[0]) && ms[0].id !in seenModuleIDs
              && ModulesPass(ms[1..], seenModuleIDs + {ms[0].id})
  {
    var rest := ms[1..];
    assert forall i :: 0 <= i < |rest| ==> rest[i] == ms[i + 1];
    assert ms == [ms[0]] + rest;
  }

  lemma {:induction false} ModulesExactly(ms: Catalog, path: seq<string>, seenModuleIDs: set<string>, seen: Seen)
    ensures var r := ValidateModules(ms, path, seenModuleIDs, seen);
            && (r.Ok? <==> ModulesPass(ms, seenModuleIDs) && Passes(Flatten(ms, path), seen))
            && (r.Ok? ==> r.value == Add(Flatten(ms, path), seen))
    decreases ms
  {
    if ms != [] {
      var m, rest, currentPath := ms[0], ms[1..], path + [ms[0].id];
      var own, nested := EventEntries(currentPath, m.events), Flatten(m.modules, currentPath);
      var later := Flatten(rest, path);
      ModulesPassCons(ms, seenModuleIDs);
      PassesAppend(own + nested, later, seen);
      PassesAppend(own, nested, seen);
      EventsExactly(m.events, currentPath, {}, seen);
      ModulesExactly(m.modules, currentPath, {}, Add(own, seen));
      ModulesExactly(rest, path, seenModuleIDs + {m.id}, Add(nested, Add(own, seen)));
    }
  }

  /** The validator accepts exactly the valid catalogs. */
  lemma AcceptsExactly(ms: Catalog)
    ensures ValidateEventCatalog(ms).Ok? <==> CatalogValid(ms)
  {
    ModulesExactly(ms, [], {}, Seen({}, {}));
  }

  // ---- what it complains of is so ----

  /** The name is among these, and was seen before or is there twice. */
  predicate Repeats(names: seq<string>, seen: set<string>, name: string) {
    name in names && (name in seen || 2 <= multiset(names)[name])
  }

  lemma RepeatsEarlier(a: seq<string>, b: seq<string>, seen: set<string>, name: string)
    requires Repeats(a, seen, name)
    ensures Repeats(a + b, seen, name)
  {
    assert multiset(a + b) == multiset(a) + multiset(b);
  }

  lemma RepeatsLater(a: seq<string>, b: seq<string>, seen: set<string>, name: string)
    requires Repeats(b, seen + Elements(a), name)
    ensures Repeats(a + b, seen, name)
  {
    assert multiset(a + b) == multiset(a) + multiset(b);
    assert name in multiset(b);
    if name in Elements(a) {
      assert name in multiset(a);
    }
  }

  lemma RepeatsOne(name: string, seen: set<string>)
    requires name in seen
    ensures Repeats([name], seen, name)
  {
    assert [name][0] == name;
  }

  predicate FieldFault(fields: seq<Field>, seenKeys: set<string>, e: Invalid) {
    match e
    case EmptyKey => exists i :: 0 <= i < |fields| && fields[i].name == ""
    case EmptyKeyType => exists i :: 0 <= i < |fields| && fields[i].fieldType == ""
    case DuplicateKey(name) => Repeats(Names(fields), seenKeys, name)
    case UnsupportedType(name) =>
      && (exists i :: 0 <= i < |fields| && fields[i].fieldType == name)
      && name !in {"string", "bool", "int", "int64", "float64", "time.Time"}
    case _ => false
  }

  function Names(fields: seq<Field>): seq<string> {
    seq(|fields|, i requires 0 <= i < |fields| => fields[i].name)
  }

  function EventIDs(events: seq<EventDefinition>): seq<string> {
    seq(|events|, i requires 0 <= i < |events| => events[i].id)
  }

  function ModuleIDs(ms: Catalog): seq<string> {
    seq(|ms|, i requires 0 <= i < |ms| => ms[i].id)
  }

  lemma FieldFaultHead(fields: seq<Field>, seenKeys: set<string>, e: Invalid)
    requires fields != [] && FieldFault(fields[..1], seenKeys, e)
    ensures FieldFault(fields, seenKeys, e)
  {
    if e.DuplicateKey? {
      assert Names(fields) == Names(fields[..1]) + Names(fields[1..]);
      RepeatsEarlier(Names(fields[..1]), Names(fields[1..]), seenKeys, e.name);
    }
  }

  lemma FieldFaultTail(fields: seq<Field>, seenKeys: set<string>, e: Invalid)
    requires fields != [] && FieldFault(fields[1..], seenKeys + {fields[0].name}, e)
    ensures FieldFault(fields, seenKeys, e)
  {
    match e
    case DuplicateKey(name) =>
      assert Names(fields) == [fields[0].name] + Names(fields[1..]);
      ElementsOne(fields[0].name);
      RepeatsLater([fields[0].name], Names(fields[1..]), seenKeys, name);
    case EmptyKey =>
      var i :| 0 <= i < |fields[1..]| && fields[1..][i].name == "";
      assert fields[i + 1].name == "";
    case EmptyKeyType =>
      var i :| 0 <= i < |fields[1..]| && fields[1..][i].fieldType == "";
      assert fields[i + 1].fieldType == "";
    case UnsupportedType(name) =>
      var i :| 0 <= i < |fields[1..]| && fields[1..][i].fieldType == name;
      assert fields[i + 1].fieldType == name;
  }

  lemma {:induction false} FieldErrorIsTrue(fields: seq<Field>, seenKeys: set<string>)
    requires ValidateFields(fields, seenKeys).Err?
    ensures FieldFault(fields, seenKeys, ValidateFields(fields, seenKeys).error)
    decreases |fields|
  {
    var f := fields[0];
    if f.name == "" || f.fieldType == "" {
    } else if f.name in seenKeys {
      assert Names(fields[..1]) == [f.name];
      RepeatsOne(f.name, seenKeys);
      FieldFaultHead(fields, seenKeys, DuplicateKey(f.name));
    } else if f.fieldType in SUPPORTED {
      FieldErrorIsTrue(fields[1..], seenKeys + {f.name});
      FieldFaultTail(fields, seenKeys, ValidateFields(fields, seenKeys).error);
    }
  }

  /** The event by itself is at fault. */
  predicate EventFault(event: EventDefinition, e: Invalid) {
    match e
    case EmptyEventID => event.id == ""
    case EmptyAction => event.action == ""
    case EmptyOutcome => event.outcome == ""
    case _ => FieldFault(event.metadataKeys, {}, e) || FieldFault(event.changeKeys, {}, e)
  }

  predicate SomeEventFault(entries: seq<Entry>, e: Invalid) {
    exists k :: 0 <= k < |entries| && EventFault(entries[k].event, e)
  }

  lemma SomeFaultIn(a: seq<Entry>, b: seq<Entry>, e: Invalid)
    ensures SomeEventFault(a, e) || SomeEventFault(b, e) ==> SomeEventFault(a + b, e)
  {
    assert forall k :: 0 <= k < |a| ==> (a + b)[k] == a[k];
    assert forall k :: 0 <= k < |b| ==> (a + b)[|a| + k] == b[k];
  }

  /** An event of these is at fault, or two have one type or one constant. */
  predicate EntryFault(entries: seq<Entry>, seen: Seen, e: Invalid) {
    if e.DuplicateType? then Repeats(Types(entries), seen.types, e.name)
    else if e.DuplicateConstant? then Repeats(Constants(entries), seen.names, e.name)
    else SomeEventFault(entries, e)
  }

  lemma EntryFaultEarlier(a: seq<Entry>, b: seq<Entry>, seen: Seen, e: Invalid)
    requires EntryFault(a, seen, e)
    ensures EntryFault(a + b, seen, e)
  {
    if e.DuplicateType? {
      TypesAppend(a, b);
      RepeatsEarlier(Types(a), Types(b), seen.types, e.name);
    } else if e.DuplicateConstant? {
      ConstantsAppend(a, b);
      RepeatsEarlier(Constants(a), Constants(b), seen.names, e.name);
    } else {
      SomeFaultIn(a, b, e);
    }
  }

  lemma EntryFaultLater(a: seq<Entry>, b: seq<Entry>, seen: Seen, e: Invalid)
    requires EntryFault(b, Add(a, seen), e)
    ensures EntryFault(a + b, seen, e)
  {
    if e.DuplicateType? {
      TypesAppend(a, b);
      RepeatsLater(Types(a), Types(b), seen.types, e.name);
    } else if e.DuplicateConstant? {
      ConstantsAppend(a, b);
      RepeatsLater(Constants(a), Constants(b), seen.names, e.name);
    } else {
      SomeFaultIn(a, b, e);
    }
  }

  /** Of a list of events: two have one ID, or one of its entries is at fault. */
  predicate EventListFault(events: seq<EventDefinition>, path: seq<string>, seenEventIDs: set<string>, seen: Seen,
                           e: Invalid)
  {
    if e.DuplicateEventID? then Repeats(EventIDs(events), seenEventIDs, e.id)
    else EntryFault(EventEntries(path, events), seen, e)
  }

  lemma FieldsErrorIsTrue(event: EventDefinition, e: Invalid)
    requires var metadata := ValidateFields(event.metadataKeys, {});
             metadata == Err(e) || (metadata.Ok? && ValidateFields(event.changeKeys, {}) == Err(e))
    ensures EventFault(event, e) && !e.DuplicateEventID? && !e.DuplicateType? && !e.DuplicateConstant?
  {
    if ValidateFields(event.metadataKeys, {}).Err? {
      FieldErrorIsTrue(event.metadataKeys, {});
    } else {
      FieldErrorIsTrue(event.changeKeys, {});
    }
  }

  lemma EventErrorIsTrue(event: EventDefinition, path: seq<string>, seenEventIDs: set<string>, seen: Seen)
    requires ValidateEvent(event, path, seenEventIDs, seen).Err?
    ensures EventListFault([event], path, seenEventIDs, seen, ValidateEvent(event, path, seenEventIDs, seen).error)
  {
    var e := ValidateEvent(event, path, seenEventIDs, seen).error;
    var entries := EventEntries(path, [event]);
    assert entries == [Entry(path, event)] && EventIDs([event]) == [event.id];
    assert Types(entries) == [EventTypeFor(path, event.id)];
    assert Constants(entries) == [EventConstantName(path, event.id)];
    if event.id != "" && event.id in seenEventIDs {
      RepeatsOne(event.id, seenEventIDs);
    } else if event.id != "" && event.action != "" && event.outcome != "" {
      if Types(entries)[0] in seen.types {
        RepeatsOne(Types(entries)[0], seen.types);
      } else if Constants(entries)[0] in seen.names {
        RepeatsOne(Constants(entries)[0], seen.names);
      } else {
        FieldsErrorIsTrue(event, e);
        assert EventFault(entries[0].event, e);
      }
    } else {
      assert EventFault(entries[0].event, e);
    }
  }

  lemma EventListFaultHead(events: seq<EventDefinition>, path: seq<string>, seenEventIDs: set<string>, seen: Seen,
                           e: Invalid)
    requires events != [] && EventListFault([events[0]], path, seenEventIDs, seen, e)
    ensures EventListFault(events, path, seenEventIDs, seen, e)
  {
    var rest := events[1..];
    assert EventIDs(events) == EventIDs([events[0]]) + EventIDs(rest);
    assert EventEntries(path, events) == EventEntries(path, [events[0]]) + EventEntries(path, rest);
    if e.DuplicateEventID? {
      RepeatsEarlier(EventIDs([events[0]]), EventIDs(rest), seenEventIDs, e.id);
    } else {
      EntryFaultEarlier(EventEntries(path, [events[0]]), EventEntries(path, rest), seen, e);
    }
  }

  lemma EventListFaultTail(events: seq<EventDefinition>, path: seq<string>, seenEventIDs: set<string>, seen: Seen,
                           e: Invalid)
    requires events != []
    requires EventListFault(events[1..], path, seenEventIDs + {events[0].id},
                            Add([Entry(path, events[0])], seen), e)
    ensures EventListFault(events, path, seenEventIDs, seen, e)
  {
    var rest := events[1..];
    assert EventIDs(events) == [events[0].id] + EventIDs(rest);
    assert EventEntries(path, events) == [Entry(path, events[0])] + EventEntries(path, rest);
    if e.DuplicateEventID? {
      ElementsOne(events[0].id);
      RepeatsLater([events[0].id], EventIDs(rest), seenEventIDs, e.id);
    } else {
      EntryFaultLater([Entry(path, events[0])], EventEntries(path, rest), seen, e);
    }
  }

  lemma {:induction false} EventsErrorIsTrue(events: seq<EventDefinition>, path: seq<string>,
                                             seenEventIDs: set<string>, seen: Seen)
    requires ValidateEvents(events, path, seenEventIDs, seen).Err?
    ensures EventListFault(events, path, seenEventIDs, seen, ValidateEvents(events, path, seenEventIDs, seen).error)
    decreases |events|
  {
    var first := ValidateEvent(events[0], path, seenEventIDs, seen);
    if first.Err? {
      EventErrorIsTrue(events[0], path, seenEventIDs, seen);
      EventListFaultHead(events, path, seenEventIDs, seen, first.error);
    } else {
      EventExactly(events[0], path, seenEventIDs, seen);
      EventsErrorIsTrue(events[1..], path, seenEventIDs + {events[0].id}, first.value);
      EventListFaultTail(events, path, seenEventIDs, seen,
                         ValidateEvents(events, path, seenEventIDs, seen).error);
    }
  }

  /** The lists of module IDs below the top, each of siblings. */
  function NestedIDs(ms: Catalog): seq<seq<string>> {
    if ms == [] then [] else [ModuleIDs(ms[0].modules)] + NestedIDs(ms[0].modules) + NestedIDs(ms[1..])
  }

  /** The lists of event IDs, each of one module. */
  function EventIDLists(ms: Catalog): seq<seq<string>> {
    if ms == [] then [] else [EventIDs(ms[0].events)] + EventIDLists(ms[0].modules) + EventIDLists(ms[1..])
  }

  predicate Twice(lists: seq<seq<string>>, name: string) {
    exists i :: 0 <= i < |lists| && 2 <= multiset(lists[i])[name]
  }

  predicate InSome(lists: seq<seq<string>>, name: string) {
    exists i :: 0 <= i < |lists| && name in lists[i]
  }

  lemma InLists(a: seq<seq<string>>, b: seq<seq<string>>, name: string)
    ensures Twice(a, name) || Twice(b, name) ==> Twice(a + b, name)
    ensures InSome(a, name) || InSome(b, name) ==> InSome(a + b, name)
  {
    assert forall i :: 0 <= i < |a| ==> (a + b)[i] == a[i];
    assert forall i :: 0 <= i < |b| ==> (a + b)[|a| + i] == b[i];
  }

  predicate ModulesFault(ms: Catalog, path: seq<string>, seenModuleIDs: set<string>, seen: Seen, e: Invalid) {
    match e
    case EmptyModuleID => "" in ModuleIDs(ms) || InSome(NestedIDs(ms), "")
    case DuplicateModuleID(id) => Repeats(ModuleIDs(ms), seenModuleIDs, id) || Twice(NestedIDs(ms), id)
    case DuplicateEventID(id) => Twice(EventIDLists(ms), id)
    case _ => EntryFault(Flatten(ms, path), seen, e)
  }

  lemma OwnFault(ms: Catalog, path: seq<string>, seenModuleIDs: set<string>, seen: Seen, e: Invalid)
    requires ms != [] && EventListFault(ms[0].events, path + [ms[0].id], {}, seen, e)
    ensures ModulesFault(ms, path, seenModuleIDs, seen, e)
  {
    var m, currentPath := ms[0], path + [ms[0].id];
    var own, nested := EventEntries(currentPath, m.events), Flatten(m.modules, currentPath);
    var later := Flatten(ms[1..], path);
    if e.DuplicateEventID? {
      var lists := [EventIDs(m.events)];
      assert 2 <= multiset(lists[0])[e.id];
      InLists(lists, EventIDLists(m.modules), e.id);
      InLists(lists + EventIDLists(m.modules), EventIDLists(ms[1..]), e.id);
    } else {
      EntryFaultEarlier(own, nested, seen, e);
      EntryFaultEarlier(own + nested, later, seen, e);
    }
  }

  lemma NestedFault(ms: Catalog, path: seq<string>, seenModuleIDs: set<string>, seen: Seen, e: Invalid)
    requires ms != []
    requires ModulesFault(ms[0].modules, path + [ms[0].id], {},
                          Add(EventEntries(path + [ms[0].id], ms[0].events), seen), e)
    ensures ModulesFault(ms, path, seenModuleIDs, seen, e)
  {
    var m, currentPath := ms[0], path + [ms[0].id];
    var own, nested := EventEntries(currentPath, m.events), Flatten(m.modules, currentPath);
    var later := Flatten(ms[1..], path);
    match e
    case EmptyModuleID => NestedListHas(m.modules, NestedIDs(ms[1..]), "");
    case DuplicateModuleID(id) => NestedListTwice(m.modules, NestedIDs(ms[1..]), id);
    case DuplicateEventID(id) =>
      InLists([EventIDs(m.events)], EventIDLists(m.modules), id);
      InLists([EventIDs(m.events)] + EventIDLists(m.modules), EventIDLists(ms[1..]), id);
    case _ =>
      EntryFaultLater(own, nested, seen, e);
      EntryFaultEarlier(own + nested, later, seen, e);
  }

  lemma NestedListHas(modules: Catalog, rest: seq<seq<string>>, name: string)
    requires name in ModuleIDs(modules) || InSome(NestedIDs(modules), name)
    ensures InSome([ModuleIDs(modules)] + NestedIDs(modules) + rest, name)
  {
    var lists := [ModuleIDs(modules)];
    assert lists[0] == ModuleIDs(modules);
    InLists(lists, NestedIDs(modules), name);
    InLists(lists + NestedIDs(modules), rest, name);
  }

  lemma NestedListTwice(modules: Catalog, rest: seq<seq<string>>, name: string)
    requires Repeats(ModuleIDs(modules), {}, name) || Twice(NestedIDs(modules), name)
    ensures Twice([ModuleIDs(modules)] + NestedIDs(modules) + rest, name)
  {
    var lists := [ModuleIDs(modules)];
    assert lists[0] == ModuleIDs(modules);
    InLists(lists, NestedIDs(modules), name);
    InLists(lists + NestedIDs(modules), rest, name);
  }

  lemma LaterFault(ms: Catalog, path: seq<string>, seenModuleIDs: set<string>, seen: Seen, e: Invalid)
    requires ms != []
    requires var currentPath := path + [ms[0].id];
             ModulesFault(ms[1..], path, seenModuleIDs + {ms[0].id},
                          Add(EventEntries(currentPath, ms[0].events) + Flatten(ms[0].modules, currentPath), seen), e)
    ensures ModulesFault(ms, path, seenModuleIDs, seen, e)
  {
    var m, currentPath := ms[0], path + [ms[0].id];
    var own, nested := EventEntries(currentPath, m.events), Flatten(m.modules, currentPath);
    var later := Flatten(ms[1..], path);
    assert ModuleIDs(ms) == [m.id] + ModuleIDs(ms[1..]);
    match e
    case EmptyModuleID =>
      InLists([ModuleIDs(m.modules)] + NestedIDs(m.modules), NestedIDs(ms[1..]), "");
    case DuplicateModuleID(id) =>
      InLists([ModuleIDs(m.modules)] + NestedIDs(m.modules), NestedIDs(ms[1..]), id);
      ElementsOne(m.id);
      if Repeats(ModuleIDs(ms[1..]), seenModuleIDs + {m.id}, id) {
        RepeatsLater([m.id], ModuleIDs(ms[1..]), seenModuleIDs, id);
      }
    case DuplicateEventID(id) =>
      InLists([EventIDs(m.events)] + EventIDLists(m.modules), EventIDLists(ms[1..]), id);
    case _ =>
      EntryFaultLater(own + nested, later, seen, e);
  }

  lemma HeadFault(ms: Catalog, path: seq<string>, seenModuleIDs: set<string>, seen: Seen)
    requires ms != []
    ensures ms[0].id == "" ==> ModulesFault(ms, path, seenModuleIDs, seen, EmptyModuleID)
    ensures ms[0].id in seenModuleIDs ==> ModulesFault(ms, path, seenModuleIDs, seen, DuplicateModuleID(ms[0].id))
  {
    assert ModuleIDs(ms)[0] == ms[0].id;
  }

  lemma {:induction false} ModulesErrorIsTrue(ms: Catalog, path: seq<string>, seenModuleIDs: set<string>, seen: Seen)
    requires ValidateModules(ms, path, seenModuleIDs, seen).Err?
    ensures ModulesFault(ms, path, seenModuleIDs, seen, ValidateModules(ms, path, seenModuleIDs, seen).error)
    decreases ms
  {
    var m, currentPath := ms[0], path + [ms[0].id];
    var e := ValidateModules(ms, path, seenModuleIDs, seen).error;
    if m.id == "" || m.id in seenModuleIDs {
      HeadFault(ms, path, seenModuleIDs, seen);
    } else {
      var own, nested := EventEntries(currentPath, m.events), Flatten(m.modules, currentPath);
      EventsExactly(m.events, currentPath, {}, seen);
      if ValidateEvents(m.events, currentPath, {}, seen).Err? {
        EventsErrorIsTrue(m.events, currentPath, {}, seen);
        OwnFault(ms, path, seenModuleIDs, seen, e);
      } else {
        ModulesExactly(m.modules, currentPath, {}, Add(own, seen));
        if ValidateModules(m.modules, currentPath, {}, Add(own, seen)).Err? {
          ModulesErrorIsTrue(m.modules, currentPath, {}, Add(own, seen));
          NestedFault(ms, path, seenModuleIDs, seen, e);
        } else {
          PassesAppend(own, nested, seen);
          ModulesErrorIsTrue(ms[1..], path, seenModuleIDs + {m.id}, Add(nested, Add(own, seen)));
          LaterFault(ms, path, seenModuleIDs, seen, e);
        }
      }
    }
  }

  /** What the error says. */
  predicate IsSo(ms: Catalog, e: Invalid) {
    match e
    case NoModules => ms == []
    case EmptyModuleID => InSome([ModuleIDs(ms)] + NestedIDs(ms), "")
    case DuplicateModuleID(id) => Twice([ModuleIDs(ms)] + NestedIDs(ms), id)
    case DuplicateEventID(id) => Twice(EventIDLists(ms), id)
    case DuplicateType(name) => 2 <= multiset(Types(Flatten(ms, [])))[name]
    case DuplicateConstant(name) => 2 <= multiset(Constants(Flatten(ms, [])))[name]
    case _ => SomeEventFault(Flatten(ms, []), e)
  }

  /** A catalog that is refused has the fault it is refused for. */
  lemma ErrorIsTrue(ms: Catalog)
    requires ValidateEventCatalog(ms).Err?
    ensures IsSo(ms, ValidateEventCatalog(ms).error)
  {
    if ms != [] {
      ModulesErrorIsTrue(ms, [], {}, Seen({}, {}));
      var e := ValidateEventCatalog(ms).error;
      var lists := [ModuleIDs(ms)];
      assert lists[0] == ModuleIDs(ms);
      match e {
        case EmptyModuleID => InLists(lists, NestedIDs(ms), "");
        case DuplicateModuleID(id) => InLists(lists, NestedIDs(ms), id);
        case _ =>
      }
    }
  }
}
