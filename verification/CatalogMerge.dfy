/** Event catalogs and their deep merge by module ID. */
module CatalogMerge {
  import opened Wrappers

  datatype Field = Field(name: string, fieldType: string)

  datatype EventDefinition = EventDefinition(
    id: string, description: string, action: string, outcome: string,
    metadataKeys: seq<Field>, changeKeys: seq<Field>)

  datatype EventModule = EventModule(
    id: string, description: string, modules: seq<EventModule>, events: seq<EventDefinition>)

  type Catalog = seq<EventModule>

  datatype Conflict = ConflictingDescriptions

  /** There is one way to fail, so failed results are equal. */
  lemma OneFailure<T>(r: Result<T, Conflict>)
    ensures r.Err? ==> r == Err(ConflictingDescriptions)
  {
    if r.Err? {
      match r.error
      case ConflictingDescriptions =>
    }
  }

  // ---- the merge ----

  function MergeDescription(existing: string, incoming: string): Result<string, Conflict> {
    if existing == "" then Ok(incoming)
    else if incoming == "" || incoming == existing then Ok(existing)
    else Err(ConflictingDescriptions)
  }

  /** Where the index map points: the last module with the ID. */
  function LastIndex(ms: Catalog, id: string): (i: Option<nat>)
    ensures i.Some? ==> i.value < |ms| && ms[i.value].id == id
    ensures i.Some? ==> forall j :: i.value < j < |ms| ==> ms[j].id != id
    ensures i.None? ==> forall j :: 0 <= j < |ms| ==> ms[j].id != id
  {
    if ms == [] then None
    else if ms[|ms| - 1].id == id then Some(|ms| - 1)
    else LastIndex(ms[..|ms| - 1], id)
  }

  /** One turn of the merge loop: append a new module, or combine it with the one of its ID. */
  function Insert(dst: Catalog, m: EventModule): Result<Catalog, Conflict>
    decreases m, 1
  {
    var i := LastIndex(dst, m.id);
    if i.None? then Ok(dst + [m]) else
    var combined :- MergeModule(dst[i.value], m);
    Ok(dst[i.value := combined])
  }

  function MergeModule(dst: EventModule, src: EventModule): (r: Result<EventModule, Conflict>)
    ensures r.Ok? ==> r.value.id == dst.id
    decreases src, 0
  {
    var description :- MergeDescription(dst.description, src.description);
    var children :- MergeModules(dst.modules, src.modules);
    Ok(EventModule(dst.id, description, children, dst.events + src.events))
  }

  function MergeModules(dst: Catalog, src: Catalog): Result<Catalog, Conflict>
    decreases src
  {
    if src == [] then Ok(dst) else
    var dst' :- Insert(dst, src[0]);
    MergeModules(dst', src[1..])
  }

  function MergeAll(merged: Catalog, catalogs: seq<Catalog>): Result<Catalog, Conflict>
    decreases |catalogs|
  {
    if catalogs == [] then Ok(merged) else
    var modules :- MergeModules(merged, catalogs[0]);
    MergeAll(modules, catalogs[1..])
  }

  function MergeEventCatalogs(catalogs: seq<Catalog>): Result<Catalog, Conflict> {
    MergeAll([], catalogs)
  }

  // ---- the loops ----

  ghost predicate Indexes(index: map<string, nat>, ms: Catalog) {
    forall id :: (if id in index then Some(index[id]) else None) == LastIndex(ms, id)
  }

  lemma LastIndexAppend(ms: Catalog, m: EventModule, id: string)
    ensures LastIndex(ms + [m], id) == if m.id == id then Some(|ms|) else LastIndex(ms, id)
  {
    assert (ms + [m])[..|ms|] == ms;
  }

  lemma {:induction false} LastIndexIs(ms: Catalog, id: string, i: nat)
    requires i < |ms| && ms[i].id == id && forall j :: i < j < |ms| ==> ms[j].id != id
    ensures LastIndex(ms, id) == Some(i)
  {
  }

  lemma LastIndexUpdate(ms: Catalog, i: nat, m: EventModule, id: string)
    requires i < |ms| && ms[i].id == m.id
    ensures LastIndex(ms[i := m], id) == LastIndex(ms, id)
  {
    var k := LastIndex(ms, id);
    if k.Some? {
      LastIndexIs(ms[i := m], id, k.value);
    }
  }

  method MergeEventModules(dst: Catalog, src: Catalog) returns (r: Result<Catalog, Conflict>)
    ensures r == MergeModules(dst, src)
    decreases src
  {
    var merged := dst;
    var index: map<string, nat> := map[];
    for i := 0 to |merged|
      invariant Indexes(index, merged[..i])
    {
      forall id
        ensures LastIndex(merged[..i + 1], id) == if merged[i].id == id then Some(i) else LastIndex(merged[..i], id)
      {
        assert merged[..i + 1] == merged[..i] + [merged[i]];
        LastIndexAppend(merged[..i], merged[i], id);
      }
      index := index[merged[i].id := i];
    }
    assert merged[..|merged|] == merged;
    for i := 0 to |src|
      invariant Indexes(index, merged)
      invariant MergeModules(dst, src) == MergeModules(merged, src[i..])
    {
      var m := src[i];
      assert src[i..][0] == m && src[i..][1..] == src[i + 1..];
      assert (if m.id in index then Some(index[m.id]) else None) == LastIndex(merged, m.id);
      if m.id !in index {
        forall id ensures LastIndex(merged + [m], id) == if m.id == id then Some(|merged|) else LastIndex(merged, id) {
          LastIndexAppend(merged, m, id);
        }
        merged := merged + [m];
        index := index[m.id := |merged| - 1];
        continue;
      }
      var pos := index[m.id];
      var combined := MergeEventModule(merged[pos], m);
      if combined.Err? {
        OneFailure(combined);
        return Err(ConflictingDescriptions);
      }
      forall id ensures LastIndex(merged[pos := combined.value], id) == LastIndex(merged, id) {
        LastIndexUpdate(merged, pos, combined.value, id);
      }
      merged := merged[pos := combined.value];
    }
    return Ok(merged);
  }

  method MergeEventModule(dst: EventModule, src: EventModule) returns (r: Result<EventModule, Conflict>)
    ensures r == MergeModule(dst, src)
    decreases src, 0
  {
    var description :- MergeDescription(dst.description, src.description);
    var events := dst.events + src.events;
    var children :- MergeEventModules(dst.modules, src.modules);
    return Ok(EventModule(dst.id, description, children, events));
  }

  method MergeCatalogs(catalogs: seq<Catalog>) returns (r: Result<Catalog, Conflict>)
    ensures r == MergeEventCatalogs(catalogs)
  {
    var merged: Catalog := [];
    for i := 0 to |catalogs|
      invariant MergeEventCatalogs(catalogs) == MergeAll(merged, catalogs[i..])
    {
      assert catalogs[i..][1..] == catalogs[i + 1..];
      var modules := MergeEventModules(merged, catalogs[i]);
      if modules.Err? {
        return modules;
      }
      merged := modules.value;
    }
    return Ok(merged);
  }
}
