/** What a merged catalog holds, path by path, and when a merge fails, without reference to how it is
    computed. */
module CatalogMergeMeaning {
  import opened Wrappers
  import opened Text
  import opened CatalogMerge
  import opened CatalogMergeLaws

  type Path = seq<string>

  // ---- a catalog, read by path ----

  /** The events of a path: those of every module there, in order. */
  function EventsAt(ms: Catalog, path: Path): seq<EventDefinition>
    requires path != []
    decreases ms, 1
  {
    if ms == [] then [] else EventsOf(ms[0], path) + EventsAt(ms[1..], path)
  }

  function EventsOf(m: EventModule, path: Path): seq<EventDefinition>
    requires path != []
    decreases m, 0
  {
    if m.id != path[0] then [] else if |path| == 1 then m.events else EventsAt(m.modules, path[1..])
  }

  /** The descriptions of a path: those that are not empty of every module there. */
  function DescriptionsAt(ms: Catalog, path: Path): set<string>
    requires path != []
    decreases ms, 1
  {
    if ms == [] then {} else DescriptionsOf(ms[0], path) + DescriptionsAt(ms[1..], path)
  }

  function DescriptionsOf(m: EventModule, path: Path): set<string>
    requires path != []
    decreases m, 0
  {
    if m.id != path[0] then {}
    else if |path| == 1 then (if m.description == "" then {} else {m.description})
    else DescriptionsAt(m.modules, path[1..])
  }

  // ---- appending and replacing ----

  lemma {:induction false} AtAppend(a: Catalog, b: Catalog, path: Path)
    requires path != []
    ensures EventsAt(a + b, path) == EventsAt(a, path) + EventsAt(b, path)
    ensures DescriptionsAt(a + b, path) == DescriptionsAt(a, path) + DescriptionsAt(b, path)
    decreases |a|
  {
    if a == [] {
      assert a + b == b;
    } else {
      AtAppend(a[1..], b, path);
      assert (a + b)[0] == a[0] && (a + b)[1..] == a[1..] + b;
      Regroup(EventsOf(a[0], path), EventsAt(a[1..], path), EventsAt(b, path));
    }
  }

  lemma AtOne(m: EventModule, path: Path)
    requires path != []
    ensures EventsAt([m], path) == EventsOf(m, path) && DescriptionsAt([m], path) == DescriptionsOf(m, path)
  {
    assert [m][1..] == [];
  }

  lemma {:induction false} Absent(ms: Catalog, path: Path)
    requires path != [] && forall i :: 0 <= i < |ms| ==> ms[i].id != path[0]
    ensures EventsAt(ms, path) == [] && DescriptionsAt(ms, path) == {}
    decreases |ms|
  {
    if ms != [] {
      Absent(ms[1..], path);
    }
  }

  lemma Split3(ms: Catalog, i: nat, path: Path)
    requires i < |ms| && path != []
    ensures EventsAt(ms, path) == EventsAt(ms[..i], path) + EventsOf(ms[i], path) + EventsAt(ms[i + 1..], path)
    ensures DescriptionsAt(ms, path) ==
              DescriptionsAt(ms[..i], path) + DescriptionsOf(ms[i], path) + DescriptionsAt(ms[i + 1..], path)
  {
    assert ms == ms[..i] + [ms[i]] + ms[i + 1..];
    AtAppend(ms[..i] + [ms[i]], ms[i + 1..], path);
    AtAppend(ms[..i], [ms[i]], path);
    AtOne(ms[i], path);
  }

  /** Replacing the last module of its ID by one that holds more. */
  lemma AtReplaced(ms: Catalog, i: nat, m: EventModule, path: Path,
                   events: seq<EventDefinition>, descriptions: set<string>)
    requires i < |ms| && path != [] && LastIndex(ms, ms[i].id) == Some(i)
    requires EventsOf(m, path) == EventsOf(ms[i], path) + events
    requires DescriptionsOf(m, path) == DescriptionsOf(ms[i], path) + descriptions
    requires path[0] != ms[i].id ==> events == []
    ensures EventsAt(ms[i := m], path) == EventsAt(ms, path) + events
    ensures DescriptionsAt(ms[i := m], path) == DescriptionsAt(ms, path) + descriptions
  {
    Split3(ms, i, path);
    Split3(ms[i := m], i, path);
    assert ms[i := m][..i] == ms[..i] && ms[i := m][i + 1..] == ms[i + 1..];
    if path[0] == ms[i].id {
      Absent(ms[i + 1..], path);
    }
    MoveLast(EventsAt(ms[..i], path), EventsOf(ms[i], path), events, EventsAt(ms[i + 1..], path));
    MoveLastOfSets(DescriptionsAt(ms[..i], path), DescriptionsOf(ms[i], path), descriptions,
                   DescriptionsAt(ms[i + 1..], path));
  }

  lemma MoveLast<T>(a: seq<T>, b: seq<T>, c: seq<T>, d: seq<T>)
    requires c == [] || d == []
    ensures a + (b + c) + d == a + b + d + c
  {
  }

  lemma MoveLastOfSets<T>(a: set<T>, b: set<T>, c: set<T>, d: set<T>)
    ensures a + (b + c) + d == a + b + d + c
  {
  }

  // ---- what a successful merge holds ----

  lemma ModuleHolds(dst: EventModule, src: EventModule, path: Path)
    requires path != [] && dst.id == src.id && MergeModule(dst, src).Ok?
    ensures EventsOf(MergeModule(dst, src).value, path) == EventsOf(dst, path) + EventsOf(src, path)
    ensures DescriptionsOf(MergeModule(dst, src).value, path) == DescriptionsOf(dst, path) + DescriptionsOf(src, path)
    decreases src, 0
  {
    if dst.id == path[0] && |path| > 1 {
      MergeHolds(dst.modules, src.modules, path[1..]);
    }
  }

  lemma InsertHolds(dst: Catalog, m: EventModule, path: Path)
    requires path != [] && Insert(dst, m).Ok?
    ensures EventsAt(Insert(dst, m).value, path) == EventsAt(dst, path) + EventsOf(m, path)
    ensures DescriptionsAt(Insert(dst, m).value, path) == DescriptionsAt(dst, path) + DescriptionsOf(m, path)
    decreases m, 1
  {
    var i := LastIndex(dst, m.id);
    if i.None? {
      AtAppend(dst, [m], path);
      AtOne(m, path);
    } else {
      ModuleHolds(dst[i.value], m, path);
      AtReplaced(dst, i.value, MergeModule(dst[i.value], m).value, path, EventsOf(m, path), DescriptionsOf(m, path));
    }
  }

  /** In a merge that succeeds, each path has the events of both catalogs there, the first's before the
      second's, and the descriptions of both. */
  lemma {:induction false} MergeHolds(dst: Catalog, src: Catalog, path: Path)
    requires path != [] && MergeModules(dst, src).Ok?
    ensures EventsAt(MergeModules(dst, src).value, path) == EventsAt(dst, path) + EventsAt(src, path)
    ensures DescriptionsAt(MergeModules(dst, src).value, path) == DescriptionsAt(dst, path) + DescriptionsAt(src, path)
    decreases src
  {
    if src != [] {
      InsertHolds(dst, src[0], path);
      MergeHolds(Insert(dst, src[0]).value, src[1..], path);
    }
  }

  // ---- the order of modules ----

  function IDs(ms: Catalog): seq<string> {
    seq(|ms|, i requires 0 <= i < |ms| => ms[i].id)
  }

  /** The IDs with those of `more` added that are not yet there, in order. */
  function WithNew(ids: seq<string>, more: seq<string>): seq<string>
    decreases |more|
  {
    if more == [] then ids
    else WithNew(if more[0] in ids then ids else ids + [more[0]], more[1..])
  }

  lemma InsertOrder(dst: Catalog, m: EventModule)
    requires Insert(dst, m).Ok?
    ensures IDs(Insert(dst, m).value) == if m.id in IDs(dst) then IDs(dst) else IDs(dst) + [m.id]
  {
    var i := LastIndex(dst, m.id);
    if i.Some? {
      assert IDs(dst)[i.value] == m.id;
    }
  }

  /** Modules keep their place, and new ones follow in the order in which they first occur. */
  lemma {:induction false} MergeOrder(dst: Catalog, src: Catalog)
    requires MergeModules(dst, src).Ok?
    ensures IDs(MergeModules(dst, src).value) == WithNew(IDs(dst), IDs(src))
    decreases |src|
  {
    if src != [] {
      InsertOrder(dst, src[0]);
      MergeOrder(Insert(dst, src[0]).value, src[1..]);
      assert IDs(src)[1..] == IDs(src[1..]);
    }
  }

  // ---- when a merge fails ----

  /** Siblings have IDs of their own, at every level. */
  predicate Normal(ms: Catalog) {
    && DistinctIDs(ms)
    && forall i :: 0 <= i < |ms| ==> Normal(ms[i].modules)
  }

  predicate Agree(a: Catalog, b: Catalog, path: Path) {
    path != [] ==> forall x, y :: x in DescriptionsAt(a, path) && y in DescriptionsAt(b, path) ==> x == y
  }

  lemma AtTheOne(ms: Catalog, i: nat, path: Path)
    requires Normal(ms) && i < |ms| && path != [] && path[0] == ms[i].id
    ensures DescriptionsAt(ms, path) == DescriptionsOf(ms[i], path)
  {
    Split3(ms, i, path);
    Absent(ms[..i], path);
    Absent(ms[i + 1..], path);
  }

  /** A normal catalog has at most one description a path. */
  lemma {:induction false} OneDescription(ms: Catalog, path: Path, x: string, y: string)
    requires Normal(ms) && path != [] && x in DescriptionsAt(ms, path) && y in DescriptionsAt(ms, path)
    ensures x == y
    decreases |path|
  {
    if i: nat :| i < |ms| && ms[i].id == path[0] {
      AtTheOne(ms, i, path);
      if |path| > 1 {
        OneDescription(ms[i].modules, path[1..], x, y);
      }
    } else {
      Absent(ms, path);
    }
  }

  lemma InsertKeepsNormal(dst: Catalog, m: EventModule)
    requires Normal(dst) && Normal(m.modules) && Insert(dst, m).Ok?
    ensures Normal(Insert(dst, m).value)
    decreases m, 1
  {
    var i := LastIndex(dst, m.id);
    if i.Some? {
      MergeKeepsNormal(dst[i.value].modules, m.modules);
      var r := Insert(dst, m).value;
      assert forall j :: 0 <= j < |r| && j != i.value ==> r[j] == dst[j];
    }
  }

  lemma {:induction false} MergeKeepsNormal(dst: Catalog, src: Catalog)
    requires Normal(dst) && Normal(src) && MergeModules(dst, src).Ok?
    ensures Normal(MergeModules(dst, src).value)
    decreases src, 2
  {
    if src != [] {
      InsertKeepsNormal(dst, src[0]);
      MergeKeepsNormal(Insert(dst, src[0]).value, src[1..]);
    }
  }

  lemma FailedModuleConflicts(dst: EventModule, src: EventModule) returns (path: Path)
    requires Normal(dst.modules) && Normal(src.modules) && dst.id == src.id && MergeModule(dst, src).Err?
    ensures path != [] && path[0] == dst.id
    ensures exists x, y :: x in DescriptionsOf(dst, path) && y in DescriptionsOf(src, path) && x != y
    decreases src, 0
  {
    if MergeDescription(dst.description, src.description).Err? {
      path := [dst.id];
      assert dst.description in DescriptionsOf(dst, path) && src.description in DescriptionsOf(src, path);
    } else {
      var rest := FailedMergeConflicts(dst.modules, src.modules);
      path := [dst.id] + rest;
      assert path[1..] == rest && |path| > 1;
      var x, y :| x in DescriptionsAt(dst.modules, rest) && y in DescriptionsAt(src.modules, rest) && x != y;
      assert x in DescriptionsOf(dst, path) && y in DescriptionsOf(src, path);
    }
  }

  /** A failed merge names a path where the two catalogs disagree. */
  lemma {:induction false} FailedMergeConflicts(dst: Catalog, src: Catalog) returns (path: Path)
    requires Normal(dst) && Normal(src) && MergeModules(dst, src).Err?
    ensures path != [] && !Agree(dst, src, path)
    decreases src, 2
  {
    var m := src[0];
    var i := LastIndex(dst, m.id);
    if Insert(dst, m).Err? {
      path := FailedModuleConflicts(dst[i.value], m);
      AtTheOne(dst, i.value, path);
      AtTheOne(src, 0, path);
    } else {
      InsertKeepsNormal(dst, m);
      path := FailedMergeConflicts(Insert(dst, m).value, src[1..]);
      InsertHolds(dst, m, path);
      if path[0] == m.id {
        Absent(src[1..], path);
      }
      assert DescriptionsAt(src, path) == DescriptionsOf(m, path) + DescriptionsAt(src[1..], path);
    }
  }

  /** Catalogs whose siblings have IDs of their own merge exactly when, on every path, they do not give
      two different descriptions. */
  lemma MergeSucceedsExactly(dst: Catalog, src: Catalog)
    requires Normal(dst) && Normal(src)
    ensures MergeModules(dst, src).Ok? <==> forall path :: Agree(dst, src, path)
  {
    if MergeModules(dst, src).Ok? {
      MergeKeepsNormal(dst, src);
      forall path ensures Agree(dst, src, path) {
        if path != [] {
          MergeHolds(dst, src, path);
          forall x, y | x in DescriptionsAt(dst, path) && y in DescriptionsAt(src, path) ensures x == y {
            OneDescription(MergeModules(dst, src).value, path, x, y);
          }
        }
      }
    } else {
      var path := FailedMergeConflicts(dst, src);
    }
  }

  // ---- any number of catalogs ----

  function AllEventsAt(catalogs: seq<Catalog>, path: Path): seq<EventDefinition>
    requires path != []
  {
    if catalogs == [] then [] else EventsAt(catalogs[0], path) + AllEventsAt(catalogs[1..], path)
  }

  /** A merge of many that succeeds has at each path the events of all, in order. */
  lemma {:induction false} MergeAllHolds(merged: Catalog, catalogs: seq<Catalog>, path: Path)
    requires path != [] && MergeAll(merged, catalogs).Ok?
    ensures EventsAt(MergeAll(merged, catalogs).value, path) == EventsAt(merged, path) + AllEventsAt(catalogs, path)
    decreases |catalogs|
  {
    if catalogs != [] {
      MergeHolds(merged, catalogs[0], path);
      MergeAllHolds(MergeModules(merged, catalogs[0]).value, catalogs[1..], path);
      Regroup(EventsAt(merged, path), EventsAt(catalogs[0], path), AllEventsAt(catalogs[1..], path));
    }
  }

  predicate AllNormal(catalogs: seq<Catalog>) {
    forall i :: 0 <= i < |catalogs| ==> Normal(catalogs[i])
  }

  ghost predicate AgreeEverywhere(a: Catalog, b: Catalog) {
    forall path :: Agree(a, b, path)
  }

  ghost predicate PairwiseAgree(catalogs: seq<Catalog>) {
    forall i, j :: 0 <= i < j < |catalogs| ==> AgreeEverywhere(catalogs[i], catalogs[j])
  }

  lemma MergedAgrees(a: Catalog, b: Catalog, c: Catalog)
    requires MergeModules(a, b).Ok?
    ensures AgreeEverywhere(MergeModules(a, b).value, c) <==> AgreeEverywhere(a, c) && AgreeEverywhere(b, c)
  {
    var ab := MergeModules(a, b).value;
    forall path ensures Agree(ab, c, path) <==> Agree(a, c, path) && Agree(b, c, path) {
      if path != [] {
        MergeHolds(a, b, path);
      }
    }
    if AgreeEverywhere(ab, c) {
      forall path ensures Agree(a, c, path) && Agree(b, c, path) {
        assert Agree(ab, c, path);
      }
    }
  }

  ghost predicate AgreesWithAll(a: Catalog, catalogs: seq<Catalog>) {
    forall i :: 0 <= i < |catalogs| ==> AgreeEverywhere(a, catalogs[i])
  }

  lemma MergedAgreesWithAll(a: Catalog, b: Catalog, rest: seq<Catalog>)
    requires MergeModules(a, b).Ok?
    ensures AgreesWithAll(MergeModules(a, b).value, rest) <==> AgreesWithAll(a, rest) && AgreesWithAll(b, rest)
  {
    forall i | 0 <= i < |rest|
      ensures AgreeEverywhere(MergeModules(a, b).value, rest[i])
         <==> AgreeEverywhere(a, rest[i]) && AgreeEverywhere(b, rest[i])
    {
      MergedAgrees(a, b, rest[i]);
    }
  }

  lemma PairwiseCons(catalogs: seq<Catalog>)
    requires catalogs != []
    ensures PairwiseAgree(catalogs) <==> AgreesWithAll(catalogs[0], catalogs[1..]) && PairwiseAgree(catalogs[1..])
  {
    var rest := catalogs[1..];
    assert forall i :: 0 < i < |catalogs| ==> catalogs[i] == rest[i - 1];
    assert forall i :: 0 <= i < |rest| ==> rest[i] == catalogs[i + 1];
  }

  lemma {:induction false} MergeOntoSucceedsExactly(merged: Catalog, catalogs: seq<Catalog>)
    requires Normal(merged) && AllNormal(catalogs)
    ensures MergeAll(merged, catalogs).Ok? <==> AgreesWithAll(merged, catalogs) && PairwiseAgree(catalogs)
    decreases |catalogs|
  {
    if catalogs != [] {
      var first, rest := catalogs[0], catalogs[1..];
      MergeSucceedsExactly(merged, first);
      PairwiseCons(catalogs);
      assert AgreesWithAll(merged, catalogs) <==> AgreeEverywhere(merged, first) && AgreesWithAll(merged, rest) by {
        assert forall i :: 0 < i < |catalogs| ==> catalogs[i] == rest[i - 1];
        assert forall i :: 0 <= i < |rest| ==> rest[i] == catalogs[i + 1];
      }
      if MergeModules(merged, first).Ok? {
        MergeKeepsNormal(merged, first);
        MergedAgreesWithAll(merged, first, rest);
        MergeOntoSucceedsExactly(MergeModules(merged, first).value, rest);
      }
    }
  }

  /** Any number of catalogs, each with distinct sibling IDs, merge exactly when no two of them give
      different descriptions on any path. */
  lemma MergeAllSucceedsExactly(catalogs: seq<Catalog>)
    requires AllNormal(catalogs)
    ensures MergeEventCatalogs(catalogs).Ok? <==> PairwiseAgree(catalogs)
  {
    MergeOntoSucceedsExactly([], catalogs);
    forall i | 0 <= i < |catalogs| ensures AgreeEverywhere([], catalogs[i]) {
    }
  }
}
