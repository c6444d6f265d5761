/** Code generation from event fragments: one generated file a feature, names unique across all. */
module EventCodegen {
  import opened Wrappers
  import opened Text
  import opened Naming
  import opened CatalogMerge
  import opened CatalogMergeLaws
  import opened CatalogValidate

  /** A feature's fragment; `pkg` is the name of its directory. */
  datatype Fragment = Fragment(pkg: string, catalog: Catalog)

  datatype EventView = EventView(
    constantName: string, eventType: string, id: string, path: seq<string>, category: string, subcategory: string)

  datatype Failure = NoFragments | BadFragment(pkg: string) | MergeFailed | CatalogInvalid(invalid: Invalid)

  /** The constant drops the leading module segment, which the package name already says. */
  function EventViewFor(e: Entry): EventView {
    EventView(
      EventConstantName(if |e.path| > 0 then e.path[1..] else e.path, e.event.id),
      EventTypeFor(e.path, e.event.id), e.event.id, e.path,
      if |e.path| > 1 then e.path[1] else "",
      if |e.path| > 2 then e.path[2] else "")
  }

  function Views(entries: seq<Entry>): seq<EventView> {
    seq(|entries|, i requires 0 <= i < |entries| => EventViewFor(entries[i]))
  }

  predicate WellNamed(f: Fragment) {
    |f.catalog| == 1 && f.catalog[0].id == f.pkg
  }

  function Catalogs(fragments: seq<Fragment>): seq<Catalog> {
    seq(|fragments|, i requires 0 <= i < |fragments| => fragments[i].catalog)
  }

  // ---- the generator ----

  method EntriesOf(path: seq<string>, events: seq<EventDefinition>) returns (out: seq<Entry>)
    ensures out == EventEntries(path, events)
  {
    out := [];
    for j := 0 to |events|
      invariant out == EventEntries(path, events)[..j]
    {
      out := out + [Entry(path, events[j])];
    }
  }

  lemma FlattenFrom(out: seq<Entry>, ms: Catalog, i: nat, path: seq<string>, currentPath: seq<string>)
    requires i < |ms| && currentPath == path + [ms[i].id]
    ensures out + Flatten(ms[i..], path)
         == out + EventEntries(currentPath, ms[i].events) + Flatten(ms[i].modules, currentPath)
              + Flatten(ms[i + 1..], path)
  {
    assert ms[i..][0] == ms[i] && ms[i..][1..] == ms[i + 1..];
  }

  method FlattenEventDefinitions(ms: Catalog, path: seq<string>) returns (out: seq<Entry>)
    ensures out == Flatten(ms, path)
    decreases ms
  {
    out := [];
    for i := 0 to |ms|
      invariant Flatten(ms, path) == out + Flatten(ms[i..], path)
    {
      var m := ms[i];
      var currentPath := path + [m.id];
      var own := EntriesOf(currentPath, m.events);
      var nested := FlattenEventDefinitions(m.modules, currentPath);
      FlattenFrom(out, ms, i, path, currentPath);
      out := out + own + nested;
    }
    assert out + [] == out;
  }

  // ---- the order of a generated file ----

  function TypeOf(e: Entry): string {
    EventTypeFor(e.path, e.event.id)
  }

  function InsertByType(e: Entry, sorted: seq<Entry>): seq<Entry> {
    if sorted == [] || Less(TypeOf(e), TypeOf(sorted[0])) then [e] + sorted
    else [sorted[0]] + InsertByType(e, sorted[1..])
  }

  function SortByType(entries: seq<Entry>): seq<Entry> {
    if entries == [] then [] else InsertByType(entries[0], SortByType(entries[1..]))
  }

  predicate Ordered(entries: seq<Entry>) {
    forall i, j :: 0 <= i < j < |entries| ==> !Less(TypeOf(entries[j]), TypeOf(entries[i]))
  }

  lemma {:induction false} InsertKeeps(e: Entry, sorted: seq<Entry>)
    ensures multiset(InsertByType(e, sorted)) == multiset{e} + multiset(sorted)
  {
    if sorted != [] && !Less(TypeOf(e), TypeOf(sorted[0])) {
      InsertKeeps(e, sorted[1..]);
      assert sorted == [sorted[0]] + sorted[1..];
    }
  }

  lemma OrderedCons(e: Entry, rest: seq<Entry>)
    requires Ordered(rest) && forall j :: 0 <= j < |rest| ==> !Less(TypeOf(rest[j]), TypeOf(e))
    ensures Ordered([e] + rest)
  {
    var all := [e] + rest;
    forall i, j | 0 <= i < j < |all| ensures !Less(TypeOf(all[j]), TypeOf(all[i])) {
      assert all[j] == rest[j - 1];
      if i > 0 {
        assert all[i] == rest[i - 1];
      }
    }
  }

  lemma AfterFirst(e: Entry, sorted: seq<Entry>, j: nat)
    requires Ordered(sorted) && j < |sorted| && !Less(TypeOf(sorted[0]), TypeOf(e))
    ensures !Less(TypeOf(sorted[j]), TypeOf(e))
  {
    if j > 0 {
      NotLessIsTransitive(TypeOf(e), TypeOf(sorted[0]), TypeOf(sorted[j]));
    }
  }

  lemma InsertedAfterFirst(e: Entry, sorted: seq<Entry>, j: nat)
    requires sorted != [] && Ordered(sorted) && !Less(TypeOf(e), TypeOf(sorted[0]))
    requires j < |InsertByType(e, sorted[1..])|
    ensures !Less(TypeOf(InsertByType(e, sorted[1..])[j]), TypeOf(sorted[0]))
  {
    var rest := InsertByType(e, sorted[1..]);
    InsertKeeps(e, sorted[1..]);
    assert rest[j] in multiset(rest);
    if rest[j] != e {
      var k :| 0 <= k < |sorted[1..]| && sorted[1..][k] == rest[j];
      assert rest[j] == sorted[k + 1];
    }
  }

  lemma {:induction false} InsertOrders(e: Entry, sorted: seq<Entry>)
    requires Ordered(sorted)
    ensures Ordered(InsertByType(e, sorted))
  {
    if sorted == [] {
    } else if Less(TypeOf(e), TypeOf(sorted[0])) {
      LessIsTotal(TypeOf(e), TypeOf(sorted[0]));
      forall j | 0 <= j < |sorted| ensures !Less(TypeOf(sorted[j]), TypeOf(e)) {
        AfterFirst(e, sorted, j);
      }
      OrderedCons(e, sorted);
    } else {
      InsertOrders(e, sorted[1..]);
      forall j | 0 <= j < |InsertByType(e, sorted[1..])|
        ensures !Less(TypeOf(InsertByType(e, sorted[1..])[j]), TypeOf(sorted[0]))
      {
        InsertedAfterFirst(e, sorted, j);
      }
      OrderedCons(sorted[0], InsertByType(e, sorted[1..]));
    }
  }

  lemma {:induction false} SortKeeps(entries: seq<Entry>)
    ensures multiset(SortByType(entries)) == multiset(entries)
  {
    if entries != [] {
      SortKeeps(entries[1..]);
      InsertKeeps(entries[0], SortByType(entries[1..]));
      assert entries == [entries[0]] + entries[1..];
    }
  }

  lemma {:induction false} SortOrders(entries: seq<Entry>)
    ensures Ordered(SortByType(entries))
  {
    if entries != [] {
      SortOrders(entries[1..]);
      InsertOrders(entries[0], SortByType(entries[1..]));
    }
  }

  /** Sorting keeps the events and puts them in order; where their types are distinct, in the only one. */
  lemma SortSorts(entries: seq<Entry>)
    ensures multiset(SortByType(entries)) == multiset(entries) && Ordered(SortByType(entries))
  {
    SortKeeps(entries);
    SortOrders(entries);
  }

  /** The events a fragment's generated file declares, in the order of their types. */
  function FileOf(f: Fragment): seq<EventView> {
    Views(SortByType(Flatten(f.catalog, [])))
  }

  lemma ViewsNext(entries: seq<Entry>, i: nat)
    requires i < |entries|
    ensures Views(entries)[..i + 1] == Views(entries)[..i] + [EventViewFor(entries[i])]
  {
  }

  method RenderEventManifest(catalog: Catalog) returns (views: seq<EventView>)
    ensures views == Views(SortByType(Flatten(catalog, [])))
  {
    var entries := FlattenEventDefinitions(catalog, []);
    entries := SortByType(entries);
    views := [];
    for i := 0 to |entries|
      invariant views == Views(entries)[..i]
    {
      ViewsNext(entries, i);
      views := views + [EventViewFor(entries[i])];
    }
  }

  /** The first fragment that is not one module named after its directory. */
  function FirstBad(fragments: seq<Fragment>): (bad: Option<string>)
    ensures bad.None? <==> forall i :: 0 <= i < |fragments| ==> WellNamed(fragments[i])
  {
    if fragments == [] then None
    else if !WellNamed(fragments[0]) then Some(fragments[0].pkg)
    else FirstBad(fragments[1..])
  }

  /** The fragment is not one module named after its directory, and it is the first. */
  predicate FirstBadAt(fragments: seq<Fragment>, i: int, pkg: string) {
    && 0 <= i < |fragments| && fragments[i].pkg == pkg
    && (|fragments[i].catalog| != 1 || fragments[i].catalog[0].id != pkg)
    && forall j :: 0 <= j < i ==> |fragments[j].catalog| == 1 && fragments[j].catalog[0].id == fragments[j].pkg
  }

  predicate AllNamed(fragments: seq<Fragment>) {
    && fragments != []
    && forall i :: 0 <= i < |fragments| ==>
         |fragments[i].catalog| == 1 && fragments[i].catalog[0].id == fragments[i].pkg
  }

  method CheckFragments(fragments: seq<Fragment>) returns (r: Result<(), Failure>)
    ensures r.Ok? <==> AllNamed(fragments)
    ensures r.Err? && fragments == [] ==> r.error == NoFragments
    ensures r.Err? && fragments != [] ==> r.error.BadFragment? && exists i :: FirstBadAt(fragments, i, r.error.pkg)
    ensures r.Err? ==> r.error == if fragments == [] then NoFragments else BadFragment(FirstBad(fragments).value)
  {
    if |fragments| == 0 {
      return Err(NoFragments);
    }
    for i := 0 to |fragments|
      invariant forall j :: 0 <= j < i ==> WellNamed(fragments[j])
      invariant FirstBad(fragments) == FirstBad(fragments[i..])
    {
      assert fragments[i..][0] == fragments[i] && fragments[i..][1..] == fragments[i + 1..];
      if !WellNamed(fragments[i]) {
        assert FirstBadAt(fragments, i, fragments[i].pkg);
        return Err(BadFragment(fragments[i].pkg));
      }
    }
    return Ok(());
  }

  /** What the generator accepts, and what it writes for each fragment. */
  function Accepts(fragments: seq<Fragment>): bool {
    && fragments != []
    && (forall i :: 0 <= i < |fragments| ==> WellNamed(fragments[i]))
    && MergeEventCatalogs(Catalogs(fragments)).Ok?
    && ValidateEventCatalog(MergeEventCatalogs(Catalogs(fragments)).value).Ok?
  }

  method RenderFragments(fragments: seq<Fragment>) returns (files: seq<seq<EventView>>)
    ensures |files| == |fragments| && forall i :: 0 <= i < |fragments| ==> files[i] == FileOf(fragments[i])
  {
    files := [];
    for i := 0 to |fragments|
      invariant |files| == i && forall j :: 0 <= j < i ==> files[j] == FileOf(fragments[j])
    {
      var views := RenderEventManifest(fragments[i].catalog);
      files := files + [views];
    }
  }

  /** Why generation fails: the first of its checks that does. */
  function Refusal(fragments: seq<Fragment>): Option<Failure> {
    if fragments == [] then Some(NoFragments)
    else if FirstBad(fragments).Some? then Some(BadFragment(FirstBad(fragments).value))
    else match MergeEventCatalogs(Catalogs(fragments))
      case Err(_) => Some(MergeFailed)
      case Ok(merged) =>
        match ValidateEventCatalog(merged)
        case Err(invalid) => Some(CatalogInvalid(invalid))
        case Ok(_) => None
  }

  /** What the failure says is so, and the checks before it found nothing. */
  ghost predicate RefusedFor(fragments: seq<Fragment>, failure: Failure) {
    match failure
    case NoFragments => fragments == []
    case BadFragment(pkg) => exists i :: FirstBadAt(fragments, i, pkg)
    case MergeFailed => AllNamed(fragments) && MergeEventCatalogs(Catalogs(fragments)).Err?
    case CatalogInvalid(e) =>
      && AllNamed(fragments) && MergeEventCatalogs(Catalogs(fragments)).Ok?
      && var merged := MergeEventCatalogs(Catalogs(fragments)).value;
         ValidateEventCatalog(merged) == Err(e) && IsSo(merged, e)
  }

  method GenerateEvent(fragments: seq<Fragment>) returns (r: Result<seq<seq<EventView>>, Failure>)
    ensures r.Ok? <==> Accepts(fragments)
    ensures r.Err? ==> RefusedFor(fragments, r.error)
    ensures r.Ok? ==> |r.value| == |fragments|
    ensures r.Ok? ==> forall i :: 0 <= i < |fragments| ==> r.value[i] == FileOf(fragments[i])
    ensures r.Err? ==> Refusal(fragments) == Some(r.error)
  {
    var _ :- CheckFragments(fragments);
    var merged := MergeCatalogs(Catalogs(fragments));
    if merged.Err? {
      return Err(MergeFailed);
    }
    var valid := Validate(merged.value);
    if valid.Err? {
      ErrorIsTrue(merged.value);
      return Err(CatalogInvalid(valid.error));
    }
    var files := RenderFragments(fragments);
    return Ok(files);
  }

  // ---- distinctness survives reordering ----

  lemma TwiceInMultiset<T(!new)>(s: seq<T>, i: nat, j: nat)
    requires i < j < |s| && s[i] == s[j]
    ensures multiset(s)[s[i]] >= 2
  {
    assert s == s[..j] + ([s[j]] + s[j + 1..]);
    assert s[..j][i] == s[i];
  }

  lemma Without<T(!new)>(s: seq<T>, i: nat)
    requires i < |s|
    ensures multiset(s) == multiset(s[..i] + s[i + 1..]) + multiset{s[i]}
  {
    assert s == s[..i] + ([s[i]] + s[i + 1..]);
  }

  lemma TwiceInSequence<T(!new)>(s: seq<T>, x: T) returns (i: nat, j: nat)
    requires multiset(s)[x] >= 2
    ensures i < j < |s| && s[i] == x && s[j] == x
  {
    assert x in multiset(s);
    i :| 0 <= i < |s| && s[i] == x;
    Without(s, i);
    var rest := s[..i] + s[i + 1..];
    assert x in multiset(rest);
    var k :| 0 <= k < |rest| && rest[k] == x;
    j := if k < i then k else k + 1;
    if j < i {
      i, j := j, i;
    }
  }

  /** Two entries at different places of `b` have two different places in `a`. */
  lemma PlacesElsewhere(a: seq<Entry>, b: seq<Entry>, i: nat, j: nat) returns (p: nat, q: nat)
    requires multiset(a) == multiset(b) && i < j < |b|
    ensures p < |a| && q < |a| && p != q && a[p] == b[i] && a[q] == b[j]
  {
    if b[i] == b[j] {
      TwiceInMultiset(b, i, j);
      p, q := TwiceInSequence(a, b[i]);
    } else {
      assert b[i] in multiset(b) && b[j] in multiset(b);
      assert b[i] in multiset(a) && b[j] in multiset(a);
      p :| 0 <= p < |a| && a[p] == b[i];
      q :| 0 <= q < |a| && a[q] == b[j];
    }
  }

  lemma ReorderingKeepsTypes(a: seq<Entry>, b: seq<Entry>)
    requires multiset(a) == multiset(b) && Distinct(Types(a))
    ensures Distinct(Types(b))
  {
    forall i, j | 0 <= i < j < |b| ensures Types(b)[i] != Types(b)[j] {
      var p, q := PlacesElsewhere(a, b, i, j);
      assert Types(a)[if p < q then p else q] != Types(a)[if p < q then q else p];
    }
  }

  lemma ReorderingKeepsConstants(a: seq<Entry>, b: seq<Entry>)
    requires multiset(a) == multiset(b) && Distinct(Constants(a))
    ensures Distinct(Constants(b))
  {
    forall i, j | 0 <= i < j < |b| ensures Constants(b)[i] != Constants(b)[j] {
      var p, q := PlacesElsewhere(a, b, i, j);
      assert Constants(a)[if p < q then p else q] != Constants(a)[if p < q then q else p];
    }
  }

  // ---- what generation guarantees ----

  lemma FlattenAllAt(catalogs: seq<Catalog>, k: nat) returns (before: seq<Entry>, after: seq<Entry>)
    requires k < |catalogs|
    ensures FlattenAll(catalogs) == before + Flatten(catalogs[k], []) + after
  {
    if k == 0 {
      before, after := [], FlattenAll(catalogs[1..]);
    } else {
      before, after := FlattenAllAt(catalogs[1..], k - 1);
      before := Flatten(catalogs[0], []) + before;
    }
  }

  lemma {:induction false} PathsBeginWith(ms: Catalog, path: seq<string>)
    ensures forall i :: 0 <= i < |Flatten(ms, path)| ==>
              |path| < |Flatten(ms, path)[i].path| && path <= Flatten(ms, path)[i].path
    decreases ms
  {
    if ms != [] {
      PathsBeginWith(ms[0].modules, path + [ms[0].id]);
      PathsBeginWith(ms[1..], path);
    }
  }

  lemma FragmentPathsBeginWithPkg(f: Fragment)
    requires WellNamed(f)
    ensures forall i :: 0 <= i < |Flatten(f.catalog, [])| ==>
              Flatten(f.catalog, [])[i].path != [] && Flatten(f.catalog, [])[i].path[0] == f.pkg
  {
    var m := f.catalog[0];
    assert f.catalog == [m] && [] + [m.id] == [f.pkg];
    FlattenOne(m, []);
    PathsBeginWith(m.modules, [f.pkg]);
  }

  /** In an accepted set of fragments, every event of every fragment has a type and a full constant
      name of its own across all fragments. */
  lemma NamesAreGloballyUnique(fragments: seq<Fragment>)
    requires Accepts(fragments)
    ensures Distinct(Types(FlattenAll(Catalogs(fragments)))) && Distinct(Constants(FlattenAll(Catalogs(fragments))))
  {
    var merged := MergeEventCatalogs(Catalogs(fragments)).value;
    AcceptsExactly(merged);
    MergeAllConserves([], Catalogs(fragments));
    ReorderingKeepsTypes(Flatten(merged, []), FlattenAll(Catalogs(fragments)));
    ReorderingKeepsConstants(Flatten(merged, []), FlattenAll(Catalogs(fragments)));
  }

  lemma MiddleIsDistinct(before: seq<Entry>, entries: seq<Entry>, after: seq<Entry>)
    requires Distinct(Constants(before + entries + after))
    ensures Distinct(Constants(entries))
  {
    var all, offset := before + entries + after, |before|;
    forall i, j | 0 <= i < j < |entries| ensures Constants(entries)[i] != Constants(entries)[j] {
      assert all[offset + i] == entries[i] && all[offset + j] == entries[j];
      assert Constants(all)[offset + i] != Constants(all)[offset + j];
    }
  }

  lemma FragmentConstantsAreDistinct(fragments: seq<Fragment>, k: nat)
    requires Accepts(fragments) && k < |fragments|
    ensures Distinct(Constants(Flatten(fragments[k].catalog, [])))
  {
    NamesAreGloballyUnique(fragments);
    var before, after := FlattenAllAt(Catalogs(fragments), k);
    MiddleIsDistinct(before, Flatten(fragments[k].catalog, []), after);
  }

  /** The package's name in front of a generated constant gives the full name. */
  lemma ConstantIsPkgAndLocal(f: Fragment, i: nat)
    requires WellNamed(f) && i < |Flatten(f.catalog, [])|
    ensures var entries := Flatten(f.catalog, []);
            Constants(entries)[i] == GoName(f.pkg) + Views(entries)[i].constantName
  {
    var e := Flatten(f.catalog, [])[i];
    FragmentPathsBeginWithPkg(f);
    ConstantOfTail(e.path, e.event.id);
  }

  function ConstantNames(views: seq<EventView>): seq<string> {
    seq(|views|, i requires 0 <= i < |views| => views[i].constantName)
  }

  /** Dropping the package's name from the constants of one fragment neither makes nor resolves a clash. */
  lemma LocalNamesAreDistinctExactly(f: Fragment)
    requires WellNamed(f)
    ensures var entries := Flatten(f.catalog, []);
            Distinct(ConstantNames(Views(entries))) <==> Distinct(Constants(entries))
  {
    var entries := Flatten(f.catalog, []);
    var names, full := ConstantNames(Views(entries)), Constants(entries);
    forall i, j | 0 <= i < j < |entries| ensures names[i] == names[j] <==> full[i] == full[j] {
      ConstantIsPkgAndLocal(f, i);
      ConstantIsPkgAndLocal(f, j);
      SamePrefix(GoName(f.pkg), names[i], names[j]);
    }
    assert |names| == |full| == |entries|;
  }

  lemma SamePrefix(p: string, a: string, b: string)
    ensures p + a == p + b <==> a == b
  {
    assert (p + a)[|p|..] == a && (p + b)[|p|..] == b;
  }

  /** So in an accepted set of fragments each generated file declares every event of its fragment once,
      in the order of their types, under pairwise distinct constants. */
  lemma GeneratedConstantsAreDistinct(fragments: seq<Fragment>, k: nat)
    requires Accepts(fragments) && k < |fragments|
    ensures Distinct(ConstantNames(FileOf(fragments[k])))
    ensures var entries := Flatten(fragments[k].catalog, []);
            multiset(SortByType(entries)) == multiset(entries) && Ordered(SortByType(entries))
  {
    var entries := Flatten(fragments[k].catalog, []);
    FragmentConstantsAreDistinct(fragments, k);
    SortSorts(entries);
    ReorderingKeepsConstants(entries, SortByType(entries));
    FragmentPathsBeginWithPkg(fragments[k]);
    forall i, j | 0 <= i < j < |SortByType(entries)|
      ensures FileOf(fragments[k])[i].constantName != FileOf(fragments[k])[j].constantName
    {
      SortedLocalNames(fragments[k], i);
      SortedLocalNames(fragments[k], j);
    }
  }

  lemma SortedLocalNames(f: Fragment, i: nat)
    requires WellNamed(f) && i < |SortByType(Flatten(f.catalog, []))|
    ensures var sorted := SortByType(Flatten(f.catalog, []));
            Constants(sorted)[i] == GoName(f.pkg) + FileOf(f)[i].constantName
  {
    var entries := Flatten(f.catalog, []);
    var e := SortByType(entries)[i];
    SortSorts(entries);
    FragmentPathsBeginWithPkg(f);
    assert e in multiset(SortByType(entries));
    assert e in entries;
    ConstantOfTail(e.path, e.event.id);
  }

  // ---- what a file tells of an event ----

  /** The view says of the event what it is and where it stands. */
  predicate Tells(view: EventView, e: Entry) {
    && view.id == e.event.id
    && view.path == e.path
    && view.eventType == EventTypeFor(e.path, e.event.id)
    && (e.path != [] ==> EventConstantName(e.path, e.event.id) == GoName(e.path[0]) + view.constantName)
    && view.category == (if 2 <= |e.path| then e.path[1] else "")
    && view.subcategory == (if 3 <= |e.path| then e.path[2] else "")
  }

  lemma ViewTells(e: Entry)
    ensures Tells(EventViewFor(e), e)
  {
    if e.path != [] {
      ConstantOfTail(e.path, e.event.id);
    }
  }

  lemma SortedHasTheSame(entries: seq<Entry>)
    ensures |SortByType(entries)| == |entries|
    ensures forall e :: e in SortByType(entries) <==> e in entries
  {
    var sorted := SortByType(entries);
    SortSorts(entries);
    assert |sorted| == |multiset(sorted)| == |multiset(entries)| == |entries|;
    assert forall e :: e in sorted <==> e in multiset(sorted);
    assert forall e :: e in entries <==> e in multiset(entries);
  }

  lemma FileTellsInOrder(f: Fragment)
    ensures var sorted := SortByType(Flatten(f.catalog, []));
            |FileOf(f)| == |sorted| && forall i :: 0 <= i < |sorted| ==> Tells(FileOf(f)[i], sorted[i])
  {
    var sorted := SortByType(Flatten(f.catalog, []));
    forall i | 0 <= i < |sorted| ensures Tells(FileOf(f)[i], sorted[i]) {
      ViewTells(sorted[i]);
    }
  }

  /** A fragment's file declares each of its events, and as many as there are. */
  lemma FileTells(f: Fragment, e: Entry) returns (i: nat)
    requires e in Flatten(f.catalog, [])
    ensures |FileOf(f)| == |Flatten(f.catalog, [])|
    ensures i < |FileOf(f)| && Tells(FileOf(f)[i], e)
  {
    SortedHasTheSame(Flatten(f.catalog, []));
    FileTellsInOrder(f);
    i :| 0 <= i < |SortByType(Flatten(f.catalog, []))| && SortByType(Flatten(f.catalog, []))[i] == e;
  }

  // ---- exact acceptance ----

  function Concatenation(catalogs: seq<Catalog>): Catalog {
    if catalogs == [] then [] else catalogs[0] + Concatenation(catalogs[1..])
  }

  lemma {:induction false} DistinctModulesConcatenate(merged: Catalog, fragments: seq<Fragment>)
    requires forall i :: 0 <= i < |fragments| ==> WellNamed(fragments[i])
    requires forall i, j :: 0 <= i < j < |fragments| ==> fragments[i].pkg != fragments[j].pkg
    requires forall i :: 0 <= i < |fragments| ==> !Has(merged, fragments[i].pkg)
    ensures MergeAll(merged, Catalogs(fragments)) == Ok(merged + Concatenation(Catalogs(fragments)))
    decreases |fragments|
  {
    if fragments == [] {
      assert merged + [] == merged;
    } else {
      var f, rest := fragments[0], fragments[1..];
      assert Catalogs(fragments)[1..] == Catalogs(rest);
      assert f.catalog == [f.catalog[0]];
      MergeOne(merged, f.catalog[0]);
      LastIndexHas(merged, f.pkg);
      var merged' := merged + f.catalog;
      forall i | 0 <= i < |rest| ensures !Has(merged', rest[i].pkg) {
        assert rest[i] == fragments[i + 1];
        InsertKeepsIDs(merged, f.catalog[0], rest[i].pkg);
      }
      DistinctModulesConcatenate(merged', rest);
      assert merged' + Concatenation(Catalogs(rest)) == merged + (f.catalog + Concatenation(Catalogs(rest)));
    }
  }

  lemma {:induction false} FlattenOfConcatenation(catalogs: seq<Catalog>)
    ensures Flatten(Concatenation(catalogs), []) == FlattenAll(catalogs)
  {
    if catalogs != [] {
      FlattenAppend(catalogs[0], Concatenation(catalogs[1..]), []);
      FlattenOfConcatenation(catalogs[1..]);
    }
  }

  lemma {:induction false} ConcatenationAt(fragments: seq<Fragment>)
    requires forall i :: 0 <= i < |fragments| ==> WellNamed(fragments[i])
    ensures var ms := Concatenation(Catalogs(fragments));
            |ms| == |fragments| && forall i :: 0 <= i < |ms| ==> [ms[i]] == fragments[i].catalog
    decreases |fragments|
  {
    if fragments != [] {
      assert Catalogs(fragments)[1..] == Catalogs(fragments[1..]);
      ConcatenationAt(fragments[1..]);
      assert fragments[0].catalog == [fragments[0].catalog[0]];
    }
  }

  lemma AcceptsConcatenation(fragments: seq<Fragment>)
    requires fragments != [] && forall i :: 0 <= i < |fragments| ==> WellNamed(fragments[i])
    requires forall i, j :: 0 <= i < j < |fragments| ==> fragments[i].pkg != fragments[j].pkg
    ensures Accepts(fragments) <==> CatalogValid(Concatenation(Catalogs(fragments)))
  {
    var ms := Concatenation(Catalogs(fragments));
    DistinctModulesConcatenate([], fragments);
    assert [] + ms == ms;
    AcceptsExactly(ms);
    ConcatenationAt(fragments);
  }

  lemma ConcatenationValid(fragments: seq<Fragment>)
    requires forall i :: 0 <= i < |fragments| ==> WellNamed(fragments[i])
    requires forall i, j :: 0 <= i < j < |fragments| ==> fragments[i].pkg != fragments[j].pkg
    ensures ModulesValid(Concatenation(Catalogs(fragments)))
       <==> forall i :: 0 <= i < |fragments| ==> WellNamed(fragments[i]) && ModuleValid(fragments[i].catalog[0])
  {
    var ms := Concatenation(Catalogs(fragments));
    ConcatenationAt(fragments);
    forall i | 0 <= i < |fragments| ensures ms[i] == fragments[i].catalog[0] && ms[i].id == fragments[i].pkg {
      assert [ms[i]][0] == ms[i];
    }
  }

  /** Fragments of different directories are accepted exactly when each is well named and well
      formed by itself and no type or constant name occurs twice among all their events. */
  lemma AcceptanceExactly(fragments: seq<Fragment>)
    requires forall i, j :: 0 <= i < j < |fragments| ==> fragments[i].pkg != fragments[j].pkg
    ensures Accepts(fragments) <==>
              && fragments != []
              && (forall i :: 0 <= i < |fragments| ==> WellNamed(fragments[i]) && ModuleValid(fragments[i].catalog[0]))
              && Distinct(Types(FlattenAll(Catalogs(fragments))))
              && Distinct(Constants(FlattenAll(Catalogs(fragments))))
  {
    if fragments != [] && forall i :: 0 <= i < |fragments| ==> WellNamed(fragments[i]) {
      AcceptsConcatenation(fragments);
      ConcatenationValid(fragments);
      ConcatenationAt(fragments);
      FlattenOfConcatenation(Catalogs(fragments));
    }
  }
}
