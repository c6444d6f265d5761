/** Laws of the merge: it is associative on all catalogs, and it loses and invents no event. */
module CatalogMergeLaws {
  import opened Wrappers
  import opened CatalogMerge

  // ---- sequencing ----

  function ThenInsert(r: Result<Catalog, Conflict>, m: EventModule): Result<Catalog, Conflict> {
    var ms :- r; Insert(ms, m)
  }

  function ThenMerge(r: Result<Catalog, Conflict>, src: Catalog): Result<Catalog, Conflict> {
    var ms :- r; MergeModules(ms, src)
  }

  function MergeOnto(dst: Catalog, r: Result<Catalog, Conflict>): Result<Catalog, Conflict> {
    var src :- r; MergeModules(dst, src)
  }

  lemma {:induction false} MergeAppend(dst: Catalog, a: Catalog, b: Catalog)
    ensures MergeModules(dst, a + b) == ThenMerge(MergeModules(dst, a), b)
    decreases |a|
  {
    if a == [] {
      assert a + b == b;
    } else {
      assert (a + b)[1..] == a[1..] + b;
      var dst' := Insert(dst, a[0]);
      if dst'.Ok? {
        MergeAppend(dst'.value, a[1..], b);
      }
    }
  }

  lemma MergeOne(dst: Catalog, m: EventModule)
    ensures MergeModules(dst, [m]) == Insert(dst, m)
  {
    assert [m][1..] == [];
  }

  // ---- where an insertion lands ----

  predicate Has(ms: Catalog, id: string) {
    exists i :: 0 <= i < |ms| && ms[i].id == id
  }

  lemma LastIndexHas(ms: Catalog, id: string)
    ensures LastIndex(ms, id).Some? <==> Has(ms, id)
  {
  }

  lemma InsertKeepsIDs(dst: Catalog, m: EventModule, id: string)
    requires Insert(dst, m).Ok?
    ensures Has(Insert(dst, m).value, id) <==> Has(dst, id) || m.id == id
  {
    LastIndexHas(dst, m.id);
    var r := Insert(dst, m).value;
    assert forall i :: 0 <= i < |dst| ==> r[i].id == dst[i].id;
    assert LastIndex(dst, m.id).None? ==> r[|dst|].id == m.id;
  }

  lemma CombineCommutesWithAppend(dst: Catalog, i: nat, m: EventModule, n: EventModule)
    requires LastIndex(dst, m.id) == Some(i) && LastIndex(dst, n.id).None?
    ensures ThenInsert(Insert(dst, m), n) == ThenInsert(Insert(dst, n), m)
  {
    LastIndexAppend(dst, n, m.id);
    var cm := MergeModule(dst[i], m);
    if cm.Ok? {
      LastIndexUpdate(dst, i, cm.value, n.id);
      assert dst[i := cm.value] + [n] == (dst + [n])[i := cm.value];
    }
  }

  lemma CombinesCommute(dst: Catalog, i: nat, m: EventModule, j: nat, n: EventModule)
    requires LastIndex(dst, m.id) == Some(i) && LastIndex(dst, n.id) == Some(j) && m.id != n.id
    ensures ThenInsert(Insert(dst, m), n) == ThenInsert(Insert(dst, n), m)
  {
    var cm, cn := MergeModule(dst[i], m), MergeModule(dst[j], n);
    OneFailure(cm);
    OneFailure(cn);
    if cm.Ok? {
      LastIndexUpdate(dst, i, cm.value, n.id);
      assert dst[i := cm.value][j] == dst[j];
    }
    if cn.Ok? {
      LastIndexUpdate(dst, j, cn.value, m.id);
      assert dst[j := cn.value][i] == dst[i];
    }
    if cm.Ok? && cn.Ok? {
      assert dst[i := cm.value][j := cn.value] == dst[j := cn.value][i := cm.value];
    }
  }

  /** Insertions under different IDs commute once the first ID is present. */
  lemma InsertsCommute(dst: Catalog, m: EventModule, n: EventModule)
    requires Has(dst, m.id) && m.id != n.id
    ensures ThenInsert(Insert(dst, m), n) == ThenInsert(Insert(dst, n), m)
  {
    LastIndexHas(dst, m.id);
    var i := LastIndex(dst, m.id).value;
    if LastIndex(dst, n.id).None? {
      CombineCommutesWithAppend(dst, i, m, n);
    } else {
      CombinesCommute(dst, i, m, LastIndex(dst, n.id).value, n);
    }
  }

  lemma TailHas(q: Catalog, id: string)
    requires q != [] && !Has(q, id)
    ensures q[0].id != id && !Has(q[1..], id)
  {
    assert forall i :: 0 <= i < |q| - 1 ==> q[1..][i] == q[i + 1];
  }

  lemma {:induction false} InsertPast(dst: Catalog, m: EventModule, q: Catalog)
    requires Has(dst, m.id) && !Has(q, m.id)
    ensures ThenMerge(Insert(dst, m), q) == ThenInsert(MergeModules(dst, q), m)
    decreases |q|
  {
    if q != [] {
      TailHas(q, m.id);
      InsertsCommute(dst, m, q[0]);
      OneFailure(Insert(dst, m));
      if Insert(dst, q[0]).Ok? {
        InsertKeepsIDs(dst, q[0], m.id);
        InsertPast(Insert(dst, q[0]).value, m, q[1..]);
      }
    }
  }

  // ---- associativity ----

  lemma DescriptionsAssociate(a: string, b: string, c: string)
    ensures (var ab :- MergeDescription(a, b); MergeDescription(ab, c))
         == (var bc :- MergeDescription(b, c); MergeDescription(a, bc))
  {
  }

  lemma {:induction false} ModulesAssociate(a: EventModule, b: EventModule, c: EventModule)
    ensures (var ab :- MergeModule(a, b); MergeModule(ab, c)) == (var bc :- MergeModule(b, c); MergeModule(a, bc))
    decreases c, 0
  {
    DescriptionsAssociate(a.description, b.description, c.description);
    MergeAssociates(a.modules, b.modules, c.modules);
    var ab, bc := MergeModule(a, b), MergeModule(b, c);
    OneFailure(ab);
    OneFailure(bc);
    OneFailure(MergeModules(a.modules, b.modules));
    OneFailure(MergeModules(b.modules, c.modules));
    if ab.Ok? {
      OneFailure(MergeModule(ab.value, c));
    }
    if bc.Ok? {
      OneFailure(MergeModule(a, bc.value));
    }
    assert (a.events + b.events) + c.events == a.events + (b.events + c.events);
  }

  /** Merging c into b first and inserting the result is inserting b and then c. */
  lemma InsertCombined(dst: Catalog, b: EventModule, c: EventModule)
    requires b.id == c.id
    ensures (var bc :- MergeModule(b, c); Insert(dst, bc)) == ThenInsert(Insert(dst, b), c)
    decreases c, 1
  {
    var i := LastIndex(dst, b.id);
    if i.None? {
      LastIndexAppend(dst, b, c.id);
      if MergeModule(b, c).Ok? {
        assert (dst + [b])[|dst| := MergeModule(b, c).value] == dst + [MergeModule(b, c).value];
      }
    } else {
      ModulesAssociate(dst[i.value], b, c);
      var ab := MergeModule(dst[i.value], b);
      if ab.Ok? {
        LastIndexUpdate(dst, i.value, ab.value, c.id);
        if MergeModule(ab.value, c).Ok? {
          assert dst[i.value := ab.value][i.value := MergeModule(ab.value, c).value]
              == dst[i.value := MergeModule(ab.value, c).value];
        }
      }
    }
  }

  lemma InsertAssociates(a: Catalog, b: Catalog, m: EventModule)
    ensures MergeOnto(a, Insert(b, m)) == ThenInsert(MergeModules(a, b), m)
    decreases m, 3
  {
    var k := LastIndex(b, m.id);
    if k.None? {
      MergeAppend(a, b, [m]);
      if MergeModules(a, b).Ok? {
        MergeOne(MergeModules(a, b).value, m);
      }
    } else {
      var p, bk, q := b[..k.value], b[k.value], b[k.value + 1..];
      assert b == p + ([bk] + q) && !Has(q, m.id);
      MergeAppend(a, p, [bk] + q);
      var x, bm := MergeModules(a, p), MergeModule(bk, m);
      OneFailure(x);
      OneFailure(bm);
      if bm.Ok? {
        assert b[k.value := bm.value] == p + ([bm.value] + q);
        MergeAppend(a, p, [bm.value] + q);
      }
      if x.Ok? {
        InsertInside(x.value, bk, q, m);
      }
    }
  }

  /** Combining `bk` and `m` first, or merging `bk`, then `q`, then `m`. */
  lemma InsertInside(x: Catalog, bk: EventModule, q: Catalog, m: EventModule)
    requires bk.id == m.id && !Has(q, m.id)
    ensures ThenInsert(MergeModules(x, [bk] + q), m) ==
              (var combined :- MergeModule(bk, m); MergeModules(x, [combined] + q))
    decreases m, 2
  {
    var bm := MergeModule(bk, m);
    OneFailure(bm);
    InsertCombined(x, bk, m);
    MergeAppend(x, [bk], q);
    MergeOne(x, bk);
    var y := Insert(x, bk);
    if y.Ok? {
      InsertKeepsIDs(x, bk, m.id);
      InsertPast(y.value, m, q);
    }
    if bm.Ok? {
      MergeAppend(x, [bm.value], q);
      MergeOne(x, bm.value);
    }
  }

  /** Merging is associative on all catalogs: same modules, order, events and descriptions, and both
      groupings fail on the same inputs. */
  lemma {:induction false} MergeAssociates(a: Catalog, b: Catalog, c: Catalog)
    ensures ThenMerge(MergeModules(a, b), c) == MergeOnto(a, MergeModules(b, c))
    decreases c
  {
    if c != [] {
      InsertAssociates(a, b, c[0]);
      var bm := Insert(b, c[0]);
      if bm.Ok? {
        MergeAssociates(a, bm.value, c[1..]);
      }
    }
  }

  // ---- merging lists of catalogs ----

  lemma {:induction false} MergeAllFromEmpty(merged: Catalog, catalogs: seq<Catalog>)
    ensures MergeAll(merged, catalogs) == MergeOnto(merged, MergeAll([], catalogs))
    decreases |catalogs|
  {
    OneFailure(MergeAll(merged, catalogs));
    OneFailure(MergeAll([], catalogs));
    if catalogs != [] {
      var y, rest := catalogs[0], catalogs[1..];
      MergeAssociates(merged, [], y);
      var y0, a := MergeModules([], y), MergeModules(merged, y);
      OneFailure(y0);
      OneFailure(a);
      if y0.Ok? {
        MergeAllFromEmpty(y0.value, rest);
        if a.Ok? {
          MergeAllFromEmpty(a.value, rest);
        }
        if MergeAll([], rest).Ok? {
          MergeAssociates(merged, y0.value, MergeAll([], rest).value);
        }
      }
    }
  }

  lemma {:induction false} MergeAllAppend(merged: Catalog, xs: seq<Catalog>, ys: seq<Catalog>)
    ensures MergeAll(merged, xs + ys) == (var x :- MergeAll(merged, xs); MergeAll(x, ys))
    decreases |xs|
  {
    if xs == [] {
      assert xs + ys == ys;
    } else {
      assert (xs + ys)[1..] == xs[1..] + ys;
      var a := MergeModules(merged, xs[0]);
      if a.Ok? {
        MergeAllAppend(a.value, xs[1..], ys);
      }
    }
  }

  /** Merging two lists of catalogs at once is merging each and then the two results, for all
      catalogs, conflicts included; and merging a merged catalog alone gives it back. */
  lemma MergeIsCompositional(xs: seq<Catalog>, ys: seq<Catalog>)
    ensures MergeEventCatalogs(xs + ys)
         == (var x :- MergeEventCatalogs(xs); var y :- MergeEventCatalogs(ys); MergeEventCatalogs([x, y]))
    ensures MergeEventCatalogs(xs) == (var x :- MergeEventCatalogs(xs); MergeEventCatalogs([x]))
  {
    MergeAllAppend([], xs, ys);
    MergeAllFromEmpty([], xs);
    var x, y := MergeEventCatalogs(xs), MergeEventCatalogs(ys);
    OneFailure(x);
    OneFailure(y);
    OneFailure(MergeEventCatalogs(xs + ys));
    if x.Ok? {
      MergeAllFromEmpty(x.value, ys);
      assert MergeAll(x.value, []) == Ok(x.value);
      assert [x.value][1..] == [];
      if y.Ok? {
        assert [x.value, y.value][1..] == [y.value] && [y.value][1..] == [];
        assert MergeAll([], [x.value, y.value]) == MergeAll(x.value, [y.value]);
        var xy := MergeModules(x.value, y.value);
        OneFailure(xy);
        assert xy.Ok? ==> MergeAll(xy.value, []) == xy;
      }
    }
  }

  // ---- the empty catalog ----

  predicate DistinctIDs(ms: Catalog) {
    forall i, j :: 0 <= i < j < |ms| ==> ms[i].id != ms[j].id
  }

  /** Modules of IDs not there yet are appended as they are, whatever is in them. */
  lemma {:induction false} NewModulesAppend(a: Catalog, c: Catalog)
    requires DistinctIDs(a + c)
    ensures MergeModules(a, c) == Ok(a + c)
    decreases |c|
  {
    if c == [] {
      assert a + c == a;
    } else {
      assert forall i :: 0 <= i < |a| ==> (a + c)[i] == a[i] && (a + c)[|a|] == c[0];
      assert Insert(a, c[0]) == Ok(a + [c[0]]);
      assert (a + [c[0]]) + c[1..] == a + c;
      NewModulesAppend(a + [c[0]], c[1..]);
    }
  }

  lemma InsertKeepsDistinct(dst: Catalog, m: EventModule)
    requires DistinctIDs(dst) && Insert(dst, m).Ok?
    ensures DistinctIDs(Insert(dst, m).value)
  {
  }

  lemma {:induction false} MergeKeepsDistinct(dst: Catalog, src: Catalog)
    requires DistinctIDs(dst) && MergeModules(dst, src).Ok?
    ensures DistinctIDs(MergeModules(dst, src).value)
    decreases |src|
  {
    if src != [] {
      InsertKeepsDistinct(dst, src[0]);
      MergeKeepsDistinct(Insert(dst, src[0]).value, src[1..]);
    }
  }

  /** The empty catalog is the identity of merging: on the right for every catalog, and on the left
      exactly for those whose top-level IDs are distinct. Siblings further down may share an ID, since a
      module that is appended is not looked into. */
  lemma EmptyIsIdentityExactly(c: Catalog)
    ensures MergeModules(c, []) == Ok(c)
    ensures MergeModules([], c) == Ok(c) <==> DistinctIDs(c)
    ensures MergeEventCatalogs([c]) == Ok(c) <==> DistinctIDs(c)
  {
    if DistinctIDs(c) {
      assert [] + c == c;
      NewModulesAppend([], c);
    } else if MergeModules([], c).Ok? {
      MergeKeepsDistinct([], c);
    }
    assert [c][1..] == [];
    OneFailure(MergeModules([], c));
    assert MergeModules([], c).Ok? ==> MergeAll(MergeModules([], c).value, []) == MergeModules([], c);
  }

  // ---- conservation of events ----

  datatype Entry = Entry(path: seq<string>, event: EventDefinition)

  function EventEntries(path: seq<string>, events: seq<EventDefinition>): seq<Entry> {
    seq(|events|, i requires 0 <= i < |events| => Entry(path, events[i]))
  }

  /** Every event with the path of its module, in the order the generators visit them. */
  function Flatten(ms: Catalog, path: seq<string>): seq<Entry> {
    if ms == [] then [] else
    EventEntries(path + [ms[0].id], ms[0].events)
    + Flatten(ms[0].modules, path + [ms[0].id])
    + Flatten(ms[1..], path)
  }

  lemma {:induction false} FlattenAppend(a: Catalog, b: Catalog, path: seq<string>)
    ensures Flatten(a + b, path) == Flatten(a, path) + Flatten(b, path)
    decreases |a|
  {
    if a == [] {
      assert a + b == b;
    } else {
      FlattenAppend(a[1..], b, path);
      assert (a + b)[1..] == a[1..] + b;
    }
  }

  lemma FlattenOne(m: EventModule, path: seq<string>)
    ensures Flatten([m], path) == EventEntries(path + [m.id], m.events) + Flatten(m.modules, path + [m.id])
  {
    assert [m][1..] == [];
  }

  lemma EntriesAppend(path: seq<string>, a: seq<EventDefinition>, b: seq<EventDefinition>)
    ensures EventEntries(path, a + b) == EventEntries(path, a) + EventEntries(path, b)
  {
  }

  lemma {:induction false} ModuleConserves(a: EventModule, b: EventModule, path: seq<string>)
    requires a.id == b.id && MergeModule(a, b).Ok?
    ensures multiset(Flatten([MergeModule(a, b).value], path))
         == multiset(Flatten([a], path)) + multiset(Flatten([b], path))
    decreases b, 0
  {
    FlattenOne(MergeModule(a, b).value, path);
    FlattenOne(a, path);
    FlattenOne(b, path);
    EntriesAppend(path + [a.id], a.events, b.events);
    MergeConserves(a.modules, b.modules, path + [a.id]);
  }

  lemma InsertConserves(dst: Catalog, m: EventModule, path: seq<string>)
    requires Insert(dst, m).Ok?
    ensures multiset(Flatten(Insert(dst, m).value, path)) == multiset(Flatten(dst, path)) + multiset(Flatten([m], path))
    decreases m, 1
  {
    var i := LastIndex(dst, m.id);
    if i.None? {
      FlattenAppend(dst, [m], path);
    } else {
      var p, di, q := dst[..i.value], dst[i.value], dst[i.value + 1..];
      var c := MergeModule(di, m).value;
      ModuleConserves(di, m, path);
      assert dst == p + ([di] + q) && dst[i.value := c] == p + ([c] + q);
      FlattenAround(p, di, q, path);
      FlattenAround(p, c, q, path);
      GrownInside(Flatten(p, path), Flatten([di], path), Flatten([c], path), Flatten(q, path), Flatten([m], path));
    }
  }

  lemma FlattenAround(p: Catalog, m: EventModule, q: Catalog, path: seq<string>)
    ensures Flatten(p + ([m] + q), path) == Flatten(p, path) + (Flatten([m], path) + Flatten(q, path))
  {
    FlattenAppend(p, [m] + q, path);
    FlattenAppend([m], q, path);
  }

  lemma GrownInside<T>(p: seq<T>, less: seq<T>, grown: seq<T>, q: seq<T>, more: seq<T>)
    requires multiset(grown) == multiset(less) + multiset(more)
    ensures multiset(p + (grown + q)) == multiset(p + (less + q)) + multiset(more)
  {
  }

  /** A merge keeps every event under its path, as often as it occurred. */
  lemma {:induction false} MergeConserves(dst: Catalog, src: Catalog, path: seq<string>)
    requires MergeModules(dst, src).Ok?
    ensures multiset(Flatten(MergeModules(dst, src).value, path))
         == multiset(Flatten(dst, path)) + multiset(Flatten(src, path))
    decreases src
  {
    if src != [] {
      InsertConserves(dst, src[0], path);
      MergeConserves(Insert(dst, src[0]).value, src[1..], path);
      FlattenOne(src[0], path);
    }
  }

  function FlattenAll(catalogs: seq<Catalog>): seq<Entry> {
    if catalogs == [] then [] else Flatten(catalogs[0], []) + FlattenAll(catalogs[1..])
  }

  lemma {:induction false} MergeAllConserves(merged: Catalog, catalogs: seq<Catalog>)
    requires MergeAll(merged, catalogs).Ok?
    ensures multiset(Flatten(MergeAll(merged, catalogs).value, []))
         == multiset(Flatten(merged, [])) + multiset(FlattenAll(catalogs))
    decreases |catalogs|
  {
    if catalogs != [] {
      MergeConserves(merged, catalogs[0], []);
      MergeAllConserves(MergeModules(merged, catalogs[0]).value, catalogs[1..]);
    }
  }
}
