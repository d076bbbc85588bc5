/** Export followed by seed: when a seeded copy of a data directory is faithful, and what a second seed adds. */
module ExportSeed {
  import opened Basics
  import opened CatalogModel
  import opened MapSum
  import opened SeedModel
  import opened SeedRows
  import DoubledSeparator

  // ---- Export, then seed into an empty directory ----

  /** No physical table with rows belongs to two tables of the catalog. */
  ghost predicate NotShared(d: DataDir) {
    var ts := d.catalog.tables;
    forall k, l :: k in ts && l in ts && k != l && Stored(ts[k]) && Stored(ts[l]) && NameOf(k) == NameOf(l)
      ==> RowsAt(d.storage, NameOf(k)) == []
  }

  ghost predicate RowsRestored(src: DataDir, s: Storage) {
    && (forall k :: k in src.catalog.tables && src.catalog.tables[k].body.tableType in {Table, Clone} ==>
          NameOf(k) in s && s[NameOf(k)] == RowsAt(src.storage, NameOf(k)))
    && (forall n :: n in s ==> exists k :: k in src.catalog.tables && Stored(src.catalog.tables[k]) && NameOf(k) == n)
  }

  /** The copy has the datasets, tables, routines and rows of the original, and the two commands report the same counts. */
  ghost predicate Restored(src: DataDir, p: Progress) {
    && !p.failed
    && p.dir.catalog == EMPTY.(datasets := src.catalog.datasets, tables := src.catalog.tables, routines := src.catalog.routines)
    && RowsRestored(src, p.dir.storage)
    && p.summary == ExportSummary(TreeOf(src))
  }

  lemma FileAt(d: DataDir, k: ObjectRef)
    requires Placed(d.catalog.tables, d.catalog.datasets.Keys) && k in d.catalog.tables
    ensures var f := TreeOf(d).tables[k];
            f.meta == d.catalog.tables[k] && FileRows(f) == if Stored(f.meta) then RowsAt(d.storage, NameOf(k)) else []
  {
  }

  lemma ApartExactly(d: DataDir)
    requires Placed(d.catalog.tables, d.catalog.datasets.Keys)
    ensures Apart(TreeOf(d).tables) <==> NotShared(d)
  {
    forall k | k in d.catalog.tables
      ensures TreeOf(d).tables[k].meta == d.catalog.tables[k]
      ensures Stored(d.catalog.tables[k]) ==> FileRows(TreeOf(d).tables[k]) == RowsAt(d.storage, NameOf(k))
    {
      FileAt(d, k);
    }
  }

  lemma MetasOfTree(d: DataDir)
    ensures Metas(TreeOf(d).tables) == d.catalog.tables
  {
  }

  /** What the tree says of the stored table `k`. */
  lemma RowsInTree(src: DataDir, k: ObjectRef)
    requires Placed(src.catalog.tables, src.catalog.datasets.Keys) && k in src.catalog.tables
    ensures var tables := TreeOf(src).tables;
            && tables[k].meta == src.catalog.tables[k]
            && (Stored(tables[k].meta) ==> RowsAt(map[], NameOf(k)) + FileRows(tables[k]) == RowsAt(src.storage, NameOf(k)))
  {
    FileAt(src, k);
  }

  lemma AddedIsRestored(src: DataDir, s: Storage)
    requires Placed(src.catalog.tables, src.catalog.datasets.Keys) && RowsAdded(map[], TreeOf(src).tables, s)
    ensures RowsRestored(src, s)
  {
    forall k | k in src.catalog.tables && Stored(src.catalog.tables[k])
      ensures NameOf(k) in s && s[NameOf(k)] == RowsAt(src.storage, NameOf(k))
    {
      RowsInTree(src, k);
      assert k in TreeOf(src).tables;
    }
    forall n | n in s
      ensures exists k :: k in src.catalog.tables && Stored(src.catalog.tables[k]) && NameOf(k) == n
    {
      NamedInTree(src, n);
    }
  }

  lemma RestoredIsAdded(src: DataDir, s: Storage)
    requires Placed(src.catalog.tables, src.catalog.datasets.Keys) && RowsRestored(src, s)
    ensures RowsAdded(map[], TreeOf(src).tables, s)
  {
    var tables := TreeOf(src).tables;
    forall k | k in tables && Stored(tables[k].meta)
      ensures NameOf(k) in s && s[NameOf(k)] == RowsAt(map[], NameOf(k)) + FileRows(tables[k])
    {
      RowsInTree(src, k);
    }
    forall n | n in s
      ensures Named(tables, n)
    {
      NamedInTree(src, n);
    }
  }

  lemma NamedInTree(src: DataDir, n: PhysicalName)
    ensures Named(TreeOf(src).tables, n) <==> exists k :: k in src.catalog.tables && Stored(src.catalog.tables[k]) && NameOf(k) == n
  {
    var tables := TreeOf(src).tables;
    if Named(tables, n) {
      var k :| k in tables && Stored(tables[k].meta) && NameOf(k) == n;
      assert tables[k].meta == src.catalog.tables[k];
    }
    if k :| k in src.catalog.tables && Stored(src.catalog.tables[k]) && NameOf(k) == n {
      assert tables[k].meta == src.catalog.tables[k];
    }
  }

  lemma UnionEmpty<K, V>(m: map<K, V>)
    ensures map[] + m == m
  {
  }

  lemma CatalogFromEmpty(src: DataDir, c: Catalog)
    requires CatalogAfter(EMPTY, TreeOf(src), c)
    ensures c == EMPTY.(datasets := src.catalog.datasets, tables := src.catalog.tables, routines := src.catalog.routines)
  {
    MetasOfTree(src);
    UnionEmpty(src.catalog.datasets);
    UnionEmpty(src.catalog.tables);
    UnionEmpty(src.catalog.routines);
  }

  /** Apart files load cleanly into an empty storage. */
  lemma ApartLoadsCleanly(tables: map<ObjectRef, TableFile>)
    requires Apart(tables)
    ensures CleanLoad(map[], tables)
  {
  }

  /**
   Export followed by seed into an empty directory is the identity on datasets, tables, routines and rows,
   with equal counts, if and only if every id is one that SQL may see and no physical table that has rows
   belongs to two catalog tables.
   */
  lemma RoundTripExactly(src: DataDir, steps: seq<Step>)
    requires Integrity(src.catalog) && Walks(steps, TreeOf(src))
    ensures Restored(src, SeedAll(Begin(EMPTY_DIR), steps)) <==> AllSafe(TreeOf(src)) && NotShared(src)
  {
    var t, p := TreeOf(src), SeedAll(Begin(EMPTY_DIR), steps);
    SeedEntries(EMPTY_DIR, t, steps);
    if AllSafe(t) {
      ApartExactly(src);
      SeedExact(EMPTY_DIR, t, steps);
      if RowsRestored(src, p.dir.storage) { RestoredIsAdded(src, p.dir.storage); }
      if NotShared(src) {
        AddedIsRestored(src, p.dir.storage);
        CatalogFromEmpty(src, p.dir.catalog);
        ReportedRowsExactly(EMPTY_DIR, t, steps);
        ApartLoadsCleanly(t.tables);
      }
    }
  }

  // ---- Seeding the same export again ----

  lemma OverlayTwice<K, V>(m: map<K, V>, n: map<K, V>)
    ensures m + n + n == m + n
  {
  }

  lemma CatalogTwice(c: Catalog, t: Tree, c1: Catalog, c2: Catalog)
    requires CatalogAfter(c, t, c1) && CatalogAfter(c1, t, c2)
    ensures c2 == c1
  {
    OverlayTwice(c.datasets, t.datasets);
    OverlayTwice(c.tables, Metas(t.tables));
    OverlayTwice(c.routines, t.routines);
  }

  lemma {:induction false} SumDouble<K>(m: map<K, nat>, m2: map<K, nat>)
    requires m2.Keys == m.Keys && forall k :: k in m ==> m2[k] == 2 * m[k]
    ensures Sum(m2) == 2 * Sum(m)
    decreases |m|
  {
    if m != map[] {
      var k :| k in m;
      assert (m - {k}).Keys == m.Keys - {k};
      SumSplit(m, k);
      SumSplit(m2, k);
      SumDouble(m - {k}, m2 - {k});
    }
  }

  /** Into an empty storage and then again, walks in whatever order: one more copy of every row, and no other table. */
  lemma RowsTwice(t: Tree, steps: seq<Step>, again: seq<Step>, n: PhysicalName, r: Row)
    requires Walks(steps, t) && Walks(again, t) && AllSafe(t)
    ensures var s1 := SeedAll(Begin(EMPTY_DIR), steps).dir.storage;
            var s2 := SeedAll(Begin(SeedAll(Begin(EMPTY_DIR), steps).dir), again).dir.storage;
            Occ(RowsAt(s2, n), r) == 2 * Occ(RowsAt(s1, n), r) && (n in s2 <==> n in s1)
  {
    SeedConserves(EMPTY_DIR, t, steps, n, r);
    SeedConserves(SeedAll(Begin(EMPTY_DIR), steps).dir, t, again, n, r);
  }

  /** Nothing loads cleanly into a storage that has its rows already. */
  lemma NotCleanTwice(t: Tree, steps: seq<Step>)
    requires Walks(steps, t) && AllSafe(t)
    ensures CleanLoad(SeedAll(Begin(EMPTY_DIR), steps).dir.storage, t.tables) <==> forall k :: k in t.tables ==> !Loads(t.tables[k])
  {
    var s := SeedAll(Begin(EMPTY_DIR), steps).dir.storage;
    forall k | k in t.tables && Loads(t.tables[k])
      ensures RowsAt(s, NameOf(k)) != []
    {
      EmptyExactly(EMPTY_DIR, t, steps, NameOf(k));
    }
  }

  lemma {:induction false} SumZero<K>(m: map<K, nat>)
    ensures Sum(m) == 0 <==> forall k :: k in m ==> m[k] == 0
    decreases |m|
  {
    if m != map[] {
      var k :| k in m;
      assert (m - {k}).Keys == m.Keys - {k};
      SumSplit(m, k);
      SumZero(m - {k});
      assert forall j :: j in m ==> j == k || j in m - {k};
    }
  }

  lemma NoRowsExactly(tables: map<ObjectRef, TableFile>)
    ensures Sum(RowCounts(tables)) == 0 <==> forall k :: k in tables ==> !Loads(tables[k])
  {
    var counts := RowCounts(tables);
    SumZero(counts);
    assert forall k :: k in tables ==> (counts[k] == 0 <==> !Loads(tables[k]));
  }

  /**
   Seeding the same export a second time, whatever the order: the catalog is as it was, every physical table has
   exactly one more copy of each row, no table appears, and the rows reported are those loaded if and only if
   there were none to load.
   */
  lemma SeedTwice(src: DataDir, steps: seq<Step>, again: seq<Step>, n: PhysicalName, r: Row)
    requires Walks(steps, TreeOf(src)) && Walks(again, TreeOf(src)) && AllSafe(TreeOf(src))
    ensures var p1 := SeedAll(Begin(EMPTY_DIR), steps);
            var p2 := SeedAll(Begin(p1.dir), again);
            && !p2.failed
            && p2.dir.catalog == p1.dir.catalog
            && Occ(RowsAt(p2.dir.storage, n), r) == 2 * Occ(RowsAt(p1.dir.storage, n), r)
            && (n in p2.dir.storage <==> n in p1.dir.storage)
            && (p2.summary == ExportSummary(TreeOf(src)) <==> ExportSummary(TreeOf(src)).rows == 0)
  {
    var t, p1 := TreeOf(src), SeedAll(Begin(EMPTY_DIR), steps);
    var p2 := SeedAll(Begin(p1.dir), again);
    SeedEntries(EMPTY_DIR, t, steps);
    SeedEntries(p1.dir, t, again);
    CatalogTwice(EMPTY, t, p1.dir.catalog, p2.dir.catalog);
    RowsTwice(t, steps, again, n, r);
    ReportedRowsExactly(p1.dir, t, again);
    NotCleanTwice(t, steps);
    NoRowsExactly(t.tables);
  }

  lemma CountsAgain(src: DataDir, s: Storage)
    requires Placed(src.catalog.tables, src.catalog.datasets.Keys) && RowsRestored(src, s)
    ensures Sum(LoadedCounts(s, TreeOf(src).tables)) == 2 * Sum(RowCounts(TreeOf(src).tables))
  {
    var tables := TreeOf(src).tables;
    forall k | k in tables
      ensures LoadedCounts(s, tables)[k] == 2 * RowCounts(tables)[k]
    {
      FileAt(src, k);
    }
    SumDouble(RowCounts(tables), LoadedCounts(s, tables));
  }

  /** Where names are not shared, the second copy stands in order after the first, and twice the rows are reported. */
  lemma SeedTwiceInOrder(src: DataDir, steps: seq<Step>, again: seq<Step>, k: ObjectRef)
    requires Integrity(src.catalog) && Walks(steps, TreeOf(src)) && Walks(again, TreeOf(src)) && AllSafe(TreeOf(src)) && NotShared(src)
    requires k in src.catalog.tables && Stored(src.catalog.tables[k])
    ensures var p1 := SeedAll(Begin(EMPTY_DIR), steps);
            var p2 := SeedAll(Begin(p1.dir), again);
            && NameOf(k) in p2.dir.storage && NameOf(k) in p1.dir.storage
            && p2.dir.storage[NameOf(k)] == p1.dir.storage[NameOf(k)] + p1.dir.storage[NameOf(k)]
            && p2.summary.rows == 2 * p1.summary.rows
  {
    var t, p1 := TreeOf(src), SeedAll(Begin(EMPTY_DIR), steps);
    RoundTripExactly(src, steps);
    ApartExactly(src);
    SeedExact(p1.dir, t, again);
    ReportedWhenApart(p1.dir, t, again);
    CountsAgain(src, p1.dir.storage);
    FileAt(src, k);
    assert k in t.tables;
  }

  // ---- Names ----

  /** Projects without a doubled or final underscore, as real project ids are, never share a physical table. */
  lemma NamesApart(k: ObjectRef, l: ObjectRef)
    requires !DoubledSeparator.HasSeparator(k.project, '_') && !DoubledSeparator.EndsWith(k.project, '_')
    requires !DoubledSeparator.HasSeparator(l.project, '_') && !DoubledSeparator.EndsWith(l.project, '_')
    requires NameOf(k) == NameOf(l)
    ensures k == l
  {
    DoubledSeparator.FirstSeparatorOfJoin(k.project, k.dataset, '_');
    DoubledSeparator.FirstSeparatorOfJoin(l.project, l.dataset, '_');
    var sep := ['_', '_'];
    var s := k.project + sep + k.dataset;
    assert s == l.project + sep + l.dataset by {
      assert DoubledSeparator.Join([k.project, k.dataset][1..], '_') == k.dataset;
      assert DoubledSeparator.Join([l.project, l.dataset][1..], '_') == l.dataset;
    }
    assert s[..|k.project|] == k.project && s[..|l.project|] == l.project;
    assert s[|k.project| + 2..] == k.dataset && s[|l.project| + 2..] == l.dataset;
  }

  /** Other ids can: datasets `a.b__c` and `a__b.c` live in one schema. */
  lemma NamesCanMeet()
    ensures var k, l := ObjectRef("a", "b__c", "t"), ObjectRef("a__b", "c", "t");
            k != l && NameOf(k) == NameOf(l) && SafeTable(k) && SafeTable(l)
  {
    var k, l := ObjectRef("a", "b__c", "t"), ObjectRef("a__b", "c", "t");
    assert DoubledSeparator.Join([k.project, k.dataset][1..], '_') == k.dataset;
    assert DoubledSeparator.Join([l.project, l.dataset][1..], '_') == l.dataset;
    assert SchemaName(k.Dataset()) == "a__b__c" == SchemaName(l.Dataset());
  }
}
