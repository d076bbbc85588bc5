/** The export and seed commands as loops over datasets, tables and routines. */
module SeedCommands {
  import opened Basics
  import opened CatalogModel
  import opened CatalogRepository
  import opened MapSum
  import opened SeedModel
  import opened SeedRows
  import opened ExportSeed

  /** The entries of the datasets in `done`, and the listed ones. */
  ghost predicate Part<V>(all: map<ObjectRef, V>, done: set<DatasetRef>, listed: seq<ObjectRef>, m: map<ObjectRef, V>) {
    && (forall k :: k in m <==> k in all && (k.Dataset() in done || k in listed))
    && (forall k :: k in m ==> m[k] == all[k])
  }

  lemma PartGrows<V>(all: map<ObjectRef, V>, done: set<DatasetRef>, keys: seq<ObjectRef>, ds: DatasetRef, i: nat, m: map<ObjectRef, V>)
    requires ListsChildren(all, keys, ds) && ds !in done && i < |keys| && Part(all, done, keys[..i], m)
    ensures keys[i] in all && keys[i] !in m && Part(all, done, keys[..i + 1], m[keys[i] := all[keys[i]]])
  {
    assert keys[i] in keys && keys[i] !in keys[..i];
    assert keys[..i + 1] == keys[..i] + [keys[i]];
  }

  lemma PartEnds<V>(all: map<ObjectRef, V>, done: set<DatasetRef>, keys: seq<ObjectRef>, ds: DatasetRef, m: map<ObjectRef, V>)
    requires ListsChildren(all, keys, ds) && Part(all, done, keys, m)
    ensures Part(all, done + {ds}, [], m)
  {
  }

  lemma PartWhole<V>(all: map<ObjectRef, V>, done: set<DatasetRef>, m: map<ObjectRef, V>)
    requires Part(all, done, [], m) && forall k :: k in all ==> k.Dataset() in done
    ensures m == all
  {
  }

  /** The datasets in `done`. */
  ghost predicate DatasetPart(all: map<DatasetRef, DatasetMeta>, done: set<DatasetRef>, m: map<DatasetRef, DatasetMeta>) {
    m.Keys == done && done <= all.Keys && forall k :: k in m ==> m[k] == all[k]
  }

  /** A tree as export writes it: every file under the identity it holds, and every child beside its dataset. */
  ghost predicate Exported(t: Tree) {
    && DatasetsKeyed(t.datasets)
    && FilesKeyed(t.tables) && (forall k :: k in t.tables ==> k.Dataset() in t.datasets)
    && Placed(t.routines, t.datasets.Keys)
  }

  lemma TreeIsExported(d: DataDir)
    requires Integrity(d.catalog)
    ensures Exported(TreeOf(d))
  {
  }

  lemma WalkGrows(d: DataDir, walk: seq<Step>, s: Step)
    requires Walks(walk, Met(walk)) && Fits(Met(walk), s)
    ensures Walks(walk + [s], Met(walk + [s])) && Met(walk + [s]) == Grown(Met(walk), s)
    ensures SeedAll(Begin(d), walk + [s]) == SeedOne(SeedAll(Begin(d), walk), s)
  {
    var w := walk + [s];
    assert w[..|walk|] == walk && w[|walk|] == s;
    assert forall i :: 0 <= i < |walk| ==> w[..i] == walk[..i] && w[i] == walk[i];
  }

  // ---- Export ----

  /** The rows file of a stored table: none if the engine does not know the table, an empty one if it has no rows. */
  method ExportTableRows(t: TableMeta, storage: Storage) returns (ok: bool, rows: Option<seq<Row>>, n: nat)
    requires Stored(t)
    ensures ok <==> SafeTable(t.ref)
    ensures ok ==> TableFile(t, rows) == FileOf(t, storage) && n == |FileRows(TableFile(t, rows))|
  {
    if !SafeTable(t.ref) { return false, None, 0; }
    if NameOf(t.ref) !in storage { return true, None, 0; }
    n := |storage[NameOf(t.ref)]|;
    if n == 0 { return true, Some([]), 0; }
    return true, Some(storage[NameOf(t.ref)]), n;
  }

  /** The stored tables among those of `done` and the listed ones have names SQL may see. */
  ghost predicate Passed(tables: map<ObjectRef, TableMeta>, done: set<DatasetRef>, listed: seq<ObjectRef>) {
    forall k :: k in tables && (k.Dataset() in done || k in listed) && Stored(tables[k]) ==> SafeTable(k)
  }

  lemma PassedGrows(tables: map<ObjectRef, TableMeta>, done: set<DatasetRef>, keys: seq<ObjectRef>, i: nat)
    requires i < |keys| && keys[i] in tables && Passed(tables, done, keys[..i])
    ensures Passed(tables, done, keys[..i + 1]) <==> (Stored(tables[keys[i]]) ==> SafeTable(keys[i]))
  {
    assert keys[..i + 1] == keys[..i] + [keys[i]];
  }

  /** Of the tables of `ds`, those up to the listed ones. */
  lemma PassedEnds(tables: map<ObjectRef, TableMeta>, done: set<DatasetRef>, keys: seq<ObjectRef>, ds: DatasetRef, i: nat)
    requires ListsChildren(tables, keys, ds) && i <= |keys|
    ensures Passed(tables, done + {ds}, []) ==> Passed(tables, done, keys[..i])
    ensures Passed(tables, done, keys) ==> Passed(tables, done + {ds}, [])
  {
    assert forall k :: k in keys[..i] ==> k in keys;
  }

  ghost function Files(tables: map<ObjectRef, TableMeta>, storage: Storage): map<ObjectRef, TableFile> {
    map k | k in tables :: FileOf(tables[k], storage)
  }

  /** One table with its rows. */
  method ExportTable(t: TableMeta, storage: Storage) returns (ok: bool, f: TableFile, n: nat)
    ensures ok <==> (Stored(t) ==> SafeTable(t.ref))
    ensures ok ==> f == FileOf(t, storage) && n == |FileRows(f)|
  {
    ok, f, n := true, TableFile(t, None), 0;
    if Stored(t) {
      var rows;
      ok, rows, n := ExportTableRows(t, storage);
      f := TableFile(t, rows);
    }
  }

  method ExportTables(tables: map<ObjectRef, TableMeta>, storage: Storage, ghost datasets: set<DatasetRef>,
                      ds: DatasetRef, ghost done: set<DatasetRef>, written: map<ObjectRef, TableFile>, counts: Summary)
    returns (ok: bool, written': map<ObjectRef, TableFile>, counts': Summary)
    requires Placed(tables, datasets) && ds !in done && Part(Files(tables, storage), done, [], written)
    requires Passed(tables, done, []) && counts.tables == |written| && counts.rows == Sum(RowCounts(written))
    ensures ok <==> Passed(tables, done + {ds}, [])
    ensures ok ==> Part(Files(tables, storage), done + {ds}, [], written')
    ensures ok ==> counts' == counts.(tables := |written'|, rows := Sum(RowCounts(written')))
  {
    var keys := ChildKeys(tables, ds);
    ghost var all := Files(tables, storage);
    assert ListsChildren(all, keys, ds);
    written', counts' := written, counts;
    for i := 0 to |keys|
      invariant Part(all, done, keys[..i], written') && Passed(tables, done, keys[..i])
      invariant counts' == counts.(tables := |written'|, rows := Sum(RowCounts(written')))
    {
      PartGrows(all, done, keys, ds, i, written');
      PassedGrows(tables, done, keys, i);
      PassedEnds(tables, done, keys, ds, i + 1);
      var f, n;
      ok, f, n := ExportTable(tables[keys[i]], storage);
      if !ok { return; }
      RowCountsPut(written', keys[i], f);
      written' := written'[keys[i] := f];
      counts' := counts'.(tables := counts'.tables + 1, rows := counts'.rows + n);
    }
    assert keys[..|keys|] == keys;
    PartEnds(all, done, keys, ds, written');
    PassedEnds(tables, done, keys, ds, 0);
    ok := true;
  }

  method ExportRoutines(routines: map<ObjectRef, RoutineMeta>, ds: DatasetRef, ghost done: set<DatasetRef>,
                        written: map<ObjectRef, RoutineMeta>, counts: Summary)
    returns (written': map<ObjectRef, RoutineMeta>, counts': Summary)
    requires ds !in done && Part(routines, done, [], written) && counts.routines == |written|
    ensures Part(routines, done + {ds}, [], written') && counts' == counts.(routines := |written'|)
  {
    var keys := ChildKeys(routines, ds);
    written', counts' := written, counts;
    for i := 0 to |keys|
      invariant Part(routines, done, keys[..i], written') && counts' == counts.(routines := |written'|)
    {
      PartGrows(routines, done, keys, ds, i, written');
      written' := written'[keys[i] := routines[keys[i]]];
      counts' := counts'.(routines := counts'.routines + 1);
    }
    assert keys[..|keys|] == keys;
    PartEnds(routines, done, keys, ds, written');
  }

  /** All that has been written once the datasets in `done` are. */
  ghost predicate Written(all: Tree, done: set<DatasetRef>, t: Tree) {
    && DatasetPart(all.datasets, done, t.datasets)
    && Part(all.tables, done, [], t.tables)
    && Part(all.routines, done, [], t.routines)
  }

  lemma WrittenWhole(all: Tree, t: Tree)
    requires Written(all, all.datasets.Keys, t) && Exported(all)
    ensures t == all
  {
    PartWhole(all.tables, all.datasets.Keys, t.tables);
    PartWhole(all.routines, all.datasets.Keys, t.routines);
    assert t.datasets == all.datasets;
  }

  /** Every stored table has a name SQL may see. */
  ghost predicate AllPass(tables: map<ObjectRef, TableMeta>) {
    forall k :: k in tables && Stored(tables[k]) ==> SafeTable(k)
  }

  lemma PassedFewer(tables: map<ObjectRef, TableMeta>, some: set<DatasetRef>, more: set<DatasetRef>)
    requires some <= more && Passed(tables, more, [])
    ensures Passed(tables, some, [])
  {
  }

  lemma PassedAll(tables: map<ObjectRef, TableMeta>, datasets: set<DatasetRef>)
    requires Placed(tables, datasets)
    ensures AllPass(tables) <==> Passed(tables, datasets, [])
  {
  }

  lemma DatasetPartGrows(all: map<DatasetRef, DatasetMeta>, done: set<DatasetRef>, m: map<DatasetRef, DatasetMeta>, k: DatasetRef)
    requires DatasetPart(all, done, m) && k in all
    ensures DatasetPart(all, done + {k}, m[k := all[k]])
  {
  }

  method ExportDataset(ds: DatasetMeta, tables: map<ObjectRef, TableMeta>, routines: map<ObjectRef, RoutineMeta>, storage: Storage,
                       ghost all: Tree, ghost done: set<DatasetRef>, tree: Tree, counts: Summary)
    returns (ok: bool, tree': Tree, counts': Summary)
    requires all.tables == Files(tables, storage) && all.routines == routines
    requires Placed(tables, all.datasets.Keys) && ds.ref in all.datasets && all.datasets[ds.ref] == ds && ds.ref !in done
    requires Written(all, done, tree) && Passed(tables, done, []) && counts == ExportSummary(tree)
    ensures ok <==> Passed(tables, done + {ds.ref}, [])
    ensures ok ==> Written(all, done + {ds.ref}, tree') && counts' == ExportSummary(tree')
  {
    tree' := tree.(datasets := tree.datasets[ds.ref := ds]);
    counts' := counts.(datasets := counts.datasets + 1);
    DatasetPartGrows(all.datasets, done, tree.datasets, ds.ref);
    var written, written';
    ok, written, counts' := ExportTables(tables, storage, all.datasets.Keys, ds.ref, done, tree.tables, counts');
    if !ok { return; }
    written', counts' := ExportRoutines(routines, ds.ref, done, tree.routines, counts');
    tree' := tree'.(tables := written, routines := written');
  }

  /** Where the export stands with the datasets in `todo` still to be written. */
  ghost predicate Standing(all: Tree, tables: map<ObjectRef, TableMeta>, todo: set<DatasetRef>, t: Tree, counts: Summary) {
    && todo <= all.datasets.Keys
    && Written(all, all.datasets.Keys - todo, t) && Passed(tables, all.datasets.Keys - todo, []) && counts == ExportSummary(t)
  }

  lemma StandingAtFirst(all: Tree, tables: map<ObjectRef, TableMeta>)
    ensures Standing(all, tables, all.datasets.Keys, NO_FILES, NOTHING)
  {
    assert RowCounts(map[]) == map[];
    assert all.datasets.Keys - all.datasets.Keys == {};
  }

  lemma StandingNext(all: Tree, tables: map<ObjectRef, TableMeta>, todo: set<DatasetRef>, ds: DatasetRef, t: Tree, counts: Summary)
    requires ds in todo && todo <= all.datasets.Keys && counts == ExportSummary(t)
    requires Written(all, all.datasets.Keys - todo + {ds}, t) && Passed(tables, all.datasets.Keys - todo + {ds}, [])
    ensures Standing(all, tables, todo - {ds}, t, counts)
  {
    assert all.datasets.Keys - todo + {ds} == all.datasets.Keys - (todo - {ds});
  }

  lemma FilesExported(datasets: map<DatasetRef, DatasetMeta>, tables: map<ObjectRef, TableMeta>, routines: map<ObjectRef, RoutineMeta>, storage: Storage)
    requires DatasetsKeyed(datasets) && Placed(tables, datasets.Keys) && Placed(routines, datasets.Keys)
    ensures Exported(Tree(datasets, Files(tables, storage), routines))
  {
  }

  /** The whole catalog is written, or the run stops at a stored table whose name SQL may not see. */
  method ExportAll(datasets: map<DatasetRef, DatasetMeta>, tables: map<ObjectRef, TableMeta>, routines: map<ObjectRef, RoutineMeta>,
                   storage: Storage)
    returns (ok: bool, tree: Tree, counts: Summary)
    requires DatasetsKeyed(datasets) && Placed(tables, datasets.Keys) && Placed(routines, datasets.Keys)
    ensures ok <==> Passed(tables, datasets.Keys, [])
    ensures ok ==> tree == Tree(datasets, Files(tables, storage), routines) && counts == ExportSummary(tree)
  {
    tree, counts := NO_FILES, NOTHING;
    var todo := datasets.Keys;
    ghost var all := Tree(datasets, Files(tables, storage), routines);
    StandingAtFirst(all, tables);
    while todo != {}
      invariant Standing(all, tables, todo, tree, counts)
      decreases todo
    {
      var ds :| ds in todo;
      ghost var done := datasets.Keys - todo;
      ok, tree, counts := ExportDataset(datasets[ds], tables, routines, storage, all, done, tree, counts);
      if !ok {
        if Passed(tables, datasets.Keys, []) { PassedFewer(tables, done + {ds}, datasets.Keys); }
        return;
      }
      StandingNext(all, tables, todo, ds, tree, counts);
      todo := todo - {ds};
    }
    assert datasets.Keys - {} == datasets.Keys;
    FilesExported(datasets, tables, routines, storage);
    WrittenWhole(all, tree);
    ok := true;
  }

  // ---- Seed ----

  /** All that has been met is in the tree. */
  ghost predicate Inside(t: Tree, tree: Tree) {
    t.datasets.Keys <= tree.datasets.Keys && t.tables.Keys <= tree.tables.Keys
  }

  /** A walk inside the tree that failed has met an unsafe id of the tree. */
  lemma FailedWalkIsUnsafe(d: DataDir, tree: Tree, walk: seq<Step>)
    requires Walks(walk, Met(walk)) && Inside(Met(walk), tree) && SeedAll(Begin(d), walk).failed
    ensures !AllSafe(tree)
  {
    SeedEntries(d, Met(walk), walk);
    var t := Met(walk);
    if k :| k in t.datasets && !SafeDataset(k) {
      assert k in tree.datasets;
    } else {
      var k :| k in t.tables && !SafeTable(k);
      assert k in tree.tables;
    }
  }

  /** An export stops only at an id that seeding would refuse as well. */
  lemma UnsafeStopsExport(d: DataDir)
    requires !AllPass(d.catalog.tables)
    ensures !AllSafe(TreeOf(d))
  {
    var k :| k in d.catalog.tables && Stored(d.catalog.tables[k]) && !SafeTable(k);
    assert k in TreeOf(d).tables;
  }

  datatype SeedError = NoManifest | BadVersion | Refused

  /** An opened data directory: catalog, storage engine, and the counters of the running command. */
  class DataDirectory {
    const catalog: MemoryCatalogRepository
    var schemas: set<string>
    var storage: Storage
    var summary: Summary

    ghost function View(): DataDir
      reads this, catalog
    {
      DataDir(catalog.State(), schemas, storage)
    }

    ghost function Now(failed: bool): Progress
      reads this, catalog
    {
      Progress(View(), summary, failed)
    }

    constructor ()
      ensures View() == EMPTY_DIR && fresh(catalog)
    {
      catalog := new MemoryCatalogRepository();
      schemas, storage, summary := {}, map[], NOTHING;
    }

    /** The whole directory is written, or the run stops at a stored table whose name SQL may not see. */
    method Export() returns (ok: bool, tree: Tree, counts: Summary)
      requires Integrity(catalog.State())
      ensures ok <==> AllPass(catalog.tables)
      ensures ok ==> tree == TreeOf(View()) && counts == ExportSummary(tree)
    {
      PassedAll(catalog.tables, catalog.datasets.Keys);
      ok, tree, counts := ExportAll(catalog.datasets, catalog.tables, catalog.routines, storage);
    }

    method SeedDataset(m: DatasetMeta) returns (failed: bool)
      modifies this`schemas, this`summary, catalog
      ensures Now(failed) == DatasetSeeded(old(Now(false)), m)
    {
      if !SafeDataset(m.ref) { return true; }
      schemas := schemas + {SchemaName(m.ref)};
      if m.ref !in catalog.datasets {
        var _ := catalog.CreateDataset(m);
      } else {
        var _ := catalog.UpdateDataset(m);
      }
      summary := summary.(datasets := summary.datasets + 1);
      failed := false;
    }

    method SeedTable(f: TableFile) returns (failed: bool)
      modifies this`storage, this`summary, catalog`tables
      ensures Now(failed) == TableSeeded(old(Now(false)), f)
    {
      if !SafeTable(f.meta.ref) { return true; }
      var name := NameOf(f.meta.ref);
      if Stored(f.meta) {
        if name.schema !in schemas { return true; }
        if name !in storage { storage := storage[name := []]; }
      }
      var r;
      if f.meta.ref !in catalog.tables {
        r := catalog.CreateTable(f.meta);
      } else {
        r := catalog.UpdateTable(f.meta);
      }
      if r != Done { return true; }
      var loaded := 0;
      if f.rows.Some? && f.rows.value != [] && Stored(f.meta) {
        storage := storage[name := storage[name] + f.rows.value];
        loaded := |storage[name]|;
      }
      summary := summary.(tables := summary.tables + 1, rows := summary.rows + loaded);
      failed := false;
    }

    method SeedRoutine(m: RoutineMeta) returns (failed: bool)
      modifies this`summary, catalog`routines
      ensures Now(failed) == RoutineSeeded(old(Now(false)), m)
    {
      var r := catalog.CreateRoutine(m);
      if r != Done { r := catalog.UpdateRoutine(m); }
      if r != Done { return true; }
      summary := summary.(routines := summary.routines + 1);
      failed := false;
    }

    /** `for tbl_file in ...`: the tables of one dataset directory. */
    method SeedTables(tree: Tree, ds: DatasetRef, ghost d: DataDir, ghost done: set<DatasetRef>, ghost walk: seq<Step>)
      returns (failed: bool, ghost walk': seq<Step>)
      requires Exported(tree) && ds !in done
      requires Walks(walk, Met(walk)) && ds in Met(walk).datasets && Part(tree.tables, done, [], Met(walk).tables)
      requires Inside(Met(walk), tree)
      requires Now(false) == SeedAll(Begin(d), walk)
      modifies this`storage, this`summary, catalog`tables
      ensures Now(failed) == SeedAll(Begin(d), walk')
      ensures Walks(walk', Met(walk')) && Inside(Met(walk'), tree)
      ensures !failed ==> Met(walk').datasets == Met(walk).datasets && Met(walk').routines == Met(walk).routines
      ensures !failed ==> Part(tree.tables, done + {ds}, [], Met(walk').tables)
    {
      var keys := ChildKeys(tree.tables, ds);
      walk' := walk;
      for i := 0 to |keys|
        invariant Now(false) == SeedAll(Begin(d), walk')
        invariant Walks(walk', Met(walk')) && Inside(Met(walk'), tree)
        invariant Met(walk').datasets == Met(walk).datasets && Met(walk').routines == Met(walk).routines
        invariant Part(tree.tables, done, keys[..i], Met(walk').tables)
      {
        var f := tree.tables[keys[i]];
        assert keys[i] in keys;
        PartGrows(tree.tables, done, keys, ds, i, Met(walk').tables);
        WalkGrows(d, walk', Step.SeedTable(f));
        walk' := walk' + [Step.SeedTable(f)];
        failed := SeedTable(f);
        if failed { return; }
      }
      assert keys[..|keys|] == keys;
      PartEnds(tree.tables, done, keys, ds, Met(walk').tables);
      failed := false;
    }

    /** `for rtn_file in ...`: the routines of one dataset directory. */
    method SeedRoutines(tree: Tree, ds: DatasetRef, ghost d: DataDir, ghost done: set<DatasetRef>, ghost walk: seq<Step>)
      returns (failed: bool, ghost walk': seq<Step>)
      requires Exported(tree) && ds !in done
      requires Walks(walk, Met(walk)) && ds in Met(walk).datasets && Part(tree.routines, done, [], Met(walk).routines)
      requires Inside(Met(walk), tree)
      requires Now(false) == SeedAll(Begin(d), walk)
      modifies this`summary, catalog`routines
      ensures Now(failed) == SeedAll(Begin(d), walk')
      ensures Walks(walk', Met(walk')) && Inside(Met(walk'), tree)
      ensures !failed ==> Met(walk').datasets == Met(walk).datasets && Met(walk').tables == Met(walk).tables
      ensures !failed ==> Part(tree.routines, done + {ds}, [], Met(walk').routines)
    {
      var keys := ChildKeys(tree.routines, ds);
      walk' := walk;
      for i := 0 to |keys|
        invariant Now(false) == SeedAll(Begin(d), walk')
        invariant Walks(walk', Met(walk')) && Inside(Met(walk'), tree)
        invariant Met(walk').datasets == Met(walk).datasets && Met(walk').tables == Met(walk).tables
        invariant Part(tree.routines, done, keys[..i], Met(walk').routines)
      {
        var m := tree.routines[keys[i]];
        assert keys[i] in keys;
        PartGrows(tree.routines, done, keys, ds, i, Met(walk').routines);
        WalkGrows(d, walk', Step.SeedRoutine(m));
        walk' := walk' + [Step.SeedRoutine(m)];
        failed := SeedRoutine(m);
        if failed { return; }
      }
      assert keys[..|keys|] == keys;
      PartEnds(tree.routines, done, keys, ds, Met(walk').routines);
      failed := false;
    }

    /** One dataset directory: the dataset, then its tables, then its routines. */
    method SeedFolder(tree: Tree, ds: DatasetRef, ghost d: DataDir, ghost done: set<DatasetRef>, ghost walk: seq<Step>)
      returns (failed: bool, ghost walk': seq<Step>)
      requires Exported(tree) && ds in tree.datasets && ds !in done
      requires Walks(walk, Met(walk)) && Written(tree, done, Met(walk))
      requires Now(false) == SeedAll(Begin(d), walk)
      modifies this`schemas, this`storage, this`summary, catalog
      ensures Now(failed) == SeedAll(Begin(d), walk')
      ensures Walks(walk', Met(walk')) && Inside(Met(walk'), tree)
      ensures !failed ==> Written(tree, done + {ds}, Met(walk'))
    {
      var m := tree.datasets[ds];
      walk' := walk + [Step.SeedDataset(m)];
      WalkGrows(d, walk, Step.SeedDataset(m));
      failed := SeedDataset(m);
      if failed { return; }
      assert DatasetPart(tree.datasets, done + {ds}, Met(walk').datasets);
      failed, walk' := SeedTables(tree, ds, d, done, walk');
      if failed { return; }
      failed, walk' := SeedRoutines(tree, ds, d, done, walk');
    }

    /** The seed command: a directory without a manifest or with another version is refused before anything is touched. */
    method Seed(manifest: Option<int>, tree: Tree) returns (error: Option<SeedError>, ghost walk: seq<Step>)
      requires Exported(tree)
      modifies this`schemas, this`storage, this`summary, catalog
      ensures error == Some(NoManifest) <==> manifest.None?
      ensures error == Some(BadVersion) <==> manifest.Some? && manifest.value != 1
      ensures manifest != Some(1) ==> View() == old(View())
      ensures manifest == Some(1) ==> Now(error.Some?) == SeedAll(Begin(old(View())), walk) && Walks(walk, Met(walk))
      ensures manifest == Some(1) ==> if error.None? then Met(walk) == tree else !AllSafe(tree)
    {
      walk := [];
      if manifest.None? { return Some(NoManifest), []; }
      if manifest.value != 1 { return Some(BadVersion), []; }
      summary := NOTHING;
      ghost var d := View();
      var todo := tree.datasets.Keys;
      ghost var done: set<DatasetRef> := {};
      while todo != {}
        invariant done + todo == tree.datasets.Keys && done !! todo
        invariant Written(tree, done, Met(walk)) && Walks(walk, Met(walk))
        invariant Now(false) == SeedAll(Begin(d), walk)
        decreases todo
      {
        var ds :| ds in todo;
        var failed;
        failed, walk := SeedFolder(tree, ds, d, done, walk);
        if failed {
          FailedWalkIsUnsafe(d, tree, walk);
          return Some(Refused), walk;
        }
        done, todo := done + {ds}, todo - {ds};
      }
      assert done == tree.datasets.Keys;
      WrittenWhole(tree, Met(walk));
      error := None;
    }
  }

  /**
   Export one directory and seed a new one from the files: the copy succeeds exactly when every id is one that
   SQL may see, and is then faithful exactly when no physical table with rows has two owners.
   */
  method CopyDirectory(from: DataDirectory) returns (ok: bool, to: DataDirectory)
    requires Integrity(from.catalog.State())
    ensures fresh(to) && fresh(to.catalog)
    ensures ok <==> AllSafe(TreeOf(from.View()))
    ensures ok ==> (Restored(from.View(), to.Now(false)) <==> NotShared(from.View()))
  {
    to := new DataDirectory();
    ghost var src := from.View();
    var tree, counts;
    ok, tree, counts := from.Export();
    if !ok {
      UnsafeStopsExport(src);
      return;
    }
    TreeIsExported(src);
    var error, walk := to.Seed(Some(1), tree);
    ok := error.None?;
    if ok {
      SeedEntries(EMPTY_DIR, tree, walk);
      RoundTripExactly(src, walk);
    }
  }
}
