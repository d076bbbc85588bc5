/**
 The persistent repository: hydration loops over the stored tables, and write-through
 methods that keep cache and tables moving together.
 */
module PersistentRepository {
  import opened CatalogModel
  import opened CatalogStore
  import opened CatalogRepository

  // ---- What every stored table satisfies ----

  /** Slots of a dataset start at 0 and leave no gap. */
  ghost predicate Gapless(rows: map<Slot, AccessRow>) {
    forall s: Slot :: s in rows && s.index > 0 ==> Slot(s.dataset, s.index - 1) in rows
  }

  /** Every row is stored under the identity its record carries. */
  ghost predicate RowsKeyed(d: Disk) {
    && DatasetsKeyed(d.datasets)
    && EntriesKeyed(d.tables) && EntriesKeyed(d.routines) && EntriesKeyed(d.models)
    && JobsKeyed(d.jobs) && SnapshotsKeyed(d.snapshots) && PoliciesKeyed(d.policies)
  }

  ghost predicate EntriesKeyed<B>(m: map<ObjectRef, Entry<B>>) { forall k :: k in m ==> m[k].ref == k }

  ghost predicate Sound(d: Disk) { RowsKeyed(d) && Gapless(d.accessRows) }

  lemma EntriesKeyedStep<B>(rows: map<ObjectRef, Entry<B>>, had: set<ObjectRef>, op: ChildOp<B>)
    requires EntriesKeyed(rows)
    ensures EntriesKeyed(PersistChild(rows, had, op))
  {
  }

  lemma GaplessWrites(rows: map<Slot, AccessRow>, ds: DatasetMeta)
    requires Gapless(rows)
    ensures Gapless(Rewritten(rows, ds)) && Gapless(OtherRows(rows, ds.ref))
  {
  }

  lemma KeyedOutside<B>(m: map<ObjectRef, Entry<B>>, ds: DatasetRef)
    requires EntriesKeyed(m)
    ensures EntriesKeyed(Outside(m, ObjectDataset, ds))
  {
  }

  lemma KeyedContents(d: Disk, ds: DatasetRef)
    requires RowsKeyed(d)
    ensures RowsKeyed(DropContents(d, ds))
  {
    KeyedOutside(d.tables, ds);
    KeyedOutside(d.routines, ds);
    KeyedOutside(d.models, ds);
    assert PoliciesKeyed(Outside(d.policies, PolicyDataset, ds));
    assert SnapshotsKeyed(SnapshotsOutside(d.snapshots, ds));
  }

  lemma SoundDataset(c: Catalog, d: Disk, op: DatasetOp)
    requires Sound(d)
    ensures Sound(PersistDataset(c, d, op))
  {
    match op
    case CreateDataset(ds) => GaplessWrites(d.accessRows, ds);
    case UpdateDataset(ds) => GaplessWrites(d.accessRows, ds);
    case DeleteDataset(ds, _, _) =>
      GaplessWrites(d.accessRows, DatasetMeta(ds, [], map[]));
      assert RowsKeyed(DropDataset(d, ds));
      KeyedContents(DropDataset(d, ds), ds);
  }

  lemma JobsKeyedStep(rows: map<JobRef, JobMeta>, had: set<JobRef>, op: JobOp)
    requires JobsKeyed(rows)
    ensures JobsKeyed(PersistJob(rows, had, op))
  {
  }

  lemma SnapshotsKeyedStep(rows: map<string, SnapshotMeta>, had: set<string>, op: SnapshotOp)
    requires SnapshotsKeyed(rows)
    ensures SnapshotsKeyed(PersistSnapshot(rows, had, op))
  {
  }

  lemma PoliciesKeyedStep(rows: map<PolicyRef, PolicyMeta>, had: set<PolicyRef>, op: PolicyOp)
    requires PoliciesKeyed(rows)
    ensures PoliciesKeyed(PersistPolicy(rows, had, op))
  {
  }

  lemma SoundOthers(c: Catalog, d: Disk, op: Op)
    requires Sound(d) && (op.OnJobs? || op.OnSnapshots? || op.OnPolicies?)
    ensures Sound(Persist(c, d, op))
  {
    match op
    case OnJobs(o) => JobsKeyedStep(d.jobs, c.jobs.Keys, o);
    case OnSnapshots(o) => SnapshotsKeyedStep(d.snapshots, c.snapshots.Keys, o);
    case OnPolicies(o) => PoliciesKeyedStep(d.policies, c.policies.Keys, o);
  }

  /** A view call touches the two view tables only. */
  lemma ViewsApart(c: Catalog, d: Disk, op: ViewOp)
    ensures var d' := Persist(c, d, OnViews(op)); d' == d.(views := d'.views, edges := d'.edges)
  {
  }

  lemma SoundViews(c: Catalog, d: Disk, op: ViewOp)
    requires Sound(d)
    ensures Sound(Persist(c, d, OnViews(op)))
  {
    ViewsApart(c, d, op);
  }

  lemma SoundChildren(c: Catalog, d: Disk, op: Op)
    requires Sound(d) && (op.OnTables? || op.OnRoutines? || op.OnModels?)
    ensures Sound(Persist(c, d, op))
  {
    match op
    case OnTables(o) => EntriesKeyedStep(d.tables, c.tables.Keys, o);
    case OnRoutines(o) => EntriesKeyedStep(d.routines, c.routines.Keys, o);
    case OnModels(o) => EntriesKeyedStep(d.models, c.models.Keys, o);
  }

  /** Every accepted call leaves the stored tables sound. */
  lemma SoundStep(c: Catalog, d: Disk, op: Op)
    requires Sound(d)
    ensures Sound(Persist(c, d, op))
  {
    if op.OnDatasets? {
      SoundDataset(c, d, op.dop);
    } else if op.OnTables? || op.OnRoutines? || op.OnModels? {
      SoundChildren(c, d, op);
    } else if op.OnViews? {
      SoundViews(c, d, op.vop);
    } else {
      SoundOthers(c, d, op);
    }
  }

  // ---- Hydration ----

  /** Loads one table row by row, in any order, under the identity each record carries. */
  method LoadRows<K, V>(rows: map<K, V>, keyOf: V -> K) returns (m: map<K, V>)
    requires forall k :: k in rows ==> keyOf(rows[k]) == k
    ensures m == rows
  {
    m := map[];
    var rest := rows.Keys;
    while rest != {}
      invariant rest <= rows.Keys
      invariant m == map k | k in rows && k !in rest :: rows[k]
      decreases rest
    {
      var k :| k in rest;
      m := m[keyOf(rows[k]) := rows[k]];
      rest := rest - {k};
    }
  }

  method LoadViews(rows: map<ObjectRef, ViewRow>, edges: set<Edge>) returns (m: map<ObjectRef, ViewMeta>)
    ensures m == HydrateViews(rows, edges)
  {
    m := map[];
    var rest := rows.Keys;
    while rest != {}
      invariant rest <= rows.Keys
      invariant m == map k | k in rows && k !in rest :: HydrateView(k, rows[k], edges)
      decreases rest
    {
      var k :| k in rest;
      m := m[k := HydrateView(k, rows[k], edges)];
      rest := rest - {k};
    }
  }

  /** A result set listing every row once, slots of a dataset ascending. */
  ghost predicate OrderedScan(rows: map<Slot, AccessRow>, scan: seq<Slot>) {
    && (forall s :: s in rows <==> s in scan)
    && (forall i, j :: 0 <= i < j < |scan| && scan[i].dataset == scan[j].dataset ==> scan[i].index < scan[j].index)
  }

  /** The ordered query on the access rows. */
  method SelectOrdered(rows: map<Slot, AccessRow>) returns (scan: seq<Slot>)
    requires Gapless(rows)
    ensures OrderedScan(rows, scan)
  {
    scan := [];
    var rest := rows.Keys;
    while rest != {}
      invariant rest <= rows.Keys
      invariant forall s :: s in rows <==> s in scan || s in rest
      invariant forall s, t :: s in scan && t in rest && s.dataset == t.dataset ==> s.index < t.index
      invariant forall i, j :: 0 <= i < j < |scan| && scan[i].dataset == scan[j].dataset ==> scan[i].index < scan[j].index
      decreases rest
    {
      var s :| s in rest;
      while s.index > 0 && Slot(s.dataset, s.index - 1) in rest
        invariant s in rest
        decreases s.index
      {
        s := Slot(s.dataset, s.index - 1);
      }
      assert s.index > 0 ==> Slot(s.dataset, s.index - 1) in scan;
      scan := scan + [s];
      rest := rest - {s};
    }
  }

  /** The groups hold exactly the slots seen, each entry at its slot. */
  ghost predicate Grouped(rows: map<Slot, AccessRow>, seen: set<Slot>, groups: map<DatasetRef, seq<AccessEntry>>) {
    && (forall s: Slot :: s in seen <==> s.dataset in groups && s.index < |groups[s.dataset]|)
    && (forall s: Slot :: s in seen ==> s in rows && groups[s.dataset][s.index] == RowToEntry(rows[s]))
    && (forall k :: k in groups ==> groups[k] != [])
  }

  function Known(groups: map<DatasetRef, seq<AccessEntry>>, k: DatasetRef): seq<AccessEntry> {
    if k in groups then groups[k] else []
  }

  /** The lowest unseen slot of a dataset is the number of its slots already seen, so appending keeps the order. */
  lemma AppendKeepsGrouped(rows: map<Slot, AccessRow>, seen: set<Slot>, groups: map<DatasetRef, seq<AccessEntry>>, s: Slot)
    requires Gapless(rows) && Grouped(rows, seen, groups)
    requires s in rows && s !in seen
    requires forall t :: t in rows && t !in seen && t.dataset == s.dataset ==> s.index <= t.index
    ensures Grouped(rows, seen + {s}, groups[s.dataset := Known(groups, s.dataset) + [RowToEntry(rows[s])]])
  {
    assert s.index > 0 ==> Slot(s.dataset, s.index - 1) in rows;
    assert s.index == |Known(groups, s.dataset)|;
  }

  lemma GroupIsEntries(rows: map<Slot, AccessRow>, groups: map<DatasetRef, seq<AccessEntry>>, k: DatasetRef)
    requires Grouped(rows, rows.Keys, groups)
    ensures k in groups <==> RowsOf(rows, k) != map[]
    ensures k in groups ==> groups[k] == EntriesFrom(RowsOf(rows, k), 0)
  {
    var own, group := RowsOf(rows, k), Known(groups, k);
    assert forall j: nat :: j in own <==> Slot(k, j) in rows;
    EntriesOfRange(own, 0, |group|);
    if k in groups { assert 0 in own; } else { assert own == map[]; }
  }

  /** `ds_entries.setdefault(dataset, []).append(entry)` over the ordered rows. */
  method GroupEntries(rows: map<Slot, AccessRow>, scan: seq<Slot>) returns (groups: map<DatasetRef, seq<AccessEntry>>)
    requires Gapless(rows) && OrderedScan(rows, scan)
    ensures Grouped(rows, rows.Keys, groups)
  {
    groups := map[];
    ghost var seen: set<Slot> := {};
    for i := 0 to |scan|
      invariant forall s :: s in seen <==> s in scan[..i]
      invariant Grouped(rows, seen, groups)
    {
      var s := scan[i];
      assert s in scan && s !in seen;
      AppendKeepsGrouped(rows, seen, groups, s);
      groups := groups[s.dataset := Known(groups, s.dataset) + [RowToEntry(rows[s])]];
      seen := seen + {s};
    }
    assert seen == rows.Keys;
  }

  /** The dataset with its group attached, if it has one. */
  function Attached(ds: DatasetMeta, groups: map<DatasetRef, seq<AccessEntry>>, k: DatasetRef): DatasetMeta {
    if k in groups then ds.(accessEntries := groups[k]) else ds
  }

  /** Puts the grouped entries onto the datasets already loaded; groups of unknown datasets are skipped. */
  method AttachEntries(datasets: map<DatasetRef, DatasetMeta>, groups: map<DatasetRef, seq<AccessEntry>>)
    returns (m: map<DatasetRef, DatasetMeta>)
    ensures m == map k | k in datasets :: Attached(datasets[k], groups, k)
  {
    m := datasets;
    var rest := groups.Keys;
    while rest != {}
      invariant rest <= groups.Keys && m.Keys == datasets.Keys
      invariant forall k :: k in datasets ==> m[k] == if k in rest then datasets[k] else Attached(datasets[k], groups, k)
      decreases rest
    {
      var k :| k in rest;
      if k in m { m := m[k := m[k].(accessEntries := groups[k])]; }
      rest := rest - {k};
    }
  }

  lemma AttachedIsHydrated(datasets: map<DatasetRef, DatasetMeta>, rows: map<Slot, AccessRow>, groups: map<DatasetRef, seq<AccessEntry>>,
                           m: map<DatasetRef, DatasetMeta>)
    requires Grouped(rows, rows.Keys, groups) && m == map k | k in datasets :: Attached(datasets[k], groups, k)
    ensures m == HydrateDatasets(datasets, rows)
  {
    forall k | k in datasets ensures Attached(datasets[k], groups, k) == HydrateDataset(datasets[k], RowsOf(rows, k)) {
      GroupIsEntries(rows, groups, k);
    }
  }

  method LoadDatasets(datasets: map<DatasetRef, DatasetMeta>, rows: map<Slot, AccessRow>) returns (m: map<DatasetRef, DatasetMeta>)
    requires DatasetsKeyed(datasets) && Gapless(rows)
    ensures m == HydrateDatasets(datasets, rows)
  {
    var loaded := LoadRows(datasets, (ds: DatasetMeta) => ds.ref);
    var scan := SelectOrdered(rows);
    var groups := GroupEntries(rows, scan);
    m := AttachEntries(loaded, groups);
    AttachedIsHydrated(datasets, rows, groups, m);
  }

  /** The catalog the hydration loops build is the specified one. */
  method LoadAll(d: Disk) returns (c: Catalog)
    requires Sound(d)
    ensures c == Hydrate(d)
  {
    var datasets := LoadDatasets(d.datasets, d.accessRows);
    var tables := LoadRows(d.tables, (e: TableMeta) => e.ref);
    var routines := LoadRows(d.routines, (e: RoutineMeta) => e.ref);
    var models := LoadRows(d.models, (e: ModelMeta) => e.ref);
    var jobs := LoadRows(d.jobs, (j: JobMeta) => j.ref);
    var snapshots := LoadRows(d.snapshots, (s: SnapshotMeta) => s.id);
    var views := LoadViews(d.views, d.edges);
    var policies := LoadRows(d.policies, (p: PolicyMeta) => p.ref);
    c := Catalog(datasets, tables, routines, models, jobs, snapshots, views, policies);
  }

  /** One insert per access entry, the slot counting up. */
  method InsertRows(rows: map<Slot, AccessRow>, k: DatasetRef, entries: seq<AccessEntry>) returns (rows': map<Slot, AccessRow>)
    ensures rows' == rows + FreshRows(k, entries)
  {
    rows' := rows;
    for i := 0 to |entries|
      invariant forall s: Slot :: s in rows' <==> s in rows || (s.dataset == k && s.index < i)
      invariant forall s :: s in rows' ==>
                  rows'[s] == if s.dataset == k && s.index < i then EntryToRow(entries[s.index]) else rows[s]
    {
      rows' := rows'[Slot(k, i) := EntryToRow(entries[i])];
    }
  }

  /** The repository with its cache and its stored tables; it hydrates on first use. */
  class DuckDBCatalogRepository {
    const cache: MemoryCatalogRepository
    var disk: Disk
    var loaded: bool

    ghost predicate Valid()
      reads this, cache
    {
      Sound(disk) && (!loaded ==> cache.State() == EMPTY)
    }

    /** What callers see: the cache, or what it will be hydrated to on the next call. */
    ghost function Now(): Store
      reads this, cache
    {
      Store(if loaded then cache.State() else Hydrate(disk), disk)
    }

    /** Call `op` on state `before` ended with `r` and led here. */
    ghost predicate After(before: Store, op: Op, r: Outcome)
      reads this, cache
    {
      Now() == Next(before, Call(op)) && r == Apply(before.cache, op).outcome
    }

    /** Opens the repository on existing tables, as a restart does. */
    constructor (stored: Disk)
      requires Sound(stored)
      ensures Valid() && fresh(cache) && !loaded
      ensures Now() == Store(Hydrate(stored), stored)
    {
      var c := new MemoryCatalogRepository();
      cache, disk, loaded := c, stored, false;
    }

    /** Hydrates the cache table by table; a later call finds it loaded and does nothing. */
    method EnsureReady()
      requires Valid()
      modifies this`loaded, cache
      ensures Valid() && loaded && Now() == old(Now())
    {
      if loaded { return; }
      var c := LoadAll(disk);
      cache.datasets, cache.tables, cache.routines, cache.models := c.datasets, c.tables, c.routines, c.models;
      cache.jobs, cache.snapshots, cache.views, cache.policies := c.jobs, c.snapshots, c.views, c.policies;
      loaded := true;
    }

    /** Replaces the record and rewrites the access rows slot by slot. */
    method WriteDatasetRows(ds: DatasetMeta)
      modifies this`disk
      ensures disk == WriteDataset(old(disk), ds)
    {
      var rows := InsertRows(OtherRows(disk.accessRows, ds.ref), ds.ref, ds.accessEntries);
      disk := disk.(datasets := disk.datasets[ds.ref := ds], accessRows := rows);
    }

    method CreateDataset(ds: DatasetMeta) returns (r: Outcome)
      requires Valid()
      modifies this, cache
      ensures Valid() && After(old(Now()), OnDatasets(DatasetOp.CreateDataset(ds)), r)
    {
      EnsureReady();
      SoundStep(cache.State(), disk, OnDatasets(DatasetOp.CreateDataset(ds)));
      r := cache.CreateDataset(ds);
      if r == Done { WriteDatasetRows(ds); }
    }

    method UpdateDataset(ds: DatasetMeta) returns (r: Outcome)
      requires Valid()
      modifies this, cache
      ensures Valid() && After(old(Now()), OnDatasets(DatasetOp.UpdateDataset(ds)), r)
    {
      EnsureReady();
      SoundStep(cache.State(), disk, OnDatasets(DatasetOp.UpdateDataset(ds)));
      r := cache.UpdateDataset(ds);
      if r == Done { WriteDatasetRows(ds); }
    }

    method DeleteDataset(ds: DatasetRef, notFoundOk: bool, deleteContents: bool) returns (r: Outcome)
      requires Valid()
      modifies this, cache
      ensures Valid() && After(old(Now()), OnDatasets(DatasetOp.DeleteDataset(ds, notFoundOk, deleteContents)), r)
    {
      EnsureReady();
      SoundStep(cache.State(), disk, OnDatasets(DatasetOp.DeleteDataset(ds, notFoundOk, deleteContents)));
      var had := ds in cache.datasets;
      r := cache.DeleteDataset(ds, notFoundOk, deleteContents);
      if r == Done && had {
        disk := DropDataset(disk, ds);
        if deleteContents { disk := DropContents(disk, ds); }
      }
    }

    method CreateTable(e: TableMeta) returns (r: Outcome)
      requires Valid()
      modifies this, cache
      ensures Valid() && After(old(Now()), OnTables(Create(e)), r)
    {
      EnsureReady();
      SoundStep(cache.State(), disk, OnTables(Create(e)));
      r := cache.CreateTable(e);
      if r == Done { disk := disk.(tables := disk.tables[e.ref := e]); }
    }

    method UpdateTable(e: TableMeta) returns (r: Outcome)
      requires Valid()
      modifies this, cache
      ensures Valid() && After(old(Now()), OnTables(Update(e)), r)
    {
      EnsureReady();
      SoundStep(cache.State(), disk, OnTables(Update(e)));
      r := cache.UpdateTable(e);
      if r == Done { disk := disk.(tables := disk.tables[e.ref := e]); }
    }

    method DeleteTable(k: ObjectRef, notFoundOk: bool) returns (r: Outcome)
      requires Valid()
      modifies this, cache
      ensures Valid() && After(old(Now()), OnTables(Delete(k, notFoundOk)), r)
    {
      EnsureReady();
      SoundStep(cache.State(), disk, OnTables(Delete(k, notFoundOk)));
      var had := k in cache.tables;
      r := cache.DeleteTable(k, notFoundOk);
      if r == Done && had { disk := disk.(tables := disk.tables - {k}); }
    }

    method CreateRoutine(e: RoutineMeta) returns (r: Outcome)
      requires Valid()
      modifies this, cache
      ensures Valid() && After(old(Now()), OnRoutines(Create(e)), r)
    {
      EnsureReady();
      SoundStep(cache.State(), disk, OnRoutines(Create(e)));
      r := cache.CreateRoutine(e);
      if r == Done { disk := disk.(routines := disk.routines[e.ref := e]); }
    }

    method UpdateRoutine(e: RoutineMeta) returns (r: Outcome)
      requires Valid()
      modifies this, cache
      ensures Valid() && After(old(Now()), OnRoutines(Update(e)), r)
    {
      EnsureReady();
      SoundStep(cache.State(), disk, OnRoutines(Update(e)));
      r := cache.UpdateRoutine(e);
      if r == Done { disk := disk.(routines := disk.routines[e.ref := e]); }
    }

    method DeleteRoutine(k: ObjectRef, notFoundOk: bool) returns (r: Outcome)
      requires Valid()
      modifies this, cache
      ensures Valid() && After(old(Now()), OnRoutines(Delete(k, notFoundOk)), r)
    {
      EnsureReady();
      SoundStep(cache.State(), disk, OnRoutines(Delete(k, notFoundOk)));
      var had := k in cache.routines;
      r := cache.DeleteRoutine(k, notFoundOk);
      if r == Done && had { disk := disk.(routines := disk.routines - {k}); }
    }

    method CreateModel(e: ModelMeta) returns (r: Outcome)
      requires Valid()
      modifies this, cache
      ensures Valid() && After(old(Now()), OnModels(Create(e)), r)
    {
      EnsureReady();
      SoundStep(cache.State(), disk, OnModels(Create(e)));
      r := cache.CreateModel(e);
      if r == Done { disk := disk.(models := disk.models[e.ref := e]); }
    }

    method UpdateModel(e: ModelMeta) returns (r: Outcome)
      requires Valid()
      modifies this, cache
      ensures Valid() && After(old(Now()), OnModels(Update(e)), r)
    {
      EnsureReady();
      SoundStep(cache.State(), disk, OnModels(Update(e)));
      r := cache.UpdateModel(e);
      if r == Done { disk := disk.(models := disk.models[e.ref := e]); }
    }

    method DeleteModel(k: ObjectRef, notFoundOk: bool) returns (r: Outcome)
      requires Valid()
      modifies this, cache
      ensures Valid() && After(old(Now()), OnModels(Delete(k, notFoundOk)), r)
    {
      EnsureReady();
      SoundStep(cache.State(), disk, OnModels(Delete(k, notFoundOk)));
      var had := k in cache.models;
      r := cache.DeleteModel(k, notFoundOk);
      if r == Done && had { disk := disk.(models := disk.models - {k}); }
    }

    method UpsertJob(j: JobMeta) returns (r: Outcome)
      requires Valid()
      modifies this, cache
      ensures Valid() && After(old(Now()), OnJobs(JobOp.UpsertJob(j)), r)
    {
      EnsureReady();
      SoundStep(cache.State(), disk, OnJobs(JobOp.UpsertJob(j)));
      r := cache.UpsertJob(j);
      if r == Done { disk := disk.(jobs := disk.jobs[j.ref := j]); }
    }

    method DeleteJob(k: JobRef, notFoundOk: bool) returns (r: Outcome)
      requires Valid()
      modifies this, cache
      ensures Valid() && After(old(Now()), OnJobs(JobOp.DeleteJob(k, notFoundOk)), r)
    {
      EnsureReady();
      SoundStep(cache.State(), disk, OnJobs(JobOp.DeleteJob(k, notFoundOk)));
      var had := k in cache.jobs;
      r := cache.DeleteJob(k, notFoundOk);
      if r == Done && had { disk := disk.(jobs := disk.jobs - {k}); }
    }

    method CreateSnapshot(s: SnapshotMeta) returns (r: Outcome)
      requires Valid()
      modifies this, cache
      ensures Valid() && After(old(Now()), OnSnapshots(SnapshotOp.CreateSnapshot(s)), r)
    {
      EnsureReady();
      SoundStep(cache.State(), disk, OnSnapshots(SnapshotOp.CreateSnapshot(s)));
      r := cache.CreateSnapshot(s);
      if r == Done { disk := disk.(snapshots := disk.snapshots[s.id := s]); }
    }

    method DeleteSnapshot(k: string, notFoundOk: bool) returns (r: Outcome)
      requires Valid()
      modifies this, cache
      ensures Valid() && After(old(Now()), OnSnapshots(SnapshotOp.DeleteSnapshot(k, notFoundOk)), r)
    {
      EnsureReady();
      SoundStep(cache.State(), disk, OnSnapshots(SnapshotOp.DeleteSnapshot(k, notFoundOk)));
      var had := k in cache.snapshots;
      r := cache.DeleteSnapshot(k, notFoundOk);
      if r == Done && had { disk := disk.(snapshots := disk.snapshots - {k}); }
    }

    /** The record is replaced, then the edges: the old ones go and one is added per base table. */
    method UpsertView(v: ViewMeta) returns (r: Outcome)
      requires Valid()
      modifies this, cache
      ensures Valid() && After(old(Now()), OnViews(ViewOp.UpsertView(v)), r)
    {
      EnsureReady();
      SoundStep(cache.State(), disk, OnViews(ViewOp.UpsertView(v)));
      r := cache.UpsertView(v);
      var edges := EdgesOff(disk.edges, v.ref);
      ghost var kept := edges;
      var rest := v.baseTables;
      while rest != {}
        invariant rest <= v.baseTables
        invariant edges == kept + set b | b in v.baseTables && b !in rest :: Edge(v.ref, b)
        decreases rest
      {
        var b :| b in rest;
        edges := edges + {Edge(v.ref, b)};
        rest := rest - {b};
      }
      assert edges == Relinked(disk.edges, v);
      disk := disk.(views := disk.views[v.ref := ViewRow(v.query, v.lastRefresh, v.isStale)], edges := edges);
    }

    method DeleteView(k: ObjectRef, notFoundOk: bool) returns (r: Outcome)
      requires Valid()
      modifies this, cache
      ensures Valid() && After(old(Now()), OnViews(ViewOp.DeleteView(k, notFoundOk)), r)
    {
      EnsureReady();
      SoundStep(cache.State(), disk, OnViews(ViewOp.DeleteView(k, notFoundOk)));
      var had := k in cache.views;
      r := cache.DeleteView(k, notFoundOk);
      if r == Done && had { disk := disk.(views := disk.views - {k}, edges := EdgesOff(disk.edges, k)); }
    }

    method CreatePolicy(p: PolicyMeta) returns (r: Outcome)
      requires Valid()
      modifies this, cache
      ensures Valid() && After(old(Now()), OnPolicies(PolicyOp.CreatePolicy(p)), r)
    {
      EnsureReady();
      SoundStep(cache.State(), disk, OnPolicies(PolicyOp.CreatePolicy(p)));
      r := cache.CreatePolicy(p);
      if r == Done { disk := disk.(policies := disk.policies[p.ref := p]); }
    }

    method UpdatePolicy(p: PolicyMeta) returns (r: Outcome)
      requires Valid()
      modifies this, cache
      ensures Valid() && After(old(Now()), OnPolicies(PolicyOp.UpdatePolicy(p)), r)
    {
      EnsureReady();
      SoundStep(cache.State(), disk, OnPolicies(PolicyOp.UpdatePolicy(p)));
      r := cache.UpdatePolicy(p);
      if r == Done { disk := disk.(policies := disk.policies[p.ref := p]); }
    }

    method DeletePolicy(k: PolicyRef, notFoundOk: bool) returns (r: Outcome)
      requires Valid()
      modifies this, cache
      ensures Valid() && After(old(Now()), OnPolicies(PolicyOp.DeletePolicy(k, notFoundOk)), r)
    {
      EnsureReady();
      SoundStep(cache.State(), disk, OnPolicies(PolicyOp.DeletePolicy(k, notFoundOk)));
      var had := k in cache.policies;
      r := cache.DeletePolicy(k, notFoundOk);
      if r == Done && had { disk := disk.(policies := disk.policies - {k}); }
    }
  }
}
