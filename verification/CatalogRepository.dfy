/** The dictionary-backed repository as an object, with the key-listing and purging loops it is made of. */
module CatalogRepository {
  import opened CatalogModel

  // ---- Dictionary loops ----

  /** `[k for k in mapping if ...]` over the keys that lie in dataset `ds`. */
  method KeysInDataset<K, V>(m: map<K, V>, datasetOf: K -> DatasetRef, ds: DatasetRef) returns (keys: seq<K>)
    ensures forall k :: k in keys <==> k in m && datasetOf(k) == ds
    ensures forall i, j :: 0 <= i < j < |keys| ==> keys[i] != keys[j]
  {
    keys := [];
    var rest := m.Keys;
    while rest != {}
      invariant rest <= m.Keys
      invariant forall k :: k in keys <==> k in m && k !in rest && datasetOf(k) == ds
      invariant forall i, j :: 0 <= i < j < |keys| ==> keys[i] != keys[j]
      decreases rest
    {
      var k :| k in rest;
      if datasetOf(k) == ds { keys := keys + [k]; }
      rest := rest - {k};
    }
  }

  /** `for k in keys: del mapping[k]`, which needs every key to be there when its turn comes. */
  method DeleteKeys<K, V>(m: map<K, V>, keys: seq<K>) returns (m': map<K, V>)
    requires forall k :: k in keys ==> k in m
    requires forall i, j :: 0 <= i < j < |keys| ==> keys[i] != keys[j]
    ensures m' == map k | k in m && k !in keys :: m[k]
  {
    m' := m;
    for i := 0 to |keys|
      invariant m' == map k | k in m && k !in keys[..i] :: m[k]
    {
      assert keys[i] !in keys[..i] && keys[i] in m';
      assert keys[..i + 1] == keys[..i] + [keys[i]];
      m' := m' - {keys[i]};
    }
    assert keys[..|keys|] == keys;
  }

  /** Deleting the listed keys of a dataset leaves what lies outside it. */
  lemma DeletedIsOutside<K, V>(m: map<K, V>, keys: seq<K>, datasetOf: K -> DatasetRef, ds: DatasetRef)
    requires forall k :: k in keys <==> k in m && datasetOf(k) == ds
    ensures (map k | k in m && k !in keys :: m[k]) == Outside(m, datasetOf, ds)
  {
  }

  method PurgeDataset<K, V>(m: map<K, V>, datasetOf: K -> DatasetRef, ds: DatasetRef) returns (m': map<K, V>)
    ensures m' == Outside(m, datasetOf, ds)
  {
    var keys := KeysInDataset(m, datasetOf, ds);
    m' := DeleteKeys(m, keys);
    DeletedIsOutside(m, keys, datasetOf, ds);
  }

  /** The keys of one dataset, in whatever order, each once. */
  ghost predicate ListsChildren<V>(m: map<ObjectRef, V>, keys: seq<ObjectRef>, ds: DatasetRef) {
    && (forall k :: k in keys <==> k in m && k.Dataset() == ds)
    && (forall i, j :: 0 <= i < j < |keys| ==> keys[i] != keys[j])
  }

  method ChildKeys<V>(m: map<ObjectRef, V>, ds: DatasetRef) returns (keys: seq<ObjectRef>)
    ensures ListsChildren(m, keys, ds)
    ensures keys != [] <==> HasIn(m, ds)
  {
    keys := KeysInDataset(m, ObjectDataset, ds);
    if keys != [] { assert keys[0] in keys; }
  }

  method DeleteChildren<V>(m: map<ObjectRef, V>, keys: seq<ObjectRef>, ds: DatasetRef) returns (m': map<ObjectRef, V>)
    requires ListsChildren(m, keys, ds)
    ensures m' == Outside(m, ObjectDataset, ds)
  {
    m' := DeleteKeys(m, keys);
    DeletedIsOutside(m, keys, ObjectDataset, ds);
  }

  /** Snapshots carry their dataset on the value, not in the key. */
  method PurgeSnapshots(m: map<string, SnapshotMeta>, ds: DatasetRef) returns (m': map<string, SnapshotMeta>)
    ensures m' == SnapshotsOutside(m, ds)
  {
    var ids: seq<string> := [];
    var rest := m.Keys;
    while rest != {}
      invariant rest <= m.Keys
      invariant forall k :: k in ids <==> k in m && k !in rest && m[k].source.Dataset() == ds
      invariant forall i, j :: 0 <= i < j < |ids| ==> ids[i] != ids[j]
      decreases rest
    {
      var k :| k in rest;
      if m[k].source.Dataset() == ds { ids := ids + [k]; }
      rest := rest - {k};
    }
    m' := DeleteKeys(m, ids);
  }

  /** The dictionary-backed repository. */
  class MemoryCatalogRepository {
    var datasets: map<DatasetRef, DatasetMeta>
    var tables: map<ObjectRef, TableMeta>
    var routines: map<ObjectRef, RoutineMeta>
    var models: map<ObjectRef, ModelMeta>
    var jobs: map<JobRef, JobMeta>
    var snapshots: map<string, SnapshotMeta>
    var views: map<ObjectRef, ViewMeta>
    var policies: map<PolicyRef, PolicyMeta>

    function State(): Catalog
      reads this
    {
      Catalog(datasets, tables, routines, models, jobs, snapshots, views, policies)
    }

    constructor ()
      ensures State() == EMPTY
    {
      datasets, tables, routines, models := map[], map[], map[], map[];
      jobs, snapshots, views, policies := map[], map[], map[], map[];
    }

    method CreateDataset(ds: DatasetMeta) returns (r: Outcome)
      modifies this
      ensures Change(State(), r) == ApplyDataset(old(State()), DatasetOp.CreateDataset(ds))
    {
      if ds.ref in datasets { return AlreadyExists; }
      datasets := datasets[ds.ref := ds];
      return Done;
    }

    method UpdateDataset(ds: DatasetMeta) returns (r: Outcome)
      modifies this
      ensures Change(State(), r) == ApplyDataset(old(State()), DatasetOp.UpdateDataset(ds))
    {
      if ds.ref !in datasets { return NotFound; }
      datasets := datasets[ds.ref := ds];
      return Done;
    }

    /** Refused while tables, routines or models remain, unless asked to cascade; then every kind goes. */
    method DeleteDataset(ds: DatasetRef, notFoundOk: bool, deleteContents: bool) returns (r: Outcome)
      modifies this
      ensures Change(State(), r) == ApplyDataset(old(State()), DatasetOp.DeleteDataset(ds, notFoundOk, deleteContents))
    {
      if ds !in datasets {
        return if notFoundOk then Done else NotFound;
      }
      var tableKeys := ChildKeys(tables, ds);
      var routineKeys := ChildKeys(routines, ds);
      var modelKeys := ChildKeys(models, ds);
      if (tableKeys != [] || routineKeys != [] || modelKeys != []) && !deleteContents {
        return NotEmpty;
      }
      tables := DeleteChildren(tables, tableKeys, ds);
      routines := DeleteChildren(routines, routineKeys, ds);
      models := DeleteChildren(models, modelKeys, ds);
      policies := PurgeDataset(policies, PolicyDataset, ds);
      views := PurgeDataset(views, ObjectDataset, ds);
      snapshots := PurgeSnapshots(snapshots, ds);
      datasets := datasets - {ds};
      r := Done;
    }

    method CreateTable(t: TableMeta) returns (r: Outcome)
      modifies this`tables
      ensures Change(tables, r) == ApplyChild(old(tables), datasets.Keys, Create(t))
    {
      if t.ref in tables { return AlreadyExists; }
      if t.ref.Dataset() !in datasets { return NotFound; }
      tables := tables[t.ref := t];
      return Done;
    }

    method UpdateTable(t: TableMeta) returns (r: Outcome)
      modifies this`tables
      ensures Change(tables, r) == ApplyChild(old(tables), datasets.Keys, Update(t))
    {
      if t.ref !in tables { return NotFound; }
      tables := tables[t.ref := t];
      return Done;
    }

    method DeleteTable(k: ObjectRef, notFoundOk: bool) returns (r: Outcome)
      modifies this`tables
      ensures Change(tables, r) == ApplyChild(old(tables), datasets.Keys, Delete(k, notFoundOk))
    {
      if k !in tables { return if notFoundOk then Done else NotFound; }
      tables := tables - {k};
      return Done;
    }

    method CreateRoutine(e: RoutineMeta) returns (r: Outcome)
      modifies this`routines
      ensures Change(routines, r) == ApplyChild(old(routines), datasets.Keys, Create(e))
    {
      if e.ref in routines { return AlreadyExists; }
      if e.ref.Dataset() !in datasets { return NotFound; }
      routines := routines[e.ref := e];
      return Done;
    }

    method UpdateRoutine(e: RoutineMeta) returns (r: Outcome)
      modifies this`routines
      ensures Change(routines, r) == ApplyChild(old(routines), datasets.Keys, Update(e))
    {
      if e.ref !in routines { return NotFound; }
      routines := routines[e.ref := e];
      return Done;
    }

    method DeleteRoutine(k: ObjectRef, notFoundOk: bool) returns (r: Outcome)
      modifies this`routines
      ensures Change(routines, r) == ApplyChild(old(routines), datasets.Keys, Delete(k, notFoundOk))
    {
      if k !in routines { return if notFoundOk then Done else NotFound; }
      routines := routines - {k};
      return Done;
    }

    method CreateModel(e: ModelMeta) returns (r: Outcome)
      modifies this`models
      ensures Change(models, r) == ApplyChild(old(models), datasets.Keys, Create(e))
    {
      if e.ref in models { return AlreadyExists; }
      if e.ref.Dataset() !in datasets { return NotFound; }
      models := models[e.ref := e];
      return Done;
    }

    method UpdateModel(e: ModelMeta) returns (r: Outcome)
      modifies this`models
      ensures Change(models, r) == ApplyChild(old(models), datasets.Keys, Update(e))
    {
      if e.ref !in models { return NotFound; }
      models := models[e.ref := e];
      return Done;
    }

    method DeleteModel(k: ObjectRef, notFoundOk: bool) returns (r: Outcome)
      modifies this`models
      ensures Change(models, r) == ApplyChild(old(models), datasets.Keys, Delete(k, notFoundOk))
    {
      if k !in models { return if notFoundOk then Done else NotFound; }
      models := models - {k};
      return Done;
    }

    method UpsertJob(j: JobMeta) returns (r: Outcome)
      modifies this`jobs
      ensures Change(jobs, r) == ApplyJob(old(jobs), JobOp.UpsertJob(j))
    {
      jobs := jobs[j.ref := j];
      return Done;
    }

    method DeleteJob(k: JobRef, notFoundOk: bool) returns (r: Outcome)
      modifies this`jobs
      ensures Change(jobs, r) == ApplyJob(old(jobs), JobOp.DeleteJob(k, notFoundOk))
    {
      if k !in jobs { return if notFoundOk then Done else NotFound; }
      jobs := jobs - {k};
      return Done;
    }

    method CreateSnapshot(s: SnapshotMeta) returns (r: Outcome)
      modifies this`snapshots
      ensures Change(snapshots, r) == ApplySnapshot(old(snapshots), SnapshotOp.CreateSnapshot(s))
    {
      if s.id in snapshots { return AlreadyExists; }
      snapshots := snapshots[s.id := s];
      return Done;
    }

    method DeleteSnapshot(k: string, notFoundOk: bool) returns (r: Outcome)
      modifies this`snapshots
      ensures Change(snapshots, r) == ApplySnapshot(old(snapshots), SnapshotOp.DeleteSnapshot(k, notFoundOk))
    {
      if k !in snapshots { return if notFoundOk then Done else NotFound; }
      snapshots := snapshots - {k};
      return Done;
    }

    method UpsertView(v: ViewMeta) returns (r: Outcome)
      modifies this`views
      ensures Change(views, r) == ApplyView(old(views), ViewOp.UpsertView(v))
    {
      views := views[v.ref := v];
      return Done;
    }

    method DeleteView(k: ObjectRef, notFoundOk: bool) returns (r: Outcome)
      modifies this`views
      ensures Change(views, r) == ApplyView(old(views), ViewOp.DeleteView(k, notFoundOk))
    {
      if k !in views { return if notFoundOk then Done else NotFound; }
      views := views - {k};
      return Done;
    }

    method CreatePolicy(p: PolicyMeta) returns (r: Outcome)
      modifies this`policies
      ensures Change(policies, r) == ApplyPolicy(old(policies), PolicyOp.CreatePolicy(p))
    {
      if p.ref in policies { return AlreadyExists; }
      policies := policies[p.ref := p];
      return Done;
    }

    method UpdatePolicy(p: PolicyMeta) returns (r: Outcome)
      modifies this`policies
      ensures Change(policies, r) == ApplyPolicy(old(policies), PolicyOp.UpdatePolicy(p))
    {
      if p.ref !in policies { return NotFound; }
      policies := policies[p.ref := p];
      return Done;
    }

    method DeletePolicy(k: PolicyRef, notFoundOk: bool) returns (r: Outcome)
      modifies this`policies
      ensures Change(policies, r) == ApplyPolicy(old(policies), PolicyOp.DeletePolicy(k, notFoundOk))
    {
      if k !in policies { return if notFoundOk then Done else NotFound; }
      policies := policies - {k};
      return Done;
    }
  }
}
