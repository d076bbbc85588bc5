/**
 The persistent side of the catalog: ten stored tables, the writes each call makes to
 them, and hydration, which rebuilds the dictionaries from the tables at start-up.

 A JSON column holds the record it was dumped from (dumping and validating a record are
 taken to be inverse).  Six kinds are stored as they are; a dataset is split over two tables
 (its record, and one row per access entry with references joined by "::"), and so is a
 materialized view (its record, and one edge per base table).
 SQL statements are taken to succeed.
 */
module CatalogStore {
  import opened Basics
  import opened CatalogModel
  import opened DoubledSeparator

  datatype Slot = Slot(dataset: DatasetRef, index: nat)

  datatype AccessRow = AccessRow(
    role: Option<string>, userByEmail: Option<string>, groupByEmail: Option<string>,
    domain: Option<string>, specialGroup: Option<string>, iamMember: Option<string>,
    viewRef: Option<string>, routineRef: Option<string>, datasetRef: Option<string>)

  datatype ViewRow = ViewRow(query: string, lastRefresh: int, isStale: bool)
  datatype Edge = Edge(view: ObjectRef, base: ObjectRef)

  datatype Disk = Disk(
    datasets: map<DatasetRef, DatasetMeta>,
    accessRows: map<Slot, AccessRow>,
    tables: map<ObjectRef, TableMeta>,
    routines: map<ObjectRef, RoutineMeta>,
    models: map<ObjectRef, ModelMeta>,
    jobs: map<JobRef, JobMeta>,
    snapshots: map<string, SnapshotMeta>,
    views: map<ObjectRef, ViewRow>,
    edges: set<Edge>,
    policies: map<PolicyRef, PolicyMeta>)

  const BLANK: Disk := Disk(map[], map[], map[], map[], map[], map[], map[], map[], {}, map[])

  // ---- Access entries ----

  function ObjectParts(r: ObjectRef): seq<string> { [r.project, r.dataset, r.name] }
  function DatasetParts(r: DatasetRef): seq<string> { [r.project, r.dataset] }

  function JoinObject(r: Option<ObjectRef>): Option<string> {
    if r.None? then None else Some(Join(ObjectParts(r.value), ':'))
  }

  function JoinDataset(r: Option<DatasetRef>): Option<string> {
    if r.None? then None else Some(Join(DatasetParts(r.value), ':'))
  }

  /** A stored reference that does not split into three parts reads back as absent. */
  function SplitObject(raw: Option<string>): Option<ObjectRef> {
    if raw.None? then None
    else
      var parts := Split(raw.value, ':');
      if |parts| == 3 then Some(ObjectRef(parts[0], parts[1], parts[2])) else None
  }

  function SplitDataset(raw: Option<string>): Option<DatasetRef> {
    if raw.None? then None
    else
      var parts := Split(raw.value, ':');
      if |parts| == 2 then Some(DatasetRef(parts[0], parts[1])) else None
  }

  function EntryToRow(e: AccessEntry): AccessRow {
    AccessRow(e.role, e.userByEmail, e.groupByEmail, e.domain, e.specialGroup, e.iamMember,
              JoinObject(e.view), JoinObject(e.routine), JoinDataset(e.dataset))
  }

  function RowToEntry(r: AccessRow): AccessEntry {
    AccessEntry(r.role, r.userByEmail, r.groupByEmail, r.domain, r.specialGroup, r.iamMember,
                SplitObject(r.viewRef), SplitObject(r.routineRef), SplitDataset(r.datasetRef))
  }

  /** The references of the entry can be told apart again once joined. */
  predicate Storable(e: AccessEntry) {
    && (e.view.Some? ==> Splittable(ObjectParts(e.view.value), ':'))
    && (e.routine.Some? ==> Splittable(ObjectParts(e.routine.value), ':'))
    && (e.dataset.Some? ==> Splittable(DatasetParts(e.dataset.value), ':'))
  }

  lemma ObjectRoundTrip(r: Option<ObjectRef>)
    ensures SplitObject(JoinObject(r)) == r <==> (r.Some? ==> Splittable(ObjectParts(r.value), ':'))
  {
    if r.Some? {
      RoundTripExactly(ObjectParts(r.value), ':');
      var parts := Split(Join(ObjectParts(r.value), ':'), ':');
      if |parts| == 3 { assert parts == [parts[0], parts[1], parts[2]]; }
    }
  }

  lemma DatasetRoundTrip(r: Option<DatasetRef>)
    ensures SplitDataset(JoinDataset(r)) == r <==> (r.Some? ==> Splittable(DatasetParts(r.value), ':'))
  {
    if r.Some? {
      RoundTripExactly(DatasetParts(r.value), ':');
      var parts := Split(Join(DatasetParts(r.value), ':'), ':');
      if |parts| == 2 { assert parts == [parts[0], parts[1]]; }
    }
  }

  /** An access entry survives storage exactly when its references are storable. */
  lemma EntryRoundTrip(e: AccessEntry)
    ensures RowToEntry(EntryToRow(e)) == e <==> Storable(e)
  {
    ObjectRoundTrip(e.view);
    ObjectRoundTrip(e.routine);
    DatasetRoundTrip(e.dataset);
  }

  // ---- Hydration ----

  /** The access rows of one dataset, by slot. */
  function RowsOf(rows: map<Slot, AccessRow>, k: DatasetRef): map<nat, AccessRow> {
    map s | s in rows && s.dataset == k :: s.index := rows[s]
  }

  /** The entries at slots i, i+1, ... up to the first gap. */
  function EntriesFrom(rows: map<nat, AccessRow>, i: nat): seq<AccessEntry>
    decreases |rows|
  {
    if i in rows then
      assert (rows - {i}).Keys == rows.Keys - {i};
      [RowToEntry(rows[i])] + EntriesFrom(rows - {i}, i + 1)
    else []
  }

  /** The stored rows replace the entries of the JSON record when there are any. */
  function HydrateDataset(ds: DatasetMeta, rows: map<nat, AccessRow>): DatasetMeta {
    if rows == map[] then ds else ds.(accessEntries := EntriesFrom(rows, 0))
  }

  function HydrateDatasets(datasets: map<DatasetRef, DatasetMeta>, rows: map<Slot, AccessRow>): map<DatasetRef, DatasetMeta> {
    map k | k in datasets :: HydrateDataset(datasets[k], RowsOf(rows, k))
  }

  /** What the outer join yields for a view without edges: one row of NULLs, each turned into text. */
  const NULL_BASE: ObjectRef := ObjectRef("None", "None", "None")

  function EdgeBases(edges: set<Edge>, k: ObjectRef): set<ObjectRef> {
    set e | e in edges && e.view == k :: e.base
  }

  function JoinedBases(bases: set<ObjectRef>): set<ObjectRef> {
    if bases == {} then {NULL_BASE} else bases
  }

  function HydrateView(k: ObjectRef, row: ViewRow, edges: set<Edge>): ViewMeta {
    ViewMeta(k, row.query, row.lastRefresh, row.isStale, JoinedBases(EdgeBases(edges, k)))
  }

  function HydrateViews(views: map<ObjectRef, ViewRow>, edges: set<Edge>): map<ObjectRef, ViewMeta> {
    map k | k in views :: HydrateView(k, views[k], edges)
  }

  /** The catalog a fresh repository builds from the stored tables. */
  function Hydrate(d: Disk): Catalog {
    Catalog(HydrateDatasets(d.datasets, d.accessRows), d.tables, d.routines, d.models, d.jobs, d.snapshots,
            HydrateViews(d.views, d.edges), d.policies)
  }

  // ---- Write-through ----

  function OtherRows(rows: map<Slot, AccessRow>, k: DatasetRef): map<Slot, AccessRow> {
    map s | s in rows && s.dataset != k :: rows[s]
  }

  function FreshRows(k: DatasetRef, entries: seq<AccessEntry>): map<Slot, AccessRow> {
    map i | 0 <= i < |entries| :: Slot(k, i) := EntryToRow(entries[i])
  }

  function Rewritten(rows: map<Slot, AccessRow>, ds: DatasetMeta): map<Slot, AccessRow> {
    OtherRows(rows, ds.ref) + FreshRows(ds.ref, ds.accessEntries)
  }

  function WriteDataset(d: Disk, ds: DatasetMeta): Disk {
    d.(datasets := d.datasets[ds.ref := ds], accessRows := Rewritten(d.accessRows, ds))
  }

  function EdgesOff(edges: set<Edge>, k: ObjectRef): set<Edge> {
    set e | e in edges && e.view != k
  }

  function Relinked(edges: set<Edge>, v: ViewMeta): set<Edge> {
    EdgesOff(edges, v.ref) + set b | b in v.baseTables :: Edge(v.ref, b)
  }

  function WriteView(d: Disk, v: ViewMeta): Disk {
    d.(views := d.views[v.ref := ViewRow(v.query, v.lastRefresh, v.isStale)],
       edges := Relinked(d.edges, v))
  }

  /** The two statements every dataset delete runs. */
  function DropDataset(d: Disk, ds: DatasetRef): Disk {
    d.(datasets := d.datasets - {ds}, accessRows := OtherRows(d.accessRows, ds))
  }

  function EdgesClearOf(edges: set<Edge>, ds: DatasetRef): set<Edge> {
    set e | e in edges && e.view.Dataset() != ds && e.base.Dataset() != ds
  }

  /** The statements a cascading delete adds; edges go when either end lies in the dataset. */
  function DropContents(d: Disk, ds: DatasetRef): Disk {
    d.(tables := Outside(d.tables, ObjectDataset, ds),
       routines := Outside(d.routines, ObjectDataset, ds),
       models := Outside(d.models, ObjectDataset, ds),
       policies := Outside(d.policies, PolicyDataset, ds),
       snapshots := SnapshotsOutside(d.snapshots, ds),
       views := Outside(d.views, ObjectDataset, ds),
       edges := EdgesClearOf(d.edges, ds))
  }

  /** `INSERT OR REPLACE` on an accepted create or update; a delete only when the cache had the key. */
  function PersistChild<B>(rows: map<ObjectRef, Entry<B>>, had: set<ObjectRef>, op: ChildOp<B>): map<ObjectRef, Entry<B>> {
    match op
    case Create(e) => rows[e.ref := e]
    case Update(e) => rows[e.ref := e]
    case Delete(k, _) => if k in had then rows - {k} else rows
  }

  function PersistDataset(c: Catalog, d: Disk, op: DatasetOp): Disk {
    match op
    case CreateDataset(ds) => WriteDataset(d, ds)
    case UpdateDataset(ds) => WriteDataset(d, ds)
    case DeleteDataset(ds, _, contents) =>
      if ds !in c.datasets then d
      else if contents then DropContents(DropDataset(d, ds), ds)
      else DropDataset(d, ds)
  }

  function PersistView(c: Catalog, d: Disk, op: ViewOp): Disk {
    match op
    case UpsertView(v) => WriteView(d, v)
    case DeleteView(k, _) => if k in c.views then d.(views := d.views - {k}, edges := EdgesOff(d.edges, k)) else d
  }

  function PersistJob(rows: map<JobRef, JobMeta>, had: set<JobRef>, op: JobOp): map<JobRef, JobMeta> {
    match op
    case UpsertJob(j) => rows[j.ref := j]
    case DeleteJob(k, _) => if k in had then rows - {k} else rows
  }

  function PersistSnapshot(rows: map<string, SnapshotMeta>, had: set<string>, op: SnapshotOp): map<string, SnapshotMeta> {
    match op
    case CreateSnapshot(s) => rows[s.id := s]
    case DeleteSnapshot(k, _) => if k in had then rows - {k} else rows
  }

  function PersistPolicy(rows: map<PolicyRef, PolicyMeta>, had: set<PolicyRef>, op: PolicyOp): map<PolicyRef, PolicyMeta> {
    match op
    case CreatePolicy(p) => rows[p.ref := p]
    case UpdatePolicy(p) => rows[p.ref := p]
    case DeletePolicy(k, _) => if k in had then rows - {k} else rows
  }

  /** The stored tables after call `op`, made on cache `c`: written only when the cache accepted the call. */
  function Persist(c: Catalog, d: Disk, op: Op): Disk {
    if Apply(c, op).outcome != Done then d
    else
      match op
      case OnDatasets(o) => PersistDataset(c, d, o)
      case OnTables(o) => d.(tables := PersistChild(d.tables, c.tables.Keys, o))
      case OnRoutines(o) => d.(routines := PersistChild(d.routines, c.routines.Keys, o))
      case OnModels(o) => d.(models := PersistChild(d.models, c.models.Keys, o))
      case OnJobs(o) => d.(jobs := PersistJob(d.jobs, c.jobs.Keys, o))
      case OnSnapshots(o) => d.(snapshots := PersistSnapshot(d.snapshots, c.snapshots.Keys, o))
      case OnViews(o) => PersistView(c, d, o)
      case OnPolicies(o) => d.(policies := PersistPolicy(d.policies, c.policies.Keys, o))
  }

  // ---- When cache and disk stay in step ----

  /** Nothing belongs to `ds` that a plain delete drops from the cache alone. */
  ghost predicate NoSilentChildren(c: Catalog, ds: DatasetRef) {
    && !HasIn(c.views, ds)
    && (forall k :: k in c.policies ==> k.Dataset() != ds)
    && (forall k :: k in c.snapshots ==> c.snapshots[k].source.Dataset() != ds)
  }

  /** The bases a view is known by: all of them outside `ds`, or only the NULL stand-in. */
  ghost predicate BasesOutside(bases: set<ObjectRef>, ds: DatasetRef) {
    bases != {NULL_BASE} ==> forall b :: b in bases ==> b.Dataset() != ds
  }

  /** No view of another dataset reads from `ds`. */
  ghost predicate ReadersOutside(views: map<ObjectRef, ViewMeta>, ds: DatasetRef) {
    forall k :: k in views && k.Dataset() != ds ==> BasesOutside(views[k].baseTables, ds)
  }

  predicate AllStorable(entries: seq<AccessEntry>) {
    forall i :: 0 <= i < |entries| ==> Storable(entries[i])
  }

  ghost predicate SafeDatasetOp(c: Catalog, op: DatasetOp) {
    match op
    case CreateDataset(ds) => ds.ref in c.datasets || AllStorable(ds.accessEntries)
    case UpdateDataset(ds) => ds.ref !in c.datasets || AllStorable(ds.accessEntries)
    case DeleteDataset(ds, _, contents) =>
      ds in c.datasets ==>
        if contents then ReadersOutside(c.views, ds) else HasBlockingChildren(c, ds) || NoSilentChildren(c, ds)
  }

  /** The calls after which a restart cannot be noticed; checked on the catalog before the call. */
  ghost predicate Safe(c: Catalog, op: Op) {
    match op
    case OnDatasets(o) => SafeDatasetOp(c, o)
    case OnViews(UpsertView(v)) => v.baseTables != {}
    case _ => true
  }

  // ---- Datasets ----

  /** With slots i, ..., n-1 stored and no others, reading from i yields them in order. */
  lemma {:induction false} EntriesOfRange(rows: map<nat, AccessRow>, i: nat, n: nat)
    requires i <= n && forall j: nat :: j in rows <==> i <= j < n
    ensures EntriesFrom(rows, i) == seq(n - i, j requires 0 <= j < n - i => RowToEntry(rows[i + j]))
    decreases n - i
  {
    if i < n {
      var rest := rows - {i};
      EntriesOfRange(rest, i + 1, n);
      var read := EntriesFrom(rest, i + 1);
      assert EntriesFrom(rows, i) == [RowToEntry(rows[i])] + read;
      assert forall j :: 0 <= j < |read| ==> read[j] == RowToEntry(rows[i + 1 + j]);
    }
  }

  /** What a dataset reads back as after being written. */
  function Reread(ds: DatasetMeta): DatasetMeta {
    ds.(accessEntries := seq(|ds.accessEntries|, i requires 0 <= i < |ds.accessEntries| => RowToEntry(EntryToRow(ds.accessEntries[i]))))
  }

  lemma RereadExactly(ds: DatasetMeta)
    ensures Reread(ds) == ds <==> AllStorable(ds.accessEntries)
  {
    var read := Reread(ds).accessEntries;
    forall i | 0 <= i < |read| ensures read[i] == ds.accessEntries[i] <==> Storable(ds.accessEntries[i]) {
      EntryRoundTrip(ds.accessEntries[i]);
    }
    if AllStorable(ds.accessEntries) { assert read == ds.accessEntries; }
    if Reread(ds) == ds { assert read == ds.accessEntries; }
  }

  lemma RowsElsewhere(rows: map<Slot, AccessRow>, rows': map<Slot, AccessRow>, k: DatasetRef)
    requires forall s: Slot :: s.dataset == k ==> (s in rows <==> s in rows') && (s in rows ==> rows[s] == rows'[s])
    ensures RowsOf(rows', k) == RowsOf(rows, k)
  {
    assert forall j: nat :: j in RowsOf(rows, k) <==> Slot(k, j) in rows;
    assert forall j: nat :: j in RowsOf(rows', k) <==> Slot(k, j) in rows';
  }

  lemma OwnRows(rows: map<Slot, AccessRow>, ds: DatasetMeta)
    ensures var own := RowsOf(Rewritten(rows, ds), ds.ref);
            && (forall j: nat :: j in own <==> j < |ds.accessEntries|)
            && forall j :: 0 <= j < |ds.accessEntries| ==> own[j] == EntryToRow(ds.accessEntries[j])
  {
    var own := RowsOf(Rewritten(rows, ds), ds.ref);
    assert forall j: nat :: j in own <==> Slot(ds.ref, j) in Rewritten(rows, ds);
  }

  lemma ReadBack(own: map<nat, AccessRow>, ds: DatasetMeta)
    requires forall j: nat :: j in own <==> j < |ds.accessEntries|
    requires forall j :: 0 <= j < |ds.accessEntries| ==> own[j] == EntryToRow(ds.accessEntries[j])
    ensures HydrateDataset(ds, own) == Reread(ds)
  {
    EntriesOfRange(own, 0, |ds.accessEntries|);
    if ds.accessEntries != [] { assert 0 in own; } else { assert own == map[]; }
  }

  /** Stored access rows are read back in their order in place of the record's entries; without any, the record's entries stay. */
  lemma StoredRowsWin(d: Disk, k: DatasetRef, n: nat)
    requires k in d.datasets && forall j: nat :: Slot(k, j) in d.accessRows <==> j < n
    ensures var read := Hydrate(d).datasets[k];
            && (n == 0 ==> read == d.datasets[k])
            && (n > 0 ==> read == d.datasets[k].(accessEntries := seq(n, j requires 0 <= j < n => RowToEntry(d.accessRows[Slot(k, j)]))))
  {
    var own := RowsOf(d.accessRows, k);
    assert forall j: nat :: j in own <==> Slot(k, j) in d.accessRows;
    EntriesOfRange(own, 0, n);
    if n > 0 { assert 0 in own; } else { assert own == map[]; }
  }

  lemma RowsWritten(rows: map<Slot, AccessRow>, ds: DatasetMeta)
    ensures HydrateDataset(ds, RowsOf(Rewritten(rows, ds), ds.ref)) == Reread(ds)
  {
    OwnRows(rows, ds);
    ReadBack(RowsOf(Rewritten(rows, ds), ds.ref), ds);
  }

  lemma DatasetsAgree(datasets: map<DatasetRef, DatasetMeta>, rows: map<Slot, AccessRow>, rows': map<Slot, AccessRow>, ds: DatasetMeta)
    requires forall k :: k != ds.ref ==> RowsOf(rows', k) == RowsOf(rows, k)
    ensures HydrateDatasets(datasets[ds.ref := ds], rows')
            == HydrateDatasets(datasets, rows)[ds.ref := HydrateDataset(ds, RowsOf(rows', ds.ref))]
  {
    var lhs := HydrateDatasets(datasets[ds.ref := ds], rows');
    var rhs := HydrateDatasets(datasets, rows)[ds.ref := HydrateDataset(ds, RowsOf(rows', ds.ref))];
    assert lhs.Keys == rhs.Keys;
    forall k | k in lhs ensures lhs[k] == rhs[k] {
      if k != ds.ref { assert lhs[k] == HydrateDataset(datasets[k], RowsOf(rows', k)); }
    }
  }

  lemma DatasetsWritten(datasets: map<DatasetRef, DatasetMeta>, rows: map<Slot, AccessRow>, ds: DatasetMeta)
    ensures HydrateDatasets(datasets[ds.ref := ds], Rewritten(rows, ds)) == HydrateDatasets(datasets, rows)[ds.ref := Reread(ds)]
  {
    RowsWritten(rows, ds);
    forall k | k != ds.ref ensures RowsOf(Rewritten(rows, ds), k) == RowsOf(rows, k) {
      RowsElsewhere(rows, Rewritten(rows, ds), k);
    }
    DatasetsAgree(datasets, rows, Rewritten(rows, ds), ds);
  }

  lemma DatasetsDropped(datasets: map<DatasetRef, DatasetMeta>, rows: map<Slot, AccessRow>, ds: DatasetRef)
    ensures HydrateDatasets(datasets - {ds}, OtherRows(rows, ds)) == HydrateDatasets(datasets, rows) - {ds}
  {
    forall k | k != ds ensures RowsOf(OtherRows(rows, ds), k) == RowsOf(rows, k) {
      RowsElsewhere(rows, OtherRows(rows, ds), k);
    }
  }

  lemma WriteExact(d: Disk, ds: DatasetMeta)
    ensures Hydrate(WriteDataset(d, ds)) == Hydrate(d).(datasets := Hydrate(d).datasets[ds.ref := ds])
            <==> AllStorable(ds.accessEntries)
  {
    DatasetsWritten(d.datasets, d.accessRows, ds);
    RereadExactly(ds);
    var h := HydrateDatasets(d.datasets, d.accessRows);
    assert h[ds.ref := Reread(ds)][ds.ref] == Reread(ds) && h[ds.ref := ds][ds.ref] == ds;
  }

  // ---- Views ----

  lemma BasesAre(edges: set<Edge>, k: ObjectRef)
    ensures forall b :: b in EdgeBases(edges, k) <==> Edge(k, b) in edges
  {
  }

  lemma ViewsWritten(views: map<ObjectRef, ViewRow>, edges: set<Edge>, v: ViewMeta)
    ensures HydrateViews(views[v.ref := ViewRow(v.query, v.lastRefresh, v.isStale)], Relinked(edges, v))
            == HydrateViews(views, edges)[v.ref := v.(baseTables := JoinedBases(v.baseTables))]
  {
    forall k ensures EdgeBases(Relinked(edges, v), k) == if k == v.ref then v.baseTables else EdgeBases(edges, k) {
      BasesAre(edges, k);
      BasesAre(Relinked(edges, v), k);
      assert forall b :: Edge(k, b) in Relinked(edges, v) <==> if k == v.ref then b in v.baseTables else Edge(k, b) in edges;
    }
  }

  lemma ViewsDeleted(views: map<ObjectRef, ViewRow>, edges: set<Edge>, k0: ObjectRef)
    ensures HydrateViews(views - {k0}, EdgesOff(edges, k0)) == HydrateViews(views, edges) - {k0}
  {
    forall k | k != k0 ensures EdgeBases(EdgesOff(edges, k0), k) == EdgeBases(edges, k) {
      BasesAre(edges, k);
      BasesAre(EdgesOff(edges, k0), k);
    }
  }

  lemma UpsertExact(d: Disk, v: ViewMeta)
    ensures Hydrate(WriteView(d, v)) == Hydrate(d).(views := Hydrate(d).views[v.ref := v]) <==> v.baseTables != {}
  {
    ViewsWritten(d.views, d.edges, v);
    var h, stored := HydrateViews(d.views, d.edges), v.(baseTables := JoinedBases(v.baseTables));
    assert h[v.ref := stored][v.ref] == stored && h[v.ref := v][v.ref] == v;
  }

  /** A view outside the dropped dataset reads back unchanged exactly when none of its bases was dropped. */
  lemma BasesSurvive(edges: set<Edge>, ds: DatasetRef, k: ObjectRef)
    requires k.Dataset() != ds
    ensures var before := JoinedBases(EdgeBases(edges, k));
            JoinedBases(EdgeBases(EdgesClearOf(edges, ds), k)) == before <==> BasesOutside(before, ds)
  {
    var raw, raw' := EdgeBases(edges, k), EdgeBases(EdgesClearOf(edges, ds), k);
    BasesAre(edges, k);
    BasesAre(EdgesClearOf(edges, ds), k);
    assert raw' == set b | b in raw && b.Dataset() != ds;
    if raw != {} && (forall b :: b in raw ==> b.Dataset() != ds) { assert raw' == raw; }
  }

  lemma ViewsCascaded(views: map<ObjectRef, ViewRow>, edges: set<Edge>, ds: DatasetRef)
    ensures var h := HydrateViews(views, edges);
            HydrateViews(Outside(views, ObjectDataset, ds), EdgesClearOf(edges, ds)) == Outside(h, ObjectDataset, ds)
            <==> ReadersOutside(h, ds)
  {
    var h, h' := HydrateViews(views, edges), HydrateViews(Outside(views, ObjectDataset, ds), EdgesClearOf(edges, ds));
    var w := Outside(h, ObjectDataset, ds);
    assert h'.Keys == w.Keys;
    forall k | k in w ensures h'[k] == w[k] <==> BasesOutside(h[k].baseTables, ds) {
      BasesSurvive(edges, ds, k);
    }
    if ReadersOutside(h, ds) { assert forall k :: k in w ==> h'[k] == w[k]; }
    if h' == w {
      forall k | k in h && k.Dataset() != ds ensures BasesOutside(h[k].baseTables, ds) { assert k in w; }
    }
  }

  lemma CascadeExact(d: Disk, ds: DatasetRef)
    ensures Hydrate(DropContents(DropDataset(d, ds), ds)) == WithoutDataset(Hydrate(d), ds)
            <==> ReadersOutside(Hydrate(d).views, ds)
  {
    DatasetsDropped(d.datasets, d.accessRows, ds);
    ViewsCascaded(d.views, d.edges, ds);
  }

  lemma NothingInside<K, V>(m: map<K, V>, datasetOf: K -> DatasetRef, ds: DatasetRef)
    ensures Outside(m, datasetOf, ds) == m <==> forall k :: k in m ==> datasetOf(k) != ds
  {
    if Outside(m, datasetOf, ds) == m {
      forall k | k in m ensures datasetOf(k) != ds { assert k in Outside(m, datasetOf, ds); }
    }
  }

  lemma NoSnapshotInside(m: map<string, SnapshotMeta>, ds: DatasetRef)
    ensures SnapshotsOutside(m, ds) == m <==> forall k :: k in m ==> m[k].source.Dataset() != ds
  {
    if SnapshotsOutside(m, ds) == m {
      forall k | k in m ensures m[k].source.Dataset() != ds { assert k in SnapshotsOutside(m, ds); }
    }
  }

  /** A plain delete leaves policies, views and snapshots on disk, so it is unnoticed exactly when there were none. */
  lemma PlainDeleteExact(d: Disk, ds: DatasetRef)
    requires !HasBlockingChildren(Hydrate(d), ds)
    ensures Hydrate(DropDataset(d, ds)) == WithoutDataset(Hydrate(d), ds) <==> NoSilentChildren(Hydrate(d), ds)
  {
    var h := Hydrate(d);
    DatasetsDropped(d.datasets, d.accessRows, ds);
    NothingInside(h.tables, ObjectDataset, ds);
    NothingInside(h.routines, ObjectDataset, ds);
    NothingInside(h.models, ObjectDataset, ds);
    NothingInside(h.views, ObjectDataset, ds);
    NothingInside(h.policies, PolicyDataset, ds);
    NoSnapshotInside(h.snapshots, ds);
  }

  // ---- One call ----

  ghost predicate InStep(d: Disk, op: Op) {
    Hydrate(Persist(Hydrate(d), d, op)) == Apply(Hydrate(d), op).value
  }

  lemma ChildInStep<B>(m: map<ObjectRef, Entry<B>>, datasets: set<DatasetRef>, op: ChildOp<B>)
    ensures var r := ApplyChild(m, datasets, op);
            r.value == if r.outcome == Done then PersistChild(m, m.Keys, op) else m
  {
  }

  lemma ChildrenAsIs(d: Disk, op: Op)
    requires op.OnTables? || op.OnRoutines? || op.OnModels?
    ensures InStep(d, op)
  {
    var h := Hydrate(d);
    match op
    case OnTables(o) => ChildInStep(h.tables, h.datasets.Keys, o);
    case OnRoutines(o) => ChildInStep(h.routines, h.datasets.Keys, o);
    case OnModels(o) => ChildInStep(h.models, h.datasets.Keys, o);
  }

  lemma JobsAsIs(d: Disk, op: JobOp)
    ensures InStep(d, OnJobs(op))
  {
  }

  lemma SnapshotsAsIs(d: Disk, op: SnapshotOp)
    ensures InStep(d, OnSnapshots(op))
  {
  }

  lemma PoliciesAsIs(d: Disk, op: PolicyOp)
    ensures InStep(d, OnPolicies(op))
  {
  }

  lemma OthersAsIs(d: Disk, op: Op)
    requires op.OnJobs? || op.OnSnapshots? || op.OnPolicies?
    ensures InStep(d, op)
  {
    match op
    case OnJobs(o) => JobsAsIs(d, o);
    case OnSnapshots(o) => SnapshotsAsIs(d, o);
    case OnPolicies(o) => PoliciesAsIs(d, o);
  }

  /** What a dataset call does to cache and disk, by how it ends. */
  lemma DatasetCall(h: Catalog, d: Disk, op: DatasetOp)
    ensures Apply(h, OnDatasets(op)) == ApplyDataset(h, op)
    ensures Persist(h, d, OnDatasets(op)) == if ApplyDataset(h, op).outcome == Done then PersistDataset(h, d, op) else d
  {
  }

  lemma WriteInStep(d: Disk, op: DatasetOp, ds: DatasetMeta)
    requires op == CreateDataset(ds) || op == UpdateDataset(ds)
    ensures InStep(d, OnDatasets(op)) <==> SafeDatasetOp(Hydrate(d), op)
  {
    DatasetCall(Hydrate(d), d, op);
    WriteExact(d, ds);
  }

  lemma DeleteInStep(d: Disk, op: DatasetOp)
    requires op.DeleteDataset?
    ensures InStep(d, OnDatasets(op)) <==> SafeDatasetOp(Hydrate(d), op)
  {
    DatasetCall(Hydrate(d), d, op);
    if op.deleteContents {
      CascadeExact(d, op.ref);
    } else if !HasBlockingChildren(Hydrate(d), op.ref) {
      PlainDeleteExact(d, op.ref);
    }
  }

  lemma DatasetExact(d: Disk, op: DatasetOp)
    ensures InStep(d, OnDatasets(op)) <==> SafeDatasetOp(Hydrate(d), op)
  {
    if op.DeleteDataset? {
      DeleteInStep(d, op);
    } else {
      WriteInStep(d, op, op.ds);
    }
  }

  lemma UpsertInStep(d: Disk, v: ViewMeta)
    ensures InStep(d, OnViews(UpsertView(v))) <==> v.baseTables != {}
  {
    UpsertExact(d, v);
  }

  lemma DeleteViewInStep(d: Disk, k: ObjectRef, ok: bool)
    ensures InStep(d, OnViews(DeleteView(k, ok)))
  {
    ViewsDeleted(d.views, d.edges, k);
  }

  lemma ViewExact(d: Disk, op: ViewOp)
    ensures InStep(d, OnViews(op)) <==> (op.UpsertView? ==> op.view.baseTables != {})
  {
    match op
    case UpsertView(v) => UpsertInStep(d, v);
    case DeleteView(k, ok) => DeleteViewInStep(d, k, ok);
  }

  /**
   From a state where the cache is what hydration would build, a call leads to such a
   state again if and only if it is safe.
   */
  lemma StepExact(d: Disk, op: Op)
    ensures InStep(d, op) <==> Safe(Hydrate(d), op)
  {
    if op.OnDatasets? {
      DatasetExact(d, op.dop);
    } else if op.OnViews? {
      ViewExact(d, op.vop);
    } else if op.OnTables? || op.OnRoutines? || op.OnModels? {
      ChildrenAsIs(d, op);
    } else {
      OthersAsIs(d, op);
    }
  }

  // ---- Runs ----

  /** A live repository: its cache and its stored tables. */
  datatype Store = Store(cache: Catalog, disk: Disk)

  datatype Event = Call(op: Op) | Restart

  function Next(s: Store, e: Event): Store {
    match e
    case Call(op) => Store(Apply(s.cache, op).value, Persist(s.cache, s.disk, op))
    case Restart => Store(Hydrate(s.disk), s.disk)
  }

  function Run(s: Store, events: seq<Event>): Store
    decreases |events|
  {
    if events == [] then s else Run(Next(s, events[0]), events[1..])
  }

  ghost predicate SafeRun(s: Store, events: seq<Event>)
    decreases |events|
  {
    events == [] || ((events[0].Call? ==> Safe(s.cache, events[0].op)) && SafeRun(Next(s, events[0]), events[1..]))
  }

  const START: Store := Store(EMPTY, BLANK)

  lemma StartCoherent()
    ensures Hydrate(START.disk) == START.cache
  {
    assert Hydrate(BLANK).datasets == map[] && Hydrate(BLANK).views == map[];
  }

  lemma {:induction false} CoherentOverRuns(s: Store, events: seq<Event>)
    requires Hydrate(s.disk) == s.cache && SafeRun(s, events)
    ensures Hydrate(Run(s, events).disk) == Run(s, events).cache
    decreases |events|
  {
    if events != [] {
      if events[0].Call? { StepExact(s.disk, events[0].op); }
      CoherentOverRuns(Next(s, events[0]), events[1..]);
    }
  }

  /**
   Restart transparency: after any safe run from an empty directory, calls that raise and
   earlier restarts included, the hydrated catalog is the live one.
   */
  lemma RestartTransparent(events: seq<Event>)
    requires SafeRun(START, events)
    ensures Next(Run(START, events), Restart) == Run(START, events)
  {
    StartCoherent();
    CoherentOverRuns(START, events);
  }

  /** The first unsafe call of a run is noticed by the very next restart. */
  lemma UnsafeCallIsNoticed(events: seq<Event>, op: Op)
    requires SafeRun(START, events) && !Safe(Run(START, events).cache, op)
    ensures var s := Next(Run(START, events), Call(op)); Next(s, Restart).cache != s.cache
  {
    StartCoherent();
    CoherentOverRuns(START, events);
    StepExact(Run(START, events).disk, op);
  }

  // ---- The failing families, as runs from an empty directory ----

  /**
   Plain delete of a dataset that has a policy: the cache forgets the policy, the disk does
   not, and after a restart the same policy can no longer be created although it could before.
   */
  lemma LeftoverPolicyRun(ds: DatasetMeta, p: PolicyMeta)
    requires p.ref.Dataset() == ds.ref
    ensures var s := Next(Next(Next(START, Call(OnDatasets(CreateDataset(ds)))), Call(OnPolicies(CreatePolicy(p)))),
                          Call(OnDatasets(DeleteDataset(ds.ref, false, false))));
            && s.cache == EMPTY
            && Apply(s.cache, OnPolicies(CreatePolicy(p))).outcome == Done
            && Apply(Next(s, Restart).cache, OnPolicies(CreatePolicy(p))).outcome == AlreadyExists
  {
    var s1 := Next(START, Call(OnDatasets(CreateDataset(ds))));
    var s2 := Next(s1, Call(OnPolicies(CreatePolicy(p))));
    assert s2.cache == EMPTY.(datasets := map[ds.ref := ds], policies := map[p.ref := p]);
    assert p.ref in s2.disk.policies;
    assert WithoutDataset(s2.cache, ds.ref) == EMPTY;
  }

  /** Cascading delete of a dataset another dataset's view reads from: a restart changes what the view depends on. */
  lemma OutsideReaderRun(a: DatasetMeta, b: DatasetMeta, v: ViewMeta, base: ObjectRef)
    requires a.ref != b.ref && a.accessEntries == [] && b.accessEntries == []
    requires v.ref.Dataset() == b.ref && base.Dataset() == a.ref && v.baseTables == {base} && base != NULL_BASE
    ensures var s3 := Next(Next(Next(START, Call(OnDatasets(CreateDataset(a)))), Call(OnDatasets(CreateDataset(b)))), Call(OnViews(UpsertView(v))));
            var s := Next(s3, Call(OnDatasets(DeleteDataset(a.ref, false, true))));
            && v.ref in s.cache.views && s.cache.views[v.ref] == v
            && Next(s, Restart).cache != s.cache
  {
    var events := [Call(OnDatasets(CreateDataset(a))), Call(OnDatasets(CreateDataset(b))), Call(OnViews(UpsertView(v)))];
    var s1 := Next(START, events[0]);
    var s2 := Next(s1, events[1]);
    var s3 := Next(s2, events[2]);
    assert s3.cache.views == map[v.ref := v];
    assert Run(s3, []) == s3 && SafeRun(s3, []);
    assert Run(s2, [events[2]]) == s3 && SafeRun(s2, [events[2]]);
    assert events[1..] == [events[1], events[2]];
    assert Run(s1, events[1..]) == s3 && SafeRun(s1, events[1..]);
    assert Run(START, events) == s3 && SafeRun(START, events);
    assert !BasesOutside(s3.cache.views[v.ref].baseTables, a.ref) by { assert base in v.baseTables; }
    UnsafeCallIsNoticed(events, OnDatasets(DeleteDataset(a.ref, false, true)));
  }

  /** A dataset that grants a view whose project id ends in a colon is noticed by a restart. */
  lemma ColonReferenceRun(ds: DatasetMeta, dataset: string, name: string)
    requires |ds.accessEntries| == 1 && ds.accessEntries[0].view == Some(ObjectRef("p:", dataset, name))
    ensures var s := Next(START, Call(OnDatasets(CreateDataset(ds)))); Next(s, Restart).cache != s.cache
  {
    assert EndsWith(ObjectParts(ds.accessEntries[0].view.value)[0], ':');
    assert !Storable(ds.accessEntries[0]);
    UnsafeCallIsNoticed([], OnDatasets(CreateDataset(ds)));
  }

  /** A run that stores a view without base tables: after a restart it reads from a table called None. */
  lemma NoBasesRun(v: ViewMeta)
    requires v.baseTables == {}
    ensures var s := Next(START, Call(OnViews(UpsertView(v))));
            && v.ref in s.cache.views && s.cache.views[v.ref] == v
            && v.ref in Next(s, Restart).cache.views
            && Next(s, Restart).cache.views[v.ref] == v.(baseTables := {ObjectRef("None", "None", "None")})
  {
    var s := Next(START, Call(OnViews(UpsertView(v))));
    ViewsWritten(START.disk.views, START.disk.edges, v);
  }
}
