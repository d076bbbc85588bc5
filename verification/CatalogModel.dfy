/**
 The catalog: eight kinds of metadata entry, each a dictionary keyed by identity, and
 the operations of the repository as functions from catalog to catalog.

 A record keeps its identity, the fields some operation looks at, and `attrs` for the
 fields that are only carried.  Listings are sets; `base_tables` of a materialized view
 is a set (its builder removes duplicates and hydration does not promise an order).
 */
module CatalogModel {
  import opened Basics

  type Attributes = map<string, string>

  datatype DatasetRef = DatasetRef(project: string, dataset: string)

  /** Identity of a table, routine, model or materialized view. */
  datatype ObjectRef = ObjectRef(project: string, dataset: string, name: string) {
    function Dataset(): DatasetRef { DatasetRef(project, dataset) }
  }

  datatype PolicyRef = PolicyRef(project: string, dataset: string, table: string, policy: string) {
    function Dataset(): DatasetRef { DatasetRef(project, dataset) }
  }

  datatype JobRef = JobRef(project: string, job: string)

  datatype AccessEntry = AccessEntry(
    role: Option<string>, userByEmail: Option<string>, groupByEmail: Option<string>,
    domain: Option<string>, specialGroup: Option<string>, iamMember: Option<string>,
    view: Option<ObjectRef>, routine: Option<ObjectRef>, dataset: Option<DatasetRef>)

  datatype TableType = Table | View | MaterializedView | External | Snapshot | Clone
  datatype SnapshotKind = Auto | User

  /** An entry that lives in a dataset and can only be created when the dataset exists. */
  datatype Entry<B> = Entry(ref: ObjectRef, body: B)

  datatype TableBody = TableBody(tableType: TableType, numRows: nat, attrs: Attributes)
  datatype RoutineBody = RoutineBody(attrs: Attributes)
  datatype ModelBody = ModelBody(attrs: Attributes)

  type TableMeta = Entry<TableBody>
  type RoutineMeta = Entry<RoutineBody>
  type ModelMeta = Entry<ModelBody>

  datatype DatasetMeta = DatasetMeta(ref: DatasetRef, accessEntries: seq<AccessEntry>, attrs: Attributes)
  datatype JobMeta = JobMeta(ref: JobRef, attrs: Attributes)
  datatype SnapshotMeta = SnapshotMeta(id: string, source: ObjectRef, kind: SnapshotKind, attrs: Attributes)
  datatype ViewMeta = ViewMeta(ref: ObjectRef, query: string, lastRefresh: int, isStale: bool, baseTables: set<ObjectRef>)
  datatype PolicyMeta = PolicyMeta(ref: PolicyRef, grantees: seq<string>, attrs: Attributes)

  datatype Catalog = Catalog(
    datasets: map<DatasetRef, DatasetMeta>,
    tables: map<ObjectRef, TableMeta>,
    routines: map<ObjectRef, RoutineMeta>,
    models: map<ObjectRef, ModelMeta>,
    jobs: map<JobRef, JobMeta>,
    snapshots: map<string, SnapshotMeta>,
    views: map<ObjectRef, ViewMeta>,
    policies: map<PolicyRef, PolicyMeta>)

  const EMPTY: Catalog := Catalog(map[], map[], map[], map[], map[], map[], map[], map[])

  datatype DatasetOp =
    | CreateDataset(ds: DatasetMeta)
    | UpdateDataset(ds: DatasetMeta)
    | DeleteDataset(ref: DatasetRef, notFoundOk: bool, deleteContents: bool)
  datatype ChildOp<B> = Create(entry: Entry<B>) | Update(entry: Entry<B>) | Delete(ref: ObjectRef, notFoundOk: bool)
  datatype JobOp = UpsertJob(job: JobMeta) | DeleteJob(ref: JobRef, notFoundOk: bool)
  datatype SnapshotOp = CreateSnapshot(snapshot: SnapshotMeta) | DeleteSnapshot(id: string, notFoundOk: bool)
  datatype ViewOp = UpsertView(view: ViewMeta) | DeleteView(ref: ObjectRef, notFoundOk: bool)
  datatype PolicyOp =
    | CreatePolicy(policy: PolicyMeta)
    | UpdatePolicy(policy: PolicyMeta)
    | DeletePolicy(ref: PolicyRef, notFoundOk: bool)

  /** The mutating calls of the repository. */
  datatype Op =
    | OnDatasets(dop: DatasetOp)
    | OnTables(top: ChildOp<TableBody>)
    | OnRoutines(rop: ChildOp<RoutineBody>)
    | OnModels(mop: ChildOp<ModelBody>)
    | OnJobs(jop: JobOp)
    | OnSnapshots(sop: SnapshotOp)
    | OnViews(vop: ViewOp)
    | OnPolicies(pop: PolicyOp)

  /** How a call ends; everything but `Done` is an exception (`NotEmpty` is raised as a not-found error). */
  datatype Outcome = Done | AlreadyExists | NotFound | NotEmpty

  /** What a call leaves behind, and how it ended. */
  datatype Change<M> = Change(value: M, outcome: Outcome)

  /** The part of a dictionary that lies outside dataset `ds`. */
  function Outside<K, V>(m: map<K, V>, datasetOf: K -> DatasetRef, ds: DatasetRef): map<K, V> {
    map k | k in m && datasetOf(k) != ds :: m[k]
  }

  function ObjectDataset(k: ObjectRef): DatasetRef { k.Dataset() }
  function PolicyDataset(k: PolicyRef): DatasetRef { k.Dataset() }

  function SnapshotsOutside(m: map<string, SnapshotMeta>, ds: DatasetRef): map<string, SnapshotMeta> {
    map k | k in m && m[k].source.Dataset() != ds :: m[k]
  }

  predicate HasIn<V>(m: map<ObjectRef, V>, ds: DatasetRef) {
    exists k :: k in m && k.Dataset() == ds
  }

  /** Tables, routines and models block a plain dataset delete; policies, views and snapshots do not. */
  predicate HasBlockingChildren(c: Catalog, ds: DatasetRef) {
    HasIn(c.tables, ds) || HasIn(c.routines, ds) || HasIn(c.models, ds)
  }

  function WithoutDataset(c: Catalog, ds: DatasetRef): Catalog {
    c.(datasets := c.datasets - {ds},
       tables := Outside(c.tables, ObjectDataset, ds),
       routines := Outside(c.routines, ObjectDataset, ds),
       models := Outside(c.models, ObjectDataset, ds),
       snapshots := SnapshotsOutside(c.snapshots, ds),
       views := Outside(c.views, ObjectDataset, ds),
       policies := Outside(c.policies, PolicyDataset, ds))
  }

  function Removed<K, V>(m: map<K, V>, k: K, notFoundOk: bool): Change<map<K, V>> {
    if k in m then Change(m - {k}, Done) else Change(m, if notFoundOk then Done else NotFound)
  }

  function ApplyDataset(c: Catalog, op: DatasetOp): Change<Catalog> {
    match op
    case CreateDataset(ds) =>
      if ds.ref in c.datasets then Change(c, AlreadyExists)
      else Change(c.(datasets := c.datasets[ds.ref := ds]), Done)
    case UpdateDataset(ds) =>
      if ds.ref !in c.datasets then Change(c, NotFound)
      else Change(c.(datasets := c.datasets[ds.ref := ds]), Done)
    case DeleteDataset(ds, ok, contents) =>
      if ds !in c.datasets then Change(c, if ok then Done else NotFound)
      else if HasBlockingChildren(c, ds) && !contents then Change(c, NotEmpty)
      else Change(WithoutDataset(c, ds), Done)
  }

  /** Tables, routines and models behave alike. */
  function ApplyChild<B>(m: map<ObjectRef, Entry<B>>, datasets: set<DatasetRef>, op: ChildOp<B>): Change<map<ObjectRef, Entry<B>>> {
    match op
    case Create(e) =>
      if e.ref in m then Change(m, AlreadyExists)
      else if e.ref.Dataset() !in datasets then Change(m, NotFound)
      else Change(m[e.ref := e], Done)
    case Update(e) => if e.ref !in m then Change(m, NotFound) else Change(m[e.ref := e], Done)
    case Delete(k, ok) => Removed(m, k, ok)
  }

  function ApplyJob(m: map<JobRef, JobMeta>, op: JobOp): Change<map<JobRef, JobMeta>> {
    match op
    case UpsertJob(j) => Change(m[j.ref := j], Done)
    case DeleteJob(k, ok) => Removed(m, k, ok)
  }

  function ApplySnapshot(m: map<string, SnapshotMeta>, op: SnapshotOp): Change<map<string, SnapshotMeta>> {
    match op
    case CreateSnapshot(s) => if s.id in m then Change(m, AlreadyExists) else Change(m[s.id := s], Done)
    case DeleteSnapshot(k, ok) => Removed(m, k, ok)
  }

  function ApplyView(m: map<ObjectRef, ViewMeta>, op: ViewOp): Change<map<ObjectRef, ViewMeta>> {
    match op
    case UpsertView(v) => Change(m[v.ref := v], Done)
    case DeleteView(k, ok) => Removed(m, k, ok)
  }

  function ApplyPolicy(m: map<PolicyRef, PolicyMeta>, op: PolicyOp): Change<map<PolicyRef, PolicyMeta>> {
    match op
    case CreatePolicy(p) => if p.ref in m then Change(m, AlreadyExists) else Change(m[p.ref := p], Done)
    case UpdatePolicy(p) => if p.ref !in m then Change(m, NotFound) else Change(m[p.ref := p], Done)
    case DeletePolicy(k, ok) => Removed(m, k, ok)
  }

  /** One repository call. */
  function Apply(c: Catalog, op: Op): Change<Catalog> {
    match op
    case OnDatasets(o) => ApplyDataset(c, o)
    case OnTables(o) => var r := ApplyChild(c.tables, c.datasets.Keys, o); Change(c.(tables := r.value), r.outcome)
    case OnRoutines(o) => var r := ApplyChild(c.routines, c.datasets.Keys, o); Change(c.(routines := r.value), r.outcome)
    case OnModels(o) => var r := ApplyChild(c.models, c.datasets.Keys, o); Change(c.(models := r.value), r.outcome)
    case OnJobs(o) => var r := ApplyJob(c.jobs, o); Change(c.(jobs := r.value), r.outcome)
    case OnSnapshots(o) => var r := ApplySnapshot(c.snapshots, o); Change(c.(snapshots := r.value), r.outcome)
    case OnViews(o) => var r := ApplyView(c.views, o); Change(c.(views := r.value), r.outcome)
    case OnPolicies(o) => var r := ApplyPolicy(c.policies, o); Change(c.(policies := r.value), r.outcome)
  }

  function ApplyAll(c: Catalog, ops: seq<Op>): Catalog
    decreases |ops|
  {
    if ops == [] then c else ApplyAll(Apply(c, ops[0]).value, ops[1..])
  }

  // ---- Integrity ----

  ghost predicate Placed<B>(m: map<ObjectRef, Entry<B>>, datasets: set<DatasetRef>) {
    forall k :: k in m ==> m[k].ref == k && k.Dataset() in datasets
  }
  ghost predicate DatasetsKeyed(m: map<DatasetRef, DatasetMeta>) { forall k :: k in m ==> m[k].ref == k }
  ghost predicate JobsKeyed(m: map<JobRef, JobMeta>) { forall k :: k in m ==> m[k].ref == k }
  ghost predicate SnapshotsKeyed(m: map<string, SnapshotMeta>) { forall k :: k in m ==> m[k].id == k }
  ghost predicate ViewsKeyed(m: map<ObjectRef, ViewMeta>) { forall k :: k in m ==> m[k].ref == k }
  ghost predicate PoliciesKeyed(m: map<PolicyRef, PolicyMeta>) { forall k :: k in m ==> m[k].ref == k }

  /** Every entry sits under its own identity, and every table, routine and model has its dataset. */
  ghost predicate Integrity(c: Catalog) {
    && DatasetsKeyed(c.datasets)
    && Placed(c.tables, c.datasets.Keys) && Placed(c.routines, c.datasets.Keys) && Placed(c.models, c.datasets.Keys)
    && JobsKeyed(c.jobs) && SnapshotsKeyed(c.snapshots) && ViewsKeyed(c.views) && PoliciesKeyed(c.policies)
  }

  lemma IntegrityOfDatasets(c: Catalog, op: DatasetOp)
    requires Integrity(c)
    ensures Integrity(ApplyDataset(c, op).value)
  {
  }

  lemma PlacedStep<B>(m: map<ObjectRef, Entry<B>>, datasets: set<DatasetRef>, op: ChildOp<B>)
    requires Placed(m, datasets)
    ensures Placed(ApplyChild(m, datasets, op).value, datasets)
  {
  }

  lemma IntegrityStep(c: Catalog, op: Op)
    requires Integrity(c)
    ensures Integrity(Apply(c, op).value)
  {
    match op
    case OnDatasets(o) => IntegrityOfDatasets(c, o);
    case OnTables(o) => PlacedStep(c.tables, c.datasets.Keys, o);
    case OnRoutines(o) => PlacedStep(c.routines, c.datasets.Keys, o);
    case OnModels(o) => PlacedStep(c.models, c.datasets.Keys, o);
    case _ =>
  }

  /** Integrity is kept by every run of calls, those that raise included. */
  lemma {:induction false} IntegrityOverRuns(c: Catalog, ops: seq<Op>)
    requires Integrity(c)
    ensures Integrity(ApplyAll(c, ops))
    decreases |ops|
  {
    if ops != [] {
      IntegrityStep(c, ops[0]);
      IntegrityOverRuns(Apply(c, ops[0]).value, ops[1..]);
    }
  }

  /** A call that raises changes nothing. */
  lemma RaisingChangesNothing(c: Catalog, op: Op)
    ensures Apply(c, op).outcome != Done ==> Apply(c, op).value == c
  {
  }

  /** No entry of any kind belongs to `ds`. */
  ghost predicate NoTrace(c: Catalog, ds: DatasetRef) {
    && ds !in c.datasets
    && !HasIn(c.tables, ds) && !HasIn(c.routines, ds) && !HasIn(c.models, ds) && !HasIn(c.views, ds)
    && (forall k :: k in c.policies ==> k.Dataset() != ds)
    && (forall k :: k in c.snapshots ==> c.snapshots[k].source.Dataset() != ds)
  }

  ghost predicate SameElsewhere<V>(m: map<ObjectRef, V>, m': map<ObjectRef, V>, ds: DatasetRef) {
    forall k: ObjectRef :: k.Dataset() != ds ==> (k in m <==> k in m') && (k in m ==> m[k] == m'[k])
  }

  /** The two catalogs agree on everything that does not belong to `ds`. */
  ghost predicate AgreeOutside(c: Catalog, c': Catalog, ds: DatasetRef) {
    && (forall k :: k != ds ==> (k in c.datasets <==> k in c'.datasets) && (k in c.datasets ==> c.datasets[k] == c'.datasets[k]))
    && SameElsewhere(c.tables, c'.tables, ds) && SameElsewhere(c.routines, c'.routines, ds)
    && SameElsewhere(c.models, c'.models, ds) && SameElsewhere(c.views, c'.views, ds)
    && c'.jobs == c.jobs
    && (forall k: PolicyRef :: k.Dataset() != ds ==> (k in c.policies <==> k in c'.policies) && (k in c.policies ==> c.policies[k] == c'.policies[k]))
    && (forall k :: k in c'.snapshots ==> k in c.snapshots && c'.snapshots[k] == c.snapshots[k])
    && (forall k :: k in c.snapshots && c.snapshots[k].source.Dataset() != ds ==> k in c'.snapshots)
  }

  /**
   A dataset delete either raises, finds nothing, or removes exactly the dataset and all
   that belongs to it; and it is refused exactly when a blocking child exists and cascade was not asked for.
   */
  lemma DeleteDatasetIsExact(c: Catalog, ds: DatasetRef, ok: bool, contents: bool)
    ensures var s := ApplyDataset(c, DeleteDataset(ds, ok, contents));
            && (s.outcome == NotEmpty <==> ds in c.datasets && HasBlockingChildren(c, ds) && !contents)
            && (s.outcome == Done && ds in c.datasets ==> NoTrace(s.value, ds) && AgreeOutside(c, s.value, ds))
            && (s.outcome != Done || ds !in c.datasets ==> s.value == c)
  {
  }

  /** After a dataset delete the same dataset, table and policy ids can be created again without conflict. */
  lemma RecreateAfterDelete(c: Catalog, ds: DatasetMeta, t: TableMeta, p: PolicyMeta, contents: bool)
    requires ApplyDataset(c, DeleteDataset(ds.ref, false, contents)).outcome == Done
    requires t.ref.Dataset() == ds.ref && p.ref.Dataset() == ds.ref
    ensures var c1 := ApplyDataset(c, DeleteDataset(ds.ref, false, contents)).value;
            var c2 := ApplyDataset(c1, CreateDataset(ds));
            && c2.outcome == Done
            && ApplyChild(c2.value.tables, c2.value.datasets.Keys, Create(t)).outcome == Done
            && ApplyPolicy(c2.value.policies, CreatePolicy(p)).outcome == Done
  {
    DeleteDatasetIsExact(c, ds.ref, false, contents);
  }
}
