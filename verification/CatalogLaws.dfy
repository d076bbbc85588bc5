/**
 What a repository call means to a reader: entries are looked up by kind and key, each call has a verb, a
 key and perhaps a record, and that alone decides its answer and what any later lookup finds.
 The definitions here do not mention the dictionaries' own operations.
 */
module CatalogLaws {
  import opened Basics
  import opened CatalogModel

  datatype Key =
    | DatasetKey(dataset: DatasetRef)
    | TableKey(ref: ObjectRef)
    | RoutineKey(ref: ObjectRef)
    | ModelKey(ref: ObjectRef)
    | JobKey(job: JobRef)
    | SnapshotKey(id: string)
    | ViewKey(ref: ObjectRef)
    | PolicyKey(policy: PolicyRef)

  datatype Record =
    | DatasetRecord(dataset: DatasetMeta)
    | TableRecord(table: TableMeta)
    | RoutineRecord(routine: RoutineMeta)
    | ModelRecord(model: ModelMeta)
    | JobRecord(job: JobMeta)
    | SnapshotRecord(snapshot: SnapshotMeta)
    | ViewRecord(view: ViewMeta)
    | PolicyRecord(policy: PolicyMeta)

  /** The `get_*` calls. */
  function Lookup(c: Catalog, k: Key): Option<Record> {
    match k
    case DatasetKey(d) => if d in c.datasets then Some(DatasetRecord(c.datasets[d])) else None
    case TableKey(o) => if o in c.tables then Some(TableRecord(c.tables[o])) else None
    case RoutineKey(o) => if o in c.routines then Some(RoutineRecord(c.routines[o])) else None
    case ModelKey(o) => if o in c.models then Some(ModelRecord(c.models[o])) else None
    case JobKey(j) => if j in c.jobs then Some(JobRecord(c.jobs[j])) else None
    case SnapshotKey(i) => if i in c.snapshots then Some(SnapshotRecord(c.snapshots[i])) else None
    case ViewKey(o) => if o in c.views then Some(ViewRecord(c.views[o])) else None
    case PolicyKey(p) => if p in c.policies then Some(PolicyRecord(c.policies[p])) else None
  }

  // ---- Verb, key and record of a call ----

  datatype Verb = Creating | Updating | Upserting | Deleting(notFoundOk: bool)

  datatype Request = Request(verb: Verb, key: Key, record: Option<Record>)

  function OnChild<B>(op: ChildOp<B>, key: ObjectRef -> Key, record: Entry<B> -> Record): Request {
    match op
    case Create(e) => Request(Creating, key(e.ref), Some(record(e)))
    case Update(e) => Request(Updating, key(e.ref), Some(record(e)))
    case Delete(k, ok) => Request(Deleting(ok), key(k), None)
  }

  function RequestOf(op: Op): Request {
    match op
    case OnDatasets(CreateDataset(d)) => Request(Creating, DatasetKey(d.ref), Some(DatasetRecord(d)))
    case OnDatasets(UpdateDataset(d)) => Request(Updating, DatasetKey(d.ref), Some(DatasetRecord(d)))
    case OnDatasets(DeleteDataset(d, ok, _)) => Request(Deleting(ok), DatasetKey(d), None)
    case OnTables(o) => OnChild(o, k => TableKey(k), e => TableRecord(e))
    case OnRoutines(o) => OnChild(o, k => RoutineKey(k), e => RoutineRecord(e))
    case OnModels(o) => OnChild(o, k => ModelKey(k), e => ModelRecord(e))
    case OnJobs(UpsertJob(j)) => Request(Upserting, JobKey(j.ref), Some(JobRecord(j)))
    case OnJobs(DeleteJob(j, ok)) => Request(Deleting(ok), JobKey(j), None)
    case OnSnapshots(CreateSnapshot(s)) => Request(Creating, SnapshotKey(s.id), Some(SnapshotRecord(s)))
    case OnSnapshots(DeleteSnapshot(i, ok)) => Request(Deleting(ok), SnapshotKey(i), None)
    case OnViews(UpsertView(v)) => Request(Upserting, ViewKey(v.ref), Some(ViewRecord(v)))
    case OnViews(DeleteView(v, ok)) => Request(Deleting(ok), ViewKey(v), None)
    case OnPolicies(CreatePolicy(p)) => Request(Creating, PolicyKey(p.ref), Some(PolicyRecord(p)))
    case OnPolicies(UpdatePolicy(p)) => Request(Updating, PolicyKey(p.ref), Some(PolicyRecord(p)))
    case OnPolicies(DeletePolicy(p, ok)) => Request(Deleting(ok), PolicyKey(p), None)
  }

  // ---- The answer ----

  /** The dataset that must be there before an entry can be created: tables, routines and models only. */
  function Parent(k: Key): Option<Key> {
    if k.TableKey? || k.RoutineKey? || k.ModelKey? then Some(DatasetKey(k.ref.Dataset())) else None
  }

  /** Something in `d` that a plain delete does not remove. */
  ghost predicate Occupied(c: Catalog, d: DatasetRef) {
    exists k: Key :: Parent(k) == Some(DatasetKey(d)) && Lookup(c, k).Some?
  }

  ghost predicate KeepsContents(op: Op) { op.OnDatasets? && op.dop.DeleteDataset? && !op.dop.deleteContents }

  /** How a call ends, from lookups before it. */
  ghost function Answer(c: Catalog, op: Op): Outcome {
    var q := RequestOf(op);
    var there := Lookup(c, q.key).Some?;
    match q.verb
    case Upserting => Done
    case Creating =>
      if there then AlreadyExists
      else if Parent(q.key).Some? && Lookup(c, Parent(q.key).value).None? then NotFound
      else Done
    case Updating => if there then Done else NotFound
    case Deleting(ok) =>
      if !there then (if ok then Done else NotFound)
      else if KeepsContents(op) && Occupied(c, op.dop.ref) then NotEmpty
      else Done
  }

  lemma OccupiedExactly(c: Catalog, d: DatasetRef)
    ensures Occupied(c, d) <==> HasBlockingChildren(c, d)
  {
    if HasIn(c.tables, d) {
      var k :| k in c.tables && k.Dataset() == d;
      assert Parent(TableKey(k)) == Some(DatasetKey(d)) && Lookup(c, TableKey(k)).Some?;
    }
    if HasIn(c.routines, d) {
      var k :| k in c.routines && k.Dataset() == d;
      assert Parent(RoutineKey(k)) == Some(DatasetKey(d)) && Lookup(c, RoutineKey(k)).Some?;
    }
    if HasIn(c.models, d) {
      var k :| k in c.models && k.Dataset() == d;
      assert Parent(ModelKey(k)) == Some(DatasetKey(d)) && Lookup(c, ModelKey(k)).Some?;
    }
    if Occupied(c, d) {
      var k: Key :| Parent(k) == Some(DatasetKey(d)) && Lookup(c, k).Some?;
      assert k.ref.Dataset() == d;
    }
  }

  lemma DatasetAnswers(c: Catalog, op: DatasetOp)
    ensures ApplyDataset(c, op).outcome == Answer(c, OnDatasets(op))
  {
    if op.DeleteDataset? { OccupiedExactly(c, op.ref); }
  }

  lemma ChildAnswers(c: Catalog, op: Op)
    requires op.OnTables? || op.OnRoutines? || op.OnModels?
    ensures Apply(c, op).outcome == Answer(c, op)
  {
  }

  lemma OtherAnswers(c: Catalog, op: Op)
    requires op.OnJobs? || op.OnSnapshots? || op.OnViews? || op.OnPolicies?
    ensures Apply(c, op).outcome == Answer(c, op)
  {
  }

  /** Every call answers as its verb, its key and the lookups before it say. */
  lemma AnswersExactly(c: Catalog, op: Op)
    ensures Apply(c, op).outcome == Answer(c, op)
  {
    if op.OnDatasets? {
      DatasetAnswers(c, op.dop);
    } else if op.OnTables? || op.OnRoutines? || op.OnModels? {
      ChildAnswers(c, op);
    } else {
      OtherAnswers(c, op);
    }
  }

  // ---- What a later lookup finds ----

  /** The dataset an entry belongs to: by its key, or for a snapshot by the table it was taken of. */
  function Home(k: Key, r: Record): Option<DatasetRef> {
    match k
    case TableKey(o) => Some(o.Dataset())
    case RoutineKey(o) => Some(o.Dataset())
    case ModelKey(o) => Some(o.Dataset())
    case ViewKey(o) => Some(o.Dataset())
    case PolicyKey(p) => Some(p.Dataset())
    case SnapshotKey(_) => if r.SnapshotRecord? then Some(r.snapshot.source.Dataset()) else None
    case _ => None
  }

  /** The call is accepted and is about the entry under `k`: it names the key, or deletes the dataset the entry belongs to. */
  ghost predicate Touches(c: Catalog, op: Op, k: Key) {
    var q := RequestOf(op);
    && Answer(c, op) == Done
    && (k == q.key
        || (q.verb.Deleting? && q.key.DatasetKey? && Lookup(c, q.key).Some? && Lookup(c, k).Some?
            && Home(k, Lookup(c, k).value) == Some(q.key.dataset)))
  }

  /** The record a call leaves under a key it touches: its own, if it names the key. */
  function Left(op: Op, k: Key): Option<Record> { if k == RequestOf(op).key then RequestOf(op).record else None }

  ghost predicate Reads(c: Catalog, op: Op, k: Key) {
    Lookup(Apply(c, op).value, k) == if Touches(c, op, k) then Left(op, k) else Lookup(c, k)
  }

  lemma DatasetReads(c: Catalog, op: DatasetOp, k: Key)
    ensures Reads(c, OnDatasets(op), k)
  {
    DatasetAnswers(c, op);
    if op.DeleteDataset? { DeleteReads(c, op.ref, op.notFoundOk, op.deleteContents, k); }
  }

  lemma DeleteReads(c: Catalog, d: DatasetRef, ok: bool, contents: bool, k: Key)
    ensures Reads(c, OnDatasets(DeleteDataset(d, ok, contents)), k)
  {
    DatasetAnswers(c, DeleteDataset(d, ok, contents));
  }

  lemma TableReads(c: Catalog, op: ChildOp<TableBody>, k: Key)
    ensures Reads(c, OnTables(op), k)
  {
  }

  lemma RoutineReads(c: Catalog, op: ChildOp<RoutineBody>, k: Key)
    ensures Reads(c, OnRoutines(op), k)
  {
  }

  lemma ModelReads(c: Catalog, op: ChildOp<ModelBody>, k: Key)
    ensures Reads(c, OnModels(op), k)
  {
  }

  lemma JobReads(c: Catalog, op: JobOp, k: Key)
    ensures Reads(c, OnJobs(op), k)
  {
  }

  lemma SnapshotReads(c: Catalog, op: SnapshotOp, k: Key)
    ensures Reads(c, OnSnapshots(op), k)
  {
  }

  lemma ViewReads(c: Catalog, op: ViewOp, k: Key)
    ensures Reads(c, OnViews(op), k)
  {
  }

  lemma PolicyReads(c: Catalog, op: PolicyOp, k: Key)
    ensures Reads(c, OnPolicies(op), k)
  {
  }

  /**
   Read after write, for every call and every entry of every kind: an accepted call leaves its record under its
   key, a delete leaves nothing there, a dataset delete leaves nothing that belonged to the dataset, and every
   other lookup finds what it found before.
   */
  lemma ReadAfterWrite(c: Catalog, op: Op, k: Key)
    ensures Reads(c, op, k)
  {
    match op
    case OnDatasets(o) => DatasetReads(c, o, k);
    case OnTables(o) => TableReads(c, o, k);
    case OnRoutines(o) => RoutineReads(c, o, k);
    case OnModels(o) => ModelReads(c, o, k);
    case OnJobs(o) => JobReads(c, o, k);
    case OnSnapshots(o) => SnapshotReads(c, o, k);
    case OnViews(o) => ViewReads(c, o, k);
    case OnPolicies(o) => PolicyReads(c, o, k);
  }

  // ---- Over runs ----

  ghost predicate NoneTouches(c: Catalog, ops: seq<Op>, k: Key)
    decreases |ops|
  {
    ops != [] ==> !Touches(c, ops[0], k) && NoneTouches(Apply(c, ops[0]).value, ops[1..], k)
  }

  lemma {:induction false} UntouchedStays(c: Catalog, ops: seq<Op>, k: Key)
    requires NoneTouches(c, ops, k)
    ensures Lookup(ApplyAll(c, ops), k) == Lookup(c, k)
    decreases |ops|
  {
    if ops != [] {
      ReadAfterWrite(c, ops[0], k);
      UntouchedStays(Apply(c, ops[0]).value, ops[1..], k);
    }
  }

  lemma {:induction false} ApplyTwoRuns(c: Catalog, a: seq<Op>, b: seq<Op>)
    ensures ApplyAll(c, a + b) == ApplyAll(ApplyAll(c, a), b)
    decreases |a|
  {
    if a == [] {
      assert a + b == b;
    } else {
      assert (a + b)[1..] == a[1..] + b;
      ApplyTwoRuns(Apply(c, a[0]).value, a[1..], b);
    }
  }

  /** Over any run, a lookup finds what the last accepted call about the entry left: its record, or nothing after a delete. */
  lemma LastAcceptedIsFound(c: Catalog, ops: seq<Op>, i: nat, k: Key)
    requires i < |ops| && Touches(ApplyAll(c, ops[..i]), ops[i], k)
    requires NoneTouches(Apply(ApplyAll(c, ops[..i]), ops[i]).value, ops[i + 1..], k)
    ensures Lookup(ApplyAll(c, ops), k) == Left(ops[i], k)
  {
    var before, rest := ApplyAll(c, ops[..i]), ops[i + 1..];
    ApplyTwoRuns(c, ops[..i], ops[i..]);
    assert ops == ops[..i] + ops[i..] && ops[i..][0] == ops[i] && ops[i..][1..] == rest;
    ReadAfterWrite(before, ops[i], k);
    UntouchedStays(Apply(before, ops[i]).value, rest, k);
  }
}
