/**
 CREATE and DROP of tables, views and schemas: the guard and the operation resolved before the statement
 runs, the engine's own change, and the catalog change that follows it.
 */
module DdlSync {
  import opened Basics
  import opened CatalogModel
  import opened CatalogRepository
  import opened SeedModel

  datatype Kind = TableKind | ViewKind
  datatype Mode = Plain | OrReplace | IfNotExists

  /** A parsed statement.  `parts` are the non-empty (catalog, db, name) parts of its target. */
  datatype Statement =
    | CreateRelation(parts: seq<string>, kind: Kind, mode: Mode)
    | CreateSchema(parts: seq<string>, ifNotExists: bool)
    | DropRelation(parts: seq<string>, kind: Kind, ifExists: bool)
    | DropSchema(parts: seq<string>, ifExists: bool, cascade: bool)

  // ---- Targets ----

  function RelationTarget(parts: seq<string>, project: string): Option<ObjectRef> {
    if |parts| == 3 then Some(ObjectRef(parts[0], parts[1], parts[2]))
    else if |parts| == 2 then Some(ObjectRef(project, parts[0], parts[1]))
    else None
  }

  /** Python's `s.split(".")`. */
  function SplitDots(s: string): seq<string> {
    if s == "" then [""]
    else
      var rest := SplitDots(s[1..]);
      if s[0] == '.' then [""] + rest else [[s[0]] + rest[0]] + rest[1..]
  }

  lemma {:induction false} SplitWithoutDots(s: string)
    requires '.' !in s
    ensures SplitDots(s) == [s]
    decreases |s|
  {
    if s != "" {
      SplitWithoutDots(s[1..]);
      assert [s[0]] + s[1..] == s;
    }
  }

  /** A schema is `project.dataset` or `dataset`; a name quoted as a whole is split at its dots first. */
  function SchemaTarget(parts: seq<string>, project: string): Option<DatasetRef> {
    var ps := if |parts| == 1 then SplitDots(parts[0]) else parts;
    if |ps| == 2 then Some(DatasetRef(ps[0], ps[1]))
    else if |ps| == 1 then Some(DatasetRef(project, ps[0]))
    else None
  }

  /** Nothing is created for an empty dataset id. */
  function NewSchema(parts: seq<string>, project: string): Option<DatasetRef> {
    var d := SchemaTarget(parts, project);
    if d.Some? && d.value.dataset == "" then None else d
  }

  /** The dataset a statement works in, if it names one. */
  function TargetDataset(s: Statement, project: string): Option<DatasetRef> {
    if s.CreateRelation? || s.DropRelation? then
      var k := RelationTarget(s.parts, project); if k.Some? then Some(k.value.Dataset()) else None
    else if s.CreateSchema? then NewSchema(s.parts, project)
    else SchemaTarget(s.parts, project)
  }

  /** Schemas of the emulator itself: names in them are handed to the engine as they stand. */
  predicate Reserved(d: DatasetRef) { d.dataset == "_bqemulator_catalog" || d.dataset == "_bqemulator_snapshots" }

  // ---- The engine ----

  /** `stamp` tells one creation of a relation from another. */
  datatype Relation = Relation(kind: Kind, stamp: nat)

  /** The schemas of datasets and what is in them. */
  datatype Engine = Engine(schemas: set<string>, relations: map<PhysicalName, Relation>)

  predicate SchemaInUse(e: Engine, s: string) { exists n :: n in e.relations && n.schema == s }

  function CreatedRelation(e: Engine, k: ObjectRef, kind: Kind, mode: Mode, stamp: nat): Option<Engine> {
    var n := NameOf(k);
    var made := Some(e.(relations := e.relations[n := Relation(kind, stamp)]));
    if n.schema !in e.schemas then None
    else if n !in e.relations then made
    else
      match mode
      case Plain => None
      case OrReplace => if e.relations[n].kind == kind then made else None
      case IfNotExists => Some(e)
  }

  function DroppedRelation(e: Engine, k: ObjectRef, kind: Kind, ifExists: bool): Option<Engine> {
    var n := NameOf(k);
    if n !in e.relations then (if ifExists then Some(e) else None)
    else if e.relations[n].kind == kind then Some(e.(relations := e.relations - {n}))
    else None
  }

  function WithoutSchema(e: Engine, s: string): Engine {
    Engine(e.schemas - {s}, map n | n in e.relations && n.schema != s :: e.relations[n])
  }

  function DroppedSchema(e: Engine, d: DatasetRef, ifExists: bool, cascade: bool): Option<Engine> {
    var s := SchemaName(d);
    if s !in e.schemas then (if ifExists then Some(e) else None)
    else if SchemaInUse(e, s) && !cascade then None
    else Some(WithoutSchema(e, s))
  }

  /** What the engine does in the schema of dataset `d`. */
  function ExecuteIn(e: Engine, s: Statement, project: string, stamp: nat, d: DatasetRef): Option<Engine> {
    match s
    case CreateRelation(parts, kind, mode) =>
      var k := RelationTarget(parts, project);
      if k.None? then Some(e) else CreatedRelation(e, k.value, kind, mode, stamp)
    case CreateSchema(_, ifNotExists) =>
      if SchemaName(d) in e.schemas then (if ifNotExists then Some(e) else None)
      else Some(e.(schemas := e.schemas + {SchemaName(d)}))
    case DropRelation(parts, kind, ifExists) =>
      var k := RelationTarget(parts, project);
      if k.None? then Some(e) else DroppedRelation(e, k.value, kind, ifExists)
    case DropSchema(_, ifExists, cascade) => DroppedSchema(e, d, ifExists, cascade)
  }

  /**
   What the engine does with a statement; `None` is an error.  A target without a dataset, or in a reserved
   schema, touches none of the datasets' schemas.
   */
  function Execute(e: Engine, s: Statement, project: string, stamp: nat): Option<Engine> {
    var d := TargetDataset(s, project);
    if d.None? || Reserved(d.value) then Some(e) else ExecuteIn(e, s, project, stamp, d.value)
  }

  // ---- Before the statement runs ----

  /** A bare DROP SCHEMA is refused while the catalog lists tables or routines; models are not looked at. */
  predicate InUse(c: Catalog, s: Statement, project: string) {
    && s.DropSchema? && !s.cascade
    && var d := SchemaTarget(s.parts, project);
       d.Some? && d.value in c.datasets && (HasIn(c.tables, d.value) || HasIn(c.routines, d.value))
  }

  datatype Operation = CreateOp | ReplaceOp | SkipOp | DropOp

  function CreateOperation(existed: bool, mode: Mode): Operation {
    if !existed then CreateOp
    else match mode case Plain => CreateOp case OrReplace => ReplaceOp case IfNotExists => SkipOp
  }

  function DropOperation(existed: bool, ifExists: bool): Operation {
    if existed then DropOp else if ifExists then SkipOp else DropOp
  }

  /** The reported operation, from what the catalog holds before the statement runs. */
  function ResolveOperation(c: Catalog, s: Statement, project: string): Operation {
    match s
    case CreateRelation(parts, _, mode) =>
      var k := RelationTarget(parts, project);
      if k.None? then CreateOp else CreateOperation(k.value in c.tables, mode)
    case CreateSchema(parts, ifNotExists) =>
      var d := SchemaTarget(parts, project);
      if d.None? then CreateOp else CreateOperation(d.value in c.datasets, if ifNotExists then IfNotExists else Plain)
    case DropRelation(parts, _, ifExists) =>
      var k := RelationTarget(parts, project);
      if k.None? then DropOp else DropOperation(k.value in c.tables, ifExists)
    case DropSchema(parts, ifExists, _) =>
      var d := SchemaTarget(parts, project);
      if d.None? then DropOp else DropOperation(d.value in c.datasets, ifExists)
  }

  // ---- After the statement ran ----

  function EnsuredDataset(c: Catalog, d: DatasetRef): Catalog {
    if d in c.datasets then c else c.(datasets := c.datasets[d := DatasetMeta(d, [], map[])])
  }

  /** What a sync leaves behind, and whether it came through. */
  datatype Synced = Synced(catalog: Catalog, ok: bool)

  function SyncedRelation(c: Catalog, t: TableMeta): Synced {
    var c1 := EnsuredDataset(c, t.ref.Dataset());
    var r := Apply(c1, OnTables(if t.ref in c1.tables then Update(t) else Create(t)));
    Synced(r.value, r.outcome == Done)
  }

  /** Reading the relation back needs names that SQL may see and a relation that is there; it may fail all the same. */
  predicate Readable(e: Engine, k: ObjectRef, body: Option<TableBody>) {
    SafeTable(k) && NameOf(k) in e.relations && body.Some?
  }

  function WithoutAutoSnapshots(m: map<string, SnapshotMeta>, k: ObjectRef): map<string, SnapshotMeta> {
    map i | i in m && !(m[i].source == k && m[i].kind.Auto?) :: m[i]
  }

  function SyncedDrop(c: Catalog, k: ObjectRef): Catalog {
    c.(tables := c.tables - {k}, snapshots := WithoutAutoSnapshots(c.snapshots, k), views := c.views - {k})
  }

  /** The dataset is registered first; the entry only once the relation has been read back from engine `e`. */
  function SyncedCreate(c: Catalog, e: Engine, k: ObjectRef, body: Option<TableBody>): Synced {
    if Readable(e, k, body) then SyncedRelation(c, Entry(k, body.value)) else Synced(EnsuredDataset(c, k.Dataset()), false)
  }

  /** `e` is the engine after the statement, `body` what reading a created relation back finds there, if it does not fail. */
  function Sync(c: Catalog, e: Engine, s: Statement, project: string, body: Option<TableBody>): Synced {
    match s
    case CreateRelation(parts, _, _) =>
      var k := RelationTarget(parts, project);
      if k.None? then Synced(c, true) else SyncedCreate(c, e, k.value, body)
    case CreateSchema(parts, _) =>
      var d := NewSchema(parts, project);
      Synced(if d.None? then c else EnsuredDataset(c, d.value), true)
    case DropRelation(parts, _, _) =>
      var k := RelationTarget(parts, project);
      Synced(if k.None? then c else SyncedDrop(c, k.value), true)
    case DropSchema(parts, _, cascade) =>
      var d := SchemaTarget(parts, project);
      if d.None? then Synced(c, true)
      else
        var r := ApplyDataset(c, DeleteDataset(d.value, true, cascade));
        Synced(r.value, r.outcome == Done)
  }

  // ---- The job ----

  datatype World = World(catalog: Catalog, engine: Engine)
  datatype Result = ResourceInUse | EngineError | SyncError | Reported(op: Operation)
  datatype Job = Job(world: World, result: Result)

  /** One statement as submitted, with what the engine makes of it: a fresh stamp, what is read back, or a failure of its own. */
  datatype Attempt = Attempt(statement: Statement, project: string, stamp: nat, body: Option<TableBody>, fails: bool)

  function RunJob(w: World, a: Attempt): Job {
    if InUse(w.catalog, a.statement, a.project) then Job(w, ResourceInUse)
    else
      var op := ResolveOperation(w.catalog, a.statement, a.project);
      var e := if a.fails then None else Execute(w.engine, a.statement, a.project, a.stamp);
      if e.None? then Job(w, EngineError)
      else
        var c := Sync(w.catalog, e.value, a.statement, a.project, a.body);
        Job(World(c.catalog, e.value), if c.ok then Reported(op) else SyncError)
  }

  // ---- The catalog as an index of storage ----

  ghost predicate DatasetsAgree(u: set<DatasetRef>, datasets: set<DatasetRef>, schemas: set<string>) {
    datasets <= u && forall d :: d in u ==> (d in datasets <==> SchemaName(d) in schemas)
  }

  ghost predicate TablesAgree(u: set<DatasetRef>, tables: set<ObjectRef>, relations: set<PhysicalName>) {
    forall k: ObjectRef :: k.Dataset() in u ==> (k in tables <==> NameOf(k) in relations)
  }

  /** Among the datasets of `u` the catalog lists exactly the schemas and relations that exist. */
  ghost predicate Agree(u: set<DatasetRef>, w: World) {
    && DatasetsAgree(u, w.catalog.datasets.Keys, w.engine.schemas)
    && TablesAgree(u, w.catalog.tables.Keys, w.engine.relations.Keys)
    && Placed(w.catalog.tables, w.catalog.datasets.Keys)
  }

  ghost predicate Within(u: set<DatasetRef>, s: Statement, project: string) {
    var d := TargetDataset(s, project); d.Some? ==> d.value in u
  }

  /** Another dataset of `u` has the same physical schema. */
  ghost predicate Shared(u: set<DatasetRef>, d: DatasetRef) {
    exists e :: e in u && e != d && SchemaName(e) == SchemaName(d)
  }

  /** The statement passes the guard and the engine carries it out. */
  predicate Carried(w: World, a: Attempt) {
    !InUse(w.catalog, a.statement, a.project) && !a.fails && Execute(w.engine, a.statement, a.project, a.stamp).Some?
  }

  /** A bare DROP SCHEMA of a dataset whose only blocking contents are models. */
  ghost predicate Stranded(c: Catalog, s: Statement, project: string) {
    && s.DropSchema? && !s.cascade
    && var d := SchemaTarget(s.parts, project);
       d.Some? && d.value in c.datasets && !HasIn(c.tables, d.value) && !HasIn(c.routines, d.value) && HasIn(c.models, d.value)
  }

  /** The relation of a carried-out CREATE cannot be read back. */
  predicate Unreadable(w: World, a: Attempt)
    requires a.statement.CreateRelation? && Carried(w, a)
  {
    var k := RelationTarget(a.statement.parts, a.project);
    k.Some? && !Readable(Execute(w.engine, a.statement, a.project, a.stamp).value, k.value, a.body)
  }

  /** In a reserved schema: catalog and storage part as soon as the catalog changes. */
  ghost predicate KeepsReserved(w: World, a: Attempt, d: DatasetRef) {
    match a.statement
    case CreateRelation(_, _, _) => d in w.catalog.datasets
    case CreateSchema(_, _) => d in w.catalog.datasets
    case DropRelation(parts, _, _) =>
      var k := RelationTarget(parts, a.project); k.Some? ==> k.value !in w.catalog.tables
    case DropSchema(_, _, _) => d !in w.catalog.datasets || Stranded(w.catalog, a.statement, a.project)
  }

  /**
   In the schema of a dataset: the target was there already (or, for a drop, was not), or it really changes and
   is the only one of its physical name; and a new relation can be read back, and no models are stranded.
   */
  ghost predicate KeepsOwn(u: set<DatasetRef>, w: World, a: Attempt, d: DatasetRef)
    requires Carried(w, a)
  {
    match a.statement
    case CreateRelation(parts, _, _) =>
      var k := RelationTarget(parts, a.project); k.Some? ==> k.value in w.catalog.tables || (!Shared(u, d) && !Unreadable(w, a))
    case CreateSchema(_, _) => d in w.catalog.datasets || !Shared(u, d)
    case DropRelation(parts, _, _) =>
      var k := RelationTarget(parts, a.project); k.Some? ==> k.value !in w.catalog.tables || !Shared(u, d)
    case DropSchema(_, _, _) => d !in w.catalog.datasets || (!Shared(u, d) && !Stranded(w.catalog, a.statement, a.project))
  }

  /** The statements after which catalog and storage still agree; checked before the statement runs. */
  ghost predicate Keeps(u: set<DatasetRef>, w: World, a: Attempt) {
    var d := TargetDataset(a.statement, a.project);
    Carried(w, a) && d.Some? ==> if Reserved(d.value) then KeepsReserved(w, a, d.value) else KeepsOwn(u, w, a, d.value)
  }

  /** The statements whose sync fails after the engine has carried them out. */
  ghost predicate SyncFails(w: World, a: Attempt) {
    Carried(w, a) && (Stranded(w.catalog, a.statement, a.project) || (a.statement.CreateRelation? && Unreadable(w, a)))
  }

  lemma KeyUnion<K>(s: set<K>, k: K)
    ensures k in s ==> s + {k} == s
    ensures k !in s ==> s - {k} == s
  {
  }

  /** The table of the same name in the other dataset. */
  function Twin(e: DatasetRef, k: ObjectRef): ObjectRef { ObjectRef(e.project, e.dataset, k.name) }

  /** Adding a relation to both sides keeps them in agreement exactly when it was there or no dataset shares the schema. */
  lemma TablesAgreeAdd(u: set<DatasetRef>, tables: set<ObjectRef>, relations: set<PhysicalName>, k: ObjectRef)
    requires k.Dataset() in u && TablesAgree(u, tables, relations)
    ensures TablesAgree(u, tables + {k}, relations + {NameOf(k)}) <==> k in tables || !Shared(u, k.Dataset())
  {
    KeyUnion(tables, k);
    KeyUnion(relations, NameOf(k));
    if k !in tables && Shared(u, k.Dataset()) {
      var e :| e in u && e != k.Dataset() && SchemaName(e) == SchemaName(k.Dataset());
      var l := Twin(e, k);
      assert l.Dataset() == e && NameOf(l) == NameOf(k) && l != k;
    }
  }

  lemma TablesAgreeRemove(u: set<DatasetRef>, tables: set<ObjectRef>, relations: set<PhysicalName>, k: ObjectRef)
    requires k.Dataset() in u && TablesAgree(u, tables, relations)
    ensures TablesAgree(u, tables - {k}, relations - {NameOf(k)}) <==> k !in tables || !Shared(u, k.Dataset())
  {
    KeyUnion(tables, k);
    KeyUnion(relations, NameOf(k));
    if k in tables && Shared(u, k.Dataset()) {
      var e :| e in u && e != k.Dataset() && SchemaName(e) == SchemaName(k.Dataset());
      var l := Twin(e, k);
      assert l.Dataset() == e && NameOf(l) == NameOf(k) && l != k;
    }
  }

  lemma DatasetsAgreeAdd(u: set<DatasetRef>, datasets: set<DatasetRef>, schemas: set<string>, d: DatasetRef)
    requires d in u && DatasetsAgree(u, datasets, schemas)
    ensures DatasetsAgree(u, datasets + {d}, schemas + {SchemaName(d)}) <==> d in datasets || !Shared(u, d)
  {
    KeyUnion(datasets, d);
    KeyUnion(schemas, SchemaName(d));
  }

  lemma DatasetsAgreeRemove(u: set<DatasetRef>, datasets: set<DatasetRef>, schemas: set<string>, d: DatasetRef)
    requires d in u && DatasetsAgree(u, datasets, schemas)
    ensures DatasetsAgree(u, datasets - {d}, schemas - {SchemaName(d)}) <==> d !in datasets || !Shared(u, d)
  {
    KeyUnion(datasets, d);
    KeyUnion(schemas, SchemaName(d));
  }

  lemma CreateRelationKeys(u: set<DatasetRef>, w: World, k: ObjectRef, kind: Kind, mode: Mode, stamp: nat, body: TableBody)
    requires Agree(u, w) && k.Dataset() in u
    requires CreatedRelation(w.engine, k, kind, mode, stamp).Some?
    ensures var e := CreatedRelation(w.engine, k, kind, mode, stamp).value;
            var c := SyncedRelation(w.catalog, Entry(k, body));
            && c.ok && c.catalog.datasets == w.catalog.datasets && e.schemas == w.engine.schemas
            && c.catalog.tables.Keys == w.catalog.tables.Keys + {k} && e.relations.Keys == w.engine.relations.Keys + {NameOf(k)}
            && Placed(c.catalog.tables, c.catalog.datasets.Keys)
  {
    assert k.Dataset() in w.catalog.datasets;
  }

  lemma CreateRelationExactly(u: set<DatasetRef>, w: World, k: ObjectRef, kind: Kind, mode: Mode, stamp: nat, body: TableBody)
    requires Agree(u, w) && k.Dataset() in u
    requires CreatedRelation(w.engine, k, kind, mode, stamp).Some?
    ensures var w' := World(SyncedRelation(w.catalog, Entry(k, body)).catalog, CreatedRelation(w.engine, k, kind, mode, stamp).value);
            Agree(u, w') <==> k in w.catalog.tables || !Shared(u, k.Dataset())
  {
    CreateRelationKeys(u, w, k, kind, mode, stamp, body);
    TablesAgreeAdd(u, w.catalog.tables.Keys, w.engine.relations.Keys, k);
  }

  lemma DropRelationKeys(w: World, k: ObjectRef, kind: Kind, ifExists: bool)
    requires DroppedRelation(w.engine, k, kind, ifExists).Some?
    ensures var e, c := DroppedRelation(w.engine, k, kind, ifExists).value, SyncedDrop(w.catalog, k);
            && c.datasets == w.catalog.datasets && e.schemas == w.engine.schemas
            && c.tables.Keys == w.catalog.tables.Keys - {k} && e.relations.Keys == w.engine.relations.Keys - {NameOf(k)}
  {
  }

  lemma DropRelationExactly(u: set<DatasetRef>, w: World, k: ObjectRef, kind: Kind, ifExists: bool)
    requires Agree(u, w) && k.Dataset() in u
    requires DroppedRelation(w.engine, k, kind, ifExists).Some?
    ensures Agree(u, World(SyncedDrop(w.catalog, k), DroppedRelation(w.engine, k, kind, ifExists).value))
            <==> k !in w.catalog.tables || !Shared(u, k.Dataset())
  {
    DropRelationKeys(w, k, kind, ifExists);
    TablesAgreeRemove(u, w.catalog.tables.Keys, w.engine.relations.Keys, k);
    var c := SyncedDrop(w.catalog, k);
    assert Placed(c.tables, c.datasets.Keys);
  }

  lemma PlacedInMore<B>(m: map<ObjectRef, Entry<B>>, some: set<DatasetRef>, more: set<DatasetRef>)
    requires Placed(m, some) && some <= more
    ensures Placed(m, more)
  {
  }

  lemma EnsuredKeys(c: Catalog, d: DatasetRef)
    ensures EnsuredDataset(c, d).datasets.Keys == c.datasets.Keys + {d} && EnsuredDataset(c, d).tables == c.tables
  {
  }

  lemma CreateSchemaExactly(u: set<DatasetRef>, w: World, d: DatasetRef)
    requires Agree(u, w) && d in u
    ensures Agree(u, World(EnsuredDataset(w.catalog, d), w.engine.(schemas := w.engine.schemas + {SchemaName(d)})))
            <==> d in w.catalog.datasets || !Shared(u, d)
  {
    DatasetsAgreeAdd(u, w.catalog.datasets.Keys, w.engine.schemas, d);
    EnsuredKeys(w.catalog, d);
    PlacedInMore(w.catalog.tables, w.catalog.datasets.Keys, w.catalog.datasets.Keys + {d});
  }

  /** Agreement makes the engine's emptiness test and the catalog's table listing the same. */
  lemma SameEmptiness(u: set<DatasetRef>, w: World, d: DatasetRef)
    requires Agree(u, w) && d in u
    ensures SchemaInUse(w.engine, SchemaName(d)) <==> HasIn(w.catalog.tables, d)
  {
    if SchemaInUse(w.engine, SchemaName(d)) {
      var n :| n in w.engine.relations && n.schema == SchemaName(d);
      var k := ObjectRef(d.project, d.dataset, n.table);
      assert k.Dataset() == d && NameOf(k) == n;
    }
    if HasIn(w.catalog.tables, d) {
      var k :| k in w.catalog.tables && k.Dataset() == d;
      assert NameOf(k) in w.engine.relations;
    }
  }

  lemma EmptiedTablesAgree(u: set<DatasetRef>, c: Catalog, e: Engine, d: DatasetRef)
    requires d in u && !Shared(u, d) && TablesAgree(u, c.tables.Keys, e.relations.Keys)
    ensures TablesAgree(u, Outside(c.tables, ObjectDataset, d).Keys, WithoutSchema(e, SchemaName(d)).relations.Keys)
  {
  }

  lemma DropSchemaKeeps(u: set<DatasetRef>, w: World, d: DatasetRef)
    requires Agree(u, w) && d in w.catalog.datasets
    ensures Agree(u, World(WithoutDataset(w.catalog, d), WithoutSchema(w.engine, SchemaName(d)))) <==> !Shared(u, d)
  {
    DatasetsAgreeRemove(u, w.catalog.datasets.Keys, w.engine.schemas, d);
    assert WithoutDataset(w.catalog, d).datasets.Keys == w.catalog.datasets.Keys - {d};
    if !Shared(u, d) { EmptiedTablesAgree(u, w.catalog, w.engine, d); }
  }

  /** A relation that the engine makes and the catalog does not hear of: agreement stays exactly if it was listed before. */
  lemma UnheardRelationExactly(u: set<DatasetRef>, w: World, k: ObjectRef, kind: Kind, mode: Mode, stamp: nat)
    requires Agree(u, w) && k.Dataset() in u
    requires CreatedRelation(w.engine, k, kind, mode, stamp).Some?
    ensures EnsuredDataset(w.catalog, k.Dataset()) == w.catalog
    ensures Agree(u, World(w.catalog, CreatedRelation(w.engine, k, kind, mode, stamp).value)) <==> k in w.catalog.tables
  {
    var e := CreatedRelation(w.engine, k, kind, mode, stamp).value;
    assert k.Dataset() in w.catalog.datasets;
    assert e.relations.Keys == w.engine.relations.Keys + {NameOf(k)};
    KeyUnion(w.engine.relations.Keys, NameOf(k));
  }

  lemma CreateRelationCase(u: set<DatasetRef>, w: World, a: Attempt, k: ObjectRef)
    requires Agree(u, w) && k.Dataset() in u && !Reserved(k.Dataset()) && Carried(w, a)
    requires a.statement.CreateRelation? && RelationTarget(a.statement.parts, a.project) == Some(k)
    ensures Agree(u, RunJob(w, a).world) <==> Keeps(u, w, a)
    ensures RunJob(w, a).result == SyncError <==> Unreadable(w, a)
  {
    var s := a.statement;
    if Unreadable(w, a) {
      UnheardRelationExactly(u, w, k, s.kind, s.mode, a.stamp);
    } else {
      CreateRelationKeys(u, w, k, s.kind, s.mode, a.stamp, a.body.value);
      CreateRelationExactly(u, w, k, s.kind, s.mode, a.stamp, a.body.value);
    }
  }

  lemma CreateSchemaCase(u: set<DatasetRef>, w: World, a: Attempt, d: DatasetRef)
    requires Agree(u, w) && d in u && !Reserved(d) && Carried(w, a)
    requires a.statement.CreateSchema? && NewSchema(a.statement.parts, a.project) == Some(d)
    ensures Agree(u, RunJob(w, a).world) <==> Keeps(u, w, a)
    ensures RunJob(w, a).result != SyncError
  {
    CreateSchemaExactly(u, w, d);
    KeyUnion(w.engine.schemas, SchemaName(d));
  }

  lemma DropRelationCase(u: set<DatasetRef>, w: World, a: Attempt, k: ObjectRef)
    requires Agree(u, w) && k.Dataset() in u && !Reserved(k.Dataset()) && Carried(w, a)
    requires a.statement.DropRelation? && RelationTarget(a.statement.parts, a.project) == Some(k)
    ensures Agree(u, RunJob(w, a).world) <==> Keeps(u, w, a)
    ensures RunJob(w, a).result != SyncError
  {
    DropRelationExactly(u, w, k, a.statement.kind, a.statement.ifExists);
  }

  lemma DropSchemaCase(u: set<DatasetRef>, w: World, a: Attempt, d: DatasetRef)
    requires Agree(u, w) && d in u && !Reserved(d) && Carried(w, a)
    requires a.statement.DropSchema? && SchemaTarget(a.statement.parts, a.project) == Some(d)
    ensures Agree(u, RunJob(w, a).world) <==> Keeps(u, w, a)
    ensures RunJob(w, a).result == SyncError <==> Stranded(w.catalog, a.statement, a.project)
  {
    SameEmptiness(u, w, d);
    if d in w.catalog.datasets { DropSchemaKeeps(u, w, d); }
  }

  // In a reserved schema the datasets' side of the engine does not move.

  lemma ReservedCreate(u: set<DatasetRef>, w: World, d: DatasetRef)
    requires Agree(u, w) && d in u
    ensures Agree(u, World(EnsuredDataset(w.catalog, d), w.engine)) <==> d in w.catalog.datasets
  {
    EnsuredKeys(w.catalog, d);
    KeyUnion(w.catalog.datasets.Keys, d);
  }

  lemma ReservedUpdate(u: set<DatasetRef>, w: World, k: ObjectRef, body: TableBody)
    requires Agree(u, w) && k.Dataset() in u && NameOf(k) in w.engine.relations
    ensures var c := SyncedRelation(w.catalog, Entry(k, body)); c.ok && k.Dataset() in w.catalog.datasets && Agree(u, World(c.catalog, w.engine))
  {
    assert k in w.catalog.tables;
    var c := SyncedRelation(w.catalog, Entry(k, body)).catalog;
    assert c.tables.Keys == w.catalog.tables.Keys;
  }

  lemma ReservedCreateCase(u: set<DatasetRef>, w: World, a: Attempt, d: DatasetRef)
    requires Agree(u, w) && d in u && Reserved(d) && Carried(w, a)
    requires (a.statement.CreateRelation? || a.statement.CreateSchema?) && TargetDataset(a.statement, a.project) == Some(d)
    ensures Agree(u, RunJob(w, a).world) <==> Keeps(u, w, a)
    ensures RunJob(w, a).result == SyncError <==> SyncFails(w, a)
  {
    ReservedCreate(u, w, d);
    if a.statement.CreateRelation? && !Unreadable(w, a) {
      ReservedUpdate(u, w, RelationTarget(a.statement.parts, a.project).value, a.body.value);
    }
  }

  lemma ReservedDropRelation(u: set<DatasetRef>, w: World, k: ObjectRef)
    requires Agree(u, w) && k.Dataset() in u
    ensures Agree(u, World(SyncedDrop(w.catalog, k), w.engine)) <==> k !in w.catalog.tables
  {
    var c := SyncedDrop(w.catalog, k);
    assert c.tables.Keys == w.catalog.tables.Keys - {k};
    KeyUnion(w.catalog.tables.Keys, k);
    assert k in w.catalog.tables ==> k !in c.tables && NameOf(k) in w.engine.relations;
    assert Placed(c.tables, c.datasets.Keys);
  }

  lemma ReservedDropSchema(u: set<DatasetRef>, w: World, d: DatasetRef)
    requires Agree(u, w) && d in w.catalog.datasets
    ensures !Agree(u, World(WithoutDataset(w.catalog, d), w.engine))
  {
    var c := WithoutDataset(w.catalog, d);
    assert d in u && d !in c.datasets && SchemaName(d) in w.engine.schemas;
  }

  lemma ReservedDropCase(u: set<DatasetRef>, w: World, a: Attempt, d: DatasetRef)
    requires Agree(u, w) && d in u && Reserved(d) && Carried(w, a)
    requires (a.statement.DropRelation? || a.statement.DropSchema?) && TargetDataset(a.statement, a.project) == Some(d)
    ensures Agree(u, RunJob(w, a).world) <==> Keeps(u, w, a)
    ensures RunJob(w, a).result == SyncError <==> SyncFails(w, a)
  {
    if a.statement.DropRelation? {
      ReservedDropRelation(u, w, RelationTarget(a.statement.parts, a.project).value);
    } else if d in w.catalog.datasets {
      ReservedDropSchema(u, w, d);
    }
  }

  lemma OwnCase(u: set<DatasetRef>, w: World, a: Attempt, d: DatasetRef)
    requires Agree(u, w) && d in u && !Reserved(d) && Carried(w, a) && TargetDataset(a.statement, a.project) == Some(d)
    ensures Agree(u, RunJob(w, a).world) <==> Keeps(u, w, a)
    ensures RunJob(w, a).result == SyncError <==> SyncFails(w, a)
  {
    match a.statement
    case CreateRelation(parts, _, _) => CreateRelationCase(u, w, a, RelationTarget(parts, a.project).value);
    case CreateSchema(_, _) => CreateSchemaCase(u, w, a, d);
    case DropRelation(parts, _, _) => DropRelationCase(u, w, a, RelationTarget(parts, a.project).value);
    case DropSchema(_, _, _) => DropSchemaCase(u, w, a, d);
  }

  lemma NoTargetCase(u: set<DatasetRef>, w: World, a: Attempt)
    requires Agree(u, w) && (!Carried(w, a) || TargetDataset(a.statement, a.project).None?)
    ensures Agree(u, RunJob(w, a).world) && Keeps(u, w, a)
    ensures RunJob(w, a).result != SyncError && !SyncFails(w, a)
  {
  }

  /**
   From an agreeing state every job, whatever its statement and however it ends, leaves an agreeing state exactly
   when the statement is one of those that `Keeps` names.  There are four ways to fall out of step: a new table or
   view whose name cannot be quoted or that cannot be read back stays in storage alone; a bare DROP SCHEMA of a
   dataset with models only loses the schema and keeps the dataset; creating or dropping in a physical schema that
   another dataset has as well; and changing the catalog through one of the emulator's own schemas.
   */
  lemma AgreementExactly(u: set<DatasetRef>, w: World, a: Attempt)
    requires Agree(u, w) && Within(u, a.statement, a.project)
    ensures Agree(u, RunJob(w, a).world) <==> Keeps(u, w, a)
    ensures RunJob(w, a).result == SyncError <==> SyncFails(w, a)
  {
    var d := TargetDataset(a.statement, a.project);
    if !Carried(w, a) || d.None? {
      NoTargetCase(u, w, a);
    } else if !Reserved(d.value) {
      OwnCase(u, w, a, d.value);
    } else if a.statement.DropRelation? || a.statement.DropSchema? {
      ReservedDropCase(u, w, a, d.value);
    } else {
      ReservedCreateCase(u, w, a, d.value);
    }
  }

  /** Catalog and storage agree now and after every statement. */
  ghost predicate AgreeThroughout(u: set<DatasetRef>, w: World, attempts: seq<Attempt>)
    decreases |attempts|
  {
    Agree(u, w) && (attempts != [] ==> AgreeThroughout(u, RunJob(w, attempts[0]).world, attempts[1..]))
  }

  ghost predicate AllKeep(u: set<DatasetRef>, w: World, attempts: seq<Attempt>)
    decreases |attempts|
  {
    attempts != [] ==> Keeps(u, w, attempts[0]) && AllKeep(u, RunJob(w, attempts[0]).world, attempts[1..])
  }

  /** Over every run of statements the catalog is an exact index of storage all the way, if and only if each statement keeps it where it comes. */
  lemma {:induction false} AgreementOverRuns(u: set<DatasetRef>, w: World, attempts: seq<Attempt>)
    requires Agree(u, w) && forall a :: a in attempts ==> Within(u, a.statement, a.project)
    ensures AgreeThroughout(u, w, attempts) <==> AllKeep(u, w, attempts)
    decreases |attempts|
  {
    if attempts != [] {
      assert attempts[0] in attempts;
      var w' := RunJob(w, attempts[0]).world;
      AgreementExactly(u, w, attempts[0]);
      if Agree(u, w') { AgreementOverRuns(u, w', attempts[1..]); }
    }
  }

  // ---- The reported operation is what happened ----

  /** What was seen to happen to relation `k`. */
  ghost predicate SeenOnRelation(op: Operation, w: World, w': World, k: ObjectRef, made: Relation) {
    var n, before, after := NameOf(k), w.catalog.tables.Keys, w'.catalog.tables.Keys;
    && w'.catalog.datasets == w.catalog.datasets && w'.engine.schemas == w.engine.schemas
    && match op
       case CreateOp => k !in before && after == before + {k} && w'.engine.relations == w.engine.relations[n := made]
       case ReplaceOp => k in before && after == before && w'.engine.relations == w.engine.relations[n := made]
       case SkipOp => after == before && w'.engine == w.engine
       case DropOp => k in before && after == before - {k} && w'.engine.relations == w.engine.relations - {n}
  }

  /** What was seen to happen to dataset `d`. */
  ghost predicate SeenOnSchema(op: Operation, w: World, w': World, d: DatasetRef) {
    var before, after := w.catalog.datasets.Keys, w'.catalog.datasets.Keys;
    match op
    case CreateOp => d !in before && after == before + {d} && w'.engine == w.engine.(schemas := w.engine.schemas + {SchemaName(d)})
    case ReplaceOp => false
    case SkipOp => w' == w
    case DropOp => d in before && after == before - {d} && w'.engine.schemas == w.engine.schemas - {SchemaName(d)} && !HasIn(w'.catalog.tables, d)
  }

  ghost predicate FreshStamp(e: Engine, stamp: nat) { forall n :: n in e.relations ==> e.relations[n].stamp != stamp }

  lemma CreateSeen(u: set<DatasetRef>, w: World, k: ObjectRef, kind: Kind, mode: Mode, stamp: nat, body: TableBody)
    requires Agree(u, w) && k.Dataset() in u
    requires CreatedRelation(w.engine, k, kind, mode, stamp).Some?
    ensures var w' := World(SyncedRelation(w.catalog, Entry(k, body)).catalog, CreatedRelation(w.engine, k, kind, mode, stamp).value);
            SeenOnRelation(CreateOperation(k in w.catalog.tables, mode), w, w', k, Relation(kind, stamp))
  {
    CreateRelationKeys(u, w, k, kind, mode, stamp, body);
    KeyUnion(w.catalog.tables.Keys, k);
    assert k in w.catalog.tables <==> NameOf(k) in w.engine.relations;
  }

  lemma DropSeen(u: set<DatasetRef>, w: World, k: ObjectRef, kind: Kind, ifExists: bool, made: Relation)
    requires Agree(u, w) && k.Dataset() in u
    requires DroppedRelation(w.engine, k, kind, ifExists).Some?
    ensures SeenOnRelation(DropOperation(k in w.catalog.tables, ifExists), w,
                           World(SyncedDrop(w.catalog, k), DroppedRelation(w.engine, k, kind, ifExists).value), k, made)
  {
    DropRelationKeys(w, k, kind, ifExists);
    KeyUnion(w.catalog.tables.Keys, k);
    assert k in w.catalog.tables <==> NameOf(k) in w.engine.relations;
  }

  /** With a fresh stamp the four kinds of change cannot be mistaken for one another. */
  lemma SeenOnlyOnce(op: Operation, op': Operation, w: World, w': World, k: ObjectRef, made: Relation)
    requires FreshStamp(w.engine, made.stamp)
    requires SeenOnRelation(op, w, w', k, made) && SeenOnRelation(op', w, w', k, made)
    ensures op == op'
  {
    var n := NameOf(k);
    if w'.engine.relations == w.engine.relations[n := made] { assert w'.engine.relations[n] == made; }
  }

  /** In a reserved schema a table or view statement that reports is seen to do nothing or to spoil the catalog. */
  lemma ReservedSeen(u: set<DatasetRef>, w: World, a: Attempt, k: ObjectRef)
    requires Agree(u, w) && k.Dataset() in u && Reserved(k.Dataset()) && FreshStamp(w.engine, a.stamp)
    requires a.statement.CreateRelation? || a.statement.DropRelation?
    requires RelationTarget(a.statement.parts, a.project) == Some(k) && RunJob(w, a).result.Reported?
    ensures var op := RunJob(w, a).result.op;
            SeenOnRelation(op, w, RunJob(w, a).world, k, Relation(a.statement.kind, a.stamp)) <==> op == SkipOp
  {
    var made, w' := Relation(a.statement.kind, a.stamp), RunJob(w, a).world;
    assert w'.engine == w.engine;
    assert k in w.catalog.tables <==> NameOf(k) in w.engine.relations;
    assert w.engine.relations[NameOf(k) := made] != w.engine.relations by {
      if NameOf(k) in w.engine.relations { assert w.engine.relations[NameOf(k)] != made; }
    }
    if a.statement.CreateRelation? {
      ReservedUpdate(u, w, k, a.body.value);
      assert w'.catalog.tables.Keys == w.catalog.tables.Keys;
    } else {
      KeyUnion(w.catalog.tables.Keys, k);
    }
  }

  /**
   The operation resolved before a table or view statement that then reports is exactly the change it is seen to
   make, and no other is, unless the statement goes to a reserved schema and is not skipped.
   */
  lemma RelationOperationExactly(u: set<DatasetRef>, w: World, a: Attempt, op: Operation)
    requires Agree(u, w) && Within(u, a.statement, a.project) && FreshStamp(w.engine, a.stamp)
    requires a.statement.CreateRelation? || a.statement.DropRelation?
    requires RelationTarget(a.statement.parts, a.project).Some? && RunJob(w, a).result.Reported?
    ensures var k := RelationTarget(a.statement.parts, a.project).value;
            var reported, made := RunJob(w, a).result.op, Relation(a.statement.kind, a.stamp);
            && (SeenOnRelation(reported, w, RunJob(w, a).world, k, made) <==> !Reserved(k.Dataset()) || reported == SkipOp)
            && (SeenOnRelation(reported, w, RunJob(w, a).world, k, made) && SeenOnRelation(op, w, RunJob(w, a).world, k, made) ==> op == reported)
  {
    var k, s := RelationTarget(a.statement.parts, a.project).value, a.statement;
    var made := Relation(s.kind, a.stamp);
    var reported := RunJob(w, a).result.op;
    if Reserved(k.Dataset()) {
      ReservedSeen(u, w, a, k);
    } else if s.CreateRelation? {
      CreateSeen(u, w, k, s.kind, s.mode, a.stamp, a.body.value);
    } else {
      DropSeen(u, w, k, s.kind, s.ifExists, made);
    }
    if SeenOnRelation(reported, w, RunJob(w, a).world, k, made) && SeenOnRelation(op, w, RunJob(w, a).world, k, made) {
      SeenOnlyOnce(reported, op, w, RunJob(w, a).world, k, made);
    }
  }

  lemma SchemaSeenOnce(op: Operation, op': Operation, w: World, w': World, d: DatasetRef)
    requires SeenOnSchema(op, w, w', d) && SeenOnSchema(op', w, w', d)
    ensures op == op'
  {
    if w'.catalog.datasets.Keys == w.catalog.datasets.Keys + {d} { assert d in w'.catalog.datasets; }
    if w'.catalog.datasets.Keys == w.catalog.datasets.Keys - {d} { assert d !in w'.catalog.datasets; }
  }

  lemma OwnSchemaSeen(u: set<DatasetRef>, w: World, a: Attempt, d: DatasetRef)
    requires Agree(u, w) && d in u && !Reserved(d) && d.dataset != "" && RunJob(w, a).result.Reported?
    requires (a.statement.CreateSchema? || a.statement.DropSchema?) && SchemaTarget(a.statement.parts, a.project) == Some(d)
    ensures SeenOnSchema(RunJob(w, a).result.op, w, RunJob(w, a).world, d)
  {
    var s := a.statement;
    if s.CreateSchema? {
      EnsuredKeys(w.catalog, d);
    } else if d in w.catalog.datasets {
      DeleteDatasetIsExact(w.catalog, d, true, s.cascade);
      assert WithoutDataset(w.catalog, d).datasets.Keys == w.catalog.datasets.Keys - {d};
    }
  }

  lemma ReservedSchemaSeen(u: set<DatasetRef>, w: World, a: Attempt, d: DatasetRef)
    requires Agree(u, w) && d in u && Reserved(d) && RunJob(w, a).result.Reported?
    requires (a.statement.CreateSchema? || a.statement.DropSchema?) && SchemaTarget(a.statement.parts, a.project) == Some(d)
    ensures SeenOnSchema(RunJob(w, a).result.op, w, RunJob(w, a).world, d) <==> RunJob(w, a).result.op == SkipOp
  {
    assert RunJob(w, a).world.engine == w.engine;
    assert d in w.catalog.datasets <==> SchemaName(d) in w.engine.schemas;
    if d !in w.catalog.datasets { assert SchemaName(d) in w.engine.schemas + {SchemaName(d)}; }
  }

  /** The same for schemas. */
  lemma SchemaOperationExactly(u: set<DatasetRef>, w: World, a: Attempt, op: Operation)
    requires Agree(u, w) && Within(u, a.statement, a.project)
    requires a.statement.CreateSchema? || a.statement.DropSchema?
    requires SchemaTarget(a.statement.parts, a.project).Some? && SchemaTarget(a.statement.parts, a.project).value.dataset != ""
    requires RunJob(w, a).result.Reported?
    ensures var d, reported := SchemaTarget(a.statement.parts, a.project).value, RunJob(w, a).result.op;
            && (SeenOnSchema(reported, w, RunJob(w, a).world, d) <==> !Reserved(d) || reported == SkipOp)
            && (SeenOnSchema(reported, w, RunJob(w, a).world, d) && SeenOnSchema(op, w, RunJob(w, a).world, d) ==> op == reported)
  {
    var d, reported := SchemaTarget(a.statement.parts, a.project).value, RunJob(w, a).result.op;
    if Reserved(d) { ReservedSchemaSeen(u, w, a, d); } else { OwnSchemaSeen(u, w, a, d); }
    if SeenOnSchema(reported, w, RunJob(w, a).world, d) && SeenOnSchema(op, w, RunJob(w, a).world, d) {
      SchemaSeenOnce(reported, op, w, RunJob(w, a).world, d);
    }
  }

  // ---- Names ----

  /** The same statement on a target written with other parts. */
  function On(a: Attempt, parts: seq<string>): Attempt {
    a.(statement := match a.statement
                    case CreateRelation(_, kind, mode) => CreateRelation(parts, kind, mode)
                    case CreateSchema(_, ifNotExists) => CreateSchema(parts, ifNotExists)
                    case DropRelation(_, kind, ifExists) => DropRelation(parts, kind, ifExists)
                    case DropSchema(_, ifExists, cascade) => DropSchema(parts, ifExists, cascade))
  }

  /** A table or view named by dataset and table is the one of the job's own project. */
  lemma TwoPartsAreThree(w: World, a: Attempt, dataset: string, table: string)
    requires a.statement.CreateRelation? || a.statement.DropRelation?
    ensures RunJob(w, On(a, [dataset, table])) == RunJob(w, On(a, [a.project, dataset, table]))
  {
  }

  lemma {:induction false} SplitAtDot(p: string, d: string)
    requires '.' !in p && '.' !in d
    ensures SplitDots(p + "." + d) == [p, d]
    decreases |p|
  {
    if p == "" {
      assert (p + "." + d)[1..] == d;
      SplitWithoutDots(d);
    } else {
      assert (p + "." + d)[1..] == p[1..] + "." + d;
      SplitAtDot(p[1..], d);
      assert [p[0]] + p[1..] == p;
    }
  }

  lemma SameTarget(w: World, a: Attempt, parts: seq<string>, others: seq<string>)
    requires a.statement.CreateSchema? || a.statement.DropSchema?
    requires SchemaTarget(parts, a.project) == SchemaTarget(others, a.project)
    ensures RunJob(w, On(a, parts)) == RunJob(w, On(a, others))
  {
  }

  /** A dataset named alone is the one of the job's own project, and a name quoted as a whole is its two parts. */
  lemma SchemaNamesResolve(w: World, a: Attempt, project: string, dataset: string)
    requires (a.statement.CreateSchema? || a.statement.DropSchema?) && '.' !in project && '.' !in dataset
    ensures RunJob(w, On(a, [dataset])) == RunJob(w, On(a, [a.project, dataset]))
    ensures RunJob(w, On(a, [project + "." + dataset])) == RunJob(w, On(a, [project, dataset]))
  {
    SplitWithoutDots(dataset);
    SplitAtDot(project, dataset);
    SameTarget(w, a, [dataset], [a.project, dataset]);
    SameTarget(w, a, [project + "." + dataset], [project, dataset]);
  }

  // ---- What each statement answers, from the catalog before it ----

  /** A statement on an ordinary target: a dataset of `u` that is not reserved, and nothing that fails by itself. */
  ghost predicate Ordinary(u: set<DatasetRef>, w: World, a: Attempt) {
    Agree(u, w) && Within(u, a.statement, a.project) && !a.fails
    && (TargetDataset(a.statement, a.project).Some? ==> !Reserved(TargetDataset(a.statement, a.project).value))
  }

  /** CREATE TABLE or VIEW of `p.d.t`: what it answers, and that it leaves the entry listed and the relation `p__d`.`t` there. */
  lemma CreateAnswers(u: set<DatasetRef>, w: World, a: Attempt, p: string, d: string, t: string)
    requires Ordinary(u, w, a) && a.statement.CreateRelation? && a.statement.parts == [p, d, t]
    requires SafeTable(ObjectRef(p, d, t)) && a.body.Some?
    ensures var k, n, j, s := ObjectRef(p, d, t), PhysicalName(p + "__" + d, t), RunJob(w, a), a.statement;
            && j.result == (if DatasetRef(p, d) !in w.catalog.datasets then EngineError
                            else if k !in w.catalog.tables then Reported(CreateOp)
                            else if s.mode == IfNotExists then Reported(SkipOp)
                            else if s.mode == OrReplace && n in w.engine.relations && w.engine.relations[n].kind == s.kind then Reported(ReplaceOp)
                            else EngineError)
            && (j.result.Reported? ==> j.world.catalog == w.catalog.(tables := w.catalog.tables[k := Entry(k, a.body.value)]) && n in j.world.engine.relations)
            && (j.result in {Reported(CreateOp), Reported(ReplaceOp)} ==>
                  j.world.engine == w.engine.(relations := w.engine.relations[n := Relation(s.kind, a.stamp)]))
            && (j.result == Reported(SkipOp) ==> j.world.engine == w.engine)
            && (!j.result.Reported? ==> j.world == w)
  {
    var k := ObjectRef(p, d, t);
    NameExactly(p, d, t);
    assert RelationTarget(a.statement.parts, a.project) == Some(k) && k.Dataset() == DatasetRef(p, d);
    assert k in w.catalog.tables <==> NameOf(k) in w.engine.relations;
  }

  /** DROP TABLE or VIEW of `p.d.t`. */
  lemma DropAnswers(u: set<DatasetRef>, w: World, a: Attempt, p: string, d: string, t: string)
    requires Ordinary(u, w, a) && a.statement.DropRelation? && a.statement.parts == [p, d, t]
    ensures var k, n, j, s := ObjectRef(p, d, t), PhysicalName(p + "__" + d, t), RunJob(w, a), a.statement;
            && j.result == (if k !in w.catalog.tables then (if s.ifExists then Reported(SkipOp) else EngineError)
                            else if n in w.engine.relations && w.engine.relations[n].kind == s.kind then Reported(DropOp)
                            else EngineError)
            && (j.result.Reported? ==>
                  && j.world.catalog == w.catalog.(tables := w.catalog.tables - {k}, views := w.catalog.views - {k}, snapshots := j.world.catalog.snapshots)
                  && j.world.engine == w.engine.(relations := w.engine.relations - {n}))
            && (!j.result.Reported? ==> j.world == w)
  {
    var k := ObjectRef(p, d, t);
    NameExactly(p, d, t);
    assert RelationTarget(a.statement.parts, a.project) == Some(k) && k.Dataset() == DatasetRef(p, d);
    assert k in w.catalog.tables <==> NameOf(k) in w.engine.relations;
  }

  /** A reported drop takes the table's automatic snapshots with it and leaves users' snapshots and those of other tables. */
  lemma DropSparesSnapshots(w: World, a: Attempt, p: string, d: string, t: string, i: string)
    requires a.statement.DropRelation? && a.statement.parts == [p, d, t] && RunJob(w, a).result.Reported? && i in w.catalog.snapshots
    ensures var after, s := RunJob(w, a).world.catalog.snapshots, w.catalog.snapshots[i];
            if s.source == ObjectRef(p, d, t) && s.kind == Auto then i !in after else i in after && after[i] == s
  {
  }

  /** CREATE SCHEMA and DROP SCHEMA of `p.d`. */
  lemma SchemaAnswers(u: set<DatasetRef>, w: World, a: Attempt, p: string, d: string)
    requires Ordinary(u, w, a) && (a.statement.CreateSchema? || a.statement.DropSchema?) && a.statement.parts == [p, d] && d != ""
    ensures var ds, j, s := DatasetRef(p, d), RunJob(w, a), a.statement;
            var listed := ds in w.catalog.datasets;
            && (s.CreateSchema? ==>
                  && j.result == (if !listed then Reported(CreateOp) else if s.ifNotExists then Reported(SkipOp) else EngineError)
                  && (j.result == Reported(CreateOp) ==>
                        && j.world.catalog == w.catalog.(datasets := w.catalog.datasets[ds := DatasetMeta(ds, [], map[])])
                        && j.world.engine == w.engine.(schemas := w.engine.schemas + {p + "__" + d}))
                  && (j.result != Reported(CreateOp) ==> j.world == w))
            && (s.DropSchema? ==>
                  && j.result == (if !listed then (if s.ifExists then Reported(SkipOp) else EngineError)
                                  else if s.cascade then Reported(DropOp)
                                  else if HasIn(w.catalog.tables, ds) || HasIn(w.catalog.routines, ds) then ResourceInUse
                                  else if HasIn(w.catalog.models, ds) then SyncError
                                  else Reported(DropOp))
                  && (j.result == Reported(DropOp) ==>
                        && NoTrace(j.world.catalog, ds) && AgreeOutside(w.catalog, j.world.catalog, ds)
                        && j.world.engine.schemas == w.engine.schemas - {p + "__" + d}
                        && forall n :: n in j.world.engine.relations <==> n in w.engine.relations && n.schema != p + "__" + d))
  {
    NameExactly(p, d, "");
    var ds := DatasetRef(p, d);
    assert SchemaTarget(a.statement.parts, a.project) == Some(ds);
    SameEmptiness(u, w, ds);
    if a.statement.DropSchema? { DeleteDatasetIsExact(w.catalog, ds, true, a.statement.cascade); }
  }

  /** Whatever the storage holds, a reported CREATE or DROP is named from the catalog before it. */
  lemma ReportedFromCatalog(w: World, a: Attempt, p: string, d: string, t: string)
    requires (a.statement.CreateRelation? || a.statement.DropRelation?) && a.statement.parts == [p, d, t] && RunJob(w, a).result.Reported?
    ensures var op, s, listed := RunJob(w, a).result.op, a.statement, ObjectRef(p, d, t) in w.catalog.tables;
            op == (if s.DropRelation? then (if s.ifExists && !listed then SkipOp else DropOp)
                   else if !listed || s.mode == Plain then CreateOp
                   else if s.mode == OrReplace then ReplaceOp else SkipOp)
  {
  }

  /** A bare DROP SCHEMA changes nothing while the engine holds relations there, even ones the catalog does not list. */
  lemma RelationsBlockDrop(w: World, a: Attempt, p: string, d: string, t: string)
    requires a.statement.DropSchema? && !a.statement.cascade && a.statement.parts == [p, d]
    requires !Reserved(DatasetRef(p, d)) && p + "__" + d in w.engine.schemas && PhysicalName(p + "__" + d, t) in w.engine.relations
    ensures RunJob(w, a).world == w && RunJob(w, a).result in {ResourceInUse, EngineError}
  {
    NameExactly(p, d, t);
    assert SchemaTarget(a.statement.parts, a.project) == Some(DatasetRef(p, d));
    assert SchemaInUse(w.engine, SchemaName(DatasetRef(p, d)));
  }

  /** CREATE SCHEMA with an empty dataset id registers nothing and touches no storage. */
  lemma EmptyIdCreatesNothing(w: World, a: Attempt, p: string)
    requires a.statement.CreateSchema? && a.statement.parts == [p, ""]
    ensures RunJob(w, a).world == w
  {
  }

  // ---- Where it stops holding ----

  /** The guard passes, the schema is dropped, and the catalog keeps the dataset: the failing family is not empty. */
  lemma ModelsStrand(u: set<DatasetRef>, w: World, d: DatasetRef)
    requires Agree(u, w) && d in w.catalog.datasets
    requires !HasIn(w.catalog.tables, d) && !HasIn(w.catalog.routines, d) && HasIn(w.catalog.models, d) && !Reserved(d)
    ensures var a := Attempt(DropSchema([d.project, d.dataset], false, false), "", 0, None, false);
            var j := RunJob(w, a);
            && ResolveOperation(w.catalog, a.statement, a.project) == DropOp
            && j.result == SyncError && d in j.world.catalog.datasets && SchemaName(d) !in j.world.engine.schemas
  {
    SameEmptiness(u, w, d);
  }

  /** While two datasets share one physical schema, creating one of them makes the other's schema exist. */
  lemma SharedSchemaCollides(u: set<DatasetRef>, w: World, d: DatasetRef, a: Attempt)
    requires Agree(u, w) && d in u && Shared(u, d) && d !in w.catalog.datasets && !Reserved(d)
    requires a.statement == CreateSchema([d.project, d.dataset], false) && d.dataset != "" && !a.fails
    ensures RunJob(w, a).result == Reported(CreateOp) && !Agree(u, RunJob(w, a).world)
  {
    assert SchemaName(d) !in w.engine.schemas;
    AgreementExactly(u, w, a);
  }

  /** A table named `a b` in an existing dataset: the engine makes it, reading it back is refused, and the catalog never lists it. */
  lemma UnquotableTableIsUnlisted(u: set<DatasetRef>, w: World, d: DatasetRef, a: Attempt)
    requires Agree(u, w) && d in w.catalog.datasets && !Reserved(d)
    requires ObjectRef(d.project, d.dataset, "a b") !in w.catalog.tables
    requires a.statement == CreateRelation([d.project, d.dataset, "a b"], TableKind, Plain) && !a.fails
    ensures var k, j := ObjectRef(d.project, d.dataset, "a b"), RunJob(w, a);
            && ResolveOperation(w.catalog, a.statement, a.project) == CreateOp
            && j.result == SyncError && NameOf(k) in j.world.engine.relations && k !in j.world.catalog.tables && !Agree(u, j.world)
  {
    var k := ObjectRef(d.project, d.dataset, "a b");
    assert k.Dataset() == d;
    assert !SafeId(k.name) by { assert k.name[1] == ' '; }
    AgreementExactly(u, w, a);
  }

  lemma ReservedTarget(name: string, project: string)
    requires '.' !in name
    ensures SchemaTarget([name], project) == Some(DatasetRef(project, name))
  {
    SplitWithoutDots(name);
  }

  lemma ReservedNamesHaveNoDots(name: string)
    requires name == "_bqemulator_catalog" || name == "_bqemulator_snapshots"
    ensures '.' !in name && name != ""
  {
    assert forall i :: 0 <= i < |name| ==> name[i] != '.';
  }

  /** CREATE SCHEMA IF NOT EXISTS of a reserved name is skipped by the engine, reported as CREATE, and registers a dataset without a schema. */
  lemma ReservedSchemaIsRegistered(u: set<DatasetRef>, w: World, a: Attempt, name: string)
    requires name == "_bqemulator_catalog" || name == "_bqemulator_snapshots"
    requires Agree(u, w) && DatasetRef(a.project, name) in u && DatasetRef(a.project, name) !in w.catalog.datasets
    requires a.statement == CreateSchema([name], true) && !a.fails
    ensures RunJob(w, a).result == Reported(CreateOp) && RunJob(w, a).world.engine == w.engine && !Agree(u, RunJob(w, a).world)
  {
    ReservedNamesHaveNoDots(name);
    ReservedTarget(name, a.project);
    AgreementExactly(u, w, a);
  }

  // ---- The sync calls on the live catalog ----

  method EnsureDataset(catalog: MemoryCatalogRepository, d: DatasetRef)
    modifies catalog
    ensures catalog.State() == EnsuredDataset(old(catalog.State()), d)
  {
    if d in catalog.datasets { return; }
    var _ := catalog.CreateDataset(DatasetMeta(d, [], map[]));
  }

  /** `engine` and `body` stand for reading the created relation back, which raises before the entry is written. */
  method SyncCreatedRelation(catalog: MemoryCatalogRepository, engine: Engine, parts: seq<string>, project: string, body: Option<TableBody>)
    returns (ok: bool)
    modifies catalog
    ensures Synced(catalog.State(), ok) == Sync(old(catalog.State()), engine, CreateRelation(parts, TableKind, Plain), project, body)
  {
    var target := RelationTarget(parts, project);
    if target.None? { return true; }
    var k := target.value;
    if k.Dataset() !in catalog.datasets { EnsureDataset(catalog, k.Dataset()); }
    if !SafeTable(k) { return false; }
    if NameOf(k) !in engine.relations || body.None? { return false; }
    var t, r := Entry(k, body.value), Done;
    if k in catalog.tables {
      r := catalog.UpdateTable(t);
    } else {
      r := catalog.CreateTable(t);
    }
    ok := r == Done;
  }

  method SyncCreatedSchema(catalog: MemoryCatalogRepository, ghost engine: Engine, parts: seq<string>, project: string)
    modifies catalog
    ensures Synced(catalog.State(), true) == Sync(old(catalog.State()), engine, CreateSchema(parts, false), project, None)
  {
    var d := NewSchema(parts, project);
    if d.Some? { EnsureDataset(catalog, d.value); }
  }

  /** Every snapshot of the table that is not a user's. */
  method DropAutoSnapshots(catalog: MemoryCatalogRepository, k: ObjectRef)
    modifies catalog`snapshots
    ensures catalog.snapshots == WithoutAutoSnapshots(old(catalog.snapshots), k)
  {
    var all := catalog.snapshots;
    var todo := all.Keys;
    while todo != {}
      invariant todo <= all.Keys
      invariant catalog.snapshots == map i | i in all && (i in todo || !(all[i].source == k && all[i].kind.Auto?)) :: all[i]
      decreases todo
    {
      var i :| i in todo;
      todo := todo - {i};
      if all[i].source == k && all[i].kind.Auto? { var _ := catalog.DeleteSnapshot(i, true); }
    }
  }

  method SyncDroppedRelation(catalog: MemoryCatalogRepository, ghost engine: Engine, parts: seq<string>, project: string)
    modifies catalog
    ensures Synced(catalog.State(), true) == Sync(old(catalog.State()), engine, DropRelation(parts, TableKind, true), project, None)
  {
    var k := RelationTarget(parts, project);
    if k.None? { return; }
    var _ := catalog.DeleteTable(k.value, true);
    DropAutoSnapshots(catalog, k.value);
    var _ := catalog.DeleteView(k.value, true);
    assert old(catalog.tables) - {k.value} == catalog.tables && old(catalog.views) - {k.value} == catalog.views;
  }

  method SyncDroppedSchema(catalog: MemoryCatalogRepository, ghost engine: Engine, parts: seq<string>, project: string, cascade: bool)
    returns (ok: bool)
    modifies catalog
    ensures Synced(catalog.State(), ok) == Sync(old(catalog.State()), engine, DropSchema(parts, true, cascade), project, None)
  {
    var d := SchemaTarget(parts, project);
    if d.None? { return true; }
    var r := catalog.DeleteDataset(d.value, true, cascade);
    ok := r == Done;
  }

  /** The four sync calls in a row, of which at most one applies. */
  method SyncStatement(catalog: MemoryCatalogRepository, engine: Engine, s: Statement, project: string, body: Option<TableBody>)
    returns (ok: bool)
    modifies catalog
    ensures Synced(catalog.State(), ok) == Sync(old(catalog.State()), engine, s, project, body)
  {
    ok := true;
    if s.CreateSchema? { SyncCreatedSchema(catalog, engine, s.parts, project); }
    if s.CreateRelation? { ok := SyncCreatedRelation(catalog, engine, s.parts, project, body); }
    if s.DropRelation? { SyncDroppedRelation(catalog, engine, s.parts, project); }
    if s.DropSchema? { ok := SyncDroppedSchema(catalog, engine, s.parts, project, s.cascade); }
  }
}
