/**
 Export and seed: a data directory is written out as a tree of files, one for each dataset, table
 and routine and one with the rows of each stored table, and a tree is loaded into a data directory.

 Files are kept under the identity that their path spells.  The JSON form of an entry stands for the
 entry, and a COPY of a table for its rows in order.
 */
module SeedModel {
  import opened Basics
  import opened CatalogModel
  import opened MapSum
  import DoubledSeparator

  /** A table of the storage engine: `"{project}__{dataset}"."{table}"`. */
  datatype PhysicalName = PhysicalName(schema: string, table: string)

  type Storage = map<PhysicalName, seq<Row>>

  datatype DataDir = DataDir(catalog: Catalog, schemas: set<string>, storage: Storage)

  const EMPTY_DIR: DataDir := DataDir(EMPTY, {}, map[])

  function SchemaName(d: DatasetRef): string { DoubledSeparator.Join([d.project, d.dataset], '_') }
  function NameOf(k: ObjectRef): PhysicalName { PhysicalName(SchemaName(k.Dataset()), k.name) }

  predicate WordChar(c: char) { 'a' <= c <= 'z' || 'A' <= c <= 'Z' || '0' <= c <= '9' || c == '_' }

  predicate PlainId(s: string) {
    1 <= |s| <= 255 && WordChar(s[0]) && forall i :: 1 <= i < |s| ==> WordChar(s[i]) || s[i] == '-'
  }

  /** The identifiers let through to SQL; the pattern's `$` also matches before one final newline. */
  predicate SafeId(s: string) {
    PlainId(s) || (|s| > 0 && s[|s| - 1] == '\n' && PlainId(s[..|s| - 1]))
  }

  predicate SafeDataset(d: DatasetRef) { SafeId(d.project) && SafeId(d.dataset) }
  predicate SafeTable(k: ObjectRef) { SafeId(k.name) && SafeDataset(k.Dataset()) }

  predicate Letter(c: char) { 'a' <= c <= 'z' || 'A' <= c <= 'Z' }

  /** Letters, digits, underscores and, after the first, hyphens: up to 255 of them are safe. */
  lemma OrdinaryIdsAreSafe(s: string)
    requires 1 <= |s| <= 255 && s[0] != '-'
    requires forall i :: 0 <= i < |s| ==> Letter(s[i]) || '0' <= s[i] <= '9' || s[i] in {'_', '-'}
    ensures SafeId(s)
  {
  }

  /** Empty ids, longer ones, a hyphen in front, and any other character but one final newline are not. */
  lemma OtherIdsAreNotSafe(s: string)
    ensures s == "" || |s| > 256 || (|s| == 256 && s[255] != '\n') || s[0] == '-' ==> !SafeId(s)
    ensures (exists i :: 0 <= i < |s| && !Letter(s[i]) && !('0' <= s[i] <= '9') && s[i] !in {'_', '-', '\n'}) ==> !SafeId(s)
    ensures (exists i :: 0 <= i < |s| - 1 && s[i] == '\n') ==> !SafeId(s)
  {
  }

  /** The physical name of a table: `{project}__{dataset}`, and the table id as it is. */
  lemma NameExactly(project: string, dataset: string, table: string)
    ensures SchemaName(DatasetRef(project, dataset)) == project + "__" + dataset
    ensures NameOf(ObjectRef(project, dataset, table)) == PhysicalName(project + "__" + dataset, table)
  {
    assert DoubledSeparator.Join([project, dataset][1..], '_') == dataset;
  }

  /** Only plain tables and clones have rows of their own. */
  predicate Stored(t: TableMeta) { t.body.tableType.Table? || t.body.tableType.Clone? }

  /** A table file and the rows file beside it, which may be missing. */
  datatype TableFile = TableFile(meta: TableMeta, rows: Option<seq<Row>>)

  datatype Tree = Tree(
    datasets: map<DatasetRef, DatasetMeta>, tables: map<ObjectRef, TableFile>, routines: map<ObjectRef, RoutineMeta>)

  const NO_FILES: Tree := Tree(map[], map[], map[])

  datatype Summary = Summary(datasets: nat, tables: nat, routines: nat, rows: nat)

  const NOTHING: Summary := Summary(0, 0, 0, 0)

  function RowsAt(s: Storage, n: PhysicalName): seq<Row> { if n in s then s[n] else [] }

  // ---- Export ----

  /** A table the storage engine does not know gets no rows file. */
  function FileOf(t: TableMeta, s: Storage): TableFile {
    TableFile(t, if Stored(t) && NameOf(t.ref) in s then Some(s[NameOf(t.ref)]) else None)
  }

  function TreeOf(d: DataDir): Tree {
    Tree(d.catalog.datasets, map k | k in d.catalog.tables :: FileOf(d.catalog.tables[k], d.storage), d.catalog.routines)
  }

  function FileRows(f: TableFile): seq<Row> { if Stored(f.meta) && f.rows.Some? then f.rows.value else [] }

  ghost function RowCounts(tables: map<ObjectRef, TableFile>): map<ObjectRef, nat> {
    map k | k in tables :: |FileRows(tables[k])|
  }

  ghost function ExportSummary(t: Tree): Summary {
    Summary(|t.datasets|, |t.tables|, |t.routines|, Sum(RowCounts(t.tables)))
  }

  /** A rows file is written exactly for a stored table that the engine knows, with its rows, none left out. */
  lemma FileExactly(t: TableMeta, s: Storage)
    ensures var f, known := FileOf(t, s), t.body.tableType in {Table, Clone} && NameOf(t.ref) in s;
            f.meta == t && f.rows == if known then Some(s[NameOf(t.ref)]) else None
  {
  }

  // ---- Seed ----

  datatype Step = SeedDataset(ds: DatasetMeta) | SeedTable(file: TableFile) | SeedRoutine(routine: RoutineMeta)

  datatype Progress = Progress(dir: DataDir, summary: Summary, failed: bool)

  function DatasetSeeded(p: Progress, m: DatasetMeta): Progress {
    var c := p.dir.catalog;
    if !SafeDataset(m.ref) then p.(failed := true)
    else
      var op := if m.ref in c.datasets then UpdateDataset(m) else CreateDataset(m);
      Progress(p.dir.(schemas := p.dir.schemas + {SchemaName(m.ref)}, catalog := ApplyDataset(c, op).value),
               p.summary.(datasets := p.summary.datasets + 1), false)
  }

  /** CREATE TABLE IF NOT EXISTS. */
  function Ensured(s: Storage, n: PhysicalName): Storage { if n in s then s else s[n := []] }

  predicate Loads(f: TableFile) { Stored(f.meta) && f.rows.Some? && f.rows.value != [] }

  function Created(s: Storage, f: TableFile): Storage { if Stored(f.meta) then Ensured(s, NameOf(f.meta.ref)) else s }

  function Copied(s: Storage, f: TableFile): Storage {
    if Loads(f) then s[NameOf(f.meta.ref) := RowsAt(s, NameOf(f.meta.ref)) + f.rows.value] else s
  }

  /** The count that is reported for a file: the size of the whole table after the copy. */
  function CountAfter(s: Storage, f: TableFile): nat { if Loads(f) then |RowsAt(s, NameOf(f.meta.ref))| else 0 }

  /** The name passes validation, and CREATE TABLE finds its schema. */
  predicate Creatable(schemas: set<string>, f: TableFile) {
    SafeTable(f.meta.ref) && (Stored(f.meta) ==> SchemaName(f.meta.ref.Dataset()) in schemas)
  }

  function Registered(c: Catalog, t: TableMeta): Change<map<ObjectRef, TableMeta>> {
    ApplyChild(c.tables, c.datasets.Keys, if t.ref in c.tables then Update(t) else Create(t))
  }

  function TableSeeded(p: Progress, f: TableFile): Progress {
    if !Creatable(p.dir.schemas, f) then p.(failed := true)
    else
      var s := Created(p.dir.storage, f);
      var r := Registered(p.dir.catalog, f.meta);
      if r.outcome != Done then Progress(p.dir.(storage := s), p.summary, true)
      else
        var s' := Copied(s, f);
        Progress(p.dir.(storage := s', catalog := p.dir.catalog.(tables := r.value)),
                 p.summary.(tables := p.summary.tables + 1, rows := p.summary.rows + CountAfter(s', f)), false)
  }

  /** Create, and on any domain error update. */
  function RoutineSeeded(p: Progress, m: RoutineMeta): Progress {
    var c := p.dir.catalog;
    var r1 := ApplyChild(c.routines, c.datasets.Keys, Create(m));
    var r := if r1.outcome == Done then r1 else ApplyChild(c.routines, c.datasets.Keys, Update(m));
    if r.outcome != Done then p.(failed := true)
    else Progress(p.dir.(catalog := c.(routines := r.value)), p.summary.(routines := p.summary.routines + 1), false)
  }

  function SeedOne(p: Progress, s: Step): Progress {
    if p.failed then p
    else
      match s
      case SeedDataset(m) => DatasetSeeded(p, m)
      case SeedTable(f) => TableSeeded(p, f)
      case SeedRoutine(m) => RoutineSeeded(p, m)
  }

  function SeedAll(p: Progress, steps: seq<Step>): Progress {
    if steps == [] then p else SeedOne(SeedAll(p, steps[..|steps| - 1]), steps[|steps| - 1])
  }

  function Begin(d: DataDir): Progress { Progress(d, NOTHING, false) }

  // ---- The order in which a tree is walked ----

  function Grown(t: Tree, s: Step): Tree {
    match s
    case SeedDataset(m) => t.(datasets := t.datasets[m.ref := m])
    case SeedTable(f) => t.(tables := t.tables[f.meta.ref := f])
    case SeedRoutine(m) => t.(routines := t.routines[m.ref := m])
  }

  /** The files met so far. */
  function Met(steps: seq<Step>): Tree {
    if steps == [] then NO_FILES else Grown(Met(steps[..|steps| - 1]), steps[|steps| - 1])
  }

  /** The file is new, and its dataset has been met. */
  predicate Fits(t: Tree, s: Step) {
    match s
    case SeedDataset(m) => m.ref !in t.datasets
    case SeedTable(f) => f.meta.ref !in t.tables && f.meta.ref.Dataset() in t.datasets
    case SeedRoutine(m) => m.ref !in t.routines && m.ref.Dataset() in t.datasets
  }

  /** `steps` walks `t`: every file once, in any order that visits a dataset before what is in it. */
  ghost predicate Walks(steps: seq<Step>, t: Tree) {
    Met(steps) == t && forall i :: 0 <= i < |steps| ==> Fits(Met(steps[..i]), steps[i])
  }

  // ---- What seeding a tree leaves ----

  function Metas(tables: map<ObjectRef, TableFile>): map<ObjectRef, TableMeta> { map k | k in tables :: tables[k].meta }

  ghost predicate FilesKeyed(tables: map<ObjectRef, TableFile>) { forall k :: k in tables ==> tables[k].meta.ref == k }

  ghost predicate AllSafe(t: Tree) {
    (forall k :: k in t.datasets ==> SafeDataset(k)) && (forall k :: k in t.tables ==> SafeTable(k))
  }

  ghost predicate CatalogAfter(c: Catalog, t: Tree, c': Catalog) {
    c' == c.(datasets := c.datasets + t.datasets, tables := c.tables + Metas(t.tables), routines := c.routines + t.routines)
  }

  /** The schemas of the datasets, and no others, have joined those before. */
  ghost predicate SchemasAfter(before: set<string>, datasets: map<DatasetRef, DatasetMeta>, schemas: set<string>) {
    && before <= schemas
    && (forall k :: k in datasets ==> SchemaName(k) in schemas)
    && (forall s :: s in schemas && s !in before ==> exists k :: k in datasets && SchemaName(k) == s)
  }

  /** Entries of the tree replace or join the old ones, and the counters count its files. */
  ghost predicate EntriesSeeded(d: DataDir, t: Tree, p: Progress) {
    && !p.failed
    && CatalogAfter(d.catalog, t, p.dir.catalog)
    && SchemasAfter(d.schemas, t.datasets, p.dir.schemas)
    && p.summary.datasets == |t.datasets| && p.summary.tables == |t.tables| && p.summary.routines == |t.routines|
  }

  lemma UnionPut<K, V>(a: map<K, V>, b: map<K, V>, k: K, v: V)
    ensures a + b[k := v] == (a + b)[k := v]
  {
  }

  lemma MetasPut(tables: map<ObjectRef, TableFile>, k: ObjectRef, f: TableFile)
    ensures Metas(tables[k := f]) == Metas(tables)[k := f.meta]
  {
  }

  lemma DatasetAccepted(c: Catalog, p: Progress, m: DatasetMeta)
    requires p.dir.catalog == c && SafeDataset(m.ref)
    ensures DatasetSeeded(p, m) ==
            Progress(p.dir.(schemas := p.dir.schemas + {SchemaName(m.ref)}, catalog := c.(datasets := c.datasets[m.ref := m])),
                     p.summary.(datasets := p.summary.datasets + 1), false)
  {
  }

  lemma SchemasPut(before: set<string>, datasets: map<DatasetRef, DatasetMeta>, schemas: set<string>, k: DatasetRef, m: DatasetMeta)
    requires SchemasAfter(before, datasets, schemas)
    ensures SchemasAfter(before, datasets[k := m], schemas + {SchemaName(k)})
  {
    var more := datasets[k := m];
    forall s | s in schemas + {SchemaName(k)} && s !in before
      ensures exists j :: j in more && SchemaName(j) == s
    {
      if s in schemas {
        var j :| j in datasets && SchemaName(j) == s;
        assert j in more;
      } else {
        assert k in more;
      }
    }
  }

  lemma DatasetStep(d: DataDir, t: Tree, p: Progress, m: DatasetMeta)
    requires EntriesSeeded(d, t, p) && m.ref !in t.datasets && SafeDataset(m.ref)
    ensures EntriesSeeded(d, Grown(t, SeedDataset(m)), DatasetSeeded(p, m))
  {
    DatasetAccepted(p.dir.catalog, p, m);
    UnionPut(d.catalog.datasets, t.datasets, m.ref, m);
    SchemasPut(d.schemas, t.datasets, p.dir.schemas, m.ref, m);
  }

  lemma RoutineRegistered(c: Catalog, p: Progress, m: RoutineMeta)
    requires p.dir.catalog == c && m.ref.Dataset() in c.datasets
    ensures RoutineSeeded(p, m) ==
            Progress(p.dir.(catalog := c.(routines := c.routines[m.ref := m])), p.summary.(routines := p.summary.routines + 1), false)
  {
  }

  lemma RoutineStep(d: DataDir, t: Tree, p: Progress, m: RoutineMeta)
    requires EntriesSeeded(d, t, p) && m.ref !in t.routines && m.ref.Dataset() in t.datasets
    ensures EntriesSeeded(d, Grown(t, SeedRoutine(m)), RoutineSeeded(p, m))
  {
    RoutineRegistered(p.dir.catalog, p, m);
    UnionPut(d.catalog.routines, t.routines, m.ref, m);
  }

  lemma TableAccepted(p: Progress, f: TableFile)
    requires Creatable(p.dir.schemas, f) && f.meta.ref.Dataset() in p.dir.catalog.datasets
    ensures var s := Copied(Created(p.dir.storage, f), f);
            var c := p.dir.catalog;
            TableSeeded(p, f) ==
            Progress(p.dir.(storage := s, catalog := c.(tables := c.tables[f.meta.ref := f.meta])),
                     p.summary.(tables := p.summary.tables + 1, rows := p.summary.rows + CountAfter(s, f)), false)
  {
  }

  /**
   A table file is refused for its name, for a missing schema or for a missing dataset.  Only the last comes after
   CREATE TABLE, so it leaves an empty table behind; the catalog and the counters never see a refused file.
   */
  lemma TableRefusedExactly(p: Progress, f: TableFile)
    ensures var q, k, c, s := TableSeeded(p, f), f.meta.ref, p.dir.catalog, p.dir.storage;
            var stored, n := f.meta.body.tableType in {Table, Clone}, PhysicalName(k.project + "__" + k.dataset, k.name);
            var made := SafeTable(k) && (stored ==> n.schema in p.dir.schemas);
            && (q.failed <==> !made || (k !in c.tables && DatasetRef(k.project, k.dataset) !in c.datasets))
            && (q.failed ==> q.summary == p.summary)
            && (q.failed ==> q.dir == p.dir.(storage := if made && stored && n !in s then s[n := []] else s))
  {
    NameExactly(f.meta.ref.project, f.meta.ref.dataset, f.meta.ref.name);
  }

  lemma TableStep(d: DataDir, t: Tree, p: Progress, f: TableFile)
    requires EntriesSeeded(d, t, p) && Fits(t, SeedTable(f)) && SafeTable(f.meta.ref)
    ensures EntriesSeeded(d, Grown(t, SeedTable(f)), TableSeeded(p, f))
  {
    TableAccepted(p, f);
    MetasPut(t.tables, f.meta.ref, f);
    UnionPut(d.catalog.tables, Metas(t.tables), f.meta.ref, f.meta);
  }

  predicate SafeStep(s: Step) {
    match s
    case SeedDataset(m) => SafeDataset(m.ref)
    case SeedTable(f) => SafeTable(f.meta.ref)
    case SeedRoutine(_) => true
  }

  lemma EntriesStep(d: DataDir, t: Tree, p: Progress, s: Step)
    requires EntriesSeeded(d, t, p) && Fits(t, s) && SafeStep(s)
    ensures EntriesSeeded(d, Grown(t, s), SeedOne(p, s))
  {
    match s
    case SeedDataset(m) => DatasetStep(d, t, p, m);
    case SeedTable(f) => TableStep(d, t, p, f);
    case SeedRoutine(m) => RoutineStep(d, t, p, m);
  }

  lemma UnsafeFails(p: Progress, s: Step)
    requires !SafeStep(s)
    ensures SeedOne(p, s).failed
  {
  }

  lemma SafeGrows(t: Tree, s: Step)
    requires Fits(t, s)
    ensures AllSafe(Grown(t, s)) <==> AllSafe(t) && SafeStep(s)
  {
    var g := Grown(t, s);
    assert forall k :: k in t.datasets ==> k in g.datasets;
    assert forall k :: k in t.tables ==> k in g.tables;
    if s.SeedDataset? { assert s.ds.ref in g.datasets; }
    if s.SeedTable? { assert s.file.meta.ref in g.tables; }
  }

  /** A walk cut short is a walk of what it has met. */
  lemma WalkPrefix(steps: seq<Step>, t: Tree)
    requires Walks(steps, t) && steps != []
    ensures var init := steps[..|steps| - 1];
            Walks(init, Met(init)) && Fits(Met(init), steps[|steps| - 1]) && t == Grown(Met(init), steps[|steps| - 1])
  {
    var init := steps[..|steps| - 1];
    assert forall i :: 0 <= i < |init| ==> init[..i] == steps[..i] && init[i] == steps[i];
  }

  lemma NothingSeeded(d: DataDir)
    ensures EntriesSeeded(d, NO_FILES, Begin(d))
  {
    assert Metas(map[]) == map[];
    assert CatalogAfter(d.catalog, NO_FILES, d.catalog) by {
      assert d.catalog.datasets + map[] == d.catalog.datasets && d.catalog.tables + map[] == d.catalog.tables;
      assert d.catalog.routines + map[] == d.catalog.routines;
    }
  }

  /**
   Seeding any tree into any data directory, in any order of the walk, raises exactly when a project, dataset
   or table id is not one that SQL may see; otherwise the catalog is the old one overlaid with the tree.
   */
  lemma {:induction false} SeedEntries(d: DataDir, t: Tree, steps: seq<Step>)
    requires Walks(steps, t)
    ensures var p := SeedAll(Begin(d), steps);
            (p.failed <==> !AllSafe(t)) && (AllSafe(t) ==> EntriesSeeded(d, t, p))
    decreases |steps|
  {
    if steps == [] {
      NothingSeeded(d);
    } else {
      var init, last := steps[..|steps| - 1], steps[|steps| - 1];
      var p := SeedAll(Begin(d), init);
      WalkPrefix(steps, t);
      SafeGrows(Met(init), last);
      SeedEntries(d, Met(init), init);
      if AllSafe(t) {
        EntriesStep(d, Met(init), p, last);
      } else if !SafeStep(last) {
        UnsafeFails(p, last);
      }
    }
  }
}
