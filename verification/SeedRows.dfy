/** What seeding a tree does to the rows of physical tables, and what it reports of them. */
module SeedRows {
  import opened Basics
  import opened CatalogModel
  import opened MapSum
  import opened SeedModel

  ghost predicate Named(tables: map<ObjectRef, TableFile>, n: PhysicalName) {
    exists k :: k in tables && Stored(tables[k].meta) && NameOf(k) == n
  }

  lemma NamedGrows(tables: map<ObjectRef, TableFile>, f: TableFile, n: PhysicalName)
    requires f.meta.ref !in tables
    ensures Named(tables[f.meta.ref := f], n) <==> Named(tables, n) || (Stored(f.meta) && n == NameOf(f.meta.ref))
  {
    var all := tables[f.meta.ref := f];
    assert all[f.meta.ref] == f;
    if Named(tables, n) {
      var k :| k in tables && Stored(tables[k].meta) && NameOf(k) == n;
      assert all[k] == tables[k];
    }
  }

  /** What the storage holds under each name once the file is copied. */
  lemma CopiedAt(s: Storage, f: TableFile, n: PhysicalName)
    ensures var s' := Copied(Created(s, f), f);
            && (n in s' <==> n in s || (Stored(f.meta) && n == NameOf(f.meta.ref)))
            && RowsAt(s', n) == RowsAt(s, n) + (if n == NameOf(f.meta.ref) then FileRows(f) else [])
  {
  }

  /** A step that goes through changes the storage only by copying its table file. */
  lemma StepStorage(p: Progress, s: Step)
    requires !SeedOne(p, s).failed
    ensures var p' := SeedOne(p, s);
            if s.SeedTable? then
              && p'.dir.storage == Copied(Created(p.dir.storage, s.file), s.file)
              && p'.summary.rows == p.summary.rows + CountAfter(p'.dir.storage, s.file)
            else p'.dir.storage == p.dir.storage && p'.summary.rows == p.summary.rows
  {
  }

  // ---- Every row arrives, shared names or not ----

  ghost function ShareOf(k: ObjectRef, f: TableFile, n: PhysicalName, r: Row): nat {
    if NameOf(k) == n then Occ(FileRows(f), r) else 0
  }

  /** How many copies of `r` each file sends to the physical table `n`. */
  ghost function Shares(tables: map<ObjectRef, TableFile>, n: PhysicalName, r: Row): map<ObjectRef, nat> {
    map k | k in tables :: ShareOf(k, tables[k], n, r)
  }

  lemma SharesPut(tables: map<ObjectRef, TableFile>, n: PhysicalName, r: Row, k: ObjectRef, f: TableFile)
    requires k !in tables
    ensures Sum(Shares(tables[k := f], n, r)) == Sum(Shares(tables, n, r)) + ShareOf(k, f, n, r)
  {
    assert Shares(tables[k := f], n, r) == Shares(tables, n, r)[k := ShareOf(k, f, n, r)];
    SumPut(Shares(tables, n, r), k, ShareOf(k, f, n, r));
  }

  lemma ShareStep(s: Storage, tables: map<ObjectRef, TableFile>, f: TableFile, n: PhysicalName, r: Row)
    requires f.meta.ref !in tables
    ensures Occ(RowsAt(Copied(Created(s, f), f), n), r) + Sum(Shares(tables, n, r))
         == Occ(RowsAt(s, n), r) + Sum(Shares(tables[f.meta.ref := f], n, r))
  {
    CopiedAt(s, f, n);
    OccConcat(RowsAt(s, n), if n == NameOf(f.meta.ref) then FileRows(f) else [], r);
    SharesPut(tables, n, r, f.meta.ref, f);
  }

  /**
   After seeding, every physical table has, row by row, what it had and what every file that names it sends;
   and the tables that exist are the old ones and those that stored files name.
   */
  lemma {:induction false} SeedConserves(d: DataDir, t: Tree, steps: seq<Step>, n: PhysicalName, r: Row)
    requires Walks(steps, t) && AllSafe(t)
    ensures var s := SeedAll(Begin(d), steps).dir.storage;
            && Occ(RowsAt(s, n), r) == Occ(RowsAt(d.storage, n), r) + Sum(Shares(t.tables, n, r))
            && (n in s <==> n in d.storage || Named(t.tables, n))
    decreases |steps|
  {
    if steps == [] {
      assert Shares(map[], n, r) == map[];
    } else {
      var init, last := steps[..|steps| - 1], steps[|steps| - 1];
      var p := SeedAll(Begin(d), init);
      WalkPrefix(steps, t);
      SafeGrows(Met(init), last);
      SeedConserves(d, Met(init), init, n, r);
      SeedEntries(d, t, steps);
      StepStorage(p, last);
      if last.SeedTable? {
        ShareStep(p.dir.storage, Met(init).tables, last.file, n, r);
        CopiedAt(p.dir.storage, last.file, n);
        NamedGrows(Met(init).tables, last.file, n);
      }
    }
  }

  // ---- Table by table, in order ----

  /** Each stored table of the tree has its old rows followed by those of its file; nothing else is touched. */
  ghost predicate RowsAdded(s: Storage, tables: map<ObjectRef, TableFile>, s': Storage) {
    && s.Keys <= s'.Keys
    && (forall k :: k in tables && Stored(tables[k].meta) ==> NameOf(k) in s' && s'[NameOf(k)] == RowsAt(s, NameOf(k)) + FileRows(tables[k]))
    && (forall n :: n in s' && !Named(tables, n) ==> n in s && s'[n] == s[n])
  }

  /** No rows file competes with another table for one physical table. */
  ghost predicate Apart(tables: map<ObjectRef, TableFile>) {
    forall k, l :: k in tables && l in tables && k != l && Stored(tables[k].meta) && Stored(tables[l].meta) && NameOf(k) == NameOf(l)
      ==> FileRows(tables[k]) == []
  }

  /** Before its own file is met, a table that is apart from the rest still has its old rows. */
  lemma Untouched(s: Storage, tables: map<ObjectRef, TableFile>, s': Storage, f: TableFile)
    requires RowsAdded(s, tables, s') && f.meta.ref !in tables && Stored(f.meta)
    requires Apart(tables[f.meta.ref := f])
    ensures RowsAt(s', NameOf(f.meta.ref)) == RowsAt(s, NameOf(f.meta.ref))
  {
    var n, all := NameOf(f.meta.ref), tables[f.meta.ref := f];
    if Named(tables, n) {
      var k :| k in tables && Stored(tables[k].meta) && NameOf(k) == n;
      assert all[k] == tables[k] && all[f.meta.ref] == f;
    }
  }

  lemma RowsStep(s: Storage, tables: map<ObjectRef, TableFile>, s': Storage, f: TableFile, k: ObjectRef)
    requires RowsAdded(s, tables, s') && f.meta.ref !in tables
    requires Apart(tables[f.meta.ref := f])
    requires var all := tables[f.meta.ref := f]; k in all && Stored(all[k].meta)
    ensures var after := Copied(Created(s', f), f);
            NameOf(k) in after && after[NameOf(k)] == RowsAt(s, NameOf(k)) + FileRows(tables[f.meta.ref := f][k])
  {
    var all := tables[f.meta.ref := f];
    CopiedAt(s', f, NameOf(k));
    if k == f.meta.ref {
      Untouched(s, tables, s', f);
    } else if NameOf(k) == NameOf(f.meta.ref) {
      assert FileRows(f) == [] by { assert all[f.meta.ref] == f && all[k] == tables[k]; }
    }
  }

  lemma StorageStep(s: Storage, tables: map<ObjectRef, TableFile>, s': Storage, f: TableFile)
    requires RowsAdded(s, tables, s') && f.meta.ref !in tables
    requires Apart(tables[f.meta.ref := f])
    ensures RowsAdded(s, tables[f.meta.ref := f], Copied(Created(s', f), f))
  {
    var all, after := tables[f.meta.ref := f], Copied(Created(s', f), f);
    forall k | k in all && Stored(all[k].meta)
      ensures NameOf(k) in after && after[NameOf(k)] == RowsAt(s, NameOf(k)) + FileRows(all[k])
    {
      RowsStep(s, tables, s', f, k);
    }
    forall n | n in after && !Named(all, n)
      ensures n in s && after[n] == s[n]
    {
      CopiedAt(s', f, n);
      NamedGrows(tables, f, n);
    }
    forall n | n in s
      ensures n in after
    {
      CopiedAt(s', f, n);
    }
  }

  lemma ApartBefore(tables: map<ObjectRef, TableFile>, k: ObjectRef, f: TableFile)
    requires Apart(tables[k := f]) && k !in tables
    ensures Apart(tables)
  {
    var all := tables[k := f];
    assert forall j :: j in tables ==> j in all && all[j] == tables[j];
  }

  lemma {:induction false} RowsAddedWhenApart(d: DataDir, t: Tree, steps: seq<Step>)
    requires Walks(steps, t) && AllSafe(t) && Apart(t.tables)
    ensures RowsAdded(d.storage, t.tables, SeedAll(Begin(d), steps).dir.storage)
    decreases |steps|
  {
    if steps != [] {
      var init, last := steps[..|steps| - 1], steps[|steps| - 1];
      var p := SeedAll(Begin(d), init);
      WalkPrefix(steps, t);
      SafeGrows(Met(init), last);
      if last.SeedTable? { ApartBefore(Met(init).tables, last.file.meta.ref, last.file); }
      RowsAddedWhenApart(d, Met(init), init);
      SeedEntries(d, t, steps);
      StepStorage(p, last);
      if last.SeedTable? { StorageStep(d.storage, Met(init).tables, p.dir.storage, last.file); }
    }
  }

  lemma TwoShares(shares: map<ObjectRef, nat>, k: ObjectRef, l: ObjectRef)
    requires k in shares && l in shares && k != l
    ensures Sum(shares) >= shares[k] + shares[l]
  {
    SumSplit(shares, k);
    SumSplit(shares - {k}, l);
  }

  /** Two files for one physical table: each finds the other's rows there as well. */
  lemma SharedAddsUp(d: DataDir, t: Tree, steps: seq<Step>, k: ObjectRef, l: ObjectRef, r: Row)
    requires Walks(steps, t) && AllSafe(t)
    requires k in t.tables && l in t.tables && k != l && NameOf(k) == NameOf(l)
    ensures Occ(RowsAt(SeedAll(Begin(d), steps).dir.storage, NameOf(k)), r)
         >= Occ(RowsAt(d.storage, NameOf(k)), r) + Occ(FileRows(t.tables[k]), r) + Occ(FileRows(t.tables[l]), r)
  {
    SeedConserves(d, t, steps, NameOf(k), r);
    TwoShares(Shares(t.tables, NameOf(k), r), k, l);
  }

  /**
   Seeding a tree gives every stored table exactly the rows of its own file after its old ones, and touches no
   other table, if and only if no file with rows shares its physical table with another one.
   */
  lemma SeedExact(d: DataDir, t: Tree, steps: seq<Step>)
    requires Walks(steps, t) && AllSafe(t)
    ensures RowsAdded(d.storage, t.tables, SeedAll(Begin(d), steps).dir.storage) <==> Apart(t.tables)
  {
    if Apart(t.tables) {
      RowsAddedWhenApart(d, t, steps);
    } else {
      var ts, s := t.tables, SeedAll(Begin(d), steps).dir.storage;
      var k, l :| k in ts && l in ts && k != l && Stored(ts[k].meta) && Stored(ts[l].meta) && NameOf(k) == NameOf(l) && FileRows(ts[k]) != [];
      var r := FileRows(ts[k])[|FileRows(ts[k])| - 1];
      OccOfLast(FileRows(ts[k]));
      SharedAddsUp(d, t, steps, k, l, r);
      OccConcat(RowsAt(d.storage, NameOf(l)), FileRows(ts[l]), r);
      assert RowsAt(s, NameOf(l)) != RowsAt(d.storage, NameOf(l)) + FileRows(ts[l]);
    }
  }

  // ---- The reported number of rows ----

  lemma {:induction false} EmptyExactly(d: DataDir, t: Tree, steps: seq<Step>, n: PhysicalName)
    requires Walks(steps, t) && AllSafe(t)
    ensures RowsAt(SeedAll(Begin(d), steps).dir.storage, n) == [] <==> RowsAt(d.storage, n) == [] && NothingFor(t.tables, n)
    decreases |steps|
  {
    if steps != [] {
      var init, last := steps[..|steps| - 1], steps[|steps| - 1];
      var p := SeedAll(Begin(d), init);
      WalkPrefix(steps, t);
      SafeGrows(Met(init), last);
      EmptyExactly(d, Met(init), init, n);
      SeedEntries(d, t, steps);
      StepStorage(p, last);
      if last.SeedTable? {
        CopiedAt(p.dir.storage, last.file, n);
        NothingForPut(Met(init).tables, last.file, n);
      }
    }
  }

  /** No file brings rows for `n`. */
  ghost predicate NothingFor(tables: map<ObjectRef, TableFile>, n: PhysicalName) {
    forall k :: k in tables && NameOf(k) == n ==> FileRows(tables[k]) == []
  }

  lemma NothingForPut(tables: map<ObjectRef, TableFile>, f: TableFile, n: PhysicalName)
    requires f.meta.ref !in tables
    ensures NothingFor(tables[f.meta.ref := f], n) <==> NothingFor(tables, n) && (NameOf(f.meta.ref) == n ==> FileRows(f) == [])
  {
    var all := tables[f.meta.ref := f];
    assert all[f.meta.ref] == f && forall k :: k in tables ==> k in all && all[k] == tables[k];
  }

  /** Every file with rows finds its physical table empty and is the only one that fills it. */
  ghost predicate CleanLoad(s: Storage, tables: map<ObjectRef, TableFile>) {
    && (forall k :: k in tables && Loads(tables[k]) ==> RowsAt(s, NameOf(k)) == [])
    && (forall k, l :: k in tables && l in tables && k != l && Loads(tables[k]) && Loads(tables[l]) ==> NameOf(k) != NameOf(l))
  }

  lemma CleanLoadPut(s: Storage, tables: map<ObjectRef, TableFile>, f: TableFile)
    requires f.meta.ref !in tables
    ensures CleanLoad(s, tables[f.meta.ref := f]) <==>
            CleanLoad(s, tables) && (Loads(f) ==> RowsAt(s, NameOf(f.meta.ref)) == [] && NothingFor(tables, NameOf(f.meta.ref)))
  {
    var all, k := tables[f.meta.ref := f], f.meta.ref;
    assert all[k] == f && forall j :: j in tables ==> j in all && all[j] == tables[j] && j != k;
    assert forall j :: j in tables ==> (Loads(tables[j]) <==> FileRows(tables[j]) != []);
  }

  lemma RowCountsPut(tables: map<ObjectRef, TableFile>, k: ObjectRef, f: TableFile)
    requires k !in tables
    ensures Sum(RowCounts(tables[k := f])) == Sum(RowCounts(tables)) + |FileRows(f)|
  {
    assert RowCounts(tables[k := f]) == RowCounts(tables)[k := |FileRows(f)|];
    SumPut(RowCounts(tables), k, |FileRows(f)|);
  }

  /** What is counted for a file: its own rows and whatever was in the table when its turn came. */
  lemma CountedFor(s: Storage, f: TableFile)
    ensures CountAfter(Copied(Created(s, f), f), f) == if Loads(f) then |RowsAt(s, NameOf(f.meta.ref))| + |FileRows(f)| else 0
    ensures !Loads(f) ==> FileRows(f) == []
  {
    CopiedAt(s, f, NameOf(f.meta.ref));
  }

  /**
   The rows that seeding reports are never fewer than those in the files, and are exactly those if and only if
   every file with rows finds its table empty and shares it with no other such file.
   */
  lemma {:induction false} ReportedRowsExactly(d: DataDir, t: Tree, steps: seq<Step>)
    requires Walks(steps, t) && AllSafe(t)
    ensures var reported := SeedAll(Begin(d), steps).summary.rows;
            reported >= Sum(RowCounts(t.tables)) && (reported == Sum(RowCounts(t.tables)) <==> CleanLoad(d.storage, t.tables))
    decreases |steps|
  {
    if steps == [] {
      assert RowCounts(map[]) == map[];
    } else {
      var init, last := steps[..|steps| - 1], steps[|steps| - 1];
      var p := SeedAll(Begin(d), init);
      WalkPrefix(steps, t);
      SafeGrows(Met(init), last);
      ReportedRowsExactly(d, Met(init), init);
      SeedEntries(d, t, steps);
      StepStorage(p, last);
      if last.SeedTable? {
        var f := last.file;
        RowCountsPut(Met(init).tables, f.meta.ref, f);
        CountedFor(p.dir.storage, f);
        EmptyExactly(d, Met(init), init, NameOf(f.meta.ref));
        CleanLoadPut(d.storage, Met(init).tables, f);
      }
    }
  }

  /** With names apart: what a file is reported to have loaded, from the storage before. */
  ghost function LoadedCount(s: Storage, k: ObjectRef, f: TableFile): nat {
    if Loads(f) then |RowsAt(s, NameOf(k))| + |FileRows(f)| else 0
  }

  ghost function LoadedCounts(s: Storage, tables: map<ObjectRef, TableFile>): map<ObjectRef, nat> {
    map k | k in tables :: LoadedCount(s, k, tables[k])
  }

  lemma LoadedCountsPut(s: Storage, tables: map<ObjectRef, TableFile>, k: ObjectRef, f: TableFile)
    requires k !in tables
    ensures Sum(LoadedCounts(s, tables[k := f])) == Sum(LoadedCounts(s, tables)) + LoadedCount(s, k, f)
  {
    assert LoadedCounts(s, tables[k := f]) == LoadedCounts(s, tables)[k := LoadedCount(s, k, f)];
    SumPut(LoadedCounts(s, tables), k, LoadedCount(s, k, f));
  }

  lemma CountedWhenApart(s: Storage, tables: map<ObjectRef, TableFile>, s': Storage, f: TableFile)
    requires RowsAdded(s, tables, s') && f.meta.ref !in tables && Apart(tables[f.meta.ref := f])
    ensures CountAfter(Copied(Created(s', f), f), f) == LoadedCount(s, f.meta.ref, f)
  {
    CountedFor(s', f);
    if Loads(f) { Untouched(s, tables, s', f); }
  }

  lemma {:induction false} ReportedWhenApart(d: DataDir, t: Tree, steps: seq<Step>)
    requires Walks(steps, t) && AllSafe(t) && Apart(t.tables)
    ensures SeedAll(Begin(d), steps).summary.rows == Sum(LoadedCounts(d.storage, t.tables))
    decreases |steps|
  {
    if steps == [] {
      assert LoadedCounts(d.storage, map[]) == map[];
    } else {
      var init, last := steps[..|steps| - 1], steps[|steps| - 1];
      var p := SeedAll(Begin(d), init);
      WalkPrefix(steps, t);
      SafeGrows(Met(init), last);
      SeedEntries(d, t, steps);
      StepStorage(p, last);
      if last.SeedTable? {
        var f := last.file;
        ApartBefore(Met(init).tables, f.meta.ref, f);
        ReportedWhenApart(d, Met(init), init);
        LoadedCountsPut(d.storage, Met(init).tables, f.meta.ref, f);
        RowsAddedWhenApart(d, Met(init), init);
        CountedWhenApart(d.storage, Met(init).tables, p.dir.storage, f);
      } else {
        ReportedWhenApart(d, Met(init), init);
      }
    }
  }
}
