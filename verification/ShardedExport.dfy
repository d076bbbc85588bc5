/**
 EXPORT DATA: split a result into contiguous shards, resolve and check every destination
 first, then write the files.

 Files hold rows (the file formats are not modelled).  A `gs://` address maps under the configured
 root by plain concatenation; path normalisation and the guard against `..` are not modelled.
 */
module ShardedExport {
  import opened Basics
  import opened Decimal
  import opened ShardNames

  type Files = map<string, seq<Row>>

  // ---- Shard ranges ----

  datatype Slice = Slice(offset: nat, length: nat)

  function Min(a: nat, b: nat): nat { if a < b then a else b }

  /** Where shard `i` of `k` begins: the remainder goes to the first shards. */
  function Start(rows: nat, k: nat, i: nat): nat
    requires k >= 1
  {
    i * (rows / k) + Min(i, rows % k)
  }

  function Slices(rows: nat, k: nat): seq<Slice>
    requires k >= 1
  {
    seq(k, i requires 0 <= i < k => Slice(Start(rows, k, i), rows / k + if i < rows % k then 1 else 0))
  }

  /** The accumulating loop. */
  method ShardOffsets(rows: nat, k: nat) returns (slices: seq<Slice>)
    requires k >= 1
    ensures slices == Slices(rows, k)
  {
    var base, remainder := rows / k, rows % k;
    slices := [];
    var start := 0;
    for i := 0 to k
      invariant start == Start(rows, k, i)
      invariant slices == Slices(rows, k)[..i]
    {
      var length := base + if i < remainder then 1 else 0;
      slices := slices + [Slice(start, length)];
      start := start + length;
    }
  }

  lemma StartSteps(rows: nat, k: nat, i: nat)
    requires k >= 1
    ensures Start(rows, k, i + 1) == Start(rows, k, i) + rows / k + if i < rows % k then 1 else 0
  {
  }

  lemma StartEnds(rows: nat, k: nat)
    requires k >= 1
    ensures Start(rows, k, 0) == 0 && Start(rows, k, k) == rows
  {
  }

  lemma {:induction false} StartGrows(rows: nat, k: nat, i: nat, j: nat)
    requires k >= 1 && i <= j
    ensures Start(rows, k, i) <= Start(rows, k, j)
    decreases j - i
  {
    if i < j {
      StartSteps(rows, k, j - 1);
      StartGrows(rows, k, i, j - 1);
    }
  }

  /** The slices start at 0, follow one another without gap or overlap, and end at the last row. */
  ghost predicate Covers(slices: seq<Slice>, rows: nat) {
    && |slices| >= 1 && slices[0].offset == 0
    && (forall i :: 0 <= i < |slices| - 1 ==> slices[i].offset + slices[i].length == slices[i + 1].offset)
    && slices[|slices| - 1].offset + slices[|slices| - 1].length == rows
  }

  /** For every row count and shard count: contiguous, complete, lengths at most one apart, none empty when there are rows to go round. */
  lemma SlicesCover(rows: nat, k: nat)
    requires k >= 1
    ensures var s := Slices(rows, k);
            && |s| == k && Covers(s, rows)
            && (forall i, j :: 0 <= i < j < k ==> s[j].length <= s[i].length <= s[j].length + 1)
            && (k <= rows ==> forall i :: 0 <= i < k ==> s[i].length >= 1)
  {
    var s := Slices(rows, k);
    StartEnds(rows, k);
    forall i | 0 <= i < k ensures s[i].offset + s[i].length == Start(rows, k, i + 1) { StartSteps(rows, k, i); }
    if k <= rows { assert rows / k >= 1; }
  }

  // ---- Reading the shards back ----

  function Cut(table: seq<Row>, s: Slice): seq<Row> {
    if s.offset + s.length <= |table| then table[s.offset..s.offset + s.length] else []
  }

  function ReadAll(table: seq<Row>, slices: seq<Slice>): seq<Row> {
    if slices == [] then [] else ReadAll(table, slices[..|slices| - 1]) + Cut(table, slices[|slices| - 1])
  }

  lemma SliceAt(rows: nat, k: nat, i: nat)
    requires i < k
    ensures Slices(rows, k)[i].offset == Start(rows, k, i)
    ensures Slices(rows, k)[i].offset + Slices(rows, k)[i].length == Start(rows, k, i + 1)
  {
    StartSteps(rows, k, i);
  }

  lemma CutExtends(table: seq<Row>, s: Slice)
    requires s.offset + s.length <= |table|
    ensures table[..s.offset] + Cut(table, s) == table[..s.offset + s.length]
  {
  }

  lemma ReadOneMore(table: seq<Row>, slices: seq<Slice>, i: nat)
    requires i < |slices|
    ensures ReadAll(table, slices[..i + 1]) == ReadAll(table, slices[..i]) + Cut(table, slices[i])
  {
    var part := slices[..i + 1];
    assert part[..i] == slices[..i];
  }

  lemma {:induction false} PrefixRead(table: seq<Row>, k: nat, i: nat)
    requires k >= 1 && i <= k
    ensures Start(|table|, k, i) <= |table| && ReadAll(table, Slices(|table|, k)[..i]) == table[..Start(|table|, k, i)]
    decreases i
  {
    StartEnds(|table|, k);
    StartGrows(|table|, k, i, k);
    if i > 0 {
      var slices := Slices(|table|, k);
      PrefixRead(table, k, i - 1);
      SliceAt(|table|, k, i - 1);
      ReadOneMore(table, slices, i - 1);
      CutExtends(table, slices[i - 1]);
    }
  }

  /** The shards, read in order, are the table. */
  lemma ShardsAreTheTable(table: seq<Row>, k: nat)
    requires k >= 1
    ensures ReadAll(table, Slices(|table|, k)) == table
  {
    PrefixRead(table, k, k);
    StartEnds(|table|, k);
    assert Slices(|table|, k)[..k] == Slices(|table|, k);
    assert table[..|table|] == table;
  }

  // ---- Destinations ----

  function StarCount(uri: string): nat {
    if uri == "" then 0 else (if uri[0] == '*' then 1 else 0) + StarCount(uri[1..])
  }

  /** `uri.replace("*", name)` */
  function FillStar(uri: string, name: string): string {
    if uri == "" then "" else (if uri[0] == '*' then name else [uri[0]]) + FillStar(uri[1..], name)
  }

  const GS: string := "gs://"
  const FILE: string := "file://"

  function Resolve(uri: string, root: Option<string>): Option<string> {
    if GS <= uri then
      if root.None? then None else Some(root.value + "/" + uri[5..])
    else if FILE <= uri then Some(uri[7..])
    else Some(uri)
  }

  predicate Forbidden(c: char) {
    c == '\'' || c == '"' || c == ';' || c == '\n' || c == '\r' || c == '\0' || c == '`'
  }

  predicate AllowedPath(path: string) { path != "" && forall i :: 0 <= i < |path| ==> !Forbidden(path[i]) }

  datatype Options = Options(uri: string, overwrite: bool)
  datatype Settings = Settings(threshold: nat, root: Option<string>)

  datatype ExportError = TooManyWildcards | NeedsWildcard | BadDestination | DestinationExists
  datatype ShardCount = Count(k: nat) | CountError(error: ExportError)

  function CeilDiv(a: nat, b: nat): nat
    requires b >= 1
  {
    (a + b - 1) / b
  }

  /** One file without a wildcard; with one, as many as the size asks for but never more than rows. */
  function Shards(rows: nat, bytes: nat, options: Options, settings: Settings): (c: ShardCount)
    requires settings.threshold >= 1
    ensures c.Count? ==> c.k >= 1
    ensures c.Count? && rows >= 1 ==> c.k <= rows
  {
    var stars := StarCount(options.uri);
    if stars > 1 then CountError(TooManyWildcards)
    else if stars == 0 then
      if rows > 0 && bytes > settings.threshold then CountError(NeedsWildcard) else Count(1)
    else if rows == 0 then Count(1)
    else
      var k := Min(rows, CeilDiv(bytes, settings.threshold));
      Count(if k < 1 then 1 else k)
  }

  function ShardUri(options: Options, i: nat): string {
    if StarCount(options.uri) > 0 then FillStar(options.uri, ShardNumber(i)) else options.uri
  }

  function Destination(options: Options, settings: Settings, i: nat): Option<string> {
    Resolve(ShardUri(options, i), settings.root)
  }

  datatype Shard = Shard(slice: Slice, uri: string, path: string)
  datatype Plan = Planned(shards: seq<Shard>) | PlanError(error: ExportError)

  /** What stops shard `i`, if anything. */
  function Obstacle(files: Files, options: Options, settings: Settings, i: nat): Option<ExportError> {
    var d := Destination(options, settings, i);
    if d.None? || !AllowedPath(d.value) then Some(BadDestination)
    else if !options.overwrite && d.value in files then Some(DestinationExists)
    else None
  }

  datatype Check = Fine(shard: Shard) | Blocked(error: ExportError)

  function CheckShard(files: Files, options: Options, settings: Settings, slice: Slice, i: nat): Check {
    var o, d := Obstacle(files, options, settings, i), Destination(options, settings, i);
    if o.Some? then Blocked(o.value)
    else Fine(Shard(slice, ShardUri(options, i), if d.Some? then d.value else ""))
  }

  function Checks(files: Files, options: Options, settings: Settings, slices: seq<Slice>): seq<Check> {
    seq(|slices|, i requires 0 <= i < |slices| => CheckShard(files, options, settings, slices[i], i))
  }

  /** The first blocked shard ends the planning. */
  function Collect(checks: seq<Check>): Plan {
    if checks == [] then Planned([])
    else
      var last := checks[|checks| - 1];
      match Collect(checks[..|checks| - 1])
      case PlanError(e) => PlanError(e)
      case Planned(shards) => if last.Blocked? then PlanError(last.error) else Planned(shards + [last.shard])
  }

  /** All destinations are checked, in order, before anything is written. */
  function MakePlan(files: Files, options: Options, settings: Settings, slices: seq<Slice>): Plan {
    Collect(Checks(files, options, settings, slices))
  }

  function WriteShards(files: Files, table: seq<Row>, plan: seq<Shard>): Files {
    if plan == [] then files
    else
      var last := plan[|plan| - 1];
      WriteShards(files, table, plan[..|plan| - 1])[last.path := Cut(table, last.slice)]
  }

  datatype Outcome = Written(files: Files, uris: seq<string>) | Refused(error: ExportError)

  function Export(files: Files, table: seq<Row>, bytes: nat, options: Options, settings: Settings): Outcome
    requires settings.threshold >= 1
  {
    match Shards(|table|, bytes, options, settings)
    case CountError(e) => Refused(e)
    case Count(k) =>
      match MakePlan(files, options, settings, Slices(|table|, k))
      case PlanError(e) => Refused(e)
      case Planned(plan) => Written(WriteShards(files, table, plan), seq(|plan|, i requires 0 <= i < |plan| => plan[i].uri))
  }

  // ---- Answers ----

  /**
   Two wildcards are refused; without one, anything larger than the threshold is; otherwise one file is written
   without a wildcard, and with one the fewest files that keep each share of the bytes within the threshold, as far as
   there are rows for them.
   */
  lemma ShardsExactly(rows: nat, bytes: nat, options: Options, settings: Settings)
    requires settings.threshold >= 1
    ensures var c, stars, t := Shards(rows, bytes, options, settings), StarCount(options.uri), settings.threshold;
            && (c == CountError(TooManyWildcards) <==> stars >= 2)
            && (c == CountError(NeedsWildcard) <==> stars == 0 && rows > 0 && bytes > t)
            && (stars == 0 && (rows == 0 || bytes <= t) ==> c == Count(1))
            && (stars == 1 ==> c.Count? && c.k >= 1 && (rows == 0 ==> c.k == 1))
            && (stars == 1 && rows > 0 ==> c.k <= rows && (bytes <= c.k * t || c.k == rows) && (c.k > 1 ==> (c.k - 1) * t < bytes))
  {
    if StarCount(options.uri) == 1 && rows > 0 { FewestShards(rows, bytes, settings.threshold); }
  }

  /** The fewest shares that stay within `t`, cut down to the number of rows. */
  lemma FewestShards(rows: nat, bytes: nat, t: nat)
    requires rows > 0 && t >= 1
    ensures var m := Min(rows, CeilDiv(bytes, t));
            var k := if m < 1 then 1 else m;
            1 <= k <= rows && (bytes <= k * t || k == rows) && (k > 1 ==> (k - 1) * t < bytes)
  {
    CeilDivExactly(bytes, t);
    var k := CeilDiv(bytes, t);
    if rows < k { ProductGrows(rows - 1, k - 1, t); }
  }

  lemma ProductGrows(a: nat, b: nat, t: nat)
    requires a <= b
    ensures a * t <= b * t
  {
  }

  lemma CeilDivExactly(a: nat, b: nat)
    requires b >= 1
    ensures var k := CeilDiv(a, b); a <= k * b && (k > 0 ==> (k - 1) * b < a)
  {
    var k := CeilDiv(a, b);
    assert a + b - 1 == k * b + (a + b - 1) % b;
    assert k > 0 ==> (k - 1) * b == k * b - b;
  }

  /** `gs://` addresses go under the root, `file://` is taken off, anything else is a path. */
  lemma ResolveExactly(rest: string, root: Option<string>)
    ensures Resolve("gs://" + rest, root) == if root.None? then None else Some(root.value + "/" + rest)
    ensures Resolve("file://" + rest, root) == Some(rest)
    ensures !("gs://" <= rest) && !("file://" <= rest) ==> Resolve(rest, root) == Some(rest)
  {
    var g, f := "gs://" + rest, "file://" + rest;
    assert g[5..] == rest && "gs://" <= g;
    assert f[7..] == rest && "file://" <= f && f[0] != 'g';
  }

  /** A destination is bad when it does not resolve, is empty or holds a quote, semicolon, backtick, line break or NUL; a good one is blocked only by an existing file that may not be overwritten. */
  lemma ObstacleExactly(files: Files, options: Options, settings: Settings, i: nat)
    ensures var o, d := Obstacle(files, options, settings, i), Destination(options, settings, i);
            && (o == Some(BadDestination) <==> d.None? || d.value == "" || exists c :: c in d.value && c in {'\'', '"', ';', '`', '\n', '\r', '\0'})
            && (o == Some(DestinationExists) <==> d.Some? && AllowedPath(d.value) && d.value in files && !options.overwrite)
  {
    var d := Destination(options, settings, i);
    if d.Some? { assert forall j :: 0 <= j < |d.value| ==> d.value[j] in d.value; }
  }

  // ---- Where shards go ----

  function StarAt(uri: string): (i: nat)
    ensures i <= |uri|
  {
    if uri == "" || uri[0] == '*' then 0 else 1 + StarAt(uri[1..])
  }

  lemma {:induction false} NothingToFill(uri: string, name: string)
    requires StarCount(uri) == 0
    ensures FillStar(uri, name) == uri
    decreases |uri|
  {
    if uri != "" { NothingToFill(uri[1..], name); }
  }

  lemma Shifted(c: char, rest: string, i: nat, name: string)
    requires i < |rest|
    ensures var s := [c] + rest; s[..1 + i] + name + s[1 + i + 1..] == [c] + (rest[..i] + name + rest[i + 1..])
  {
  }

  /** One star: the name goes between what stands before and after it. */
  lemma {:induction false} FilledOnce(uri: string, name: string)
    requires StarCount(uri) == 1
    ensures StarAt(uri) < |uri| && FillStar(uri, name) == uri[..StarAt(uri)] + name + uri[StarAt(uri) + 1..]
    decreases |uri|
  {
    if uri[0] == '*' {
      NothingToFill(uri[1..], name);
    } else {
      FilledOnce(uri[1..], name);
      Shifted(uri[0], uri[1..], StarAt(uri[1..]), name);
      assert uri == [uri[0]] + uri[1..];
    }
  }

  /** A scheme is recognised before the star or not at all: it contains no digit. */
  lemma SchemeBeforeStar(scheme: string, pre: string, name: string, post: string)
    requires name != "" && IsDigit(name[0])
    requires forall i :: 0 <= i < |scheme| ==> !IsDigit(scheme[i])
    ensures scheme <= pre + name + post <==> scheme <= pre
  {
    var s := pre + name + post;
    assert s[|pre|] == name[0];
    if scheme <= s && |scheme| <= |pre| { assert scheme == s[..|scheme|] == pre[..|scheme|]; }
  }

  /** What every destination of an export starts with. */
  function DestinationHead(pre: string, root: Option<string>): string {
    if GS <= pre then (if root.Some? then root.value + "/" + pre[5..] else "")
    else if FILE <= pre then pre[7..]
    else pre
  }

  lemma DestinationForm(options: Options, settings: Settings, i: nat)
    requires StarCount(options.uri) == 1
    ensures StarAt(options.uri) < |options.uri|
    ensures var d, pre := Destination(options, settings, i), options.uri[..StarAt(options.uri)];
            d.Some? ==> d.value == DestinationHead(pre, settings.root) + ShardNumber(i) + options.uri[StarAt(options.uri) + 1..]
  {
    var n := ShardNumber(i);
    FilledOnce(options.uri, n);
    var pre, post := options.uri[..StarAt(options.uri)], options.uri[StarAt(options.uri) + 1..];
    SchemeBeforeStar(GS, pre, n, post);
    SchemeBeforeStar(FILE, pre, n, post);
    var uri := pre + n + post;
    if GS <= pre {
      assert uri[5..] == pre[5..] + n + post;
    } else if FILE <= pre {
      assert uri[7..] == pre[7..] + n + post;
    }
  }

  /** No two shards of an export share a destination. */
  lemma DestinationsDistinct(options: Options, settings: Settings, i: nat, j: nat)
    requires StarCount(options.uri) == 1 && i != j
    requires Destination(options, settings, i).Some? && Destination(options, settings, j).Some?
    ensures Destination(options, settings, i) != Destination(options, settings, j)
  {
    DestinationForm(options, settings, i);
    DestinationForm(options, settings, j);
    var a, b := ShardNumber(i), ShardNumber(j);
    var head, post := DestinationHead(options.uri[..StarAt(options.uri)], settings.root), options.uri[StarAt(options.uri) + 1..];
    if head + a + post == head + b + post {
      assert |a| == |b|;
      assert a == (head + a + post)[|head|..|head| + |a|] == b;
      ShardNumbersDistinct(i, j);
    }
  }

  /** Destinations list in index order up to 10^12 shards. */
  lemma DestinationsSort(options: Options, settings: Settings, i: nat, j: nat)
    requires StarCount(options.uri) == 1 && i < j < Pow10(WIDTH)
    requires Destination(options, settings, i).Some? && Destination(options, settings, j).Some?
    ensures Before(Destination(options, settings, i).value, Destination(options, settings, j).value)
  {
    DestinationForm(options, settings, i);
    DestinationForm(options, settings, j);
    var head, post := DestinationHead(options.uri[..StarAt(options.uri)], settings.root), options.uri[StarAt(options.uri) + 1..];
    PaddedSorts(i, j, WIDTH);
    SortsInside(head, ShardNumber(i), ShardNumber(j), post);
  }

  lemma SortsInside(head: string, a: string, b: string, post: string)
    requires |a| == |b| && Before(a, b)
    ensures Before(head + a + post, head + b + post)
  {
    BeforeExtends(a, b, post, post);
    BeforeAfterPrefix(head, a + post, b + post);
    assert head + (a + post) == head + a + post && head + (b + post) == head + b + post;
  }

  // ---- The plan and the writing ----

  lemma {:induction false} CollectExactly(checks: seq<Check>)
    ensures var p := Collect(checks);
            && (p.Planned? <==> forall i :: 0 <= i < |checks| ==> checks[i].Fine?)
            && (p.Planned? ==> |p.shards| == |checks| && forall i :: 0 <= i < |checks| ==> checks[i] == Fine(p.shards[i]))
    decreases |checks|
  {
    if checks != [] {
      var front := checks[..|checks| - 1];
      CollectExactly(front);
      assert forall i :: 0 <= i < |front| ==> front[i] == checks[i];
    }
  }

  /** Once a shard is blocked the rest is not looked at. */
  lemma {:induction false} ErrorStays(checks: seq<Check>, k: nat)
    requires k <= |checks| && Collect(checks[..k]).PlanError?
    ensures Collect(checks) == Collect(checks[..k])
    decreases |checks|
  {
    if k == |checks| {
      assert checks[..k] == checks;
    } else {
      var front := checks[..|checks| - 1];
      assert front[..k] == checks[..k];
      ErrorStays(front, k);
    }
  }

  /** A plan is made exactly when no shard has an obstacle, and then it has every shard in place. */
  lemma PlanExactly(files: Files, options: Options, settings: Settings, slices: seq<Slice>)
    ensures var p := MakePlan(files, options, settings, slices);
            && (p.Planned? <==> forall i :: 0 <= i < |slices| ==> Obstacle(files, options, settings, i).None?)
            && (p.Planned? ==> |p.shards| == |slices| && forall i :: 0 <= i < |slices| ==> Fine(p.shards[i]) == CheckShard(files, options, settings, slices[i], i))
  {
    var checks := Checks(files, options, settings, slices);
    CollectExactly(checks);
    forall i | 0 <= i < |slices|
      ensures checks[i].Fine? <==> Obstacle(files, options, settings, i).None?
    {
      assert checks[i] == CheckShard(files, options, settings, slices[i], i);
    }
  }

  ghost predicate DistinctPaths(plan: seq<Shard>) {
    forall i, j :: 0 <= i < j < |plan| ==> plan[i].path != plan[j].path
  }

  /** With distinct paths every shard ends up in its own file and no other file changes. */
  lemma {:induction false} WrittenExactly(files: Files, table: seq<Row>, plan: seq<Shard>)
    requires DistinctPaths(plan)
    ensures var w := WriteShards(files, table, plan);
            && (forall i :: 0 <= i < |plan| ==> plan[i].path in w && w[plan[i].path] == Cut(table, plan[i].slice))
            && (forall p :: (forall i :: 0 <= i < |plan| ==> plan[i].path != p) ==> (p in w <==> p in files) && (p in w ==> w[p] == files[p]))
    decreases |plan|
  {
    if plan != [] {
      var front := plan[..|plan| - 1];
      WrittenExactly(files, table, front);
      assert forall i :: 0 <= i < |front| ==> plan[i] == front[i];
    }
  }

  /** The contents of the named files, in the order named. */
  function Contents(files: Files, paths: seq<string>): seq<Row> {
    if paths == [] then []
    else Contents(files, paths[..|paths| - 1]) + if paths[|paths| - 1] in files then files[paths[|paths| - 1]] else []
  }

  lemma {:induction false} ContentsAreSlices(files: Files, table: seq<Row>, slices: seq<Slice>, paths: seq<string>)
    requires |slices| == |paths|
    requires forall i :: 0 <= i < |paths| ==> paths[i] in files && files[paths[i]] == Cut(table, slices[i])
    ensures Contents(files, paths) == ReadAll(table, slices)
    decreases |paths|
  {
    if paths != [] {
      var n := |paths| - 1;
      assert paths[n] in files && files[paths[n]] == Cut(table, slices[n]);
      ContentsAreSlices(files, table, slices[..n], paths[..n]);
    }
  }

  /** The destinations of a `k`-shard export, in index order. */
  function Paths(options: Options, settings: Settings, k: nat): seq<string> {
    seq(k, i requires 0 <= i < k => var d := Destination(options, settings, i); if d.Some? then d.value else "")
  }

  lemma ShardGoesTo(files: Files, options: Options, settings: Settings, slice: Slice, i: nat, k: nat)
    requires i < k && CheckShard(files, options, settings, slice, i).Fine?
    ensures var shard := CheckShard(files, options, settings, slice, i).shard;
            shard.slice == slice && shard.path == Paths(options, settings, k)[i] && Destination(options, settings, i) == Some(shard.path)
  {
  }

  /** A plan goes where its destinations say, each somewhere else. */
  lemma PlanGoesTo(files: Files, options: Options, settings: Settings, slices: seq<Slice>)
    requires StarCount(options.uri) == 1 || |slices| == 1
    requires MakePlan(files, options, settings, slices).Planned?
    ensures var plan, paths := MakePlan(files, options, settings, slices).shards, Paths(options, settings, |slices|);
            && |plan| == |slices|
            && (forall i :: 0 <= i < |plan| ==> plan[i].slice == slices[i] && plan[i].path == paths[i])
            && (forall i, j :: 0 <= i < j < |plan| ==> paths[i] != paths[j])
  {
    PlanExactly(files, options, settings, slices);
    var plan, paths := MakePlan(files, options, settings, slices).shards, Paths(options, settings, |slices|);
    forall i | 0 <= i < |plan|
      ensures plan[i].slice == slices[i] && plan[i].path == paths[i] && Destination(options, settings, i) == Some(paths[i])
    {
      assert Fine(plan[i]) == CheckShard(files, options, settings, slices[i], i);
      ShardGoesTo(files, options, settings, slices[i], i, |slices|);
    }
    forall i, j | 0 <= i < j < |plan| ensures paths[i] != paths[j] {
      DestinationsDistinct(options, settings, i, j);
    }
  }

  /** Writing a plan with distinct paths puts every slice into its file and leaves the other files alone. */
  lemma PlanLands(files: Files, table: seq<Row>, plan: seq<Shard>, slices: seq<Slice>, paths: seq<string>)
    requires |plan| == |slices| == |paths|
    requires forall i :: 0 <= i < |plan| ==> plan[i].slice == slices[i] && plan[i].path == paths[i]
    requires forall i, j :: 0 <= i < j < |plan| ==> paths[i] != paths[j]
    ensures var w := WriteShards(files, table, plan);
            && Contents(w, paths) == ReadAll(table, slices)
            && (forall p :: p !in paths ==> (p in w <==> p in files) && (p in w ==> w[p] == files[p]))
  {
    var w := WriteShards(files, table, plan);
    WrittenExactly(files, table, plan);
    forall i | 0 <= i < |paths| ensures paths[i] in w && w[paths[i]] == Cut(table, slices[i]) { assert plan[i].path == paths[i]; }
    ContentsAreSlices(w, table, slices, paths);
    forall p | p !in paths ensures (p in w <==> p in files) && (p in w ==> w[p] == files[p]) {
      assert forall i :: 0 <= i < |plan| ==> plan[i].path == paths[i] && paths[i] in paths;
    }
  }

  /**
   An export that is not refused writes each row exactly once: reading its destinations in order
   gives the table, they are pairwise distinct, and every other file is as before.
   */
  lemma ExportIsComplete(files: Files, table: seq<Row>, bytes: nat, options: Options, settings: Settings)
    requires settings.threshold >= 1 && Export(files, table, bytes, options, settings).Written?
    ensures var k := Shards(|table|, bytes, options, settings).k;
            var w, paths := Export(files, table, bytes, options, settings).files, Paths(options, settings, k);
            && Contents(w, paths) == table
            && (forall i, j :: 0 <= i < j < k ==> paths[i] != paths[j])
            && (forall p :: p !in paths ==> (p in w <==> p in files) && (p in w ==> w[p] == files[p]))
  {
    var k := Shards(|table|, bytes, options, settings).k;
    var slices, paths := Slices(|table|, k), Paths(options, settings, k);
    PlanGoesTo(files, options, settings, slices);
    ShardsAreTheTable(table, k);
    PlanLands(files, table, MakePlan(files, options, settings, slices).shards, slices, paths);
  }

  /** An export is refused exactly when its size does not fit its address, or some shard, first or last, has an obstacle. */
  lemma ExportRefusedExactly(files: Files, table: seq<Row>, bytes: nat, options: Options, settings: Settings)
    requires settings.threshold >= 1
    ensures var c := Shards(|table|, bytes, options, settings);
            Export(files, table, bytes, options, settings).Refused? <==>
              c.CountError? || exists i :: 0 <= i < c.k && Obstacle(files, options, settings, i).Some?
  {
    var c := Shards(|table|, bytes, options, settings);
    if c.Count? { PlanExactly(files, options, settings, Slices(|table|, c.k)); }
  }

  /** The addresses reported are those of the shards in order, the star replaced by the shard's number. */
  lemma ReportedUris(files: Files, table: seq<Row>, bytes: nat, options: Options, settings: Settings)
    requires settings.threshold >= 1 && Export(files, table, bytes, options, settings).Written?
    ensures var k, uris := Shards(|table|, bytes, options, settings).k, Export(files, table, bytes, options, settings).uris;
            && |uris| == k
            && forall i :: 0 <= i < k ==> uris[i] == if StarCount(options.uri) > 0 then FillStar(options.uri, ShardNumber(i)) else options.uri
  {
    var k := Shards(|table|, bytes, options, settings).k;
    var slices := Slices(|table|, k);
    PlanExactly(files, options, settings, slices);
    var plan := MakePlan(files, options, settings, slices).shards;
    forall i | 0 <= i < k ensures plan[i].uri == ShardUri(options, i) {
      assert Fine(plan[i]) == CheckShard(files, options, settings, slices[i], i);
    }
  }

  ghost predicate FirstObstacle(files: Files, options: Options, settings: Settings, i: nat) {
    && Obstacle(files, options, settings, i).Some?
    && forall j :: 0 <= j < i ==> Obstacle(files, options, settings, j).None?
  }

  lemma CollectNamesFirst(checks: seq<Check>, i: nat)
    requires i < |checks| && checks[i].Blocked? && forall j :: 0 <= j < i ==> checks[j].Fine?
    ensures Collect(checks) == PlanError(checks[i].error)
  {
    CollectExactly(checks[..i]);
    assert checks[..i + 1][..i] == checks[..i];
    ErrorStays(checks, i + 1);
  }

  lemma PlanNamesFirst(files: Files, options: Options, settings: Settings, slices: seq<Slice>, i: nat)
    requires i < |slices| && FirstObstacle(files, options, settings, i)
    ensures MakePlan(files, options, settings, slices) == PlanError(Obstacle(files, options, settings, i).value)
  {
    var checks := Checks(files, options, settings, slices);
    assert forall j :: 0 <= j <= i ==> checks[j] == CheckShard(files, options, settings, slices[j], j);
    CollectNamesFirst(checks, i);
  }

  /** A refused export names the reason of its size, or the obstacle of the first shard that has one. */
  lemma RefusalNamesFirst(files: Files, table: seq<Row>, bytes: nat, options: Options, settings: Settings, i: nat)
    requires settings.threshold >= 1
    ensures var c, r := Shards(|table|, bytes, options, settings), Export(files, table, bytes, options, settings);
            && (c.CountError? ==> r == Refused(c.error))
            && (c.Count? && i < c.k && FirstObstacle(files, options, settings, i) ==>
                  r == Refused(Obstacle(files, options, settings, i).value))
  {
    var c := Shards(|table|, bytes, options, settings);
    if c.Count? && i < c.k && FirstObstacle(files, options, settings, i) {
      PlanNamesFirst(files, options, settings, Slices(|table|, c.k), i);
    }
  }

  // ---- The job ----

  class Bucket {
    var files: Files

    method PlanShards(options: Options, settings: Settings, slices: seq<Slice>) returns (plan: Plan)
      ensures plan == MakePlan(files, options, settings, slices)
    {
      var shards: seq<Shard> := [];
      ghost var checks := Checks(files, options, settings, slices);
      for i := 0 to |slices|
        invariant Collect(checks[..i]) == Planned(shards)
      {
        assert checks[..i + 1][..i] == checks[..i] && checks[i] == CheckShard(files, options, settings, slices[i], i);
        var check := CheckShard(files, options, settings, slices[i], i);
        if check.Blocked? {
          ErrorStays(checks, i + 1);
          return PlanError(check.error);
        }
        shards := shards + [check.shard];
      }
      assert checks[..|slices|] == checks;
      return Planned(shards);
    }

    /** Nothing is written unless every destination has been checked. */
    method WriteExport(table: seq<Row>, bytes: nat, options: Options, settings: Settings) returns (r: Outcome)
      requires settings.threshold >= 1
      modifies this
      ensures r == Export(old(files), table, bytes, options, settings)
      ensures files == if r.Written? then r.files else old(files)
    {
      var count := Shards(|table|, bytes, options, settings);
      if count.CountError? { return Refused(count.error); }
      var slices := ShardOffsets(|table|, count.k);
      var plan := PlanShards(options, settings, slices);
      if plan.PlanError? { return Refused(plan.error); }
      ghost var before := files;
      var uris: seq<string> := [];
      for i := 0 to |plan.shards|
        invariant files == WriteShards(before, table, plan.shards[..i])
        invariant uris == seq(i, j requires 0 <= j < i => plan.shards[j].uri)
      {
        var shard := plan.shards[i];
        assert plan.shards[..i + 1][..i] == plan.shards[..i];
        files := files[shard.path := Cut(table, shard.slice)];
        uris := uris + [shard.uri];
      }
      assert plan.shards[..|plan.shards|] == plan.shards;
      r := Written(files, uris);
    }
  }
}
