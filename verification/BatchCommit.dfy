/**
 Batch commit: a first pass that only looks, a second pass that commits stream by stream.
 */
module BatchCommit {
  import opened Basics
  import opened WriteStreams
  import opened WriteServer

  datatype StreamError = StreamNotFound(name: StreamName) | InvalidStreamType(name: StreamName) | InvalidStreamState(name: StreamName)

  datatype BatchReply = Rejected(errors: seq<StreamError>) | CommitTime | Aborted
  datatype BatchResult = BatchResult(server: Server, reply: BatchReply)

  /** What the first pass notes about one entry. */
  function Check(srv: Server, n: StreamName): seq<StreamError> {
    if n !in srv.streams then [StreamNotFound(n)]
    else if srv.streams[n].kind != PendingStream then [InvalidStreamType(n)]
    else if srv.streams[n].state != Finalized then [InvalidStreamState(n)]
    else []
  }

  function Errors(srv: Server, names: seq<StreamName>): seq<StreamError> {
    if names == [] then [] else Check(srv, names[0]) + Errors(srv, names[1..])
  }

  lemma ErrorsFrom(srv: Server, names: seq<StreamName>, i: nat)
    requires i < |names|
    ensures Errors(srv, names[i..]) == Check(srv, names[i]) + Errors(srv, names[i + 1..])
  {
    assert names[i..][0] == names[i] && names[i..][1..] == names[i + 1..];
  }

  /** The second pass; an insert that raises ends it there. */
  function CommitAll(srv: Server, names: seq<StreamName>): Result
    decreases |names|
  {
    if names == [] then Result(srv, Acked(0))
    else
      var r := DoCommit(srv, names[0]);
      if r.reply.Crashed? then Result(r.server, Crashed) else CommitAll(r.server, names[1..])
  }

  function Batch(srv: Server, names: seq<StreamName>): BatchResult {
    var errors := Errors(srv, names);
    if errors != [] then BatchResult(srv, Rejected(errors))
    else
      var r := CommitAll(srv, names);
      BatchResult(r.server, if r.reply.Crashed? then Aborted else CommitTime)
  }

  // ---- The reference: what a batch should do ----

  /** What stream `n` holds for table `t`. */
  function BufferFor(srv: Server, n: StreamName, t: TableRef): seq<Row> {
    if n in srv.streams && srv.streams[n].table == t then Concat(srv.streams[n].buffer) else []
  }

  /** The buffers of the listed streams that feed `t`, each stream once, in order of first mention. */
  function Gain(srv: Server, names: seq<StreamName>, seen: set<StreamName>, t: TableRef): seq<Row>
    decreases |names|
  {
    if names == [] then []
    else if names[0] in seen then Gain(srv, names[1..], seen, t)
    else BufferFor(srv, names[0], t) + Gain(srv, names[1..], seen + {names[0]}, t)
  }

  /** The stream's rows, if any, have a table to go to. */
  predicate Landable(srv: Server, n: StreamName) {
    n in srv.streams ==> Concat(srv.streams[n].buffer) == [] || srv.streams[n].table in srv.storage
  }

  predicate Committable(srv: Server, n: StreamName) {
    n in srv.streams && srv.streams[n].kind == PendingStream && srv.streams[n].state == Finalized
  }

  /** `cur` is `srv` with exactly the streams in `done` committed and drained. */
  ghost predicate Drained(srv: Server, cur: Server, done: set<StreamName>) {
    && cur.gauge == srv.gauge
    && cur.storage.Keys == srv.storage.Keys && cur.counts.Keys == srv.counts.Keys
    && cur.streams.Keys == srv.streams.Keys
    && forall n :: n in srv.streams ==>
         cur.streams[n] == if n in done then srv.streams[n].(buffer := [], state := Committed) else srv.streams[n]
  }

  /** `end` has in table `t`, and in its count, exactly `rows` more than `cur`. */
  ghost predicate Grown(cur: Server, end: Server, t: TableRef, rows: seq<Row>) {
    && (t in cur.storage ==> t in end.storage && end.storage[t] == cur.storage[t] + rows)
    && (t in cur.counts ==> t in end.counts && end.counts[t] == cur.counts[t] + |rows|)
  }

  lemma {:induction false} ErrorsExactly(srv: Server, names: seq<StreamName>)
    ensures Errors(srv, names) == [] <==> forall n :: n in names ==> Committable(srv, n)
    decreases |names|
  {
    if names != [] {
      ErrorsExactly(srv, names[1..]);
      assert Check(srv, names[0]) == [] <==> Committable(srv, names[0]);
      assert Errors(srv, names) == [] <==> Check(srv, names[0]) == [] && Errors(srv, names[1..]) == [] by {
        assert |Errors(srv, names)| == |Check(srv, names[0])| + |Errors(srv, names[1..])|;
      }
      assert forall n :: n in names <==> n == names[0] || n in names[1..];
    }
  }

  function ErrorName(e: StreamError): StreamName {
    match e
    case StreamNotFound(n) => n
    case InvalidStreamType(n) => n
    case InvalidStreamState(n) => n
  }

  /** The error fits what is wrong with the stream it names. */
  predicate Fits(srv: Server, e: StreamError) {
    match e
    case StreamNotFound(n) => n !in srv.streams
    case InvalidStreamType(n) => n in srv.streams && srv.streams[n].kind != PendingStream
    case InvalidStreamState(n) => n in srv.streams && srv.streams[n].kind == PendingStream && srv.streams[n].state != Finalized
  }

  function Bad(srv: Server, names: seq<StreamName>): seq<StreamName> {
    if names == [] then [] else (if Committable(srv, names[0]) then [] else [names[0]]) + Bad(srv, names[1..])
  }

  /** The error list has one entry for each name that cannot be committed, in the order given, each with its right cause. */
  lemma {:induction false} ErrorsNameTheBad(srv: Server, names: seq<StreamName>)
    ensures |Errors(srv, names)| == |Bad(srv, names)|
    ensures forall i :: 0 <= i < |Errors(srv, names)| ==> ErrorName(Errors(srv, names)[i]) == Bad(srv, names)[i] && Fits(srv, Errors(srv, names)[i])
    decreases |names|
  {
    if names != [] { ErrorsNameTheBad(srv, names[1..]); }
  }

  /** One iteration of the second pass. */
  lemma CommitFirst(srv: Server, cur: Server, n: StreamName, done: set<StreamName>)
    requires Drained(srv, cur, done) && Committable(srv, n)
    ensures var r := DoCommit(cur, n);
            && (r.reply.Crashed? <==> n !in done && !Landable(srv, n))
            && (n in done ==> r.server == cur)
            && (n !in done ==> Drained(srv, r.server, done + {n}))
            && (r.reply.Crashed? ==> r.server.storage == cur.storage && r.server.counts == cur.counts)
  {
  }

  lemma CommitFirstGrows(srv: Server, cur: Server, n: StreamName, done: set<StreamName>, t: TableRef)
    requires Drained(srv, cur, done) && Committable(srv, n) && n !in done && Landable(srv, n)
    ensures Grown(cur, DoCommit(cur, n).server, t, BufferFor(srv, n, t))
  {
  }

  lemma {:induction false} CommitAllCrashes(srv: Server, cur: Server, names: seq<StreamName>, done: set<StreamName>)
    requires Drained(srv, cur, done)
    requires forall n :: n in names ==> Committable(srv, n)
    ensures CommitAll(cur, names).reply.Crashed? <==> exists n :: n in names && n !in done && !Landable(srv, n)
    decreases |names|
  {
    if names != [] {
      var n, r := names[0], DoCommit(cur, names[0]);
      CommitFirst(srv, cur, n, done);
      assert forall m :: m in names <==> m == n || m in names[1..];
      if !r.reply.Crashed? {
        assert n in done ==> done + {n} == done;
        CommitAllCrashes(srv, r.server, names[1..], done + {n});
      }
    }
  }

  lemma {:induction false} CommitAllDrains(srv: Server, cur: Server, names: seq<StreamName>, done: set<StreamName>)
    requires Drained(srv, cur, done)
    requires forall n :: n in names ==> Committable(srv, n) && Landable(srv, n)
    ensures Drained(srv, CommitAll(cur, names).server, done + set n | n in names)
    decreases |names|
  {
    if names == [] {
      assert done + (set n | n in names) == done;
    } else {
      var n := names[0];
      CommitFirst(srv, cur, n, done);
      assert n in done ==> done + {n} == done;
      CommitAllDrains(srv, DoCommit(cur, n).server, names[1..], done + {n});
      assert done + {n} + (set m | m in names[1..]) == done + set m | m in names;
    }
  }

  lemma {:induction false} CommitAllGrows(srv: Server, cur: Server, names: seq<StreamName>, done: set<StreamName>, t: TableRef)
    requires Drained(srv, cur, done)
    requires forall n :: n in names ==> Committable(srv, n) && Landable(srv, n)
    ensures Grown(cur, CommitAll(cur, names).server, t, Gain(srv, names, done, t))
    decreases |names|
  {
    if names != [] {
      var n := names[0];
      CommitFirst(srv, cur, n, done);
      if n in done {
        CommitAllGrows(srv, cur, names[1..], done, t);
      } else {
        CommitFirstGrows(srv, cur, n, done, t);
        CommitAllGrows(srv, DoCommit(cur, n).server, names[1..], done + {n}, t);
      }
    }
  }

  /**
   All or nothing.  One invalid entry and nothing changes.  Otherwise the batch goes through
   exactly when every listed stream that holds rows has its table, and then every listed stream
   is committed and drained, every table gains exactly the listed rows, each stream once however
   often it is named, and nothing else moves.
   */
  lemma BatchExact(srv: Server, names: seq<StreamName>, t: TableRef)
    ensures var b := Batch(srv, names);
            && (b.reply.Rejected? <==> exists n :: n in names && !Committable(srv, n))
            && (b.reply.Rejected? ==> b.server == srv)
            && (b.reply.CommitTime? <==> forall n :: n in names ==> Committable(srv, n) && Landable(srv, n))
            && (b.reply.CommitTime? ==> Drained(srv, b.server, set n | n in names) && Grown(srv, b.server, t, Gain(srv, names, {}, t)))
  {
    ErrorsExactly(srv, names);
    if Errors(srv, names) == [] {
      CommitAllCrashes(srv, srv, names, {});
      if Batch(srv, names).reply.CommitTime? {
        CommitAllDrains(srv, srv, names, {});
        assert {} + (set n | n in names) == set n | n in names;
        CommitAllGrows(srv, srv, names, {}, t);
      }
    }
  }

  /** The second pass up to and including the first stream that cannot land. */
  lemma {:induction false} CommitAllStops(srv: Server, cur: Server, names: seq<StreamName>, done: set<StreamName>, k: nat)
    requires Drained(srv, cur, done) && k < |names|
    requires forall n :: n in names ==> Committable(srv, n)
    requires (forall i :: 0 <= i < k ==> Landable(srv, names[i])) && !Landable(srv, names[k]) && names[k] !in done
    ensures CommitAll(cur, names) == Result(DoCommit(CommitAll(cur, names[..k]).server, names[k]).server, Crashed)
    decreases k
  {
    CommitFirst(srv, cur, names[0], done);
    if k > 0 {
      var n, rest := names[0], names[1..];
      assert n in done ==> done + {n} == done;
      assert Landable(srv, n) && names[..k][1..] == rest[..k - 1] && rest[k - 1] == names[k];
      assert forall i :: 0 <= i < k - 1 ==> rest[i] == names[i + 1];
      CommitAllStops(srv, DoCommit(cur, n).server, rest, done + {n}, k - 1);
    }
  }

  function Listed(names: seq<StreamName>): set<StreamName> { set n | n in names }

  lemma UpTo(names: seq<StreamName>, k: nat)
    requires k < |names|
    ensures Listed(names[..k]) + {names[k]} == Listed(names[..k + 1])
  {
    assert names[..k + 1] == names[..k] + [names[k]];
  }

  /**
   Without a table a batch is not atomic.  With valid entries and the first one that cannot land at position `k`,
   the call aborts with exactly the streams up to and including it drained; the tables have gained the rows of those
   before it, and its own rows are nowhere.
   */
  lemma AbortExact(srv: Server, names: seq<StreamName>, k: nat, t: TableRef)
    requires k < |names| && forall n :: n in names ==> Committable(srv, n)
    requires (forall i :: 0 <= i < k ==> Landable(srv, names[i])) && !Landable(srv, names[k])
    ensures var b := Batch(srv, names);
            && b.reply == Aborted
            && Drained(srv, b.server, Listed(names[..k + 1]))
            && Grown(srv, b.server, t, Gain(srv, names[..k], {}, t))
  {
    var before, n := names[..k], names[k];
    ErrorsExactly(srv, names);
    CommitAllStops(srv, srv, names, {}, k);
    forall m | m in before ensures Committable(srv, m) && Landable(srv, m) { assert m in names; }
    CommitAllDrains(srv, srv, before, {});
    CommitAllGrows(srv, srv, before, {}, t);
    var done := Listed(before);
    assert {} + done == done && n !in done;
    CommitFirst(srv, CommitAll(srv, before).server, n, done);
    UpTo(names, k);
  }

  /** The smallest case: the first stream's rows went in, the second one's were thrown away. */
  lemma MissingTableBreaksAtomicity(srv: Server, a: StreamName, b: StreamName)
    requires a != b && Committable(srv, a) && Committable(srv, b)
    requires Landable(srv, a) && !Landable(srv, b)
    ensures var r := Batch(srv, [a, b]);
            && r.reply == Aborted
            && a in r.server.streams && r.server.streams[a].state == Committed
            && r.server.storage == DoCommit(srv, a).server.storage
            && b in r.server.streams && r.server.streams[b].buffer == []
  {
    ErrorsExactly(srv, [a, b]);
    CommitFirst(srv, srv, a, {});
    var mid := DoCommit(srv, a).server;
    assert [a, b][1..] == [b];
    CommitFirst(srv, mid, b, {a});
    assert CommitAll(mid, [b]) == Result(DoCommit(mid, b).server, Crashed);
  }

  /**
   The passes take no lock.  Whatever else runs in between, short of removing the stream, a stream
   that passed the first pass reaches its commit either untouched or already committed by another batch.
   */
  lemma ValidatedStays(srv: Server, events: seq<Event>, n: StreamName)
    requires AllWellFormed(srv.streams) && Committable(srv, n) && RemoveStream(n) !in events
    ensures var later := Run(srv, events).streams; n in later && (later[n] == srv.streams[n] || later[n].state == Committed)
  {
    ForwardOnly(srv, events, n);
  }
}
