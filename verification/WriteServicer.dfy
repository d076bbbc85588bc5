/**
 The Storage Write API handler as objects: stream objects changed in place by their strategy,
 and a handler that keeps them, the target tables, the row counts and the gauge.
 */
module WriteServicer {
  import opened Basics
  import opened WriteStreams
  import opened WriteServer
  import opened BatchCommit
  import opened AppendLoop

  class WriteStream {
    const name: StreamName
    const table: TableRef
    const kind: StreamKind
    var state: StreamState
    var nextOffset: nat
    var buffer: seq<seq<Row>>
    var flushed: nat
    var rowCount: nat
    var registered: bool

    function View(): Stream
      reads this
    {
      Stream(table, kind, state, nextOffset, buffer, flushed, rowCount, registered)
    }

    constructor (name: StreamName, table: TableRef, kind: StreamKind, registered: bool)
      ensures this.name == name && View() == Fresh(table, kind, registered)
    {
      this.name, this.table, this.kind, this.registered := name, table, kind, registered;
      state, nextOffset, buffer, flushed, rowCount := Open, 0, [], 0, 0;
    }

    method Append(rows: seq<Row>, offset: Option<int>, cap: int) returns (status: Status, publish: seq<Row>, at: int)
      modifies this
      ensures Effect(View(), status, publish, at) == WriteStreams.Append(old(View()), rows, offset, cap)
    {
      if kind == DefaultStream {
        if offset.Some? { return InvalidArgument, [], 0; }
      } else {
        if state != Open { return StreamFinalized, [], 0; }
        if offset.Some? {
          if offset.value < nextOffset { return AlreadyExists, [], 0; }
          if offset.value > nextOffset { return OutOfRange, [], 0; }
        }
        if kind == PendingStream && rowCount + |rows| > cap { return ResourceExhausted, [], 0; }
        if kind == BufferedStream && nextOffset - flushed + |rows| > cap { return ResourceExhausted, [], 0; }
      }
      at := nextOffset;
      nextOffset, rowCount := nextOffset + |rows|, rowCount + |rows|;
      if kind == PendingStream || kind == BufferedStream {
        buffer := buffer + [rows];
        return Ok, [], at;
      }
      return Ok, rows, at;
    }

    method Flush(upTo: int) returns (status: Status, publish: seq<Row>, at: int)
      modifies this
      ensures Effect(View(), status, publish, at) == WriteStreams.Flush(old(View()), upTo)
    {
      if kind != BufferedStream || state != Open { return OutOfRange, [], 0; }
      if upTo > nextOffset || upTo <= flushed { return OutOfRange, [], 0; }
      if buffer == [] { return OutOfRange, [], 0; }
      var rows := Concat(buffer);
      publish := if upTo <= |rows| then rows[flushed..upTo] else [];
      flushed := upTo;
      return Ok, publish, upTo;
    }

    method Commit() returns (status: Status, publish: seq<Row>)
      modifies this
      ensures Effect(View(), status, publish, 0) == WriteStreams.Commit(old(View()))
    {
      if kind != PendingStream || state != Finalized { return InvalidArgument, []; }
      publish := Concat(buffer);
      buffer, state := [], Committed;
      return Ok, publish;
    }
  }

  class WriteHandler {
    const cap: int
    var streams: map<StreamName, WriteStream>
    var gauge: map<StreamKind, int>
    var storage: map<TableRef, seq<Row>>
    var counts: map<TableRef, nat>

    /** Stream objects sit under their own names, so no two names share one. */
    ghost predicate Valid()
      reads this, streams.Values
    {
      forall n :: n in streams ==> streams[n].name == n
    }

    ghost function Streams(): map<StreamName, Stream>
      reads this, streams.Values
    {
      map n | n in streams :: streams[n].View()
    }

    ghost function View(): Server
      reads this, streams.Values
    {
      Server(cap, Streams(), gauge, storage, counts)
    }

    constructor (cap: int, storage: map<TableRef, seq<Row>>, counts: map<TableRef, nat>)
      ensures Valid() && View() == Server(cap, map[], map[], storage, counts)
    {
      this.cap, this.storage, this.counts := cap, storage, counts;
      streams, gauge := map[], map[];
    }

    function Level(k: StreamKind): int
      reads this
    {
      if k in gauge then gauge[k] else 0
    }

    /** Insert rows, if any, into the target table and bring the catalog's count up to date. */
    method FlushToTarget(t: TableRef, rows: seq<Row>, reply: Reply) returns (r: Reply)
      modifies this`storage, this`counts
      ensures Result(View(), r) == Deliver(old(View()), t, rows, reply)
    {
      if rows == [] { return reply; }
      if t !in storage { return Crashed; }
      storage := storage[t := storage[t] + rows];
      if t in counts { counts := counts[t := counts[t] + |rows|]; }
      return reply;
    }

    /** A new stream object under a name not used before. */
    method Register(n: StreamName, t: TableRef, kind: StreamKind, registered: bool)
      requires Valid() && n !in streams
      modifies this`streams
      ensures Valid() && View() == Put(old(View()), n, Fresh(t, kind, registered))
      ensures n in streams && streams == old(streams)[n := streams[n]] && fresh(streams[n])
    {
      ghost var before := Streams();
      var s := new WriteStream(n, t, kind, registered);
      streams := streams[n := s];
      assert Streams() == before[n := s.View()];
    }

    /** Registration and the gauge's increment. */
    method OpenCounted(n: StreamName, kind: StreamKind) returns (r: Reply)
      requires Valid() && n.Named? && n !in streams
      modifies this`streams, this`gauge
      ensures Valid() && r == Rows(0)
      ensures View() == Put(old(View()), n, Fresh(n.table, kind, true)).(gauge := Bump(old(View()), kind, 1))
    {
      Register(n, n.table, kind, true);
      gauge := gauge[kind := Level(kind) + 1];
      r := Rows(0);
    }

    method CreateWriteStream(n: StreamName, kind: StreamKind) returns (r: Reply)
      requires Valid()
      modifies this
      ensures Valid() && Result(View(), r) == DoCreate(old(View()), n, kind)
    {
      if n.Malformed? || n.table !in counts { return Missing; }
      if kind == DefaultStream { return Refused(InvalidArgument); }
      if n in streams { return Crashed; }
      r := OpenCounted(n, kind);
    }

    method GetOrCreateDefault(t: TableRef) returns (r: Reply)
      requires Valid()
      modifies this`streams
      ensures Valid() && Result(View(), r) == DoOpenDefault(old(View()), t)
      ensures forall m :: m in streams ==> streams[m] in old(streams.Values) || fresh(streams[m])
    {
      if t !in counts { return Missing; }
      if Named(t, DEFAULT_ID) !in streams { Register(Named(t, DEFAULT_ID), t, DefaultStream, false); }
      r := Rows(0);
    }

    method PerformAppend(n: StreamName, rows: seq<Row>, offset: Option<int>) returns (r: Reply)
      requires Valid()
      modifies this`storage, this`counts, streams.Values
      ensures Valid() && Result(View(), r) == DoAppend(old(View()), n, rows, offset)
    {
      if n !in streams { return Missing; }
      var s := streams[n];
      ghost var before, was := View(), s.View();
      var status, publish, at := s.Append(rows, offset, cap);
      assert View() == Put(before, n, s.View());
      if status != Ok {
        assert before.streams[n := was] == before.streams;
        return Refused(status);
      }
      r := FlushToTarget(s.table, publish, Acked(at));
    }

    method FinalizeWriteStream(n: StreamName) returns (r: Reply)
      requires Valid()
      modifies this`gauge, streams.Values
      ensures Valid() && Result(View(), r) == DoFinalize(old(View()), n)
    {
      if n !in streams { return Missing; }
      var s := streams[n];
      if s.kind == DefaultStream { return Refused(InvalidArgument); }
      if s.state == Committed { return Failed(0); }
      if s.state == Finalized { return Rows(s.rowCount); }
      ghost var before := Streams();
      s.state := Finalized;
      if s.registered {
        gauge := gauge[s.kind := Level(s.kind) - 1];
        s.registered := false;
      }
      assert Streams() == before[n := s.View()];
      r := Rows(s.rowCount);
    }

    method HandleFlushRows(n: StreamName, upTo: int) returns (r: Reply)
      requires Valid()
      modifies this`storage, this`counts, streams.Values
      ensures Valid() && Result(View(), r) == DoFlush(old(View()), n, upTo)
    {
      if n !in streams { return Missing; }
      var s := streams[n];
      if s.kind != BufferedStream { return Refused(InvalidArgument); }
      ghost var before, was := View(), s.View();
      var status, publish, at := s.Flush(upTo);
      assert View() == Put(before, n, s.View());
      if status != Ok {
        assert before.streams[n := was] == before.streams;
        return Refused(status);
      }
      r := FlushToTarget(s.table, publish, Acked(at));
    }

    /** One iteration of the second pass of a batch commit. */
    method CommitOne(n: StreamName) returns (r: Reply)
      requires Valid()
      modifies this`storage, this`counts, streams.Values
      ensures Valid() && Result(View(), r) == DoCommit(old(View()), n)
    {
      if n !in streams { return Missing; }
      var s := streams[n];
      ghost var before, was := View(), s.View();
      var status, publish := s.Commit();
      assert View() == Put(before, n, s.View());
      if status != Ok {
        assert before.streams[n := was] == before.streams;
        return Refused(status);
      }
      r := FlushToTarget(s.table, publish, Acked(0));
    }

    /** First pass: look at every entry, collect the errors. */
    method CheckStream(n: StreamName) returns (found: seq<StreamError>)
      ensures found == Check(View(), n)
    {
      if n !in streams { return [StreamNotFound(n)]; }
      if streams[n].kind != PendingStream { return [InvalidStreamType(n)]; }
      if streams[n].state != Finalized { return [InvalidStreamState(n)]; }
      found := [];
    }

    method Validate(names: seq<StreamName>) returns (errors: seq<StreamError>)
      requires Valid()
      ensures errors == Errors(View(), names)
    {
      errors := [];
      ghost var srv := View();
      for i := 0 to |names|
        invariant errors + Errors(srv, names[i..]) == Errors(srv, names)
      {
        ErrorsFrom(srv, names, i);
        var found := CheckStream(names[i]);
        errors := errors + found;
      }
    }

    method BatchCommitWriteStreams(names: seq<StreamName>) returns (r: BatchReply)
      requires Valid()
      modifies this`storage, this`counts, streams.Values
      ensures Valid() && BatchResult(View(), r) == Batch(old(View()), names)
    {
      var errors := Validate(names);
      if errors != [] { return Rejected(errors); }
      for i := 0 to |names|
        invariant Valid()
        invariant CommitAll(View(), names[i..]) == CommitAll(old(View()), names)
      {
        assert names[i..][0] == names[i] && names[i..][1..] == names[i + 1..];
        var one := CommitOne(names[i]);
        if one.Crashed? { return Aborted; }
      }
      return CommitTime;
    }

    method RemoveWriteStream(n: StreamName) returns (r: Reply)
      requires Valid()
      modifies this
      ensures Valid() && Result(View(), r) == DoRemove(old(View()), n)
    {
      if n !in streams { return Missing; }
      var s := streams[n];
      streams := streams - {n};
      if s.registered { gauge := gauge[s.kind := Level(s.kind) - 1]; }
      r := Rows(s.rowCount);
    }

    /** Keep the bound stream, or bind to another; `ok` is false when the connection has to end. */
    method EnsureStreamBound(conn: Connection, n: StreamName) returns (ok: bool)
      requires Valid()
      modifies this`streams
      ensures Valid()
      ensures ok <==> Bind(old(View()), conn, n).Some?
      ensures View() == if ok then Bind(old(View()), conn, n).value else old(View())
      ensures forall m :: m in streams ==> streams[m] in old(streams.Values) || fresh(streams[m])
    {
      if conn.bound == Some(n) { return true; }
      if n.Malformed? || n.table !in counts { return false; }
      if n.id == DEFAULT_ID {
        var _ := GetOrCreateDefault(n.table);
        return true;
      }
      return n in streams;
    }

    /** The connection loop: remembered schemas and the bound stream live in locals. */
    method HandleAppendRows(requests: seq<Request>, maxBytes: nat, decode: Decoder) returns (responses: seq<Response>)
      requires Valid()
      modifies this, streams.Values
      ensures Valid()
      ensures var s := Serve(Begin(old(View())), requests, maxBytes, decode); View() == s.server && responses == s.responses
    {
      responses := [];
      var conn := Connection(None, None, None);
      ghost var start := Begin(View());
      ghost var session := start;
      for i := 0 to |requests|
        invariant Valid()
        invariant forall m :: m in streams ==> streams[m] in old(streams.Values) || fresh(streams[m])
        invariant session == Serve(start, requests[..i], maxBytes, decode) && !session.stopped
        invariant session.server == View() && session.conn == conn && session.responses == responses
      {
        var req := requests[i];
        assert requests[..i + 1][..i] == requests[..i];
        session := Turn(session, req, maxBytes, decode);
        assert session == Serve(start, requests[..i + 1], maxBytes, decode);
        if session.stopped { StoppedStays(start, requests, i + 1, maxBytes, decode); }
        if req.size > maxBytes {
          responses := responses + [Oversize(conn.bound)];
          continue;
        }
        var bound := EnsureStreamBound(conn, req.stream);
        if !bound || req.stream.Malformed? { return; }
        var conv := Convert(conn.(bound := Some(req.stream)), req.payload, req.stream.table, decode);
        conn := conv.conn;
        if conv.rows.None? {
          responses := responses + [Undecodable(req.stream)];
          continue;
        }
        var reply := PerformAppend(req.stream, conv.rows.value, req.offset);
        if reply.Crashed? { return; }
        responses := responses + [Answer(req.stream, reply)];
      }
      assert requests[..|requests|] == requests;
    }
  }
}
