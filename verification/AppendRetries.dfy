/**
 A client that sends the rows of one source through one stream, each request with the offset its rows
 have there, and repeats requests as it likes.
 */
module AppendRetries {
  import opened Basics
  import opened WriteStreams
  import opened WriteServer

  datatype Attempt = Attempt(rows: seq<Row>, offset: int)

  function Send(srv: Server, n: StreamName, a: Attempt): Result { DoAppend(srv, n, a.rows, Some(a.offset)) }

  function After(srv: Server, n: StreamName, attempts: seq<Attempt>): Server
    decreases |attempts|
  {
    if attempts == [] then srv else After(Send(srv, n, attempts[0]).server, n, attempts[1..])
  }

  /** The rows of the acknowledged attempts, in order. */
  function Acknowledged(srv: Server, n: StreamName, attempts: seq<Attempt>): seq<Row>
    decreases |attempts|
  {
    if attempts == [] then []
    else
      var r := Send(srv, n, attempts[0]);
      (if r.reply.Acked? then attempts[0].rows else []) + Acknowledged(r.server, n, attempts[1..])
  }

  /** The attempt carries the rows of `source` that belong at its offset. */
  predicate TakenFrom(a: Attempt, source: seq<Row>) {
    0 <= a.offset && a.offset + |a.rows| <= |source| && a.rows == source[a.offset..a.offset + |a.rows|]
  }

  /** Rows that the next accepted attempt hands over have a table to go to, or there is no such attempt. */
  ghost predicate Deliverable(srv: Server, s: Stream, attempts: seq<Attempt>) {
    || s.table in srv.storage || s.kind != CommittedStream || s.state != Open
    || forall a :: a in attempts ==> a.offset != s.nextOffset || a.rows == []
  }

  /** The attempt that a missing table makes fail after the stream has moved. */
  predicate Strikes(srv: Server, s: Stream, a: Attempt) {
    s.kind == CommittedStream && s.state == Open && s.table !in srv.storage && a.offset == s.nextOffset && a.rows != []
  }

  lemma OneAttempt(srv: Server, n: StreamName, a: Attempt)
    requires n in srv.streams
    ensures var r := Send(srv, n, a);
            var s, e := srv.streams[n], Append(srv.streams[n], a.rows, Some(a.offset), srv.cap);
            && n in r.server.streams && r.server.streams[n] == e.stream && r.server.storage.Keys == srv.storage.Keys && r.server.cap == srv.cap
            && e.stream.table == s.table && e.stream.kind == s.kind && e.stream.state == s.state
            && (r.reply.Crashed? <==> Strikes(srv, s, a))
            && (r.reply.Acked? || r.reply.Crashed? <==> e.status == Ok)
            && (e.status == Ok ==> a.offset == s.nextOffset && e.stream.nextOffset == s.nextOffset + |a.rows|)
            && (e.status != Ok ==> e.stream == s)
  {
  }

  lemma Stretch(source: seq<Row>, a: nat, b: nat, c: nat)
    requires a <= b <= c <= |source|
    ensures source[a..b] + source[b..c] == source[a..c]
  {
  }

  /** Whatever is attempted, the stream's offset stays within the source and never goes back. */
  lemma {:induction false} OffsetsStayInside(srv: Server, n: StreamName, attempts: seq<Attempt>, source: seq<Row>)
    requires n in srv.streams && srv.streams[n].nextOffset <= |source|
    requires forall a :: a in attempts ==> TakenFrom(a, source)
    ensures n in After(srv, n, attempts).streams
    ensures srv.streams[n].nextOffset <= After(srv, n, attempts).streams[n].nextOffset <= |source|
    decreases |attempts|
  {
    if attempts != [] {
      assert TakenFrom(attempts[0], source);
      OneAttempt(srv, n, attempts[0]);
      OffsetsStayInside(Send(srv, n, attempts[0]).server, n, attempts[1..], source);
    }
  }

  /** A stream with somewhere to put its rows: what is acknowledged is one stretch of the source. */
  lemma {:induction false} AcknowledgedStretch(srv: Server, n: StreamName, attempts: seq<Attempt>, source: seq<Row>)
    requires n in srv.streams && srv.streams[n].nextOffset <= |source|
    requires forall a :: a in attempts ==> TakenFrom(a, source)
    requires srv.streams[n].table in srv.storage || srv.streams[n].kind != CommittedStream || srv.streams[n].state != Open
    ensures n in After(srv, n, attempts).streams
    ensures var o, o' := srv.streams[n].nextOffset, After(srv, n, attempts).streams[n].nextOffset;
            o <= o' <= |source| && Acknowledged(srv, n, attempts) == source[o..o']
    decreases |attempts|
  {
    if attempts != [] {
      var a, r := attempts[0], Send(srv, n, attempts[0]);
      assert TakenFrom(a, source);
      OneAttempt(srv, n, a);
      AcknowledgedStretch(r.server, n, attempts[1..], source);
      Stretch(source, srv.streams[n].nextOffset, r.server.streams[n].nextOffset, After(srv, n, attempts).streams[n].nextOffset);
    }
  }

  /** Without a table to go to, nothing but empty requests is acknowledged, and the offset moves at the first striking attempt. */
  lemma {:induction false} NothingDelivered(srv: Server, n: StreamName, attempts: seq<Attempt>, source: seq<Row>)
    requires n in srv.streams && srv.streams[n].nextOffset <= |source|
    requires forall a :: a in attempts ==> TakenFrom(a, source)
    requires srv.streams[n].kind == CommittedStream && srv.streams[n].state == Open && srv.streams[n].table !in srv.storage
    ensures n in After(srv, n, attempts).streams && Acknowledged(srv, n, attempts) == []
    ensures After(srv, n, attempts).streams[n].nextOffset == srv.streams[n].nextOffset <==> Deliverable(srv, srv.streams[n], attempts)
    decreases |attempts|
  {
    if attempts != [] {
      var a, r := attempts[0], Send(srv, n, attempts[0]);
      assert TakenFrom(a, source) && a in attempts;
      OneAttempt(srv, n, a);
      NothingDelivered(r.server, n, attempts[1..], source);
      OffsetsStayInside(r.server, n, attempts[1..], source);
      if !Strikes(srv, srv.streams[n], a) {
        assert forall b :: b in attempts <==> b == a || b in attempts[1..];
      }
    }
  }

  /**
   Exactly once under arbitrary delivery: whatever the order, duplication and gaps of the attempts, the
   acknowledged rows are the gapless stretch of the source that the stream's offset has passed, if and only
   if no rows are handed over to a missing table.
   */
  lemma ExactlyOnce(srv: Server, n: StreamName, attempts: seq<Attempt>, source: seq<Row>)
    requires n in srv.streams && srv.streams[n].nextOffset <= |source|
    requires forall a :: a in attempts ==> TakenFrom(a, source)
    ensures n in After(srv, n, attempts).streams
    ensures var o, o' := srv.streams[n].nextOffset, After(srv, n, attempts).streams[n].nextOffset;
            && o <= o' <= |source|
            && (Acknowledged(srv, n, attempts) == source[o..o'] <==> Deliverable(srv, srv.streams[n], attempts))
  {
    OffsetsStayInside(srv, n, attempts, source);
    var s := srv.streams[n];
    if s.table in srv.storage || s.kind != CommittedStream || s.state != Open {
      AcknowledgedStretch(srv, n, attempts, source);
    } else {
      NothingDelivered(srv, n, attempts, source);
    }
  }

  /** What the server answers for on behalf of the stream: the rows of its table, then those it holds. */
  function Ledger(srv: Server, n: StreamName): seq<Row>
    requires n in srv.streams
  {
    RowsIn(srv, srv.streams[n].table) + Held(srv.streams[n])
  }

  lemma Regroup(a: seq<Row>, b: seq<Row>, c: seq<Row>)
    ensures a + b + c == a + (b + c)
  {
  }

  lemma SendRows(srv: Server, n: StreamName, a: Attempt)
    requires n in srv.streams
    ensures var r, e := Send(srv, n, a), Append(srv.streams[n], a.rows, Some(a.offset), srv.cap);
            && n in r.server.streams && r.server.streams[n] == e.stream && e.stream.table == srv.streams[n].table
            && RowsIn(r.server, e.stream.table) == RowsIn(srv, e.stream.table) + (if r.reply.Acked? then e.publish else [])
            && (e.status != Ok ==> e.stream == srv.streams[n] && !r.reply.Acked?)
            && (e.status == Ok && !r.reply.Acked? ==> e.publish != [])
  {
    OneAttempt(srv, n, a);
  }

  lemma AttemptIsThere(srv: Server, n: StreamName, a: Attempt)
    requires n in srv.streams && WellFormed(srv.streams[n])
    ensures var r := Send(srv, n, a);
            && n in r.server.streams && WellFormed(r.server.streams[n])
            && Ledger(r.server, n) == Ledger(srv, n) + if r.reply.Acked? then a.rows else []
  {
    var s := srv.streams[n];
    WellFormedAppend(s, a.rows, Some(a.offset), srv.cap);
    SendRows(srv, n, a);
    if Append(s, a.rows, Some(a.offset), srv.cap).status == Ok {
      AppendConserves(s, a.rows, Some(a.offset), srv.cap);
      Regroup(RowsIn(srv, s.table), Held(s), a.rows);
    }
  }

  /** All that is acknowledged is there, once and in order: in the table, or held by the stream. */
  lemma {:induction false} AcknowledgedIsThere(srv: Server, n: StreamName, attempts: seq<Attempt>)
    requires n in srv.streams && WellFormed(srv.streams[n])
    ensures n in After(srv, n, attempts).streams
    ensures Ledger(After(srv, n, attempts), n) == Ledger(srv, n) + Acknowledged(srv, n, attempts)
    decreases |attempts|
  {
    if attempts == [] {
      assert Ledger(srv, n) + [] == Ledger(srv, n);
    } else {
      var r := Send(srv, n, attempts[0]);
      AttemptIsThere(srv, n, attempts[0]);
      AcknowledgedIsThere(r.server, n, attempts[1..]);
      Regroup(Ledger(srv, n), if r.reply.Acked? then attempts[0].rows else [], Acknowledged(r.server, n, attempts[1..]));
    }
  }

  /** A lost insert cannot be repaired by a retry: the rows are nowhere, and the client is told that they exist. */
  lemma RetryAfterCrash(srv: Server, n: StreamName, rows: seq<Row>)
    requires n in srv.streams
    requires Strikes(srv, srv.streams[n], Attempt(rows, srv.streams[n].nextOffset))
    ensures var again := Attempt(rows, srv.streams[n].nextOffset);
            var r := Send(srv, n, again);
            && r.reply == Crashed && r.server.storage == srv.storage && Held(r.server.streams[n]) == Held(srv.streams[n])
            && Send(r.server, n, again).reply == Refused(AlreadyExists)
  {
  }
}
