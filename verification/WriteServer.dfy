/**
 The Storage Write API server: many streams, the tables they feed, the row counts of the
 catalog and the gauge of active streams.

 Stream names are taken apart already (table and stream id).  Inserting into a table that
 has no physical counterpart raises, which aborts the call after the stream has changed.
 Other writers of the same tables are not part of this model.
 */
module WriteServer {
  import opened Basics
  import opened WriteStreams
  import opened MapSum

  datatype StreamName = Named(table: TableRef, id: string) | Malformed(text: string)

  datatype Server = Server(
    cap: int,                           // rows a stream may hold back
    streams: map<StreamName, Stream>,
    gauge: map<StreamKind, int>,
    storage: map<TableRef, seq<Row>>,   // physical tables
    counts: map<TableRef, nat>)         // `num_rows` of the tables in the catalog

  function GaugeOf(srv: Server, k: StreamKind): int { if k in srv.gauge then srv.gauge[k] else 0 }

  function Bump(srv: Server, k: StreamKind, delta: int): map<StreamKind, int> {
    srv.gauge[k := GaugeOf(srv, k) + delta]
  }

  datatype Event =
    | CreateStream(name: StreamName, kind: StreamKind)
    | OpenDefault(table: TableRef)
    | AppendRows(name: StreamName, rows: seq<Row>, offset: Option<int>)
    | FinalizeStream(name: StreamName)
    | CommitStream(name: StreamName)     // one iteration of the second pass of a batch commit
    | FlushRows(name: StreamName, upTo: int)
    | RemoveStream(name: StreamName)

  datatype Reply =
    | Acked(offset: int)
    | Refused(status: Status)
    | Rows(rowCount: nat)
    | Missing
    | Failed(offset: int)                // the precondition of finalize failed
    | Crashed                            // an exception left the handler

  datatype Result = Result(server: Server, reply: Reply)

  const DEFAULT_ID: string := "_default"

  function Put(srv: Server, n: StreamName, s: Stream): Server { srv.(streams := srv.streams[n := s]) }

  /** Insert rows into the target and add them to the catalog's count, if the catalog knows the table. */
  function Insert(srv: Server, t: TableRef, rows: seq<Row>): Server
    requires t in srv.storage
  {
    srv.(storage := srv.storage[t := srv.storage[t] + rows],
         counts := if t in srv.counts then srv.counts[t := srv.counts[t] + |rows|] else srv.counts)
  }

  /** Insert what a call hands over; the insert raises when the table is gone. */
  function Deliver(srv: Server, t: TableRef, rows: seq<Row>, reply: Reply): Result {
    if rows == [] then Result(srv, reply)
    else if t in srv.storage then Result(Insert(srv, t, rows), reply)
    else Result(srv, Crashed)
  }

  /** Store the stream of an accepted call, then insert what it hands over. */
  function Settle(srv: Server, n: StreamName, e: Effect, reply: Reply): Result {
    Deliver(Put(srv, n, e.stream), e.stream.table, e.publish, reply)
  }

  function DoCreate(srv: Server, n: StreamName, kind: StreamKind): Result {
    if n.Malformed? || n.table !in srv.counts then Result(srv, Missing)
    else if kind == DefaultStream then Result(srv, Refused(InvalidArgument))
    else if n in srv.streams then Result(srv, Crashed)
    else Result(Put(srv, n, Fresh(n.table, kind, true)).(gauge := Bump(srv, kind, 1)), Rows(0))
  }

  function DoOpenDefault(srv: Server, t: TableRef): Result {
    var n := Named(t, DEFAULT_ID);
    if t !in srv.counts then Result(srv, Missing)
    else if n in srv.streams then Result(srv, Rows(0))
    else Result(Put(srv, n, Fresh(t, DefaultStream, false)), Rows(0))
  }

  function DoAppend(srv: Server, n: StreamName, rows: seq<Row>, offset: Option<int>): Result {
    if n !in srv.streams then Result(srv, Missing)
    else
      var e := Append(srv.streams[n], rows, offset, srv.cap);
      if e.status != Ok then Result(srv, Refused(e.status)) else Settle(srv, n, e, Acked(e.offset))
  }

  function DoFinalize(srv: Server, n: StreamName): Result {
    if n !in srv.streams then Result(srv, Missing)
    else
      var s := srv.streams[n];
      if s.kind == DefaultStream then Result(srv, Refused(InvalidArgument))
      else if s.state == Committed then Result(srv, Failed(0))
      else if s.state == Finalized then Result(srv, Rows(s.rowCount))
      else
        Result(Put(srv, n, s.(state := Finalized, registered := false))
               .(gauge := if s.registered then Bump(srv, s.kind, -1) else srv.gauge), Rows(s.rowCount))
  }

  function DoCommit(srv: Server, n: StreamName): Result {
    if n !in srv.streams then Result(srv, Missing)
    else
      var e := Commit(srv.streams[n]);
      if e.status != Ok then Result(srv, Refused(e.status)) else Settle(srv, n, e, Acked(0))
  }

  function DoFlush(srv: Server, n: StreamName, upTo: int): Result {
    if n !in srv.streams then Result(srv, Missing)
    else if srv.streams[n].kind != BufferedStream then Result(srv, Refused(InvalidArgument))
    else
      var e := Flush(srv.streams[n], upTo);
      if e.status != Ok then Result(srv, Refused(e.status)) else Settle(srv, n, e, Acked(e.offset))
  }

  /** Removal without finalize; the gauge is balanced by the removal callback. */
  function DoRemove(srv: Server, n: StreamName): Result {
    if n !in srv.streams then Result(srv, Missing)
    else
      var s := srv.streams[n];
      Result(srv.(streams := srv.streams - {n}, gauge := if s.registered then Bump(srv, s.kind, -1) else srv.gauge), Rows(s.rowCount))
  }

  function Do(srv: Server, e: Event): Result {
    match e
    case CreateStream(n, kind) => DoCreate(srv, n, kind)
    case OpenDefault(t) => DoOpenDefault(srv, t)
    case AppendRows(n, rows, offset) => DoAppend(srv, n, rows, offset)
    case FinalizeStream(n) => DoFinalize(srv, n)
    case CommitStream(n) => DoCommit(srv, n)
    case FlushRows(n, upTo) => DoFlush(srv, n, upTo)
    case RemoveStream(n) => DoRemove(srv, n)
  }

  function Run(srv: Server, events: seq<Event>): Server
    decreases |events|
  {
    if events == [] then srv else Run(Do(srv, events[0]).server, events[1..])
  }

  predicate MovesRows(e: Event) { e.AppendRows? || e.CommitStream? || e.FlushRows? }

  /** The stream after a call that moves rows; a refused call leaves it as it was. */
  function Moved(srv: Server, e: Event): Stream
    requires MovesRows(e) && e.name in srv.streams
  {
    match e
    case AppendRows(n, rows, offset) => Append(srv.streams[n], rows, offset, srv.cap).stream
    case CommitStream(n) => Commit(srv.streams[n]).stream
    case FlushRows(n, upTo) => Flush(srv.streams[n], upTo).stream
  }

  /** Calls that move rows change at most the named stream, and never the gauge. */
  lemma OnlyNamedStreamMoves(srv: Server, e: Event)
    requires MovesRows(e)
    ensures Do(srv, e).server.gauge == srv.gauge
    ensures Do(srv, e).server.streams == if e.name in srv.streams then srv.streams[e.name := Moved(srv, e)] else srv.streams
  {
    if e.name in srv.streams { assert srv.streams[e.name := srv.streams[e.name]] == srv.streams; }
    match e
    case AppendRows(n, rows, offset) => assert Do(srv, e) == DoAppend(srv, n, rows, offset);
    case CommitStream(n) => assert Do(srv, e) == DoCommit(srv, n);
    case FlushRows(n, upTo) => assert Do(srv, e) == DoFlush(srv, n, upTo);
  }

  // ---- Well-formed streams ----

  ghost predicate AllWellFormed(streams: map<StreamName, Stream>) {
    forall n :: n in streams ==> WellFormed(streams[n])
  }

  lemma WellFormedLifecycle(srv: Server, e: Event)
    requires AllWellFormed(srv.streams) && (e.CreateStream? || e.OpenDefault? || e.FinalizeStream? || e.RemoveStream?)
    ensures AllWellFormed(Do(srv, e).server.streams)
  {
  }

  lemma WellFormedStep(srv: Server, e: Event)
    requires AllWellFormed(srv.streams)
    ensures AllWellFormed(Do(srv, e).server.streams)
  {
    if MovesRows(e) {
      OnlyNamedStreamMoves(srv, e);
      if e.name in srv.streams {
        match e
        case AppendRows(n, rows, offset) => WellFormedAppend(srv.streams[n], rows, offset, srv.cap);
        case CommitStream(n) => WellFormedCommit(srv.streams[n]);
        case FlushRows(n, upTo) => WellFormedFlush(srv.streams[n], upTo);
      }
    } else {
      WellFormedLifecycle(srv, e);
    }
  }

  // ---- Row conservation ----

  /** What stream `s` holds back of row `r` from table `t`. */
  ghost function HeldFor(s: Stream, t: TableRef, r: Row): nat { if s.table == t then Occ(Held(s), r) else 0 }

  ghost function HeldMap(streams: map<StreamName, Stream>, t: TableRef, r: Row): map<StreamName, nat> {
    map n | n in streams :: HeldFor(streams[n], t, r)
  }

  /** Copies of `r` acknowledged for `t` and held back by some stream. */
  ghost function Buffered(streams: map<StreamName, Stream>, t: TableRef, r: Row): nat { Sum(HeldMap(streams, t, r)) }

  lemma BufferedPut(streams: map<StreamName, Stream>, t: TableRef, r: Row, n: StreamName, s: Stream)
    ensures Buffered(streams[n := s], t, r) + (if n in streams then HeldFor(streams[n], t, r) else 0)
            == Buffered(streams, t, r) + HeldFor(s, t, r)
  {
    assert HeldMap(streams[n := s], t, r) == HeldMap(streams, t, r)[n := HeldFor(s, t, r)];
    SumPut(HeldMap(streams, t, r), n, HeldFor(s, t, r));
  }

  lemma BufferedRemove(streams: map<StreamName, Stream>, t: TableRef, r: Row, n: StreamName)
    requires n in streams
    ensures Buffered(streams - {n}, t, r) + HeldFor(streams[n], t, r) == Buffered(streams, t, r)
  {
    assert HeldMap(streams - {n}, t, r) == HeldMap(streams, t, r) - {n};
    SumSplit(HeldMap(streams, t, r), n);
  }

  function RowsIn(srv: Server, t: TableRef): seq<Row> { if t in srv.storage then srv.storage[t] else [] }

  /** Copies of `r` the server answers for: in the table, or acknowledged and held back. */
  ghost function Accounted(srv: Server, t: TableRef, r: Row): nat {
    Occ(RowsIn(srv, t), r) + Buffered(srv.streams, t, r)
  }

  /** Copies of `r` acknowledged to the client by this event. */
  ghost function AckedBy(srv: Server, e: Event, t: TableRef, r: Row): nat {
    if e.AppendRows? && Do(srv, e).reply.Acked? && srv.streams[e.name].table == t then Occ(e.rows, r) else 0
  }

  /** Acknowledged copies of `r` this event throws away. */
  ghost function LostBy(srv: Server, e: Event, t: TableRef, r: Row): nat {
    match e
    case RemoveStream(n) => if n in srv.streams then HeldFor(srv.streams[n], t, r) else 0
    case CommitStream(n) =>
      if DoCommit(srv, n).reply.Crashed? && srv.streams[n].table == t then Occ(Commit(srv.streams[n]).publish, r) else 0
    case FlushRows(n, upTo) =>
      if DoFlush(srv, n, upTo).reply.Crashed? && srv.streams[n].table == t then Occ(Flush(srv.streams[n], upTo).publish, r) else 0
    case _ => 0
  }

  lemma DeliverBalances(srv: Server, u: TableRef, rows: seq<Row>, reply: Reply, t: TableRef, r: Row)
    requires !reply.Crashed?
    ensures var q := Deliver(srv, u, rows, reply);
            && q.server.streams == srv.streams
            && Occ(RowsIn(q.server, t), r) == Occ(RowsIn(srv, t), r) + if u == t && !q.reply.Crashed? then Occ(rows, r) else 0
  {
    OccConcat(RowsIn(srv, t), rows, r);
    assert RowsIn(srv, t) + [] == RowsIn(srv, t);
  }

  /** Settling moves the handed-over rows from the stream's account to the table, or drops them if it crashes. */
  lemma SettleBalances(srv: Server, n: StreamName, e: Effect, reply: Reply, t: TableRef, r: Row)
    requires n in srv.streams && e.stream.table == srv.streams[n].table && !reply.Crashed?
    ensures var q := Settle(srv, n, e, reply);
            Accounted(q.server, t, r) + HeldFor(srv.streams[n], t, r)
            == Accounted(srv, t, r) + HeldFor(e.stream, t, r)
               + (if e.stream.table == t && !q.reply.Crashed? then Occ(e.publish, r) else 0)
  {
    BufferedPut(srv.streams, t, r, n, e.stream);
    DeliverBalances(Put(srv, n, e.stream), e.stream.table, e.publish, reply, t, r);
  }

  lemma AcceptedBalances(srv: Server, n: StreamName, f: Effect, rows: seq<Row>, t: TableRef, r: Row)
    requires n in srv.streams && f.stream.table == srv.streams[n].table
    requires (f.publish == rows && Held(f.stream) == [] == Held(srv.streams[n])) || (f.publish == [] && Held(f.stream) == Held(srv.streams[n]) + rows)
    ensures var q := Settle(srv, n, f, Acked(f.offset));
            Accounted(q.server, t, r) == Accounted(srv, t, r) + (if f.stream.table == t && q.reply.Acked? then Occ(rows, r) else 0)
  {
    SettleBalances(srv, n, f, Acked(f.offset), t, r);
    OccConcat(Held(srv.streams[n]), rows, r);
  }

  lemma DoAppendBalances(srv: Server, n: StreamName, rows: seq<Row>, offset: Option<int>, t: TableRef, r: Row)
    requires n in srv.streams && WellFormed(srv.streams[n])
    ensures var q := DoAppend(srv, n, rows, offset);
            Accounted(q.server, t, r) == Accounted(srv, t, r) + (if srv.streams[n].table == t && q.reply.Acked? then Occ(rows, r) else 0)
  {
    var f := Append(srv.streams[n], rows, offset, srv.cap);
    if f.status == Ok {
      AppendConserves(srv.streams[n], rows, offset, srv.cap);
      AcceptedBalances(srv, n, f, rows, t, r);
    }
  }

  lemma AppendBalances(srv: Server, e: Event, t: TableRef, r: Row)
    requires AllWellFormed(srv.streams) && e.AppendRows?
    ensures Accounted(Do(srv, e).server, t, r) == Accounted(srv, t, r) + AckedBy(srv, e, t, r)
  {
    if e.name in srv.streams { DoAppendBalances(srv, e.name, e.rows, e.offset, t, r); }
  }

  lemma CommitBalances(srv: Server, n: StreamName, t: TableRef, r: Row)
    requires AllWellFormed(srv.streams)
    ensures Accounted(DoCommit(srv, n).server, t, r) + LostBy(srv, CommitStream(n), t, r) == Accounted(srv, t, r)
  {
    if n in srv.streams {
      var s := srv.streams[n];
      var f := Commit(s);
      CommitConserves(s);
      if f.status == Ok {
        SettleBalances(srv, n, f, Acked(0), t, r);
        OccConcat(f.publish, Held(f.stream), r);
      }
    }
  }

  lemma FlushBalances(srv: Server, n: StreamName, upTo: int, t: TableRef, r: Row)
    requires AllWellFormed(srv.streams)
    ensures Accounted(DoFlush(srv, n, upTo).server, t, r) + LostBy(srv, FlushRows(n, upTo), t, r) == Accounted(srv, t, r)
  {
    if n in srv.streams {
      var s := srv.streams[n];
      var f := Flush(s, upTo);
      FlushConserves(s, upTo);
      if f.status == Ok {
        SettleBalances(srv, n, f, Acked(f.offset), t, r);
        OccConcat(f.publish, Held(f.stream), r);
      }
    }
  }

  lemma OpeningBalances(srv: Server, e: Event, t: TableRef, r: Row)
    requires e.CreateStream? || e.OpenDefault?
    ensures Accounted(Do(srv, e).server, t, r) == Accounted(srv, t, r)
  {
    match e
    case CreateStream(n, kind) => if n.Named? { BufferedPut(srv.streams, t, r, n, Fresh(n.table, kind, true)); }
    case OpenDefault(u) => BufferedPut(srv.streams, t, r, Named(u, DEFAULT_ID), Fresh(u, DefaultStream, false));
  }

  lemma FinalizeBalances(srv: Server, n: StreamName, t: TableRef, r: Row)
    ensures Accounted(DoFinalize(srv, n).server, t, r) == Accounted(srv, t, r)
  {
    if n in srv.streams { BufferedPut(srv.streams, t, r, n, srv.streams[n].(state := Finalized, registered := false)); }
  }

  lemma RemoveBalances(srv: Server, n: StreamName, t: TableRef, r: Row)
    ensures Accounted(DoRemove(srv, n).server, t, r) + LostBy(srv, RemoveStream(n), t, r) == Accounted(srv, t, r)
  {
    if n in srv.streams { BufferedRemove(srv.streams, t, r, n); }
  }

  /** Every event keeps the books: what is accounted for grows by what it acknowledges and shrinks by what it loses. */
  lemma StepBalances(srv: Server, e: Event, t: TableRef, r: Row)
    requires AllWellFormed(srv.streams)
    ensures Accounted(Do(srv, e).server, t, r) + LostBy(srv, e, t, r) == Accounted(srv, t, r) + AckedBy(srv, e, t, r)
  {
    match e
    case AppendRows(_, _, _) => AppendBalances(srv, e, t, r);
    case CommitStream(n) => CommitBalances(srv, n, t, r);
    case FlushRows(n, upTo) => FlushBalances(srv, n, upTo, t, r);
    case CreateStream(_, _) => OpeningBalances(srv, e, t, r);
    case OpenDefault(_) => OpeningBalances(srv, e, t, r);
    case FinalizeStream(n) => FinalizeBalances(srv, n, t, r);
    case RemoveStream(n) => RemoveBalances(srv, n, t, r);
  }

  ghost function AckedTotal(srv: Server, events: seq<Event>, t: TableRef, r: Row): nat
    decreases |events|
  {
    if events == [] then 0
    else AckedBy(srv, events[0], t, r) + AckedTotal(Do(srv, events[0]).server, events[1..], t, r)
  }

  ghost function LostTotal(srv: Server, events: seq<Event>, t: TableRef, r: Row): nat
    decreases |events|
  {
    if events == [] then 0
    else LostBy(srv, events[0], t, r) + LostTotal(Do(srv, events[0]).server, events[1..], t, r)
  }

  /** Row conservation, row by row, over every interleaving of calls on any number of streams. */
  lemma {:induction false} RowsConserved(srv: Server, events: seq<Event>, t: TableRef, r: Row)
    requires AllWellFormed(srv.streams)
    ensures Accounted(Run(srv, events), t, r) + LostTotal(srv, events, t, r)
            == Accounted(srv, t, r) + AckedTotal(srv, events, t, r)
    decreases |events|
  {
    if events != [] {
      WellFormedStep(srv, events[0]);
      StepBalances(srv, events[0], t, r);
      RowsConserved(Do(srv, events[0]).server, events[1..], t, r);
    }
  }

  // ---- When nothing is lost ----

  /**
   The event throws nothing away: a stream that is removed holds nothing back, and a table that a commit or
   a flush is about to publish rows to exists.  Checked on the state before the event.
   */
  ghost predicate Harmless(srv: Server, e: Event) {
    (e.RemoveStream? || e.CommitStream? || e.FlushRows?) && e.name in srv.streams ==>
      var s := srv.streams[e.name];
      match e
      case RemoveStream(_) => Held(s) == []
      case CommitStream(_) => s.kind == PendingStream && s.state == Finalized && Held(s) != [] ==> s.table in srv.storage
      case FlushRows(_, upTo) =>
        s.kind == BufferedStream && s.state == Open && s.flushed < upTo <= s.nextOffset ==> s.table in srv.storage
      case _ => true
  }

  ghost predicate HarmlessRun(srv: Server, events: seq<Event>)
    decreases |events|
  {
    events != [] ==> Harmless(srv, events[0]) && HarmlessRun(Do(srv, events[0]).server, events[1..])
  }

  lemma HarmlessLosesNothing(srv: Server, e: Event, t: TableRef, r: Row)
    requires AllWellFormed(srv.streams) && Harmless(srv, e)
    ensures LostBy(srv, e, t, r) == 0
  {
    match e
    case CommitStream(n) => if n in srv.streams { CommitConserves(srv.streams[n]); }
    case FlushRows(n, upTo) => if n in srv.streams { FlushConserves(srv.streams[n], upTo); }
    case _ =>
  }

  lemma CommitLoses(srv: Server, n: StreamName) returns (r: Row)
    requires n in srv.streams && WellFormed(srv.streams[n]) && !Harmless(srv, CommitStream(n))
    ensures LostBy(srv, CommitStream(n), srv.streams[n].table, r) > 0
  {
    var s := srv.streams[n];
    var rows := Commit(s).publish;
    CommitConserves(s);
    assert rows == Held(s) by { assert rows + [] == rows; }
    r := rows[|rows| - 1];
    OccOfLast(rows);
  }

  lemma FlushLoses(srv: Server, n: StreamName, upTo: int) returns (r: Row)
    requires n in srv.streams && WellFormed(srv.streams[n]) && !Harmless(srv, FlushRows(n, upTo))
    ensures LostBy(srv, FlushRows(n, upTo), srv.streams[n].table, r) > 0
  {
    var s := srv.streams[n];
    var rows := Flush(s, upTo).publish;
    FlushConserves(s, upTo);
    r := rows[|rows| - 1];
    OccOfLast(rows);
  }

  lemma HarmLosesSomething(srv: Server, e: Event) returns (t: TableRef, r: Row)
    requires AllWellFormed(srv.streams) && !Harmless(srv, e)
    ensures LostBy(srv, e, t, r) > 0
  {
    t := srv.streams[e.name].table;
    match e
    case RemoveStream(n) =>
      var held := Held(srv.streams[n]);
      r := held[|held| - 1];
      OccOfLast(held);
    case CommitStream(n) => r := CommitLoses(srv, n);
    case FlushRows(n, upTo) => r := FlushLoses(srv, n, upTo);
  }

  ghost predicate LosesNothing(srv: Server, events: seq<Event>) { forall t, r :: LostTotal(srv, events, t, r) == 0 }

  lemma LosesNothingStep(srv: Server, events: seq<Event>)
    requires AllWellFormed(srv.streams) && events != []
    ensures LosesNothing(srv, events) <==> Harmless(srv, events[0]) && LosesNothing(Do(srv, events[0]).server, events[1..])
  {
    var srv', rest := Do(srv, events[0]).server, events[1..];
    if Harmless(srv, events[0]) {
      forall t, r
        ensures LostTotal(srv, events, t, r) == LostTotal(srv', rest, t, r)
      {
        HarmlessLosesNothing(srv, events[0], t, r);
      }
    } else {
      var t, r := HarmLosesSomething(srv, events[0]);
      assert LostTotal(srv, events, t, r) > 0;
    }
  }

  /** Over every run, nothing acknowledged is ever lost if and only if each event is harmless where it happens. */
  lemma {:induction false} NothingLost(srv: Server, events: seq<Event>)
    requires AllWellFormed(srv.streams)
    ensures LosesNothing(srv, events) <==> HarmlessRun(srv, events)
    decreases |events|
  {
    if events != [] {
      WellFormedStep(srv, events[0]);
      LosesNothingStep(srv, events);
      NothingLost(Do(srv, events[0]).server, events[1..]);
    }
  }

  // ---- Catalog row counts ----

  ghost predicate CountsAgree(srv: Server) {
    forall t :: t in srv.counts && t in srv.storage ==> srv.counts[t] == |srv.storage[t]|
  }

  lemma CountsStep(srv: Server, e: Event)
    requires CountsAgree(srv)
    ensures CountsAgree(Do(srv, e).server)
  {
  }

  /** `num_rows` of a table stays its physical row count. */
  lemma {:induction false} CountsOverRuns(srv: Server, events: seq<Event>)
    requires CountsAgree(srv)
    ensures CountsAgree(Run(srv, events))
    decreases |events|
  {
    if events != [] {
      CountsStep(srv, events[0]);
      CountsOverRuns(Do(srv, events[0]).server, events[1..]);
    }
  }

  // ---- Lifecycle ----

  function Rank(s: StreamState): nat {
    match s
    case Open => 0
    case Finalized => 1
    case Committed => 2
  }

  /** `s'` is a later state of the same stream: never backwards, and frozen once closed. */
  ghost predicate Later(s: Stream, s': Stream) {
    && s'.table == s.table && s'.kind == s.kind
    && Rank(s.state) <= Rank(s'.state)
    && s.rowCount <= s'.rowCount && s.flushed <= s'.flushed
    && (s.kind != DefaultStream && s.state != Open ==>
          s'.rowCount == s.rowCount && s'.nextOffset == s.nextOffset && s'.flushed == s.flushed
          && (s'.state == s.state ==> s' == s))
  }

  lemma LaterMoved(srv: Server, e: Event)
    requires MovesRows(e) && e.name in srv.streams && WellFormed(srv.streams[e.name])
    ensures Later(srv.streams[e.name], Moved(srv, e))
    ensures Moved(srv, e).registered == srv.streams[e.name].registered
  {
  }

  lemma LaterLifecycle(srv: Server, e: Event, n: StreamName)
    requires n in srv.streams && !MovesRows(e) && e != RemoveStream(n)
    ensures n in Do(srv, e).server.streams && Later(srv.streams[n], Do(srv, e).server.streams[n])
  {
  }

  lemma LaterStep(srv: Server, e: Event, n: StreamName)
    requires n in srv.streams && AllWellFormed(srv.streams) && e != RemoveStream(n)
    ensures n in Do(srv, e).server.streams && Later(srv.streams[n], Do(srv, e).server.streams[n])
  {
    if MovesRows(e) {
      OnlyNamedStreamMoves(srv, e);
      if e.name == n { LaterMoved(srv, e); }
    } else {
      LaterLifecycle(srv, e, n);
    }
  }

  /** Streams only move forward, over any run that does not remove them. */
  lemma {:induction false} ForwardOnly(srv: Server, events: seq<Event>, n: StreamName)
    requires n in srv.streams && AllWellFormed(srv.streams) && RemoveStream(n) !in events
    ensures n in Run(srv, events).streams && Later(srv.streams[n], Run(srv, events).streams[n])
    decreases |events|
  {
    if events != [] {
      LaterStep(srv, events[0], n);
      WellFormedStep(srv, events[0]);
      ForwardOnly(Do(srv, events[0]).server, events[1..], n);
    }
  }

  /** Finalizing again, whatever happened in between, reports the same count or that the stream is committed. */
  lemma FinalizeIsIdempotent(srv: Server, events: seq<Event>, n: StreamName)
    requires n in srv.streams && AllWellFormed(srv.streams) && RemoveStream(n) !in events
    requires DoFinalize(srv, n).reply.Rows?
    ensures var later := Run(DoFinalize(srv, n).server, events);
            && DoFinalize(later, n).server == later
            && DoFinalize(later, n).reply in {DoFinalize(srv, n).reply, Failed(0)}
  {
    var srv1 := DoFinalize(srv, n).server;
    WellFormedStep(srv, FinalizeStream(n));
    ForwardOnly(srv1, events, n);
    assert srv1.streams[n].state == Finalized;
  }

  // ---- The gauge ----

  ghost function Registered(streams: map<StreamName, Stream>, k: StreamKind): set<StreamName> {
    set n | n in streams && streams[n].registered && streams[n].kind == k
  }

  /** Per type, the gauge is the number of registered streams. */
  ghost predicate GaugeExact(srv: Server) {
    forall k :: GaugeOf(srv, k) == |Registered(srv.streams, k)|
  }

  lemma RegisteredPut(streams: map<StreamName, Stream>, n: StreamName, s: Stream, k: StreamKind)
    ensures Registered(streams[n := s], k) ==
            if s.registered && s.kind == k then Registered(streams, k) + {n} else Registered(streams, k) - {n}
    ensures Registered(streams - {n}, k) == Registered(streams, k) - {n}
    ensures n in Registered(streams, k) <==> n in streams && streams[n].registered && streams[n].kind == k
  {
  }

  lemma GaugeCreate(srv: Server, n: StreamName, kind: StreamKind, k: StreamKind)
    requires GaugeExact(srv)
    ensures GaugeOf(DoCreate(srv, n, kind).server, k) == |Registered(DoCreate(srv, n, kind).server.streams, k)|
  {
    if n.Named? { RegisteredPut(srv.streams, n, Fresh(n.table, kind, true), k); }
  }

  lemma OneLess<T>(s: set<T>, x: T)
    ensures |s - {x}| == |s| - if x in s then 1 else 0
  {
  }

  function Released(srv: Server, s: Stream): map<StreamKind, int> { if s.registered then Bump(srv, s.kind, -1) else srv.gauge }

  /** Lowering the gauge of a stream's kind, if it was registered, follows its leaving the registered streams. */
  lemma GaugeReleased(srv: Server, n: StreamName, k: StreamKind)
    requires n in srv.streams && GaugeOf(srv, k) == |Registered(srv.streams, k)|
    ensures GaugeOf(srv.(gauge := Released(srv, srv.streams[n])), k) == |Registered(srv.streams, k) - {n}|
  {
    OneLess(Registered(srv.streams, k), n);
  }

  lemma GaugeFinalize(srv: Server, n: StreamName, k: StreamKind)
    requires GaugeOf(srv, k) == |Registered(srv.streams, k)|
    ensures GaugeOf(DoFinalize(srv, n).server, k) == |Registered(DoFinalize(srv, n).server.streams, k)|
  {
    if n in srv.streams && srv.streams[n].kind != DefaultStream && srv.streams[n].state == Open {
      var closed := srv.streams[n].(state := Finalized, registered := false);
      GaugeReleased(srv, n, k);
      RegisteredPut(srv.streams, n, closed, k);
      var srv' := DoFinalize(srv, n).server;
      assert srv'.streams == srv.streams[n := closed] && srv'.gauge == Released(srv, srv.streams[n]);
    } else {
      assert DoFinalize(srv, n).server == srv;
    }
  }

  lemma RegisteredSame(streams: map<StreamName, Stream>, n: StreamName, s: Stream, k: StreamKind)
    requires n in streams && s.registered == streams[n].registered && s.kind == streams[n].kind
    ensures Registered(streams[n := s], k) == Registered(streams, k)
  {
  }

  lemma GaugeRemove(srv: Server, n: StreamName, k: StreamKind)
    requires GaugeExact(srv)
    ensures GaugeOf(DoRemove(srv, n).server, k) == |Registered(DoRemove(srv, n).server.streams, k)|
  {
    if n in srv.streams { RegisteredPut(srv.streams, n, srv.streams[n], k); }
  }

  lemma GaugeOpenDefault(srv: Server, t: TableRef, k: StreamKind)
    requires GaugeExact(srv)
    ensures GaugeOf(DoOpenDefault(srv, t).server, k) == |Registered(DoOpenDefault(srv, t).server.streams, k)|
  {
    RegisteredPut(srv.streams, Named(t, DEFAULT_ID), Fresh(t, DefaultStream, false), k);
  }

  lemma GaugeMoved(srv: Server, e: Event, k: StreamKind)
    requires GaugeExact(srv) && AllWellFormed(srv.streams) && MovesRows(e)
    ensures GaugeOf(Do(srv, e).server, k) == |Registered(Do(srv, e).server.streams, k)|
  {
    OnlyNamedStreamMoves(srv, e);
    if e.name in srv.streams {
      LaterMoved(srv, e);
      RegisteredSame(srv.streams, e.name, Moved(srv, e), k);
    }
  }

  lemma GaugeStep(srv: Server, e: Event, k: StreamKind)
    requires GaugeExact(srv) && AllWellFormed(srv.streams)
    ensures GaugeOf(Do(srv, e).server, k) == |Registered(Do(srv, e).server.streams, k)|
  {
    match e
    case CreateStream(n, kind) => GaugeCreate(srv, n, kind, k);
    case FinalizeStream(n) => GaugeFinalize(srv, n, k);
    case RemoveStream(n) => GaugeRemove(srv, n, k);
    case OpenDefault(t) => GaugeOpenDefault(srv, t, k);
    case _ => GaugeMoved(srv, e, k);
  }

  /** The gauge is exact, hence never negative, in every reachable state, removals without finalize included. */
  lemma {:induction false} GaugeOverRuns(srv: Server, events: seq<Event>)
    requires GaugeExact(srv) && AllWellFormed(srv.streams)
    ensures GaugeExact(Run(srv, events))
    decreases |events|
  {
    if events != [] {
      forall k ensures GaugeOf(Do(srv, events[0]).server, k) == |Registered(Do(srv, events[0]).server.streams, k)| {
        GaugeStep(srv, events[0], k);
      }
      WellFormedStep(srv, events[0]);
      GaugeOverRuns(Do(srv, events[0]).server, events[1..]);
    }
  }
}
