/**
 One write stream of the Storage Write API: its state, and what each stream type does on
 append, flush and commit.
 */
module WriteStreams {
  import opened Basics
  import CatalogModel

  type TableRef = CatalogModel.ObjectRef

  datatype StreamKind = DefaultStream | CommittedStream | PendingStream | BufferedStream
  datatype StreamState = Open | Finalized | Committed

  datatype Stream = Stream(
    table: TableRef,
    kind: StreamKind,
    state: StreamState,
    nextOffset: nat,           // next expected offset
    buffer: seq<seq<Row>>,     // batches not handed over at append time
    flushed: nat,              // rows of the buffer already published (buffered streams)
    rowCount: nat,             // rows ever accepted
    registered: bool)          // counted in the active-stream gauge

  function Fresh(table: TableRef, kind: StreamKind, registered: bool): Stream {
    Stream(table, kind, Open, 0, [], 0, 0, registered)
  }

  function Concat(batches: seq<seq<Row>>): seq<Row> {
    if batches == [] then [] else Concat(batches[..|batches| - 1]) + batches[|batches| - 1]
  }

  lemma ConcatAppend(batches: seq<seq<Row>>, rows: seq<Row>)
    ensures Concat(batches + [rows]) == Concat(batches) + rows
  {
    assert (batches + [rows])[..|batches|] == batches;
  }

  /** Acknowledged rows the target table does not have yet. */
  function Held(s: Stream): seq<Row> {
    var rows := Concat(s.buffer);
    if s.flushed <= |rows| then rows[s.flushed..] else []
  }

  // ---- The four strategies ----

  datatype Status = Ok | AlreadyExists | OutOfRange | StreamFinalized | InvalidArgument | ResourceExhausted

  /** The stream afterwards, and the rows to insert into the target now. */
  datatype Effect = Effect(stream: Stream, status: Status, publish: seq<Row>, offset: int)

  function Refuse(s: Stream, status: Status): Effect { Effect(s, status, [], 0) }

  function Advance(s: Stream, n: nat): Stream { s.(nextOffset := s.nextOffset + n, rowCount := s.rowCount + n) }

  function Buffer(s: Stream, rows: seq<Row>): Effect {
    Effect(Advance(s, |rows|).(buffer := s.buffer + [rows]), Ok, [], s.nextOffset)
  }

  function HandOver(s: Stream, rows: seq<Row>): Effect {
    Effect(Advance(s, |rows|), Ok, rows, s.nextOffset)
  }

  /** Append under an optional explicit offset; `cap` bounds the rows a stream may hold back. */
  function Append(s: Stream, rows: seq<Row>, offset: Option<int>, cap: int): Effect {
    if s.kind == DefaultStream then
      if offset.Some? then Refuse(s, InvalidArgument) else HandOver(s, rows)
    else if s.state != Open then Refuse(s, StreamFinalized)
    else if offset.Some? && offset.value < s.nextOffset then Refuse(s, AlreadyExists)
    else if offset.Some? && offset.value > s.nextOffset then Refuse(s, OutOfRange)
    else
      match s.kind
      case PendingStream => if s.rowCount + |rows| > cap then Refuse(s, ResourceExhausted) else Buffer(s, rows)
      case BufferedStream =>
        if s.nextOffset - s.flushed + |rows| > cap then Refuse(s, ResourceExhausted) else Buffer(s, rows)
      case _ => HandOver(s, rows)
  }

  /** Publish the buffered rows below `offset` that are not published yet. */
  function Flush(s: Stream, offset: int): Effect {
    if s.kind != BufferedStream || s.state != Open then Refuse(s, OutOfRange)
    else if offset > s.nextOffset || offset <= s.flushed then Refuse(s, OutOfRange)
    else if s.buffer == [] then Refuse(s, OutOfRange) // the internal-error branch
    else
      var rows := Concat(s.buffer);
      Effect(s.(flushed := offset), Ok, if offset <= |rows| then rows[s.flushed..offset] else [], offset)
  }

  /** Hand over the whole buffer of a finalized pending stream, once. */
  function Commit(s: Stream): Effect {
    if s.kind != PendingStream || s.state != Finalized then Refuse(s, InvalidArgument)
    else Effect(s.(buffer := [], state := Committed), Ok, Concat(s.buffer), 0)
  }

  // ---- What holds of every stream ----

  ghost predicate WellFormed(s: Stream) {
    && s.nextOffset == s.rowCount
    && (s.flushed > 0 ==> s.kind == BufferedStream)
    && (s.kind == DefaultStream ==> s.state == Open)
    && (s.state == Committed ==> s.kind == PendingStream)
    && (s.registered <==> s.kind != DefaultStream && s.state == Open)
    && s.flushed <= s.rowCount
    && |Concat(s.buffer)| == if (s.kind == PendingStream && s.state != Committed) || s.kind == BufferedStream then s.rowCount else 0
  }

  lemma WellFormedAppend(s: Stream, rows: seq<Row>, offset: Option<int>, cap: int)
    requires WellFormed(s)
    ensures WellFormed(Append(s, rows, offset, cap).stream)
  {
    ConcatAppend(s.buffer, rows);
  }

  lemma WellFormedFlush(s: Stream, offset: int)
    requires WellFormed(s)
    ensures WellFormed(Flush(s, offset).stream)
  {
  }

  lemma WellFormedCommit(s: Stream)
    requires WellFormed(s)
    ensures WellFormed(Commit(s).stream)
  {
  }

  /** A flush with an offset inside the window never meets an empty buffer: the internal-error branch is dead. */
  lemma FlushNeverFindsEmptyBuffer(s: Stream, offset: int)
    requires WellFormed(s) && s.kind == BufferedStream && s.flushed < offset <= s.nextOffset
    ensures s.buffer != []
  {
  }

  lemma TailGrows(all: seq<Row>, rows: seq<Row>, n: nat)
    ensures n <= |all| ==> (all + rows)[n..] == all[n..] + rows
  {
  }

  lemma BufferHolds(s: Stream, rows: seq<Row>)
    requires s.flushed <= |Concat(s.buffer)|
    ensures Held(Buffer(s, rows).stream) == Held(s) + rows
  {
    ConcatAppend(s.buffer, rows);
    TailGrows(Concat(s.buffer), rows, s.flushed);
  }

  lemma HandOverHolds(s: Stream, rows: seq<Row>)
    requires WellFormed(s) && s.kind != PendingStream && s.kind != BufferedStream
    ensures Held(HandOver(s, rows).stream) == [] == Held(s)
  {
  }

  /** An accepted append publishes its rows and holds none, or publishes nothing and holds them last; a refused one changes nothing. */
  lemma AppendConserves(s: Stream, rows: seq<Row>, offset: Option<int>, cap: int)
    requires WellFormed(s)
    ensures var e := Append(s, rows, offset, cap);
            if e.status == Ok then
              || (e.publish == rows && Held(e.stream) == [] == Held(s))
              || (e.publish == [] && Held(e.stream) == Held(s) + rows)
            else e.stream == s && e.publish == []
  {
    if s.kind == PendingStream || s.kind == BufferedStream {
      if s.state == Open { BufferHolds(s, rows); }
    } else {
      HandOverHolds(s, rows);
    }
  }

  /** A flush publishes a prefix of what is held and keeps the rest. */
  lemma FlushConserves(s: Stream, offset: int)
    requires WellFormed(s)
    ensures var e := Flush(s, offset);
            && e.publish + Held(e.stream) == Held(s)
            && (e.status == Ok ==> |e.publish| == offset - s.flushed)
            && (e.status == Ok <==> s.kind == BufferedStream && s.state == Open && s.flushed < offset <= s.nextOffset)
  {
    var all := Concat(s.buffer);
    if Flush(s, offset).status == Ok {
      assert all[s.flushed..offset] + all[offset..] == all[s.flushed..];
    }
  }

  /** A commit publishes everything held; a second one publishes nothing. */
  lemma CommitConserves(s: Stream)
    requires WellFormed(s)
    ensures var e := Commit(s);
            && e.publish + Held(e.stream) == Held(s)
            && (e.status == Ok ==> Held(e.stream) == [])
            && Commit(e.stream) == Refuse(e.stream, InvalidArgument)
  {
  }
}
