/** What every call of the Storage Write API answers and leaves behind, from the stream and the server before it. */
module WriteAnswers {
  import opened Basics
  import opened WriteStreams
  import opened WriteServer

  // ---- Streams ----

  /** When an append is accepted: the four kinds have four rules. */
  predicate Accepts(s: Stream, n: nat, offset: Option<int>, cap: int) {
    match s.kind
    case DefaultStream => offset.None?
    case CommittedStream => s.state == Open && offset in {None, Some(s.nextOffset)}
    case PendingStream => s.state == Open && offset in {None, Some(s.nextOffset)} && s.rowCount + n <= cap
    case BufferedStream => s.state == Open && offset in {None, Some(s.nextOffset)} && s.nextOffset + n <= cap + s.flushed
  }

  /** An append is accepted exactly when its kind's rule says so, and each refusal has its own cause. */
  lemma AppendAnswers(s: Stream, rows: seq<Row>, offset: Option<int>, cap: int)
    ensures var status, plain := Append(s, rows, offset, cap).status, s.kind == DefaultStream;
            && (status == Ok <==> Accepts(s, |rows|, offset, cap))
            && (status == InvalidArgument <==> plain && offset.Some?)
            && (status == StreamFinalized <==> !plain && s.state != Open)
            && (status == AlreadyExists <==> !plain && s.state == Open && offset.Some? && offset.value < s.nextOffset)
            && (status == OutOfRange <==> !plain && s.state == Open && offset.Some? && offset.value > s.nextOffset)
  {
  }

  /** An accepted append replies with the rows accepted before it, counts its own, and changes nothing else but the buffer. */
  lemma AppendLeaves(s: Stream, rows: seq<Row>, offset: Option<int>, cap: int)
    requires Accepts(s, |rows|, offset, cap)
    ensures var e := Append(s, rows, offset, cap);
            && e.offset == s.nextOffset && e.stream.nextOffset == s.nextOffset + |rows| && e.stream.rowCount == s.rowCount + |rows|
            && e.stream == s.(nextOffset := e.stream.nextOffset, rowCount := e.stream.rowCount, buffer := e.stream.buffer)
            && (s.kind in {PendingStream, BufferedStream} ==> e.publish == [] && e.stream.buffer == s.buffer + [rows])
            && (s.kind in {DefaultStream, CommittedStream} ==> e.publish == rows && e.stream.buffer == s.buffer)
  {
  }

  lemma FlushAnswers(s: Stream, upTo: int)
    requires WellFormed(s)
    ensures var e := Flush(s, upTo);
            if s.kind == BufferedStream && s.state == Open && s.flushed < upTo <= s.nextOffset
            then e.status == Ok && e.offset == upTo && e.stream == s.(flushed := upTo)
            else e.status == OutOfRange && e.stream == s
  {
    FlushConserves(s, upTo);
  }

  lemma CommitAnswers(s: Stream)
    ensures var e := Commit(s);
            if s.kind == PendingStream && s.state == Finalized
            then e.status == Ok && e.stream == s.(buffer := [], state := Committed)
            else e.status == InvalidArgument && e.stream == s
  {
  }

  // ---- Server calls ----

  /** The other streams, the tables and the counts are as before. */
  ghost predicate OnlyStream(srv: Server, srv': Server, n: StreamName) {
    && srv'.storage == srv.storage && srv'.counts == srv.counts && srv'.cap == srv.cap
    && forall m :: m != n ==> (m in srv'.streams <==> m in srv.streams) && (m in srv.streams ==> srv'.streams[m] == srv.streams[m])
  }

  /** An empty open stream of that kind on that table. */
  predicate New(s: Stream, t: TableRef, kind: StreamKind) {
    s.table == t && s.kind == kind && s.state == Open && s.nextOffset == 0 == s.rowCount && s.flushed == 0 && s.buffer == []
  }

  lemma CreateAnswers(srv: Server, n: StreamName, kind: StreamKind)
    ensures var r := DoCreate(srv, n, kind);
            && (r.reply == Missing <==> n.Malformed? || n.table !in srv.counts)
            && (r.reply == Refused(InvalidArgument) <==> n.Named? && n.table in srv.counts && kind == DefaultStream)
            && (r.reply == Crashed <==> n.Named? && n.table in srv.counts && kind != DefaultStream && n in srv.streams)
            && (r.reply == Rows(0) <==> n.Named? && n.table in srv.counts && kind != DefaultStream && n !in srv.streams)
            && OnlyStream(srv, r.server, n)
            && (if r.reply == Rows(0) then n in r.server.streams && New(r.server.streams[n], n.table, kind) else r.server == srv)
  {
  }

  lemma OpenDefaultAnswers(srv: Server, t: TableRef)
    ensures var r, n := DoOpenDefault(srv, t), Named(t, "_default");
            && (r.reply == Missing <==> t !in srv.counts) && (r.reply != Missing <==> r.reply == Rows(0))
            && OnlyStream(srv, r.server, n) && r.server.gauge == srv.gauge
            && (r.reply == Missing || n in srv.streams ==> r.server == srv)
            && (t in srv.counts && n !in srv.streams ==> n in r.server.streams && New(r.server.streams[n], t, DefaultStream))
  {
  }

  /** An append is missing its stream, refused for the strategy's reason, acknowledged with the rows accepted before it, or raises for want of a table. */
  lemma ServerAppendAnswers(srv: Server, n: StreamName, rows: seq<Row>, offset: Option<int>)
    ensures var r := DoAppend(srv, n, rows, offset);
            && (r.reply == Missing <==> n !in srv.streams)
            && (n in srv.streams ==>
                  var s := srv.streams[n];
                  var handedOver := s.kind in {DefaultStream, CommittedStream} && rows != [];
                  && (r.reply.Refused? <==> !Accepts(s, |rows|, offset, srv.cap))
                  && (r.reply.Refused? ==> r.reply.status == Append(s, rows, offset, srv.cap).status && r.server == srv)
                  && (r.reply == Crashed <==> Accepts(s, |rows|, offset, srv.cap) && handedOver && s.table !in srv.storage)
                  && (r.reply == Acked(s.nextOffset) <==> Accepts(s, |rows|, offset, srv.cap) && (handedOver ==> s.table in srv.storage)))
  {
    if n in srv.streams {
      AppendAnswers(srv.streams[n], rows, offset, srv.cap);
      if Accepts(srv.streams[n], |rows|, offset, srv.cap) { AppendLeaves(srv.streams[n], rows, offset, srv.cap); }
    }
  }

  lemma FinalizeAnswers(srv: Server, n: StreamName)
    ensures var r := DoFinalize(srv, n);
            && (r.reply == Missing <==> n !in srv.streams)
            && (r.reply == Missing ==> r.server == srv)
            && (n in srv.streams ==>
                  var s := srv.streams[n];
                  && r.reply == (if s.kind == DefaultStream then Refused(InvalidArgument) else if s.state == Committed then Failed(0) else Rows(s.rowCount))
                  && OnlyStream(srv, r.server, n)
                  && (if s.kind != DefaultStream && s.state == Open
                      then n in r.server.streams && r.server.streams[n] == s.(state := Finalized, registered := false)
                      else r.server == srv))
  {
  }

  lemma ServerFlushAnswers(srv: Server, n: StreamName, upTo: int)
    requires n in srv.streams ==> WellFormed(srv.streams[n])
    ensures var r := DoFlush(srv, n, upTo);
            && (r.reply == Missing <==> n !in srv.streams)
            && (n in srv.streams ==>
                  var s := srv.streams[n];
                  var inWindow := s.kind == BufferedStream && s.state == Open && s.flushed < upTo <= s.nextOffset;
                  && (r.reply == Refused(InvalidArgument) <==> s.kind != BufferedStream)
                  && (r.reply == Refused(OutOfRange) <==> s.kind == BufferedStream && !inWindow)
                  && (r.reply == Acked(upTo) <==> inWindow && s.table in srv.storage)
                  && (r.reply == Crashed <==> inWindow && s.table !in srv.storage)
                  && (!inWindow ==> r.server == srv))
  {
    if n in srv.streams {
      FlushAnswers(srv.streams[n], upTo);
      FlushConserves(srv.streams[n], upTo);
    }
  }

  lemma RemoveAnswers(srv: Server, n: StreamName)
    ensures var r := DoRemove(srv, n);
            && (r.reply == Missing <==> n !in srv.streams)
            && n !in r.server.streams && OnlyStream(srv, r.server, n)
            && (n in srv.streams ==> r.reply == Rows(srv.streams[n].rowCount))
  {
  }

  // ---- The count that finalize reports ----

  /** Rows of an event that stream `n` accepts. */
  ghost function AcceptedBy(srv: Server, e: Event, n: StreamName): nat {
    if e.AppendRows? && e.name == n && n in srv.streams && Accepts(srv.streams[n], |e.rows|, e.offset, srv.cap) then |e.rows| else 0
  }

  ghost function AcceptedOver(srv: Server, events: seq<Event>, n: StreamName): nat
    decreases |events|
  {
    if events == [] then 0 else AcceptedBy(srv, events[0], n) + AcceptedOver(Do(srv, events[0]).server, events[1..], n)
  }

  lemma CountStep(srv: Server, e: Event, n: StreamName)
    requires n in srv.streams && e != RemoveStream(n)
    ensures var srv' := Do(srv, e).server;
            && n in srv'.streams && srv'.streams[n].rowCount == srv.streams[n].rowCount + AcceptedBy(srv, e, n)
            && srv'.streams[n].kind == srv.streams[n].kind
  {
    if MovesRows(e) {
      OnlyNamedStreamMoves(srv, e);
      if e.AppendRows? && e.name == n {
        AppendAnswers(srv.streams[n], e.rows, e.offset, srv.cap);
        if Accepts(srv.streams[n], |e.rows|, e.offset, srv.cap) { AppendLeaves(srv.streams[n], e.rows, e.offset, srv.cap); }
      }
    }
  }

  /** Over every run, what a stream counts, and what its finalize reports, is the number of rows it accepted. */
  lemma {:induction false} FinalizeReportsAccepted(srv: Server, events: seq<Event>, n: StreamName)
    requires n in srv.streams && RemoveStream(n) !in events
    ensures var end := Run(srv, events);
            var count := srv.streams[n].rowCount + AcceptedOver(srv, events, n);
            && n in end.streams && end.streams[n].kind == srv.streams[n].kind && end.streams[n].rowCount == count
            && (srv.streams[n].kind != DefaultStream && end.streams[n].state != Committed ==> DoFinalize(end, n).reply == Rows(count))
    decreases |events|
  {
    if events == [] {
      FinalizeAnswers(srv, n);
    } else {
      assert events[0] in events;
      CountStep(srv, events[0], n);
      FinalizeReportsAccepted(Do(srv, events[0]).server, events[1..], n);
    }
  }
}
