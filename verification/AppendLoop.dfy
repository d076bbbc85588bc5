/**
 One AppendRows connection: requests are served in turn, each may switch to another stream,
 and a request without a writer schema uses the one remembered from earlier requests.

 Wire decoding is a parameter: it yields rows in the shape of the target table, or nothing
 when it raises a value error.
 */
module AppendLoop {
  import opened Basics
  import opened WriteStreams
  import opened WriteServer

  datatype Format = Proto | Arrow
  datatype Payload = Carrying(format: Format, schema: Option<string>, data: string) | NoRows
  datatype Request = Request(size: nat, stream: StreamName, payload: Payload, offset: Option<int>)

  type Decoder = (Format, string, string, TableRef) -> Option<seq<Row>>

  /** What the connection remembers: the stream it is bound to, and one schema per row format. */
  datatype Connection = Connection(bound: Option<StreamName>, proto: Option<string>, arrow: Option<string>)

  function Remembered(c: Connection, f: Format): Option<string> { if f == Proto then c.proto else c.arrow }

  function Remember(c: Connection, f: Format, schema: string): Connection {
    if f == Proto then c.(proto := Some(schema)) else c.(arrow := Some(schema))
  }

  datatype Response = Oversize(bound: Option<StreamName>) | Undecodable(stream: StreamName) | Answer(stream: StreamName, reply: Reply)

  /** One request as it was served, and whether its rows could be converted. */
  datatype Served = Served(request: Request, converted: bool)

  datatype Session = Session(server: Server, conn: Connection, responses: seq<Response>, trace: seq<Served>, stopped: bool)

  function Begin(srv: Server): Session { Session(srv, Connection(None, None, None), [], [], false) }

  /** Resolve the stream of a request, opening a default stream on first use; nothing when that fails for good. */
  function Bind(srv: Server, c: Connection, n: StreamName): Option<Server> {
    if c.bound == Some(n) then Some(srv)
    else if n.Malformed? || n.table !in srv.counts then None
    else if n.id == DEFAULT_ID then Some(DoOpenDefault(srv, n.table).server)
    else if n in srv.streams then Some(srv)
    else None
  }

  /** The schema a payload is read with. */
  function SchemaFor(p: Payload, remembered: Option<string>): Option<string>
    requires p.Carrying?
  {
    if p.schema.Some? then p.schema else remembered
  }

  datatype Conversion = Conversion(rows: Option<seq<Row>>, conn: Connection)

  /** A failed conversion leaves the remembered schemas as they were. */
  function Convert(c: Connection, p: Payload, t: TableRef, decode: Decoder): Conversion {
    if p.NoRows? then Conversion(Some([]), c)
    else
      var schema := SchemaFor(p, Remembered(c, p.format));
      if schema.None? then Conversion(None, c)
      else
        var rows := decode(p.format, schema.value, p.data, t);
        Conversion(rows, if rows.Some? then Remember(c, p.format, schema.value) else c)
  }

  function Reply1(s: Session, srv: Server, c: Connection, r: Response, served: Served): Session {
    Session(srv, c, s.responses + [r], s.trace + [served], false)
  }

  /** Serve one request of a session that has not stopped. */
  function Turn(s: Session, req: Request, maxBytes: nat, decode: Decoder): Session {
    if req.size > maxBytes then Reply1(s, s.server, s.conn, Oversize(s.conn.bound), Served(req, false))
    else
      var bound := Bind(s.server, s.conn, req.stream);
      if bound.None? || req.stream.Malformed? then s.(stopped := true)
      else
        var conv := Convert(s.conn.(bound := Some(req.stream)), req.payload, req.stream.table, decode);
        if conv.rows.None? then Reply1(s, bound.value, conv.conn, Undecodable(req.stream), Served(req, false))
        else
          var r := DoAppend(bound.value, req.stream, conv.rows.value, req.offset);
          if r.reply.Crashed? then s.(server := r.server, stopped := true)
          else Reply1(s, r.server, conv.conn, Answer(req.stream, r.reply), Served(req, true))
  }

  function Serve(start: Session, reqs: seq<Request>, maxBytes: nat, decode: Decoder): Session
    decreases |reqs|
  {
    if reqs == [] then start
    else
      var s := Serve(start, reqs[..|reqs| - 1], maxBytes, decode);
      if s.stopped then s else Turn(s, reqs[|reqs| - 1], maxBytes, decode)
  }

  // ---- One response per request ----

  /** The trace covers the first requests, in order. */
  ghost predicate Answered(trace: seq<Served>, reqs: seq<Request>) {
    |trace| <= |reqs| && forall i :: 0 <= i < |trace| ==> trace[i].request == reqs[i]
  }

  lemma AnsweredOneMore(trace: seq<Served>, trace': seq<Served>, reqs: seq<Request>)
    requires reqs != [] && Answered(trace, reqs[..|reqs| - 1])
    requires trace' == trace || (|trace'| == |trace| + 1 == |reqs| && trace'[..|trace|] == trace && trace'[|trace|].request == reqs[|trace|])
    ensures Answered(trace', reqs)
  {
    if trace' != trace { assert forall i :: 0 <= i < |trace| ==> trace'[i] == trace'[..|trace|][i]; }
  }

  lemma TurnAnswers(s: Session, req: Request, maxBytes: nat, decode: Decoder)
    requires !s.stopped
    ensures var s' := Turn(s, req, maxBytes, decode);
            if s'.stopped then s'.responses == s.responses && s'.trace == s.trace
            else |s'.responses| == |s.responses| + 1 && |s'.trace| == |s.trace| + 1 && s'.trace[..|s.trace|] == s.trace && s'.trace[|s.trace|].request == req
  {
  }

  /** Requests are answered one by one and in order until the first one that ends the connection. */
  lemma {:induction false} OneResponseEach(srv: Server, reqs: seq<Request>, maxBytes: nat, decode: Decoder)
    ensures var s := Serve(Begin(srv), reqs, maxBytes, decode);
            && |s.responses| == |s.trace|
            && (s.stopped <==> |s.responses| < |reqs|)
            && Answered(s.trace, reqs)
    decreases |reqs|
  {
    if reqs != [] {
      var front := reqs[..|reqs| - 1];
      OneResponseEach(srv, front, maxBytes, decode);
      var s := Serve(Begin(srv), front, maxBytes, decode);
      if !s.stopped { TurnAnswers(s, reqs[|front|], maxBytes, decode); }
      AnsweredOneMore(s.trace, Serve(Begin(srv), reqs, maxBytes, decode).trace, reqs);
    }
  }

  /** Appending would hand rows over to a table that does not exist, so the insert raises. */
  predicate InsertRaises(srv: Server, n: StreamName, rows: seq<Row>, offset: Option<int>) {
    n in srv.streams &&
    var e := Append(srv.streams[n], rows, offset, srv.cap);
    e.publish != [] && e.stream.table !in srv.storage
  }

  /** Why a request ends the connection: it fits, but its stream cannot be bound, or its rows are inserted and that raises. */
  predicate Ends(s: Session, req: Request, maxBytes: nat, decode: Decoder) {
    && req.size <= maxBytes
    && var bound := Bind(s.server, s.conn, req.stream);
       bound.None? || req.stream.Malformed? ||
       var rows := Convert(s.conn, req.payload, req.stream.table, decode).rows;
       rows.Some? && InsertRaises(bound.value, req.stream, rows.value, req.offset)
  }

  lemma AppendCrashesExactly(srv: Server, n: StreamName, rows: seq<Row>, offset: Option<int>)
    ensures DoAppend(srv, n, rows, offset).reply.Crashed? <==> InsertRaises(srv, n, rows, offset)
  {
  }

  lemma ConvertIgnoresBinding(c: Connection, bound: Option<StreamName>, p: Payload, t: TableRef, decode: Decoder)
    ensures Convert(c.(bound := bound), p, t, decode).rows == Convert(c, p, t, decode).rows
  {
  }

  lemma TurnStopsExactly(s: Session, req: Request, maxBytes: nat, decode: Decoder)
    requires !s.stopped
    ensures Turn(s, req, maxBytes, decode).stopped <==> Ends(s, req, maxBytes, decode)
  {
    var bound := Bind(s.server, s.conn, req.stream);
    if bound.Some? && !req.stream.Malformed? {
      ConvertIgnoresBinding(s.conn, Some(req.stream), req.payload, req.stream.table, decode);
      var rows := Convert(s.conn, req.payload, req.stream.table, decode).rows;
      if rows.Some? { AppendCrashesExactly(bound.value, req.stream, rows.value, req.offset); }
    }
  }

  /** Once stopped, later requests are not looked at. */
  lemma {:induction false} StoppedStays(start: Session, reqs: seq<Request>, k: nat, maxBytes: nat, decode: Decoder)
    requires k <= |reqs| && Serve(start, reqs[..k], maxBytes, decode).stopped
    ensures Serve(start, reqs, maxBytes, decode) == Serve(start, reqs[..k], maxBytes, decode)
    decreases |reqs|
  {
    if k == |reqs| {
      assert reqs[..k] == reqs;
    } else {
      var front := reqs[..|reqs| - 1];
      assert front[..k] == reqs[..k];
      StoppedStays(start, front, k, maxBytes, decode);
    }
  }

  /** The session as request `j` finds it. */
  function At(srv: Server, reqs: seq<Request>, j: nat, maxBytes: nat, decode: Decoder): Session
    requires j <= |reqs|
  {
    Serve(Begin(srv), reqs[..j], maxBytes, decode)
  }

  lemma AtNext(srv: Server, reqs: seq<Request>, j: nat, maxBytes: nat, decode: Decoder)
    requires j < |reqs|
    ensures var s := At(srv, reqs, j, maxBytes, decode);
            At(srv, reqs, j + 1, maxBytes, decode) == if s.stopped then s else Turn(s, reqs[j], maxBytes, decode)
  {
    assert reqs[..j + 1][..j] == reqs[..j] && reqs[..j + 1][j] == reqs[j];
  }

  /** A turn that stops leaves exactly the answers given before it. */
  lemma StoppedAtNext(srv: Server, reqs: seq<Request>, j: nat, maxBytes: nat, decode: Decoder)
    requires j < |reqs| && !At(srv, reqs, j, maxBytes, decode).stopped && At(srv, reqs, j + 1, maxBytes, decode).stopped
    ensures |Serve(Begin(srv), reqs, maxBytes, decode).responses| == j
  {
    OneResponseEach(srv, reqs[..j], maxBytes, decode);
    StoppedStays(Begin(srv), reqs, j + 1, maxBytes, decode);
    AtNext(srv, reqs, j, maxBytes, decode);
    TurnAnswers(At(srv, reqs, j, maxBytes, decode), reqs[j], maxBytes, decode);
  }

  /** A prefix of `j` requests that did not stop has all its answers; one that stopped is the whole story. */
  lemma {:induction false} AtPrefix(srv: Server, reqs: seq<Request>, j: nat, maxBytes: nat, decode: Decoder)
    requires j <= |reqs|
    ensures At(srv, reqs, j, maxBytes, decode).stopped <==> |Serve(Begin(srv), reqs, maxBytes, decode).responses| < j
    decreases |reqs| - j
  {
    OneResponseEach(srv, reqs[..j], maxBytes, decode);
    OneResponseEach(srv, reqs, maxBytes, decode);
    if At(srv, reqs, j, maxBytes, decode).stopped {
      StoppedStays(Begin(srv), reqs, j, maxBytes, decode);
    } else if j == |reqs| {
      assert reqs[..j] == reqs;
    } else {
      AtPrefix(srv, reqs, j + 1, maxBytes, decode);
      if At(srv, reqs, j + 1, maxBytes, decode).stopped { StoppedAtNext(srv, reqs, j, maxBytes, decode); }
    }
  }

  /**
   The number of responses is the index of the first request that ends the connection: request `j` finds the
   session running if and only if it comes no later, and ends it, because its stream cannot be bound or its insert
   raises, if and only if it is that one.
   */
  lemma StopsAtFirstFailure(srv: Server, reqs: seq<Request>, maxBytes: nat, decode: Decoder, j: nat)
    requires j < |reqs|
    ensures var k, s := |Serve(Begin(srv), reqs, maxBytes, decode).responses|, At(srv, reqs, j, maxBytes, decode);
            && (!s.stopped <==> j <= k)
            && (!s.stopped && Ends(s, reqs[j], maxBytes, decode) <==> j == k)
  {
    var s := At(srv, reqs, j, maxBytes, decode);
    AtPrefix(srv, reqs, j, maxBytes, decode);
    AtPrefix(srv, reqs, j + 1, maxBytes, decode);
    AtNext(srv, reqs, j, maxBytes, decode);
    if !s.stopped { TurnStopsExactly(s, reqs[j], maxBytes, decode); }
  }

  // ---- What a request is answered ----

  /** A request is bound to the stream the connection has, to a default stream, opened if need be, or to a registered one; else not at all. */
  lemma BindExactly(srv: Server, c: Connection, n: StreamName)
    ensures var b := Bind(srv, c, n);
            && (b.None? <==> c.bound != Some(n) && (n.Malformed? || n.table !in srv.counts || (n.id != "_default" && n !in srv.streams)))
            && (c.bound == Some(n) ==> b == Some(srv))
            && (b.Some? && c.bound != Some(n) && n.id == "_default" ==> n in b.value.streams)
            && (b.Some? && (c.bound == Some(n) || n.id != "_default" || n in srv.streams) ==> b.value == srv)
  {
  }

  /** The rows of a payload: none if it carries none, else decoded with its own schema or, without one, with the schema remembered for its format. */
  lemma ConvertExactly(c: Connection, p: Payload, t: TableRef, decode: Decoder)
    ensures var rows := Convert(c, p, t, decode).rows;
            && (p.NoRows? ==> rows == Some([]))
            && (p.Carrying? && p.schema.Some? ==> rows == decode(p.format, p.schema.value, p.data, t))
            && (p.Carrying? && p.schema.None? && p.format == Proto ==> rows == if c.proto.None? then None else decode(Proto, c.proto.value, p.data, t))
            && (p.Carrying? && p.schema.None? && p.format == Arrow ==> rows == if c.arrow.None? then None else decode(Arrow, c.arrow.value, p.data, t))
  {
  }

  /** A request that does not end the connection is told it is too large, or cannot be decoded, or what appending its rows answered. */
  lemma ResponseExactly(s: Session, req: Request, maxBytes: nat, decode: Decoder)
    requires !s.stopped && !Ends(s, req, maxBytes, decode)
    ensures var s' := Turn(s, req, maxBytes, decode);
            && s'.responses != [] && s'.responses[..|s'.responses| - 1] == s.responses
            && var response := s'.responses[|s'.responses| - 1];
               if req.size > maxBytes then response == Oversize(s.conn.bound) && s'.conn == s.conn
               else
                 var rows := Convert(s.conn, req.payload, req.stream.table, decode).rows;
                 && s'.conn.bound == Some(req.stream)
                 && response == if rows.None? then Undecodable(req.stream)
                                else Answer(req.stream, DoAppend(Bind(s.server, s.conn, req.stream).value, req.stream, rows.value, req.offset).reply)
  {
    TurnStopsExactly(s, req, maxBytes, decode);
    if req.stream.Named? { ConvertIgnoresBinding(s.conn, Some(req.stream), req.payload, req.stream.table, decode); }
  }

  // ---- Requests that carry nothing usable ----

  /** Nothing happened to any stream, table, count or gauge, except that an empty default stream may have appeared. */
  ghost predicate Untouched(srv: Server, srv': Server) {
    && srv'.gauge == srv.gauge && srv'.storage == srv.storage && srv'.counts == srv.counts && srv'.cap == srv.cap
    && (forall n :: n in srv.streams ==> n in srv'.streams && srv'.streams[n] == srv.streams[n])
    && (forall n :: n in srv'.streams && n !in srv.streams ==>
          n.Named? && n.id == DEFAULT_ID && srv'.streams[n] == Fresh(n.table, DefaultStream, false))
  }

  /** An oversize or undecodable request changes no stream. */
  lemma UnusableRequestChangesNothing(s: Session, req: Request, maxBytes: nat, decode: Decoder)
    requires var s' := Turn(s, req, maxBytes, decode);
             !s'.stopped && s'.responses != [] && !s'.responses[|s'.responses| - 1].Answer?
    ensures Untouched(s.server, Turn(s, req, maxBytes, decode).server)
  {
  }

  // ---- Remembered schemas ----

  /** The schema carried by the latest converted request of that format that carried one. */
  function Latest(trace: seq<Served>, f: Format): Option<string> {
    if trace == [] then None
    else
      var last := trace[|trace| - 1];
      if last.converted && last.request.payload.Carrying? && last.request.payload.format == f && last.request.payload.schema.Some?
      then last.request.payload.schema
      else Latest(trace[..|trace| - 1], f)
  }

  lemma LatestSnoc(trace: seq<Served>, last: Served, f: Format)
    ensures Latest(trace + [last], f) ==
            if last.converted && last.request.payload.Carrying? && last.request.payload.format == f && last.request.payload.schema.Some?
            then last.request.payload.schema else Latest(trace, f)
  {
    assert (trace + [last])[..|trace|] == trace;
  }

  /** A conversion that succeeds remembers the schema it carried, if any; one that fails remembers nothing new. */
  lemma ConvertRemembers(c: Connection, p: Payload, t: TableRef, decode: Decoder, f: Format)
    ensures var conv := Convert(c, p, t, decode);
            Remembered(conv.conn, f) ==
            if conv.rows.Some? && p.Carrying? && p.format == f && p.schema.Some? then p.schema else Remembered(c, f)
  {
  }

  /** A turn adds at most one entry to the history, and what it remembers goes by that entry. */
  lemma TurnShape(s: Session, req: Request, maxBytes: nat, decode: Decoder, f: Format)
    ensures var s' := Turn(s, req, maxBytes, decode);
            || (s'.trace == s.trace && s'.conn == s.conn)
            || (s'.trace == s.trace + [Served(req, false)] && Remembered(s'.conn, f) == Remembered(s.conn, f))
            || (s'.trace == s.trace + [Served(req, true)] && Remembered(s'.conn, f) ==
                if req.payload.Carrying? && req.payload.format == f && req.payload.schema.Some? then req.payload.schema else Remembered(s.conn, f))
  {
    if req.stream.Named? { ConvertRemembers(s.conn.(bound := Some(req.stream)), req.payload, req.stream.table, decode, f); }
  }

  /** One turn keeps memory and history in step. */
  lemma TurnRemembers(s: Session, req: Request, maxBytes: nat, decode: Decoder, f: Format)
    requires Remembered(s.conn, f) == Latest(s.trace, f)
    ensures var s' := Turn(s, req, maxBytes, decode); Remembered(s'.conn, f) == Latest(s'.trace, f)
  {
    LatestSnoc(s.trace, Served(req, true), f);
    LatestSnoc(s.trace, Served(req, false), f);
    TurnShape(s, req, maxBytes, decode, f);
  }

  /** What a connection remembers is a function of its history alone. */
  lemma {:induction false} RememberedIsLatest(srv: Server, reqs: seq<Request>, maxBytes: nat, decode: Decoder, f: Format)
    ensures var s := Serve(Begin(srv), reqs, maxBytes, decode); Remembered(s.conn, f) == Latest(s.trace, f)
    decreases |reqs|
  {
    if reqs != [] {
      var front, req := reqs[..|reqs| - 1], reqs[|reqs| - 1];
      RememberedIsLatest(srv, front, maxBytes, decode, f);
      TurnRemembers(Serve(Begin(srv), front, maxBytes, decode), req, maxBytes, decode, f);
    }
  }

  /** Whether the rows of `req` can be read after history `trace`: with its own schema, else with the latest good one. */
  predicate Readable(trace: seq<Served>, req: Request, decode: Decoder) {
    && req.stream.Named?
    && (req.payload.NoRows? ||
        var schema := SchemaFor(req.payload, Latest(trace, req.payload.format));
        schema.Some? && decode(req.payload.format, schema.value, req.payload.data, req.stream.table).Some?)
  }

  lemma TurnConverts(s: Session, req: Request, maxBytes: nat, decode: Decoder)
    requires Remembered(s.conn, Proto) == Latest(s.trace, Proto) && Remembered(s.conn, Arrow) == Latest(s.trace, Arrow)
    ensures var s' := Turn(s, req, maxBytes, decode);
            s'.trace == s.trace ||
            (s'.trace == s.trace + [Served(req, req.size <= maxBytes && Readable(s.trace, req, decode))])
  {
  }

  /** Each answered request was converted exactly when it fits the size limit and is readable after what came before it. */
  lemma {:induction false} ConvertedExactly(srv: Server, reqs: seq<Request>, maxBytes: nat, decode: Decoder, i: nat)
    requires i < |Serve(Begin(srv), reqs, maxBytes, decode).trace|
    ensures var trace := Serve(Begin(srv), reqs, maxBytes, decode).trace;
            trace[i].converted <==> trace[i].request.size <= maxBytes && Readable(trace[..i], trace[i].request, decode)
    decreases |reqs|
  {
    var front := reqs[..|reqs| - 1];
    var s, s' := Serve(Begin(srv), front, maxBytes, decode), Serve(Begin(srv), reqs, maxBytes, decode);
    if i < |s.trace| {
      ConvertedExactly(srv, front, maxBytes, decode, i);
      assert s'.trace[..i] == s.trace[..i];
    } else {
      RememberedIsLatest(srv, front, maxBytes, decode, Proto);
      RememberedIsLatest(srv, front, maxBytes, decode, Arrow);
      TurnConverts(s, reqs[|reqs| - 1], maxBytes, decode);
      assert s'.trace[..i] == s.trace;
    }
  }

  // ---- The loop as a run of the server ----

  /** Binding to a default stream for the first time opens it. */
  function Opens(s: Session, n: StreamName): seq<Event> {
    if n.Named? && s.conn.bound != Some(n) && n.id == DEFAULT_ID then [OpenDefault(n.table)] else []
  }

  function Appends(s: Session, req: Request, decode: Decoder): seq<Event>
    requires req.stream.Named?
  {
    var rows := Convert(s.conn, req.payload, req.stream.table, decode).rows;
    if rows.Some? then [AppendRows(req.stream, rows.value, req.offset)] else []
  }

  /** The server calls one turn makes. */
  function Calls(s: Session, req: Request, maxBytes: nat, decode: Decoder): seq<Event> {
    if req.size > maxBytes || Bind(s.server, s.conn, req.stream).None? || req.stream.Malformed? then []
    else Opens(s, req.stream) + Appends(s, req, decode)
  }

  lemma RunOne(srv: Server, e: Event)
    ensures Run(srv, [e]) == Do(srv, e).server
  {
    assert [e][1..] == [];
  }

  lemma BindIsRun(s: Session, n: StreamName)
    requires n.Named? && Bind(s.server, s.conn, n).Some?
    ensures Bind(s.server, s.conn, n).value == Run(s.server, Opens(s, n))
  {
    RunOne(s.server, OpenDefault(n.table));
  }

  lemma TurnIsRun(s: Session, req: Request, maxBytes: nat, decode: Decoder)
    ensures Turn(s, req, maxBytes, decode).server == Run(s.server, Calls(s, req, maxBytes, decode))
  {
    var bound := Bind(s.server, s.conn, req.stream);
    if req.size <= maxBytes && bound.Some? && req.stream.Named? {
      BindIsRun(s, req.stream);
      RunConcat(s.server, Opens(s, req.stream), Appends(s, req, decode));
      ConvertIgnoresBinding(s.conn, Some(req.stream), req.payload, req.stream.table, decode);
      var rows := Convert(s.conn, req.payload, req.stream.table, decode).rows;
      if rows.Some? { RunOne(bound.value, AppendRows(req.stream, rows.value, req.offset)); }
    }
  }

  function AllCalls(srv: Server, reqs: seq<Request>, maxBytes: nat, decode: Decoder): seq<Event>
    decreases |reqs|
  {
    if reqs == [] then []
    else
      var front := reqs[..|reqs| - 1];
      var s := Serve(Begin(srv), front, maxBytes, decode);
      AllCalls(srv, front, maxBytes, decode) + if s.stopped then [] else Calls(s, reqs[|reqs| - 1], maxBytes, decode)
  }

  lemma {:induction false} RunConcat(srv: Server, a: seq<Event>, b: seq<Event>)
    ensures Run(srv, a + b) == Run(Run(srv, a), b)
    decreases |a|
  {
    if a == [] {
      assert a + b == b;
    } else {
      RunConcat(Do(srv, a[0]).server, a[1..], b);
      assert (a + b)[1..] == a[1..] + b;
    }
  }

  /** A whole connection is a run of server calls, so the books, the counts and the gauge hold across it. */
  lemma {:induction false} ServeIsRun(srv: Server, reqs: seq<Request>, maxBytes: nat, decode: Decoder)
    ensures Serve(Begin(srv), reqs, maxBytes, decode).server == Run(srv, AllCalls(srv, reqs, maxBytes, decode))
    decreases |reqs|
  {
    if reqs != [] {
      var front, req := reqs[..|reqs| - 1], reqs[|reqs| - 1];
      ServeIsRun(srv, front, maxBytes, decode);
      var s := Serve(Begin(srv), front, maxBytes, decode);
      TurnIsRun(s, req, maxBytes, decode);
      RunConcat(srv, AllCalls(srv, front, maxBytes, decode), if s.stopped then [] else Calls(s, req, maxBytes, decode));
    }
  }
}
