/**
 Resumable uploads: a registry of sessions, each with a byte cursor, an optional declared
 total and a staging file, evicted when idle for longer than the time to live.

 Session ids are chosen by the caller of `Create` (the source draws a UUID); a session's staging
 file is named after it.  The clock is read twice in a call that touches a session: once to evict,
 once to stamp.  Appends to one session are taken to be serialized.
 */
module UploadSessions {
  import opened Basics
  import opened ContentRange

  newtype byte = x: int | 0 <= x < 256
  type Bytes = seq<byte>

  datatype Limits = Limits(maxBytes: nat, ttl: nat)

  datatype Session = Session(project: string, received: nat, total: Option<nat>, finalized: bool, createdAt: int, lastActive: int)

  datatype Uploads = Uploads(sessions: map<string, Session>, files: map<string, Bytes>)

  predicate IdChar(c: char) { 'A' <= c <= 'Z' || 'a' <= c <= 'z' || '0' <= c <= '9' || c == '_' || c == '-' }

  predicate PlainId(id: string) { 8 <= |id| <= 64 && forall i :: 0 <= i < |id| ==> IdChar(id[i]) }

  /** The pattern's `$` also matches before one final newline. */
  predicate ValidId(id: string) { PlainId(id) || (|id| > 0 && id[|id| - 1] == '\n' && PlainId(id[..|id| - 1])) }

  // ---- One append on one session ----

  datatype Verdict = Accepted(session: Session, file: Bytes, complete: bool) | RangeError | SizeExceeded

  /** The total a session knows after seeing a header. */
  function Reconciled(known: Option<nat>, seen: Option<nat>): Option<nat> { if known.Some? then known else seen }

  /** The two completion branches, as written. */
  predicate IsComplete(s: Session, h: Header) {
    if s.total.Some? then s.received >= s.total.value
    else h.Says? && h.range.Chunk? && h.range.known.Some? && h.range.end + 1 == h.range.known.value
  }

  function AppendChunk(lim: Limits, s: Session, file: Bytes, chunk: Bytes, h: Header, now: int): Verdict {
    if h.Unreadable? || (h.Says? && h.range.Chunk? && h.range.start != s.received) then RangeError
    else if s.received + |chunk| > lim.maxBytes then SizeExceeded
    else if h.Total().Some? && h.Total().value > lim.maxBytes then SizeExceeded
    else if h.Total().Some? && s.total.Some? && h.Total() != s.total then RangeError
    else
      var s' := s.(received := s.received + |chunk|, total := Reconciled(s.total, h.Total()), lastActive := now);
      Accepted(s', file + chunk, IsComplete(s', h))
  }

  /** Reconciliation runs first, so the second completion branch never decides: completion is reaching the declared total. */
  lemma SecondBranchIsDead(lim: Limits, s: Session, file: Bytes, chunk: Bytes, h: Header, now: int)
    requires AppendChunk(lim, s, file, chunk, h, now).Accepted?
    ensures var v := AppendChunk(lim, s, file, chunk, h, now);
            v.complete <==> v.session.total.Some? && v.session.received >= v.session.total.value
  {
  }

  /** No more has been received than was declared. */
  predicate WithinTotal(s: Session) { s.total.Some? ==> s.received <= s.total.value }

  /**
   An accepted append keeps the session within its total exactly when the bytes fit the total it
   then knows; then, and only then, completion means that exactly the declared bytes are there.
   */
  lemma WithinTotalExactly(lim: Limits, s: Session, file: Bytes, chunk: Bytes, h: Header, now: int)
    requires AppendChunk(lim, s, file, chunk, h, now).Accepted?
    ensures var v := AppendChunk(lim, s, file, chunk, h, now);
            var known := Reconciled(s.total, h.Total());
            && (WithinTotal(v.session) <==> (known.Some? ==> s.received + |chunk| <= known.value))
            && (WithinTotal(v.session) <==> (v.complete <==> v.session.total == Some(v.session.received)))
  {
  }

  /** A chunk of exactly the length of its range, whose header names the total; or nothing, naming no total below the cursor. */
  predicate Honest(s: Session, chunk: Bytes, h: Header) {
    if h.Says? && h.range.Chunk?
    then h.range.start + |chunk| == h.range.end + 1 && h.range.known.Some? && h.range.end < h.range.known.value
    else chunk == [] && (h.Total().Some? && s.total.None? ==> s.received <= h.Total().value)
  }

  lemma HonestStaysWithinTotal(lim: Limits, s: Session, file: Bytes, chunk: Bytes, h: Header, now: int)
    requires WithinTotal(s) && Honest(s, chunk, h)
    requires AppendChunk(lim, s, file, chunk, h, now).Accepted?
    ensures WithinTotal(AppendChunk(lim, s, file, chunk, h, now).session)
  {
  }

  /** The length of a chunk is not compared with its range: six bytes sent as bytes 0-4 of 5 overrun the total. */
  lemma LongChunkOverruns(lim: Limits, s: Session, chunk: Bytes, now: int)
    requires s.received == 0 && s.total.None? && lim.maxBytes >= 6 && |chunk| == 6
    ensures var v := AppendChunk(lim, s, [], chunk, Says(Chunk(0, 4, Some(5))), now);
            v.Accepted? && v.complete && !WithinTotal(v.session)
  {
  }

  /** A range with an unknown total is not compared with the total already declared. */
  lemma StarRangeOverruns(lim: Limits, s: Session, file: Bytes, chunk: Bytes, now: int)
    requires s.received == 5 && s.total == Some(10) && lim.maxBytes >= 21 && |chunk| == 16
    ensures var v := AppendChunk(lim, s, file, chunk, Says(Chunk(5, 20, None)), now);
            v.Accepted? && v.complete && !WithinTotal(v.session)
  {
  }

  /** A probe may declare a total below what has been received. */
  lemma LateProbeOverruns(lim: Limits, s: Session, file: Bytes, now: int)
    requires s.received == 10 && s.total.None? && lim.maxBytes >= 10
    ensures var v := AppendChunk(lim, s, file, [], Says(Probe(5)), now);
            v.Accepted? && v.complete && !WithinTotal(v.session)
  {
  }

  // ---- The registry ----

  predicate Expired(lim: Limits, s: Session, now: int) { s.lastActive < now - lim.ttl }

  function Evict(lim: Limits, u: Uploads, now: int): Uploads {
    Uploads(map k | k in u.sessions && !Expired(lim, u.sessions[k], now) :: u.sessions[k],
            map k | k in u.files && !(k in u.sessions && Expired(lim, u.sessions[k], now)) :: u.files[k])
  }

  datatype Event =
    | Create(id: string, project: string, now: int)
    | Lookup(id: string, now: int)
    | Append(id: string, chunk: Bytes, header: Header, now: int, later: int)
    | Finalize(id: string, now: int, later: int)
    | Remove(id: string)

  // Headers arrive already read: `ReadHeader` of the raw text.
  datatype Reply = Found(session: Session) | Appended(session: Session, complete: bool) | NotFound | BadRange | TooLarge | FileExists | Removed

  datatype Outcome = Outcome(uploads: Uploads, reply: Reply)

  function DoCreate(u: Uploads, id: string, project: string, now: int): Outcome {
    if id in u.files then Outcome(u, FileExists)
    else
      var s := Session(project, 0, None, false, now, now);
      Outcome(Uploads(u.sessions[id := s], u.files[id := []]), Found(s))
  }

  /** Checks the id, evicts what is idle too long, then looks up. */
  function DoLookup(lim: Limits, u: Uploads, id: string, now: int): Outcome {
    if !ValidId(id) then Outcome(u, NotFound)
    else
      var u' := Evict(lim, u, now);
      Outcome(u', if id in u'.sessions then Found(u'.sessions[id]) else NotFound)
  }

  /** Opening for append creates a missing file; an empty chunk opens nothing. */
  function FileOf(u: Uploads, id: string): Bytes { if id in u.files then u.files[id] else [] }

  function DoAppend(lim: Limits, u: Uploads, id: string, chunk: Bytes, header: Header, now: int, later: int): Outcome {
    var found := DoLookup(lim, u, id, now);
    if !found.reply.Found? then found
    else
      match AppendChunk(lim, found.reply.session, FileOf(found.uploads, id), chunk, header, later)
      case RangeError => Outcome(found.uploads, BadRange)
      case SizeExceeded => Outcome(found.uploads, TooLarge)
      case Accepted(s, file, complete) =>
        var files := if chunk == [] then found.uploads.files else found.uploads.files[id := file];
        Outcome(Uploads(found.uploads.sessions[id := s], files), Appended(s, complete))
  }

  function DoFinalize(lim: Limits, u: Uploads, id: string, now: int, later: int): Outcome {
    var found := DoLookup(lim, u, id, now);
    if !found.reply.Found? then found
    else
      var s := found.reply.session.(finalized := true, lastActive := later);
      Outcome(found.uploads.(sessions := found.uploads.sessions[id := s]), Found(s))
  }

  function DoRemove(u: Uploads, id: string): Outcome {
    Outcome(if id in u.sessions then Uploads(u.sessions - {id}, u.files - {id}) else u, Removed)
  }

  function Do(lim: Limits, u: Uploads, e: Event): Outcome {
    match e
    case Create(id, project, now) => DoCreate(u, id, project, now)
    case Lookup(id, now) => DoLookup(lim, u, id, now)
    case Append(id, chunk, header, now, later) => DoAppend(lim, u, id, chunk, header, now, later)
    case Finalize(id, now, later) => DoFinalize(lim, u, id, now, later)
    case Remove(id) => DoRemove(u, id)
  }

  function Run(lim: Limits, u: Uploads, events: seq<Event>): Uploads
    decreases |events|
  {
    if events == [] then u else Run(lim, Do(lim, u, events[0]).uploads, events[1..])
  }

  // ---- Safety over every run ----

  /** The cursor is the length of the staging file; cursor and declared total stay under the cap. */
  ghost predicate SessionSafe(lim: Limits, s: Session, file: Bytes) {
    |file| == s.received <= lim.maxBytes && (s.total.Some? ==> s.total.value <= lim.maxBytes)
  }

  ghost predicate Safe(lim: Limits, u: Uploads) {
    forall id :: id in u.sessions ==> id in u.files && SessionSafe(lim, u.sessions[id], u.files[id])
  }

  lemma SafeStep(lim: Limits, u: Uploads, e: Event)
    requires Safe(lim, u)
    ensures Safe(lim, Do(lim, u, e).uploads)
  {
  }

  lemma {:induction false} SafeOverRuns(lim: Limits, u: Uploads, events: seq<Event>)
    requires Safe(lim, u)
    ensures Safe(lim, Run(lim, u, events))
    decreases |events|
  {
    if events != [] {
      SafeStep(lim, u, events[0]);
      SafeOverRuns(lim, Do(lim, u, events[0]).uploads, events[1..]);
    }
  }

  /** The session is gone, or is the same one further on: bytes only added, a declared total never changed. */
  ghost predicate OnlyGrows(u: Uploads, u': Uploads, id: string) {
    id in u'.sessions ==>
      && id in u.sessions
      && (u.sessions[id].total.Some? ==> u'.sessions[id].total == u.sessions[id].total)
      && u.sessions[id].received <= u'.sessions[id].received
      && u.sessions[id].createdAt == u'.sessions[id].createdAt
      && (id in u.files && id in u'.files ==> u.files[id] <= u'.files[id])
  }

  lemma GrowsStep(lim: Limits, u: Uploads, e: Event, id: string)
    requires Safe(lim, u) && !(e.Create? && e.id == id)
    ensures OnlyGrows(u, Do(lim, u, e).uploads, id)
  {
  }

  /** Over every run that does not create the id anew. */
  lemma {:induction false} GrowsOverRuns(lim: Limits, u: Uploads, events: seq<Event>, id: string)
    requires Safe(lim, u)
    requires forall e :: e in events ==> !(e.Create? && e.id == id)
    ensures OnlyGrows(u, Run(lim, u, events), id)
    decreases |events|
  {
    if events != [] {
      var u1 := Do(lim, u, events[0]).uploads;
      GrowsStep(lim, u, events[0], id);
      SafeStep(lim, u, events[0]);
      GrowsOverRuns(lim, u1, events[1..], id);
      assert id in Run(lim, u, events).sessions ==> id in u1.sessions && id in u1.files;
    }
  }

  /** An append that raises changes nothing for any session that is still alive; only idle sessions are swept. */
  lemma RefusedAppendChangesNothing(lim: Limits, u: Uploads, e: Event, id: string)
    requires Safe(lim, u) && e.Append? && !Do(lim, u, e).reply.Appended?
    requires id in u.sessions && !Expired(lim, u.sessions[id], e.now)
    ensures var u' := Do(lim, u, e).uploads;
            id in u'.sessions && u'.sessions[id] == u.sessions[id] && id in u'.files && u'.files[id] == u.files[id]
  {
  }

  // ---- Time to live ----

  /** When the call reads the clock. */
  predicate NotBefore(e: Event, t: int) {
    match e
    case Create(_, _, now) => now >= t
    case Lookup(_, now) => now >= t
    case Append(_, _, _, now, later) => now >= t && later >= t
    case Finalize(_, now, later) => now >= t && later >= t
    case Remove(_) => true
  }

  /** The id is not found by any call made from time t on. */
  ghost predicate Dead(lim: Limits, u: Uploads, id: string, t: int) {
    id in u.sessions ==> Expired(lim, u.sessions[id], t)
  }

  lemma DeadStep(lim: Limits, u: Uploads, e: Event, id: string, t: int)
    requires Dead(lim, u, id, t) && NotBefore(e, t) && !(e.Create? && e.id == id)
    ensures Dead(lim, Do(lim, u, e).uploads, id, t)
    ensures !e.Create? && e.id == id ==> Do(lim, u, e).reply in {NotFound, Removed}
  {
  }

  /** Once a session is past its time to live it is never returned again, whatever is called as long as the clock does not run back. */
  lemma {:induction false} ExpiredForGood(lim: Limits, u: Uploads, events: seq<Event>, last: Event, id: string, t: int)
    requires Dead(lim, u, id, t)
    requires forall e :: e in events + [last] ==> NotBefore(e, t) && !(e.Create? && e.id == id)
    requires last.id == id
    ensures Do(lim, Run(lim, u, events), last).reply in {NotFound, Removed}
    decreases |events|
  {
    if events == [] {
      assert last in events + [last];
      DeadStep(lim, u, last, id, t);
    } else {
      assert events[0] in events + [last];
      DeadStep(lim, u, events[0], id, t);
      assert forall e :: e in events[1..] + [last] ==> e in events + [last];
      ExpiredForGood(lim, Do(lim, u, events[0]).uploads, events[1..], last, id, t);
    }
  }

  /** Eviction removes the idle sessions with their files and touches nothing else. */
  lemma EvictsOnlyExpired(lim: Limits, u: Uploads, now: int, id: string)
    requires id in u.sessions && id in u.files
    ensures var u' := Evict(lim, u, now);
            if Expired(lim, u.sessions[id], now) then id !in u'.sessions && id !in u'.files
            else id in u'.sessions && u'.sessions[id] == u.sessions[id] && id in u'.files && u'.files[id] == u.files[id]
  {
  }

  // ---- Exact completion over runs ----

  /** Every append to `id` that is looked at is honest about its length and total. */
  ghost predicate HonestRun(lim: Limits, u: Uploads, events: seq<Event>, id: string)
    decreases |events|
  {
    events == [] || (
      && HonestCall(lim, u, events[0], id)
      && HonestRun(lim, Do(lim, u, events[0]).uploads, events[1..], id))
  }

  ghost predicate HonestCall(lim: Limits, u: Uploads, e: Event, id: string) {
    e.Append? && e.id == id && id in u.sessions ==> Honest(u.sessions[id], e.chunk, e.header)
  }

  ghost predicate Within(u: Uploads, id: string) { id in u.sessions ==> WithinTotal(u.sessions[id]) }

  lemma WithinStep(lim: Limits, u: Uploads, e: Event, id: string)
    requires Within(u, id) && HonestCall(lim, u, e, id)
    ensures Within(Do(lim, u, e).uploads, id)
    ensures var r := Do(lim, u, e).reply;
            e.Append? && e.id == id && r.Appended? ==> (r.complete <==> r.session.total == Some(r.session.received))
  {
    if e.Append? && e.id == id && DoLookup(lim, u, id, e.now).reply.Found? {
      var file := FileOf(Evict(lim, u, e.now), id);
      if AppendChunk(lim, u.sessions[id], file, e.chunk, e.header, e.later).Accepted? {
        HonestStaysWithinTotal(lim, u.sessions[id], file, e.chunk, e.header, e.later);
        WithinTotalExactly(lim, u.sessions[id], file, e.chunk, e.header, e.later);
      }
    }
  }

  /** With honest chunks the cursor never passes the total, so an append completes exactly when it reaches it. */
  lemma {:induction false} ExactCompletion(lim: Limits, u: Uploads, events: seq<Event>, last: Event, id: string)
    requires Within(u, id) && HonestRun(lim, u, events, id)
    requires HonestCall(lim, Run(lim, u, events), last, id)
    ensures Within(Run(lim, u, events), id)
    ensures var r := Do(lim, Run(lim, u, events), last).reply;
            last.Append? && last.id == id && r.Appended? ==> (r.complete <==> r.session.total == Some(r.session.received))
    decreases |events|
  {
    if events == [] {
      WithinStep(lim, u, last, id);
    } else {
      WithinStep(lim, u, events[0], id);
      ExactCompletion(lim, Do(lim, u, events[0]).uploads, events[1..], last, id);
    }
  }

  /** The checks an append passes: the range starts at the cursor, bytes and total are within the cap, and the total is not another one. */
  predicate Acceptable(lim: Limits, s: Session, chunk: Bytes, h: Header) {
    && !h.Unreadable? && (h.Says? && h.range.Chunk? ==> h.range.start == s.received)
    && s.received + |chunk| <= lim.maxBytes
    && (h.Total().Some? ==> h.Total().value <= lim.maxBytes && (s.total.Some? ==> h.Total() == s.total))
  }

  lemma AcceptedExactly(lim: Limits, s: Session, file: Bytes, chunk: Bytes, h: Header, now: int)
    ensures AppendChunk(lim, s, file, chunk, h, now).Accepted? <==> Acceptable(lim, s, chunk, h)
  {
  }

  /** An append that reaches a live session and is acceptable brings no more than the total then known has room for. */
  predicate FittingCall(lim: Limits, u: Uploads, e: Event, id: string) {
    e.Append? && e.id == id && ValidId(id) && id in u.sessions && !Expired(lim, u.sessions[id], e.now)
    && Acceptable(lim, u.sessions[id], e.chunk, e.header) ==>
      var s, known := u.sessions[id], Reconciled(u.sessions[id].total, e.header.Total());
      known.Some? ==> s.received + |e.chunk| <= known.value
  }

  ghost predicate FittingRun(lim: Limits, u: Uploads, events: seq<Event>, id: string)
    decreases |events|
  {
    events != [] ==> FittingCall(lim, u, events[0], id) && FittingRun(lim, Do(lim, u, events[0]).uploads, events[1..], id)
  }

  /** `e` is an append to `id` whose reply gets completion wrong. */
  ghost predicate Miscounts(lim: Limits, u: Uploads, e: Event, id: string) {
    var r := Do(lim, u, e).reply;
    e.Append? && e.id == id && r.Appended? && r.complete != (r.session.total == Some(r.session.received))
  }

  /** The cursor of `id` is within its total now and after every call, and every reply to an append says complete exactly at equality. */
  ghost predicate CompletesExactly(lim: Limits, u: Uploads, events: seq<Event>, id: string)
    decreases |events|
  {
    && Within(u, id)
    && (events != [] ==> !Miscounts(lim, u, events[0], id) && CompletesExactly(lim, Do(lim, u, events[0]).uploads, events[1..], id))
  }

  lemma FittingStep(lim: Limits, u: Uploads, e: Event, id: string)
    requires Within(u, id)
    ensures Within(Do(lim, u, e).uploads, id) <==> FittingCall(lim, u, e, id)
    ensures Miscounts(lim, u, e, id) ==> !FittingCall(lim, u, e, id)
  {
    if e.Append? && e.id == id && DoLookup(lim, u, id, e.now).reply.Found? {
      var file := FileOf(Evict(lim, u, e.now), id);
      AcceptedExactly(lim, u.sessions[id], file, e.chunk, e.header, e.later);
      if AppendChunk(lim, u.sessions[id], file, e.chunk, e.header, e.later).Accepted? {
        WithinTotalExactly(lim, u.sessions[id], file, e.chunk, e.header, e.later);
      }
    }
  }

  /** Over every run, cursor and completion are exact all the way if and only if every accepted append fits where it comes. */
  lemma {:induction false} CompletionOverRuns(lim: Limits, u: Uploads, events: seq<Event>, id: string)
    requires Within(u, id)
    ensures CompletesExactly(lim, u, events, id) <==> FittingRun(lim, u, events, id)
    decreases |events|
  {
    if events != [] {
      var u' := Do(lim, u, events[0]).uploads;
      FittingStep(lim, u, events[0], id);
      if Within(u', id) { CompletionOverRuns(lim, u', events[1..], id); }
    }
  }

  // ---- Reassembly ----

  /** The chunk holds the bytes of `whole` its header speaks of, and the header names no other total; without a range it is empty. */
  predicate From(chunk: Bytes, h: Header, whole: Bytes) {
    && (h.Total().Some? ==> h.Total().value == |whole|)
    && (if h.Says? && h.range.Chunk?
        then h.range.start <= h.range.end < |whole| && chunk == whole[h.range.start..h.range.end + 1]
        else chunk == [])
  }

  /** If the call sends anything readable to `id`, it is from `whole`. */
  predicate SendsOnly(e: Event, id: string, whole: Bytes) {
    e.Append? && e.id == id && !e.header.Unreadable? ==> From(e.chunk, e.header, whole)
  }

  /** What is staged for `id` is the beginning of `whole`. */
  ghost predicate Staged(u: Uploads, id: string, whole: Bytes) {
    id in u.sessions ==>
      && id in u.files && u.files[id] <= whole && u.sessions[id].received == |u.files[id]|
      && (u.sessions[id].total.Some? ==> u.sessions[id].total.value == |whole|)
  }

  lemma StagedChunk(lim: Limits, s: Session, file: Bytes, chunk: Bytes, h: Header, now: int, whole: Bytes)
    requires file <= whole && s.received == |file| && (s.total.Some? ==> s.total.value == |whole|)
    requires !h.Unreadable? ==> From(chunk, h, whole)
    ensures var v := AppendChunk(lim, s, file, chunk, h, now);
            v.Accepted? ==>
              && v.file <= whole && v.session.received == |v.file| && (v.session.total.Some? ==> v.session.total.value == |whole|)
              && (v.complete <==> v.session.total.Some? && v.file == whole)
  {
    if h.Says? && h.range.Chunk? && h.range.start == |file| { assert file + chunk == whole[..h.range.end + 1]; }
  }

  lemma StagedAppend(lim: Limits, u: Uploads, e: Event, id: string, whole: Bytes)
    requires Staged(u, id, whole) && SendsOnly(e, id, whole) && e.Append? && e.id == id
    ensures var o := Do(lim, u, e);
            && Staged(o.uploads, id, whole)
            && (o.reply.Appended? ==> id in o.uploads.files && (o.reply.complete <==> o.reply.session.total.Some? && o.uploads.files[id] == whole))
  {
    if DoLookup(lim, u, id, e.now).reply.Found? {
      StagedChunk(lim, u.sessions[id], u.files[id], e.chunk, e.header, e.later, whole);
    }
  }

  lemma StagedElsewhere(lim: Limits, u: Uploads, e: Event, id: string, whole: Bytes)
    requires Staged(u, id, whole) && !(e.Append? && e.id == id)
    ensures Staged(Do(lim, u, e).uploads, id, whole)
  {
  }

  /**
   Reassembly under arbitrary delivery: whatever the order, repetition and interleaving of the
   calls, as long as chunks for `id` come from one object, the staging file is always a prefix of it.
   */
  lemma {:induction false} Reassembly(lim: Limits, u: Uploads, events: seq<Event>, id: string, whole: Bytes)
    requires Staged(u, id, whole)
    requires forall e :: e in events ==> SendsOnly(e, id, whole)
    ensures Staged(Run(lim, u, events), id, whole)
    decreases |events|
  {
    if events != [] {
      assert events[0] in events;
      if events[0].Append? && events[0].id == id { StagedAppend(lim, u, events[0], id, whole); } else { StagedElsewhere(lim, u, events[0], id, whole); }
      Reassembly(lim, Do(lim, u, events[0]).uploads, events[1..], id, whole);
    }
  }

  /** And a completed append means the whole object is there; conversely, once all of it is there and the total known, it completes. */
  lemma CompleteMeansWhole(lim: Limits, u: Uploads, events: seq<Event>, last: Event, id: string, whole: Bytes)
    requires Staged(u, id, whole)
    requires forall e :: e in events ==> SendsOnly(e, id, whole)
    requires last.Append? && last.id == id && SendsOnly(last, id, whole)
    ensures var o := Do(lim, Run(lim, u, events), last);
            o.reply.Appended? ==> id in o.uploads.files && (o.reply.complete <==> o.reply.session.total.Some? && o.uploads.files[id] == whole)
  {
    Reassembly(lim, u, events, id, whole);
    StagedAppend(lim, Run(lim, u, events), last, id, whole);
  }
}
