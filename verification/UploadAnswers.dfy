/** What every upload call answers, from the session, the header and the clock alone. */
module UploadAnswers {
  import opened Basics
  import opened ContentRange
  import opened UploadSessions

  // ---- Ids ----

  predicate Letter(c: char) { 'a' <= c <= 'z' || 'A' <= c <= 'Z' }
  predicate Hex(c: char) { '0' <= c <= '9' || 'a' <= c <= 'f' }

  /** Ids of 8 to 64 letters, digits, underscores and hyphens are looked up; so are those the source draws, 32 hex digits. */
  lemma OrdinaryIdsAreValid(id: string)
    ensures 8 <= |id| <= 64 && (forall c :: c in id ==> Letter(c) || '0' <= c <= '9' || c in {'_', '-'}) ==> ValidId(id)
    ensures |id| == 32 && (forall c :: c in id ==> Hex(c)) ==> ValidId(id)
  {
    assert forall i :: 0 <= i < |id| ==> id[i] in id;
  }

  /** Too short, too long, or with any other character except one final newline: such ids are not even looked up. */
  lemma OtherIdsAreNot(id: string)
    ensures |id| < 8 || |id| > 65 || (|id| == 65 && id[64] != '\n') ==> !ValidId(id)
    ensures (exists i :: 0 <= i < |id| && !Letter(id[i]) && !('0' <= id[i] <= '9') && id[i] !in {'_', '-', '\n'}) ==> !ValidId(id)
    ensures (exists i :: 0 <= i < |id| - 1 && id[i] == '\n') ==> !ValidId(id)
  {
  }

  // ---- Lookup ----

  /** A session is found exactly when it is registered under a valid id and has not been idle longer than the time to live; then it is returned as it is. */
  lemma LookupAnswers(lim: Limits, u: Uploads, id: string, now: int)
    ensures var r := DoLookup(lim, u, id, now).reply;
            if ValidId(id) && id in u.sessions && now - u.sessions[id].lastActive <= lim.ttl
            then r == Found(u.sessions[id]) else r == NotFound
  {
  }

  /** A valid lookup sweeps exactly the sessions idle longer than the time to live, with their files. */
  lemma LookupSweeps(lim: Limits, u: Uploads, id: string, now: int, other: string)
    requires other in u.sessions && other in u.files
    ensures var u' := DoLookup(lim, u, id, now).uploads;
            if ValidId(id) && now - u.sessions[other].lastActive > lim.ttl then other !in u'.sessions && other !in u'.files
            else other in u'.sessions && u'.sessions[other] == u.sessions[other] && other in u'.files && u'.files[other] == u.files[other]
  {
  }

  // ---- The other calls ----

  lemma CreateAnswers(u: Uploads, id: string, project: string, now: int)
    ensures var r := DoCreate(u, id, project, now);
            if id in u.files then r == Outcome(u, FileExists)
            else
              && r.reply == Found(Session(project, 0, None, false, now, now))
              && r.uploads.sessions == u.sessions[id := r.reply.session] && r.uploads.files == u.files[id := []]
  {
  }

  /** The checks of an append, in order. */
  function Judged(lim: Limits, s: Session, chunk: Bytes, h: Header): Option<Reply> {
    if h.Unreadable? || (h.Says? && h.range.Chunk? && h.range.start != s.received) then Some(BadRange)
    else if s.received + |chunk| > lim.maxBytes || (h.Total().Some? && h.Total().value > lim.maxBytes) then Some(TooLarge)
    else if h.Total().Some? && s.total.Some? && h.Total().value != s.total.value then Some(BadRange)
    else None
  }

  /** An append to a session that is found is judged on header and size alone; accepted, it adds its bytes to file and cursor and takes over a first total. */
  lemma AppendAnswers(lim: Limits, u: Uploads, id: string, chunk: Bytes, h: Header, now: int, later: int)
    ensures var r := DoAppend(lim, u, id, chunk, h, now, later);
            var found := DoLookup(lim, u, id, now);
            if found.reply == NotFound then r == found
            else
              && found.reply == Found(u.sessions[id])
              && var s, refusal := u.sessions[id], Judged(lim, u.sessions[id], chunk, h);
                 if refusal.Some? then r == Outcome(found.uploads, refusal.value)
                 else
                   && r.reply.Appended?
                   && r.reply.session == Session(s.project, s.received + |chunk|, if s.total.Some? then s.total else h.Total(), s.finalized, s.createdAt, later)
                   && r.uploads.sessions == found.uploads.sessions[id := r.reply.session]
                   && (chunk == [] ==> r.uploads.files == found.uploads.files)
                   && (chunk != [] ==> r.uploads.files == found.uploads.files[id := FileOf(found.uploads, id) + chunk])
  {
    LookupAnswers(lim, u, id, now);
  }

  lemma FinalizeAnswers(lim: Limits, u: Uploads, id: string, now: int, later: int)
    ensures var r := DoFinalize(lim, u, id, now, later);
            var found := DoLookup(lim, u, id, now);
            if found.reply == NotFound then r == found
            else
              && found.reply == Found(u.sessions[id])
              && r.reply == Found(u.sessions[id].(finalized := true, lastActive := later))
              && r.uploads == Uploads(found.uploads.sessions[id := r.reply.session], found.uploads.files)
  {
    LookupAnswers(lim, u, id, now);
  }

  lemma RemoveAnswers(u: Uploads, id: string)
    ensures var r := DoRemove(u, id);
            && r.reply == Removed && id !in r.uploads.sessions
            && (id in u.sessions ==> r.uploads == Uploads(u.sessions - {id}, u.files - {id}))
            && (id !in u.sessions ==> r.uploads == u)
  {
  }

  // ---- A session in use is never lost ----

  /** The call comes no later than the time to live after the session's last activity. */
  predicate InTime(lim: Limits, u: Uploads, e: Event, id: string) {
    (e.Lookup? || e.Append? || e.Finalize?) && id in u.sessions ==> e.now - u.sessions[id].lastActive <= lim.ttl
  }

  ghost predicate AllInTime(lim: Limits, u: Uploads, events: seq<Event>, id: string)
    decreases |events|
  {
    events != [] ==> InTime(lim, u, events[0], id) && AllInTime(lim, Do(lim, u, events[0]).uploads, events[1..], id)
  }

  lemma StaysStep(lim: Limits, u: Uploads, e: Event, id: string)
    requires id in u.sessions && id in u.files && InTime(lim, u, e, id) && e != Remove(id)
    ensures var u' := Do(lim, u, e).uploads; id in u'.sessions && id in u'.files
  {
    match e
    case Create(i, p, now) => CreateAnswers(u, i, p, now);
    case Lookup(i, now) => LookupSweeps(lim, u, i, now, id);
    case Append(i, chunk, h, now, later) =>
      LookupSweeps(lim, u, i, now, id);
      AppendAnswers(lim, u, i, chunk, h, now, later);
    case Finalize(i, now, later) =>
      LookupSweeps(lim, u, i, now, id);
      FinalizeAnswers(lim, u, i, now, later);
    case Remove(i) => RemoveAnswers(u, i);
  }

  /**
   A session that is there, is not removed and is never idle beyond the time to live when a call comes in is there
   after every run, and a lookup in time under a valid id finds it.
   */
  lemma {:induction false} InUseIsFound(lim: Limits, u: Uploads, events: seq<Event>, id: string, now: int)
    requires id in u.sessions && id in u.files && AllInTime(lim, u, events, id) && Remove(id) !in events
    ensures var end := Run(lim, u, events);
            && id in end.sessions
            && (ValidId(id) && now - end.sessions[id].lastActive <= lim.ttl ==> DoLookup(lim, end, id, now).reply == Found(end.sessions[id]))
    decreases |events|
  {
    if events == [] {
      LookupAnswers(lim, u, id, now);
    } else {
      assert events[0] in events;
      StaysStep(lim, u, events[0], id);
      InUseIsFound(lim, Do(lim, u, events[0]).uploads, events[1..], id, now);
    }
  }

  /** So a session created under 32 hex digits is found by every later lookup in time. */
  lemma CreatedIsFound(lim: Limits, u: Uploads, id: string, project: string, at: int, events: seq<Event>, now: int)
    requires |id| == 32 && (forall c :: c in id ==> Hex(c)) && id !in u.files
    requires AllInTime(lim, DoCreate(u, id, project, at).uploads, events, id) && Remove(id) !in events
    ensures var end := Run(lim, DoCreate(u, id, project, at).uploads, events);
            id in end.sessions && (now - end.sessions[id].lastActive <= lim.ttl ==> DoLookup(lim, end, id, now).reply == Found(end.sessions[id]))
  {
    OrdinaryIdsAreValid(id);
    CreateAnswers(u, id, project, at);
    InUseIsFound(lim, DoCreate(u, id, project, at).uploads, events, id, now);
  }
}
