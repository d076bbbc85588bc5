/**
 The upload session manager as objects: session objects changed in place, a dictionary of
 them, and the staging directory.
 */
module UploadManager {
  import opened Basics
  import opened ContentRange
  import opened UploadSessions

  class UploadSession {
    const id: string
    const project: string
    const createdAt: int
    var received: nat
    var total: Option<nat>
    var finalized: bool
    var lastActive: int

    function View(): Session
      reads this
    {
      Session(project, received, total, finalized, createdAt, lastActive)
    }

    constructor (id: string, project: string, now: int)
      ensures this.id == id && View() == Session(project, 0, None, false, now, now)
    {
      this.id, this.project, createdAt, lastActive := id, project, now, now;
      received, total, finalized := 0, None, false;
    }

    /** Note `n` bytes received; a total is taken over only if none was declared before. */
    method Advance(declared: Option<nat>, n: nat, later: int)
      modifies this
      ensures View() == old(View()).(received := old(received) + n, total := Reconciled(old(total), declared), lastActive := later)
    {
      if total.None? { total := declared; }
      if n > 0 { received := received + n; }
      lastActive := later;
    }
  }

  lemma AcceptedChunk(lim: Limits, s: Session, file: Bytes, chunk: Bytes, h: Header, later: int)
    requires AppendChunk(lim, s, file, chunk, h, later).Accepted?
    ensures var v := AppendChunk(lim, s, file, chunk, h, later);
            && v.session == s.(received := s.received + |chunk|, total := Reconciled(s.total, h.Total()), lastActive := later)
            && v.file == file + chunk
  {
  }

  class UploadSessionManager {
    const limits: Limits
    var sessions: map<string, UploadSession>
    var files: map<string, Bytes>

    /** Sessions sit under their own ids, so no two ids share one. */
    ghost predicate Valid()
      reads this, sessions.Values
    {
      forall id :: id in sessions ==> sessions[id].id == id
    }

    ghost function Sessions(): map<string, Session>
      reads this, sessions.Values
    {
      map id | id in sessions :: sessions[id].View()
    }

    ghost function View(): Uploads
      reads this, sessions.Values
    {
      Uploads(Sessions(), files)
    }

    /** Starts with no session, on a staging directory that may hold files of earlier processes. */
    constructor (limits: Limits, files: map<string, Bytes>)
      ensures Valid() && this.limits == limits && View() == Uploads(map[], files)
    {
      this.limits, this.files, sessions := limits, files, map[];
    }

    method Create(id: string, project: string, now: int) returns (r: Reply)
      requires Valid()
      modifies this
      ensures Valid() && Outcome(View(), r) == DoCreate(old(View()), id, project, now)
    {
      if id in files { return FileExists; }
      ghost var before := Sessions();
      files := files[id := []];
      var s := new UploadSession(id, project, now);
      sessions := sessions[id := s];
      assert Sessions() == before[id := s.View()];
      r := Found(s.View());
    }

    /** Pops the session and unlinks its file; an unknown id is ignored. */
    method Remove(id: string)
      requires Valid()
      modifies this
      ensures Valid() && View() == DoRemove(old(View()), id).uploads
      ensures sessions == old(sessions) - {id}
    {
      if id !in sessions { return; }
      sessions := sessions - {id};
      files := files - {id};
    }

    /** The ids past their time to live, listed before anything is removed. */
    method ListExpired(now: int) returns (ids: seq<string>)
      requires Valid()
      ensures forall id :: id in ids <==> id in sessions && Expired(limits, sessions[id].View(), now)
    {
      ids := [];
      var rest := sessions.Keys;
      while rest != {}
        invariant rest <= sessions.Keys
        invariant forall id :: id in ids <==> id in sessions && id !in rest && Expired(limits, sessions[id].View(), now)
        decreases rest
      {
        var id :| id in rest;
        if sessions[id].lastActive < now - limits.ttl { ids := ids + [id]; }
        rest := rest - {id};
      }
    }

    method EvictExpired(now: int)
      requires Valid()
      modifies this
      ensures Valid() && View() == Evict(limits, old(View()), now)
      ensures forall id :: id in sessions ==> id in old(sessions) && sessions[id] == old(sessions)[id]
    {
      var ids := ListExpired(now);
      ghost var before := View();
      for i := 0 to |ids|
        invariant Valid()
        invariant sessions == map id | id in old(sessions) && id !in ids[..i] :: old(sessions)[id]
        invariant View() == WithoutIds(before, ids[..i])
      {
        assert ids[..i + 1] == ids[..i] + [ids[i]];
        Remove(ids[i]);
        RemoveNext(before, ids[..i], ids[i]);
      }
      assert ids[..|ids|] == ids;
      WithoutIdsIsEvict(limits, before, ids, now);
    }

    /** A live session by id, after sweeping the idle ones. */
    method Get(id: string, now: int) returns (s: UploadSession?)
      requires Valid()
      modifies this
      ensures Valid()
      ensures var o := DoLookup(limits, old(View()), id, now);
              View() == o.uploads && if s == null then o.reply == NotFound else id in sessions && sessions[id] == s && o.reply == Found(s.View())
      ensures forall k :: k in sessions ==> k in old(sessions) && sessions[k] == old(sessions)[k]
    {
      if !ValidId(id) { return null; }
      EvictExpired(now);
      if id in sessions { return sessions[id]; }
      return null;
    }

    /** Offset, caps and declared total, in that order; nothing when the append may go ahead. */
    method CheckAppend(s: UploadSession, chunk: Bytes, h: Header) returns (refusal: Option<Reply>)
      ensures forall file: Bytes, later: int :: refusal ==
                match AppendChunk(limits, s.View(), file, chunk, h, later)
                case RangeError => Some(BadRange)
                case SizeExceeded => Some(TooLarge)
                case Accepted(_, _, _) => None
    {
      if h.Unreadable? { return Some(BadRange); }
      if h.Says? && h.range.Chunk? && h.range.start != s.received { return Some(BadRange); }
      if s.received + |chunk| > limits.maxBytes { return Some(TooLarge); }
      if h.Total().Some? && h.Total().value > limits.maxBytes { return Some(TooLarge); }
      if h.Total().Some? && s.total.Some? && h.Total() != s.total { return Some(BadRange); }
      return None;
    }

    /** Stash the total, extend the staging file, advance the cursor, stamp the session. */
    method WriteChunk(s: UploadSession, id: string, chunk: Bytes, h: Header, later: int)
      requires Valid() && id in sessions && sessions[id] == s
      requires AppendChunk(limits, s.View(), FileOf(View(), id), chunk, h, later).Accepted?
      modifies this`files, s
      ensures Valid()
      ensures var v := AppendChunk(limits, old(s.View()), FileOf(old(View()), id), chunk, h, later);
              && s.View() == v.session
              && View() == Uploads(old(Sessions())[id := v.session], if chunk == [] then old(files) else old(files)[id := v.file])
    {
      ghost var before := Sessions();
      AcceptedChunk(limits, s.View(), FileOf(View(), id), chunk, h, later);
      if chunk != [] { files := files[id := (if id in files then files[id] else []) + chunk]; }
      s.Advance(h.Total(), |chunk|, later);
      assert Sessions() == before[id := s.View()];
    }

    /** Everything is checked before the first byte is written. */
    method AppendBytes(id: string, chunk: Bytes, contentRange: Option<string>, now: int, later: int) returns (r: Reply)
      requires Valid()
      modifies this, sessions.Values
      ensures Valid() && Outcome(View(), r) == DoAppend(limits, old(View()), id, chunk, ReadHeader(contentRange), now, later)
    {
      var s := Get(id, now);
      if s == null { return NotFound; }
      var h := ReadHeader(contentRange);
      ghost var v := AppendChunk(limits, s.View(), FileOf(View(), id), chunk, h, later);
      var refusal := CheckAppend(s, chunk, h);
      if refusal.Some? { return refusal.value; }
      WriteChunk(s, id, chunk, h, later);
      r := Appended(s.View(), IsComplete(s.View(), h));
    }

    method FinalizeSession(id: string, now: int, later: int) returns (r: Reply)
      requires Valid()
      modifies this, sessions.Values
      ensures Valid() && Outcome(View(), r) == DoFinalize(limits, old(View()), id, now, later)
    {
      var s := Get(id, now);
      if s == null { return NotFound; }
      ghost var before := View();
      s.finalized := true;
      s.lastActive := later;
      assert Sessions() == before.sessions[id := s.View()];
      r := Found(s.View());
    }
  }

  /** The registry without some sessions and their files. */
  ghost function WithoutIds(u: Uploads, ids: seq<string>): Uploads {
    Uploads(map k | k in u.sessions && k !in ids :: u.sessions[k],
            map k | k in u.files && !(k in u.sessions && k in ids) :: u.files[k])
  }

  lemma RemoveNext(u: Uploads, ids: seq<string>, id: string)
    ensures DoRemove(WithoutIds(u, ids), id).uploads == WithoutIds(u, ids + [id])
  {
  }

  lemma WithoutIdsIsEvict(lim: Limits, u: Uploads, ids: seq<string>, now: int)
    requires forall id :: id in ids <==> id in u.sessions && Expired(lim, u.sessions[id], now)
    ensures WithoutIds(u, ids) == Evict(lim, u, now)
  {
  }
}
