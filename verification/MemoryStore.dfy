/** The in-process session store (upload-function/src/upload-session-store.ts). */
module MemoryStore {
  import opened Wrappers
  import opened Errors
  import opened Sessions

  const DEFAULT_MAX_IN_MEMORY_SESSIONS: nat := 10000

  class InMemoryUploadSessionStore {
    var sessions: SessionMap
    const maxSessions: nat

    constructor (maxSessions: Option<nat>)
      ensures sessions == map[]
      ensures this.maxSessions == if maxSessions.Some? then maxSessions.value else DEFAULT_MAX_IN_MEMORY_SESSIONS
    {
      sessions := map[];
      this.maxSessions := if maxSessions.Some? then maxSessions.value else DEFAULT_MAX_IN_MEMORY_SESSIONS;
    }

    method Create(input: Session, now: int) returns (r: Result<Session, ErrorCode>)
      modifies this
      ensures sessions == LazyStep(old(sessions), maxSessions, Timed(Op.Create(input), now)).0
      ensures r.Err? <==> |Live(old(sessions), now)| >= maxSessions
      ensures r == if |Live(old(sessions), now)| >= maxSessions then Err(TooManySessions) else Ok(input)
      ensures |old(sessions)| <= maxSessions ==> |sessions| <= maxSessions
    {
      SubmapSize(Live(sessions, now), sessions);
      if |sessions| >= maxSessions {
        PruneExpired(now);
      }
      if |sessions| >= maxSessions {
        return Err(TooManySessions);
      }
      sessions := sessions[input.uploadId := input];
      return Ok(input);
    }

    method Delete(uploadId: string)
      modifies this
      ensures sessions == old(sessions) - {uploadId}
    {
      sessions := sessions - {uploadId};
    }

    method Get(uploadId: string, now: int) returns (r: Option<Session>)
      modifies this
      ensures r == Lookup(old(sessions), uploadId, now)
      ensures sessions == LazyStep(old(sessions), maxSessions, Timed(Op.Get(uploadId), now)).0
      ensures Live(sessions, now) == Live(old(sessions), now)
    {
      if uploadId !in sessions {
        return None;
      }
      var session := sessions[uploadId];
      if session.expiresAt <= now {
        sessions := sessions - {uploadId};
        return None;
      }
      return Some(session);
    }

    method PruneExpired(now: int)
      modifies this
      ensures sessions == Live(old(sessions), now)
    {
      var pending := sessions.Keys;
      while pending != {}
        invariant pending <= old(sessions).Keys
        invariant sessions == map id | id in old(sessions) && (id in pending || now < old(sessions)[id].expiresAt) ::
          old(sessions)[id]
        decreases |pending|
      {
        var uploadId :| uploadId in pending;
        if sessions[uploadId].expiresAt <= now {
          sessions := sessions - {uploadId};
        }
        pending := pending - {uploadId};
      }
    }
  }
}
