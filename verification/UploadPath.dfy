/** The life of an upload over whole runs: it is finalized at most once, in time, and not after
    its cancel. */
module UploadPath {
  import opened Wrappers
  import opened Errors
  import opened ObjectKeys
  import opened ContentTypes
  import opened Variants
  import opened Requests
  import opened StorageKeys
  import opened Sessions
  import opened Storage
  import opened Worlds
  import opened Handlers
  import opened Systems
  import opened Frames
  import opened Invariants
  import opened WriteSteps
  import opened DeleteRuns

  // ---------- the life of an upload ----------

  ghost predicate PresignedIn(log: seq<Event>, u: string) {
    exists i :: 0 <= i < |log| && log[i].Presigned? && log[i].uploadId == u
  }
  ghost predicate FinalizedIn(log: seq<Event>, u: string) {
    exists i :: 0 <= i < |log| && log[i].Finalized? && log[i].uploadId == u
  }

  /** The upload was cancelled after it was presigned. */
  ghost predicate CancelledIn(log: seq<Event>, u: string) {
    exists j :: 0 <= j < |log| && log[j] == Cancelled(u) && PresignedIn(log[..j], u)
  }

  /** Presign announced this upload with a limit that `at` and `size` meet. */
  ghost predicate Announced(log: seq<Event>, u: string, at: int, size: int) {
    exists i :: 0 <= i < |log| && log[i].Presigned? && log[i].uploadId == u && at < log[i].expiresAt
      && log[i].contentLength == size && 0 < size <= MAX_UPLOAD_BYTES
  }

  /** Every finalize in the log was the first of its upload, came after its presign, in time,
      with the announced size, and not after a cancel. */
  ghost predicate LogOk(log: seq<Event>) {
    forall k | 0 <= k < |log| && log[k].Finalized? ::
      && !FinalizedIn(log[..k], log[k].uploadId) && !CancelledIn(log[..k], log[k].uploadId)
      && Announced(log[..k], log[k].uploadId, log[k].at, log[k].size)
  }

  /** An open session is neither finalized nor cancelled, and presign announced it. */
  ghost predicate OpenSession(log: seq<Event>, s: Session) {
    && !FinalizedIn(log, s.uploadId) && !CancelledIn(log, s.uploadId)
    && exists i :: 0 <= i < |log| && log[i] == Presigned(s.uploadId, s.expiresAt, s.contentLength)
  }

  ghost predicate LogInv(w: World) {
    && LogOk(w.log)
    && (forall u | u in w.sessions :: OpenSession(w.log, w.sessions[u]))
    && (forall i | 0 <= i < |w.log| && !w.log[i].Cancelled? :: w.log[i].uploadId in w.issued)
  }

  lemma AppendPrefix(log: seq<Event>, e: Event, k: nat)
    requires k <= |log|
    ensures (log + [e])[..k] == log[..k]
  {
  }

  /** What one more event changes. */
  lemma AppendEvent(log: seq<Event>, e: Event, u: string)
    ensures FinalizedIn(log + [e], u) <==> FinalizedIn(log, u) || (e.Finalized? && e.uploadId == u)
    ensures CancelledIn(log + [e], u) <==> CancelledIn(log, u) || (e == Cancelled(u) && PresignedIn(log, u))
  {
    var log1 := log + [e];
    assert log1[|log|] == e && forall i | 0 <= i < |log| :: log1[i] == log[i];
    assert log1[..|log|] == log;
    forall k: nat | k <= |log| { AppendPrefix(log, e, k); }
    if FinalizedIn(log, u) {
      var i :| 0 <= i < |log| && log[i].Finalized? && log[i].uploadId == u;
      assert log1[i] == log[i];
    }
    if CancelledIn(log, u) {
      var j :| 0 <= j < |log| && log[j] == Cancelled(u) && PresignedIn(log[..j], u);
      assert log1[j] == log[j] && log1[..j] == log[..j];
    }
    if CancelledIn(log1, u) {
      var j :| 0 <= j < |log1| && log1[j] == Cancelled(u) && PresignedIn(log1[..j], u);
      if j < |log| { assert log1[..j] == log[..j]; }
    }
  }

  lemma AppendLogOk(log: seq<Event>, e: Event)
    requires LogOk(log)
    requires e.Finalized? ==>
      !FinalizedIn(log, e.uploadId) && !CancelledIn(log, e.uploadId) && Announced(log, e.uploadId, e.at, e.size)
    ensures LogOk(log + [e])
  {
    hide FinalizedIn, CancelledIn, Announced;
    var log1 := log + [e];
    forall k: nat | k < |log1| && log1[k].Finalized?
      ensures !FinalizedIn(log1[..k], log1[k].uploadId) && !CancelledIn(log1[..k], log1[k].uploadId)
        && Announced(log1[..k], log1[k].uploadId, log1[k].at, log1[k].size)
    {
      AppendPrefix(log, e, k);
      if k == |log| { assert log[..k] == log; }
    }
  }

  lemma AppendOpen(log: seq<Event>, e: Event, s: Session)
    requires OpenSession(log, s) && (e.Presigned? || e.uploadId != s.uploadId)
    ensures OpenSession(log + [e], s)
  {
    hide FinalizedIn, CancelledIn;
    AppendEvent(log, e, s.uploadId);
    var i :| 0 <= i < |log| && log[i] == Presigned(s.uploadId, s.expiresAt, s.contentLength);
    assert (log + [e])[i] == log[i];
  }

  /** An upload ID that was never issued has no history but perhaps stray cancels. */
  lemma NeverIssued(w: World, u: string)
    requires LogInv(w) && u !in w.issued
    ensures !FinalizedIn(w.log, u) && !CancelledIn(w.log, u)
  {
    hide LogOk, OpenSession;
    forall j: nat | j <= |w.log| ensures !PresignedIn(w.log[..j], u) {
      assert forall i | 0 <= i < j :: w.log[..j][i] == w.log[i];
    }
  }

  lemma PresignLog(w: World, h: Headers, r: PresignRequest, u: string, ttl: int, f: PresignFaults)
    requires LogInv(w) && u !in w.issued
    ensures LogInv(Presign(w, h, r, u, ttl, f).0)
  {
    hide CheckPresign, StagingKey, LogOk, OpenSession;
    var w1 := Presign(w, h, r, u, ttl, f).0;
    if w1.log != w.log {
      var e := w1.log[|w.log|];
      var s := w1.sessions[u];
      assert w1.log == w.log + [e] && e == Presigned(u, s.expiresAt, s.contentLength) && s.uploadId == u;
      AppendLogOk(w.log, e);
      forall v | v in w.sessions ensures OpenSession(w1.log, w.sessions[v]) { AppendOpen(w.log, e, w.sessions[v]); }
      NeverIssued(w, u);
      FreshOpen(w.log, e, s);
    }
  }

  lemma FreshOpen(log: seq<Event>, e: Event, s: Session)
    requires !FinalizedIn(log, s.uploadId) && !CancelledIn(log, s.uploadId)
    requires e == Presigned(s.uploadId, s.expiresAt, s.contentLength)
    ensures OpenSession(log + [e], s)
  {
    hide FinalizedIn, CancelledIn;
    AppendEvent(log, e, s.uploadId);
    assert (log + [e])[|log|] == e;
  }

  /** Sessions may go, and one event about an upload without a session may come. */
  lemma CloseLog(w: World, w1: World, e: Event)
    requires LogInv(w) && w1.log == w.log + [e] && w.issued <= w1.issued
    requires forall v | v in w1.sessions :: v in w.sessions && w1.sessions[v] == w.sessions[v]
    requires forall v | v in w1.sessions :: w.sessions[v].uploadId != e.uploadId
    requires e.Finalized? ==>
      && e.uploadId in w.issued
      && !FinalizedIn(w.log, e.uploadId) && !CancelledIn(w.log, e.uploadId)
      && Announced(w.log, e.uploadId, e.at, e.size)
    requires !e.Presigned?
    ensures LogInv(w1)
  {
    hide FinalizedIn, CancelledIn, Announced, LogOk, OpenSession;
    AppendLogOk(w.log, e);
    forall v | v in w1.sessions ensures OpenSession(w1.log, w1.sessions[v]) { AppendOpen(w.log, e, w.sessions[v]); }
  }

  lemma SameLog(w: World, w1: World)
    requires LogInv(w) && w1.log == w.log && w.issued <= w1.issued
    requires forall v | v in w1.sessions :: v in w.sessions && w1.sessions[v] == w.sessions[v]
    ensures LogInv(w1)
  {
    hide LogOk, OpenSession;
  }

  lemma OpenIsAnnounced(log: seq<Event>, s: Session, now: int)
    requires OpenSession(log, s) && now < s.expiresAt && 0 < s.contentLength <= MAX_UPLOAD_BYTES
    ensures Announced(log, s.uploadId, now, s.contentLength)
  {
    hide FinalizedIn, CancelledIn;
  }

  lemma AcceptedWorld(w: World, h: Headers, u: string, f: FinalizeFaults)
    requires FinalizeUpload(w, h, u, f).1.Accepted? && u in w.sessions && w.sessions[u].uploadId == u
    ensures var w1 := FinalizeUpload(w, h, u, f).0;
      && w1.sessions == w.sessions - {u} && w.issued == w1.issued && w.signed == w1.signed
      && w1.log == w.log + [Finalized(u, w.now, w.sessions[u].contentLength)]
  {
    hide FinalizeUpload, Replicate, Promote;
    AcceptedChecks(w, h, u, f);
    var s := w.sessions[u];
    PromoteFrame(w, s, w.gcs[s.stagingObjectKey].body, f);
    ReplicateKeepsIssued(Promote(w, s, w.gcs[s.stagingObjectKey].body, f).0, s.objectKey,
                         w.gcs[s.stagingObjectKey].body, s.contentType, s.uploadId, f.put);
  }

  lemma ReplicateKeepsIssued(w: World, key: string, body: Bytes, ct: ContentType, version: string, put: Outcome)
    ensures var w1 := Replicate(w, key, body, ct, version, put);
      w1.issued == w.issued && w1.log == w.log && w1.sessions == w.sessions && w1.signed == w.signed && w1.gcs == w.gcs
  {
    hide MimeType;
  }

  lemma FinalizeLog(t: Transform, w: World, h: Headers, u: string, f: FinalizeFaults)
    requires Inv(t, w) && LogInv(w)
    ensures LogInv(FinalizeUpload(w, h, u, f).0)
  {
    hide Inv, LogOk, FinalizeUpload, OpenSession, IsUlid, EnforceContext, ContradictsType, PromoteAndReplicate;
    var w1 := FinalizeUpload(w, h, u, f).0;
    if FinalizeUpload(w, h, u, f).1.Accepted? {
      AcceptedChecks(w, h, u, f);
      SessionOfId(t, w, u);
      AcceptedWorld(w, h, u, f);
      OpenIsAnnounced(w.log, w.sessions[u], w.now);
      OpenNotClosed(w.log, w.sessions[u]);
      IdsMatch(t, w);
      IssuedSession(t, w, u);
      CloseLog(w, w1, Finalized(u, w.now, w.sessions[u].contentLength));
    } else {
      RefusedFrame(w, h, u, f);
      RefusedSessions(w, h, u, f);
      SameLog(w, w1);
    }
  }

  lemma OpenNotClosed(log: seq<Event>, s: Session)
    requires OpenSession(log, s)
    ensures !FinalizedIn(log, s.uploadId) && !CancelledIn(log, s.uploadId)
  {
  }

  lemma IdsMatch(t: Transform, w: World)
    requires Inv(t, w)
    ensures forall v | v in w.sessions :: w.sessions[v].uploadId == v
  {
    hide ValidSession, ReadInv;
  }

  lemma IssuedSession(t: Transform, w: World, u: string)
    requires Inv(t, w) && u in w.sessions
    ensures u in w.issued
  {
    hide ValidSession, ReadInv;
  }

  lemma RefusedSessions(w: World, h: Headers, u: string, f: FinalizeFaults)
    requires FinalizeUpload(w, h, u, f).1.FinalizeRefused?
    ensures var w1 := FinalizeUpload(w, h, u, f).0; w1.sessions == w.sessions || w1.sessions == w.sessions - {u}
  {
    hide FindSession, EnforceContext, ContradictsType, Promote, Replicate, DropStaged;
    var found := FindSession(w, h, u, f.sessionStoreDown);
    if found.Ok? && found.value.stagingObjectKey in w.gcs && w.gcs[found.value.stagingObjectKey].Image? {
      PromoteFrame(w, found.value, w.gcs[found.value.stagingObjectKey].body, f);
      DropStagedOnlyGcs(w, w, found.value, f.rejectDelete);
    }
  }

  lemma CancelWorld(w: World, h: Headers, u: string, f: CancelFaults)
    ensures var (w1, reply) := CancelUpload(w, h, u, f);
      && w1.issued == w.issued
      && w1.sessions == (if reply.CancelDone? then w.sessions - {u} else w.sessions)
      && w1.log == (if reply.CancelDone? then w.log + [Cancelled(u)] else w.log)
  {
    hide FindSession, DropStaged;
    var found := FindSession(w, h, u, f.sessionStoreDown);
    if found.Ok? {
      DropStagedOnlyGcs(w, w, found.value, f.stagingDelete);
    } else if found.error == UploadSessionNotFound {
      assert CancelUpload(w, h, u, f) == (Forget(w, u), CancelDone);
    }
  }

  lemma CancelLog(t: Transform, w: World, h: Headers, u: string, f: CancelFaults)
    requires Inv(t, w) && LogInv(w)
    ensures LogInv(CancelUpload(w, h, u, f).0)
  {
    hide Inv, LogInv, CancelUpload;
    var (w1, reply) := CancelUpload(w, h, u, f);
    IdsMatch(t, w);
    CancelWorld(w, h, u, f);
    if reply.CancelDone? { CloseLog(w, w1, Cancelled(u)); } else { SameLog(w, w1); }
  }

  lemma IngestBytesLog(w: World, key: string, expected: int, ct: ContentType, write: WriteOutcome, version: string,
                       put: Outcome)
    ensures var w1 := IngestBytes(w, key, expected, ct, write, version, put).0;
      w1.log == w.log && w1.sessions == w.sessions && w.issued <= w1.issued && w1.signed == w.signed
  {
    hide MimeType, Replicate;
    if write.Streamed? {
      ReplicateKeepsIssued(StoreImage(w, key, write.bytes, ct).(issued := w.issued + {version}), key, write.bytes, ct,
                           version, put);
    }
  }

  lemma IngestLog(w: World, key: string, source: Result<Source, ErrorCode>, rt: Option<string>,
                  write: WriteOutcome, version: string, put: Outcome)
    ensures var w1 := IngestObject(w, key, source, rt, write, version, put).0;
      w1.log == w.log && w1.sessions == w.sessions && w.issued <= w1.issued && w1.signed == w.signed
  {
    hide Canonical, ParseAllowedContentType, IngestBytes;
    forall expected, ct
      ensures var w1 := IngestBytes(w, key, expected, ct, write, version, put).0;
        w1.log == w.log && w1.sessions == w.sessions && w.issued <= w1.issued && w1.signed == w.signed
    {
      IngestBytesLog(w, key, expected, ct, write, version, put);
    }
  }

  lemma DeleteLog(w: World, a: Action)
    requires DeleteAction(a)
    ensures DeleteStep(w, a).log == w.log && DeleteStep(w, a).sessions == w.sessions
    ensures DeleteStep(w, a).issued == w.issued
  {
    hide DeleteStep, Shrinks;
    NoDelete(w, a);
    if a.d in w.deletes { DeleteStepFrame(w, a); }
  }

  lemma WorkerLog(t: Transform, w: World, a: Action)
    requires WorkerAction(a)
    ensures var w1 := WorkerStep(t, w, a); w1.log == w.log && w1.sessions == w.sessions && w1.issued == w.issued
  {
    hide MatchEdge, FirstRead, SecondRead, BuildVariantKey;
  }

  lemma ApplyLog(t: Transform, w: World, a: Action)
    requires Inv(t, w) && LogInv(w)
    ensures LogInv(Apply(t, w, a))
  {
    hide Inv, LogInv, DeleteStep, WorkerStep;
    if DeleteAction(a) {
      DeleteLog(w, a);
      SameLog(w, Apply(t, w, a));
    } else if WorkerAction(a) {
      WorkerLog(t, w, a);
      SameLog(w, Apply(t, w, a));
    } else {
      WriteLog(t, w, a);
    }
  }

  lemma WriteLog(t: Transform, w: World, a: Action)
    requires Inv(t, w) && LogInv(w) && !DeleteAction(a) && !WorkerAction(a)
    ensures LogInv(Apply(t, w, a))
  {
    hide Inv, LogInv, Presign, FinalizeUpload, CancelUpload, IngestObject, StartDelete, Reconcile, IsUlid;
    match a
    case PresignAct(h, r, u, ttl, f) => SameLog(w, w); if FreshUlid(w, u) { PresignLog(w, h, r, u, ttl, f); }
    case FinalizeAct(h, u, f) => FinalizeLog(t, w, h, u, f);
    case CancelAct(h, u, f) => CancelLog(t, w, h, u, f);
    case IngestAct(key, source, rt, write, version, put) =>
      IngestLog(w, key, source, rt, write, version, put);
      SameLog(w, Apply(t, w, a));
    case ReconcileAct(key) => ReconcileLog(w, key); SameLog(w, Apply(t, w, a));
    case _ => SameLog(w, Apply(t, w, a));
  }

  lemma ReconcileLog(w: World, key: string)
    ensures var w1 := Reconcile(w, key);
      w1.log == w.log && w1.sessions == w.sessions && w1.issued == w.issued && w1.signed == w.signed && w1.gcs == w.gcs
  {
    hide Canonical, TombstoneKey;
  }

  lemma {:induction false} RunLog(t: Transform, now: int, actions: seq<Action>)
    ensures LogInv(Run(t, InitialWorld(now), actions)) && Inv(t, Run(t, InitialWorld(now), actions))
    decreases |actions|
  {
    hide Inv, LogInv, Apply;
    InitialInv(t, now);
    RunKeeps(t, InitialWorld(now), actions);
    if actions == [] {
      assert LogInv(InitialWorld(now)) by { EmptyLog(now); }
    } else {
      var front := actions[..|actions| - 1];
      RunLog(t, now, front);
      ApplyLog(t, Run(t, InitialWorld(now), front), actions[|actions| - 1]);
    }
  }

  lemma EmptyLog(now: int)
    ensures LogInv(InitialWorld(now))
  {
  }

  /** In every run, each upload ID has at most one successful finalize, none after a cancel of
      the presigned upload, and each one happens before the session expires, with the size that
      presign announced, which is positive and at most 50 MB. */
  lemma UploadsFinalizeOnce(t: Transform, now: int, actions: seq<Action>, k: nat)
    requires var log := Run(t, InitialWorld(now), actions).log; k < |log| && log[k].Finalized?
    ensures var log := Run(t, InitialWorld(now), actions).log;
      var u := log[k].uploadId;
      && (forall j | 0 <= j < |log| && log[j].Finalized? && log[j].uploadId == u :: j == k)
      && (forall i, j | 0 <= i < j < k && log[i].Presigned? && log[i].uploadId == u :: log[j] != Cancelled(u))
      && (exists i :: 0 <= i < k && log[i].Presigned? && log[i].uploadId == u && log[k].at < log[i].expiresAt
            && log[k].size == log[i].contentLength && 0 < log[k].size <= MAX_UPLOAD_BYTES)
  {
    hide Inv, Run;
    RunLog(t, now, actions);
    var log := Run(t, InitialWorld(now), actions).log;
    var u := log[k].uploadId;
    FirstOfItsUpload(log, k);
    forall i, j | 0 <= i < j < k && log[i].Presigned? && log[i].uploadId == u ensures log[j] != Cancelled(u) {
      if log[j] == Cancelled(u) {
        CancelWitness(log, i, j, k);
        assert false;
      }
    }
    var i :| 0 <= i < |log[..k]| && log[..k][i].Presigned? && log[..k][i].uploadId == u
      && log[k].at < log[..k][i].expiresAt
      && log[..k][i].contentLength == log[k].size;
    assert log[..k][i] == log[i];
  }

  // ---------- the log only grows ----------

  lemma FinalizeLogGrows(t: Transform, w: World, h: Headers, u: string, f: FinalizeFaults)
    requires Inv(t, w)
    ensures var (w1, reply) := FinalizeUpload(w, h, u, f);
      w1.log == if reply.Accepted? then w.log + [Finalized(u, w.now, w.sessions[u].contentLength)] else w.log
    ensures FinalizeUpload(w, h, u, f).1.Accepted? ==> u in w.sessions
  {
    hide Inv, FinalizeUpload;
    if FinalizeUpload(w, h, u, f).1.Accepted? {
      AcceptedChecks(w, h, u, f);
      SessionOfId(t, w, u);
      AcceptedWorld(w, h, u, f);
    } else {
      RefusedFrame(w, h, u, f);
    }
  }

  lemma PresignLogGrows(w: World, h: Headers, r: PresignRequest, u: string, ttl: int, f: PresignFaults)
    ensures w.log <= Presign(w, h, r, u, ttl, f).0.log
  {
    hide CheckPresign, StagingKey, ProductOf, AuctionHouseOf;
  }

  lemma ApplyLogGrows(t: Transform, w: World, a: Action)
    requires Inv(t, w)
    ensures w.log <= Apply(t, w, a).log
  {
    hide Inv, DeleteStep, WorkerStep;
    if DeleteAction(a) {
      DeleteLog(w, a);
    } else if WorkerAction(a) {
      WorkerLog(t, w, a);
    } else {
      WriteLogGrows(t, w, a);
    }
  }

  lemma WriteLogGrows(t: Transform, w: World, a: Action)
    requires Inv(t, w) && !DeleteAction(a) && !WorkerAction(a)
    ensures w.log <= Apply(t, w, a).log
  {
    hide Inv, FinalizeUpload, CancelUpload, Presign, IngestObject, Reconcile, StartDelete, IsUlid;
    match a {
      case PresignAct(h, r, u, ttl, f) => PresignLogGrows(w, h, r, u, ttl, f);
      case FinalizeAct(h, u, f) => FinalizeLogGrows(t, w, h, u, f);
      case CancelAct(h, u, f) => CancelWorld(w, h, u, f);
      case IngestAct(key, source, rt, write, version, put) => IngestLog(w, key, source, rt, write, version, put);
      case ReconcileAct(key) => ReconcileLog(w, key);
      case _ =>
    }
  }

  lemma {:induction false} RunLogGrows(t: Transform, now: int, actions: seq<Action>, n: nat)
    requires n <= |actions|
    ensures Run(t, InitialWorld(now), actions[..n]).log <= Run(t, InitialWorld(now), actions).log
    decreases |actions|
  {
    hide Inv, LogInv, Apply;
    if n == |actions| {
      assert actions[..n] == actions;
    } else {
      var front := actions[..|actions| - 1];
      assert front[..n] == actions[..n];
      RunLogGrows(t, now, front, n);
      RunLog(t, now, front);
      ApplyLogGrows(t, Run(t, InitialWorld(now), front), actions[|actions| - 1]);
    }
  }

  /** The action ends the upload: it is answered with a 200 to its finalize, or with a 204 to
      its cancel after it was presigned. */
  ghost predicate EndsUpload(w: World, a: Action, u: string) {
    || (a.FinalizeAct? && a.uploadId == u && FinalizeUpload(w, a.h, u, a.finalizeFaults).1.Accepted?)
    || (a.CancelAct? && a.uploadId == u && PresignedIn(w.log, u)
        && CancelUpload(w, a.h, u, a.cancelFaults).1.CancelDone?)
  }

  lemma EndIsLogged(t: Transform, w: World, a: Action, u: string)
    requires Inv(t, w) && LogInv(w) && EndsUpload(w, a, u)
    ensures var log := Apply(t, w, a).log; FinalizedIn(log, u) || CancelledIn(log, u)
  {
    hide Inv, LogInv, FinalizeUpload, CancelUpload, PresignedIn;
    if a.FinalizeAct? {
      FinalizeLogGrows(t, w, a.h, u, a.finalizeFaults);
      AppendEvent(w.log, Finalized(u, w.now, w.sessions[u].contentLength), u);
    } else {
      CancelWorld(w, a.h, u, a.cancelFaults);
      AppendEvent(w.log, Cancelled(u), u);
    }
  }

  lemma StaysLogged(log: seq<Event>, log1: seq<Event>, u: string)
    requires log <= log1
    ensures FinalizedIn(log, u) ==> FinalizedIn(log1, u)
    ensures CancelledIn(log, u) ==> CancelledIn(log1, u)
  {
    hide PresignedIn;
    assert forall i | 0 <= i < |log| :: log1[i] == log[i] && log1[..i] == log[..i];
  }

  /** Once an upload was finalized or cancelled, no later finalize of it succeeds. */
  lemma NoFinalizeAfterTheEnd(t: Transform, now: int, actions: seq<Action>, i: nat, j: nat)
    requires i < j < |actions| && actions[j].FinalizeAct?
    requires EndsUpload(Run(t, InitialWorld(now), actions[..i]), actions[i], actions[j].uploadId)
    ensures var a := actions[j];
      FinalizeUpload(Run(t, InitialWorld(now), actions[..j]), a.h, a.uploadId, a.finalizeFaults).1.FinalizeRefused?
  {
    hide Inv, LogInv, FinalizeUpload, EndsUpload, Apply, FinalizedIn, CancelledIn;
    var w0, w1, u :=
      Run(t, InitialWorld(now), actions[..i]), Run(t, InitialWorld(now), actions[..j]), actions[j].uploadId;
    RunLog(t, now, actions[..i]);
    RunLog(t, now, actions[..j]);
    assert actions[..i + 1][..i] == actions[..i] && actions[..j][..i + 1] == actions[..i + 1];
    EndIsLogged(t, w0, actions[i], u);
    RunLogGrows(t, now, actions[..j], i + 1);
    StaysLogged(Apply(t, w0, actions[i]).log, w1.log, u);
    if FinalizeUpload(w1, actions[j].h, u, actions[j].finalizeFaults).1.Accepted? {
      AcceptedIsOpen(t, w1, actions[j].h, u, actions[j].finalizeFaults);
      assert false;
    }
  }

  lemma AcceptedIsOpen(t: Transform, w: World, h: Headers, u: string, f: FinalizeFaults)
    requires Inv(t, w) && LogInv(w) && FinalizeUpload(w, h, u, f).1.Accepted?
    ensures !FinalizedIn(w.log, u) && !CancelledIn(w.log, u)
  {
    hide Inv, FinalizeUpload, LogOk, OpenSession, FinalizedIn, CancelledIn;
    AcceptedChecks(w, h, u, f);
    SessionOfId(t, w, u);
    IdsMatch(t, w);
    OpenNotClosed(w.log, w.sessions[u]);
  }

  lemma FirstOfItsUpload(log: seq<Event>, k: nat)
    requires LogOk(log) && k < |log| && log[k].Finalized?
    ensures forall j | 0 <= j < |log| && log[j].Finalized? && log[j].uploadId == log[k].uploadId :: j == k
  {
    hide CancelledIn, Announced, FinalizedIn;
    forall j | 0 <= j < |log| && log[j].Finalized? && log[j].uploadId == log[k].uploadId ensures j == k {
      if j < k { FinalizeWitness(log, j, k); assert false; }
      if k < j { FinalizeWitness(log, k, j); assert false; }
    }
  }

  lemma FinalizeWitness(log: seq<Event>, j: nat, k: nat)
    requires j < k <= |log| && log[j].Finalized?
    ensures FinalizedIn(log[..k], log[j].uploadId)
  {
    assert log[..k][j] == log[j];
  }

  lemma CancelWitness(log: seq<Event>, i: nat, j: nat, k: nat)
    requires i < j < k <= |log| && log[i].Presigned? && log[j] == Cancelled(log[i].uploadId)
    ensures CancelledIn(log[..k], log[i].uploadId)
  {
    assert log[..k][j] == log[j] && log[..k][..j] == log[..j] && log[..j][i] == log[i];
  }
}
