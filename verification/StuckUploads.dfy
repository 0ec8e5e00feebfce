/** The upload whose promotion lost its staged object: it stays refused until the client sends its
    bytes again. */
module StuckUploads {
  import opened Wrappers
  import opened Errors
  import opened ObjectKeys
  import opened ContentTypes
  import opened Requests
  import opened Sessions
  import opened Storage
  import opened Worlds
  import opened Handlers
  import opened Systems
  import opened Frames
  import opened Invariants
  import opened WriteSteps
  import opened DeleteRuns
  import opened UploadPath
  import opened UploadScope
  import opened UploadOutcomes
  import opened Bystanders

  /** The upload of this session has no staged object. */
  ghost predicate Unstaged(w: World, s: Session) {
    && ValidSession(s) && s.uploadId in w.issued && s.stagingObjectKey !in w.gcs
    && (s.uploadId in w.sessions ==> w.sessions[s.uploadId] == s)
  }

  /** The action is a client write to the staging key of upload `u`. */
  predicate PutsTo(a: Action, u: string) { a.ClientPutAct? && a.uploadId == u }

  // ---------- one step ----------

  lemma FinalizeUnstaged(t: Transform, w: World, h: Headers, v: string, f: FinalizeFaults, s: Session)
    requires Inv(t, w) && Unstaged(w, s)
    ensures Unstaged(FinalizeUpload(w, h, v, f).0, s)
  {
    hide Inv, ValidSession, FindSession, FinalizeStaged, FinalizeUpload;
    assert s.stagingObjectKey !in FinalizeUpload(w, h, v, f).0.gcs by { FinalizeStagesNothing(t, w, h, v, f, s); }
    FinalizeSessions(t, w, h, v, f);
    FinalizeIssued(t, w, h, v, f);
  }

  lemma FinalizeStagesNothing(t: Transform, w: World, h: Headers, v: string, f: FinalizeFaults, s: Session)
    requires Inv(t, w) && Unstaged(w, s)
    ensures s.stagingObjectKey !in FinalizeUpload(w, h, v, f).0.gcs
  {
    hide Inv, ValidSession, FindSession, PromoteAndReplicate, RejectStaged;
    var found := FindSession(w, h, v, f.sessionStoreDown);
    if found.Ok? && found.value.stagingObjectKey != s.stagingObjectKey {
      hide FinalizeStaged;
      FoundSession(w, h, v, f.sessionStoreDown);
      SessionOfId(t, w, v);
      SessionOwner(found.value);
      CanonicalIsNotStaging(s, found.value.objectKey);
      FinalizeStagedSameAt(w, found.value, f, s.stagingObjectKey);
    }
  }

  lemma CancelUnstaged(w: World, h: Headers, v: string, f: CancelFaults, s: Session)
    requires Unstaged(w, s)
    ensures Unstaged(CancelUpload(w, h, v, f).0, s)
  {
    hide ValidSession, FindSession, CancelUpload;
    CancelWorld(w, h, v, f);
    CancelShrinks(w, h, v, f);
  }

  lemma CancelShrinks(w: World, h: Headers, v: string, f: CancelFaults)
    ensures CancelUpload(w, h, v, f).0.gcs.Keys <= w.gcs.Keys
  {
    hide FindSession;
  }

  lemma PresignUnstaged(w: World, h: Headers, r: PresignRequest, v: string, ttl: int, f: PresignFaults, s: Session)
    requires Unstaged(w, s) && v !in w.issued
    ensures Unstaged(Presign(w, h, r, v, ttl, f).0, s)
  {
    hide ValidSession, CheckPresign, ProductOf, AuctionHouseOf;
  }

  lemma IngestUnstaged(w: World, k: string, source: Result<Source, ErrorCode>, rt: Option<string>,
                       write: WriteOutcome, version: string, put: Outcome, s: Session)
    requires Unstaged(w, s)
    ensures Unstaged(IngestObject(w, k, source, rt, write, version, put).0, s)
  {
    hide ValidSession, IngestObject, Canonical;
    IngestLog(w, k, source, rt, write, version, put);
    IngestKept(w, k, source, rt, write, version, put, s);
  }

  lemma PutUnstaged(t: Transform, w: World, v: string, body: Bytes, ct: Option<string>, s: Session)
    requires Inv(t, w) && Unstaged(w, s) && v != s.uploadId
    ensures Unstaged(ClientPut(w, v, body, ct), s)
  {
    hide Inv, ValidSession, ClientPut, Isolated;
    ClientPutIsIsolated(t, w, v, body, ct);
    OtherStagingKept(w, ClientPut(w, v, body, ct), s, v);
    ClientPutOnlyGcs(w, v, body, ct);
  }

  lemma DeleteUnstaged(t: Transform, w: World, a: Action, s: Session)
    requires Inv(t, w) && DeleteAction(a) && Unstaged(w, s)
    ensures Unstaged(DeleteStep(w, a), s)
  {
    hide Inv, ValidSession, DeleteStep;
    DeleteKept(t, w, a, s);
    DeleteLog(w, a);
  }

  lemma WorkerUnstaged(t: Transform, w: World, a: Action, s: Session)
    requires WorkerAction(a) && Unstaged(w, s)
    ensures Unstaged(WorkerStep(t, w, a), s)
  {
    hide ValidSession, WorkerStep;
    WorkerSameGcs(t, w, a);
    WorkerLog(t, w, a);
  }

  lemma ApplyUnstaged(t: Transform, w: World, a: Action, s: Session)
    requires Inv(t, w) && Unstaged(w, s) && !PutsTo(a, s.uploadId)
    ensures Unstaged(Apply(t, w, a), s)
  {
    hide Inv, Unstaged, DeleteStep, WorkerStep;
    if DeleteAction(a) {
      DeleteUnstaged(t, w, a, s);
    } else if WorkerAction(a) {
      WorkerUnstaged(t, w, a, s);
    } else {
      WriteUnstaged(t, w, a, s);
    }
  }

  lemma WriteUnstaged(t: Transform, w: World, a: Action, s: Session)
    requires Inv(t, w) && Unstaged(w, s) && !PutsTo(a, s.uploadId) && !DeleteAction(a) && !WorkerAction(a)
    ensures Unstaged(Apply(t, w, a), s)
  {
    hide Inv, Unstaged, FinalizeUpload, CancelUpload, Presign, IngestObject, Reconcile, StartDelete, ClientPut, IsUlid;
    match a {
      case FinalizeAct(h, v, f) => FinalizeUnstaged(t, w, h, v, f, s);
      case CancelAct(h, v, f) => CancelUnstaged(w, h, v, f, s);
      case PresignAct(h, r, v, ttl, f) => if FreshUlid(w, v) { PresignUnstaged(w, h, r, v, ttl, f, s); }
      case ClientPutAct(v, body, ct) => PutUnstaged(t, w, v, body, ct, s);
      case IngestAct(k, source, rt, write, version, put) =>
        if FreshUlid(w, version) { IngestUnstaged(w, k, source, rt, write, version, put, s); }
      case ReconcileAct(k) => ReconcileLog(w, k); SameUnstaged(w, Apply(t, w, a), s);
      case _ => SameUnstaged(w, Apply(t, w, a), s);
    }
  }

  lemma SameUnstaged(w: World, w1: World, s: Session)
    requires Unstaged(w, s) && w1.issued == w.issued && w1.gcs == w.gcs
    requires forall v | v in w1.sessions :: v in w.sessions && w1.sessions[v] == w.sessions[v]
    ensures Unstaged(w1, s)
  {
    hide ValidSession;
  }

  ghost predicate NoPutTo(actions: seq<Action>, u: string) { forall i | 0 <= i < |actions| :: !PutsTo(actions[i], u) }

  lemma {:induction false} RunUnstaged(t: Transform, w: World, actions: seq<Action>, s: Session)
    requires Inv(t, w) && Unstaged(w, s) && NoPutTo(actions, s.uploadId)
    ensures Unstaged(Run(t, w, actions), s)
    decreases |actions|
  {
    hide Inv, Unstaged, PutsTo, Apply;
    if actions != [] {
      var n := |actions| - 1;
      var front := actions[..n];
      RunUnstaged(t, w, front, s);
      RunKeeps(t, w, front);
      ApplyUnstaged(t, Run(t, w, front), actions[n], s);
    }
  }

  // ---------- the stuck upload ----------

  /** After a finalize failed with its staged object gone unnoticed: whatever else happens, until
      the client writes to its signed URL again no finalize of the upload succeeds, and one that
      finds the session is answered 409. */
  lemma StuckUntilPut(t: Transform, w: World, h: Headers, u: string, f: FinalizeFaults, more: seq<Action>,
                      h2: Headers, f2: FinalizeFaults)
    requires Inv(t, w) && Finalizable(w, h, u) && FinalizeUpload(w, h, u, f).1.FinalizeRefused? && MovedUnnoticed(f)
    requires NoPutTo(more, u)
    ensures var w2 := Run(t, FinalizeUpload(w, h, u, f).0, more);
      && FinalizeUpload(w2, h2, u, f2).1.FinalizeRefused?
      && (FindSession(w2, h2, u, f2.sessionStoreDown).Ok? && !f2.metadataFails ==>
            FinalizeUpload(w2, h2, u, f2).1 == FinalizeRefused(UploadNotReceived))
  {
    hide Inv, FinalizeUpload, ValidSession, Run, FindSession, StagedFits, Owns, Canonical, Undisturbed;
    var w1 := FinalizeUpload(w, h, u, f).0;
    var w2 := Run(t, w1, more);
    MovedIsUnstaged(t, w, h, u, f);
    FinalizeKeeps(t, w, h, u, f);
    RunUnstaged(t, w1, more, w.sessions[u]);
    RunKeeps(t, w1, more);
    assert FinalizeUpload(w2, h2, u, f2).1.FinalizeRefused? by { UnstagedIsRefused(t, w2, h2, u, f2, w.sessions[u]); }
    if FindSession(w2, h2, u, f2.sessionStoreDown).Ok? && !f2.metadataFails {
      FoundSession(w2, h2, u, f2.sessionStoreDown);
      Missing(w2, h2, u, f2);
    }
  }

  lemma MovedIsUnstaged(t: Transform, w: World, h: Headers, u: string, f: FinalizeFaults)
    requires Inv(t, w) && Finalizable(w, h, u) && FinalizeUpload(w, h, u, f).1.FinalizeRefused? && MovedUnnoticed(f)
    ensures Unstaged(FinalizeUpload(w, h, u, f).0, w.sessions[u]) && w.sessions[u].uploadId == u
  {
    hide Inv, FinalizeUpload, ValidSession, TypeFits, Owns, Canonical, MimeType;
    SessionOfId(t, w, u);
    IssuedSession(t, w, u);
    FailedFinalizeCanBeRetried(t, w, h, u, f, FinalizeFaults(false, false, Done, Done, Done, Done));
    FinalizeIssued(t, w, h, u, f);
    FinalizeSessions(t, w, h, u, f);
  }

  lemma UnstagedIsRefused(t: Transform, w: World, h: Headers, u: string, f: FinalizeFaults, s: Session)
    requires Inv(t, w) && Unstaged(w, s) && s.uploadId == u
    ensures FinalizeUpload(w, h, u, f).1.FinalizeRefused?
  {
    hide Inv, FinalizeUpload, ValidSession, Owns, Canonical, Undisturbed, TypeFits;
    FinalizeAcceptsExactly(t, w, h, u, f);
  }

  /** And such a write helps: if its bytes fit the session, the next undisturbed finalize by the
      owner, before expiry, is answered 200. */
  lemma SecondPutRescues(t: Transform, w: World, h: Headers, u: string, body: Bytes, ct: Option<string>,
                         f: FinalizeFaults)
    requires Inv(t, w) && u in w.sessions && w.now < w.sessions[u].expiresAt && Undisturbed(f)
    requires Canonical(w.sessions[u].objectKey) && Owns(h, w.sessions[u].objectKey)
    requires u in w.signed && w.signed[u] == w.sessions[u].stagingObjectKey
    requires |body| == w.sessions[u].contentLength && TypeFits(ct, MimeType(w.sessions[u].contentType))
    ensures FinalizeUpload(ClientPut(w, u, body, ct), h, u, f).1.Accepted?
  {
    hide Inv, FinalizeUpload, Owns, Canonical, TypeFits, Undisturbed;
    var w1 := ClientPut(w, u, body, ct);
    ClientPutKeeps(t, w, u, body, ct);
    FinalizeAcceptsExactly(t, w1, h, u, f);
  }
}
