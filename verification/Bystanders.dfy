/** That nothing but its own requests, and time, disturbs an upload. */
module Bystanders {
  import opened Wrappers
  import opened Errors
  import opened ObjectKeys
  import opened ContentTypes
  import opened Variants
  import opened Requests
  import opened StorageKeys
  import opened Sessions
  import opened Storage
  import opened Worlds
  import opened Handlers
  import opened Systems
  import opened Frames
  import opened Invariants
  import opened WriteSteps
  import opened DeleteRuns
  import opened UploadPath
  import opened UploadScope

  /** The action is no finalize, cancel or client write of upload `u`. */
  predicate Bystander(a: Action, u: string) {
    match a
    case FinalizeAct(_, v, _) => v != u
    case CancelAct(_, v, _) => v != u
    case ClientPutAct(v, _, _) => v != u
    case _ => true
  }

  ghost predicate SameIn<K(!new), V(!new)>(m: map<K, V>, m1: map<K, V>, x: K) {
    (x in m1 <==> x in m) && (x in m ==> m1[x] == m[x])
  }

  /** Upload `u` stands as it did: its session, its signed URL and its staged object. */
  ghost predicate Stands(w: World, w1: World, u: string) {
    && u in w.sessions && u in w1.sessions && w1.sessions[u] == w.sessions[u]
    && SameIn(w.signed, w1.signed, u)
    && SameIn(w.gcs, w1.gcs, w.sessions[u].stagingObjectKey)
  }

  // ---------- one step ----------

  lemma OtherStagingKept(w: World, w1: World, s: Session, v: string)
    requires ValidSession(s) && v != s.uploadId && Isolated(w, w1, v)
    ensures SameIn(w.gcs, w1.gcs, s.stagingObjectKey)
  {
    hide Canonical, StagingKey, IsUlid;
    assert SameAt(w, w1, StagingKey(s.uploadId, s.objectKey));
  }

  lemma FinalizeKept(t: Transform, w: World, h: Headers, v: string, f: FinalizeFaults, s: Session)
    requires Inv(t, w) && ValidSession(s) && v != s.uploadId
    ensures SameIn(w.gcs, FinalizeUpload(w, h, v, f).0.gcs, s.stagingObjectKey)
  {
    hide Inv, ValidSession, FindSession, FinalizeStaged;
    var found := FindSession(w, h, v, f.sessionStoreDown);
    if found.Ok? {
      FoundSession(w, h, v, f.sessionStoreDown);
      SessionOfId(t, w, v);
      OtherKeys(found.value, s);
      FinalizeStagedSameAt(w, found.value, f, s.stagingObjectKey);
    }
  }

  lemma OtherKeys(s: Session, s1: Session)
    requires ValidSession(s) && ValidSession(s1) && s.uploadId != s1.uploadId
    ensures s1.stagingObjectKey != s.stagingObjectKey && s1.stagingObjectKey != s.objectKey
  {
    hide Canonical, StagingKey, IsUlid;
    StagingInjective(s.uploadId, s.objectKey, s1.uploadId, s1.objectKey);
    CanonicalIsNotStaging(s1, s.objectKey);
  }

  lemma DeleteKept(t: Transform, w: World, a: Action, s: Session)
    requires Inv(t, w) && DeleteAction(a) && ValidSession(s)
    ensures SameIn(w.gcs, DeleteStep(w, a).gcs, s.stagingObjectKey)
  {
    hide Inv, Canonical, ValidSession, DeleteKeyList, BatchUnderPrefix, DeleteCall, DeletePage, ListPage, SetDelete;
    if a.d in w.deletes {
      if a.DeleteCallAct? {
        DeletesOf(t, w, a.d);
        assert map[a.d := w.deletes[a.d]][a.d] == w.deletes[a.d];
        CallKept(w, a.d, a.attempt, s);
      } else {
        NotGcs(w, a);
      }
    }
  }

  lemma NotGcs(w: World, a: Action)
    requires DeleteAction(a) && a.d in w.deletes && !a.DeleteCallAct?
    ensures DeleteStep(w, a).gcs == w.gcs
  {
    hide IsPage, AfterPage, BuildWebpVariantPrefix;
  }

  lemma CallKept(w: World, d: nat, attempt: Attempted, s: Session)
    requires d in w.deletes && ValidSession(s)
    requires w.deletes[d].pc.DeleteGcs? ==> Canonical(w.deletes[d].key)
    requires w.deletes[d].pc.DeleteKeys? ==> w.deletes[d].pc.i < |DeleteKeyList(w.deletes[d].key)|
    ensures SameIn(w.gcs, DeleteCall(w, d, attempt).gcs, s.stagingObjectKey)
  {
    hide Canonical, ValidSession, SameIn, DeleteKeyList, TombstoneCall, R2KeyCall, GcsCall;
    var x := w.deletes[d];
    SameInMap(w.gcs, s.stagingObjectKey);
    StagingIsNoTombstone(s, x.key);
    TombstoneCallSameIn(w, d, attempt, s.stagingObjectKey);
    if x.pc.DeleteGcs? { CanonicalIsNotStaging(s, x.key); GcsCallSameIn(w, d, attempt, s.stagingObjectKey); }
    if x.pc.DeleteKeys? { R2KeyCallSameGcs(w, d, x.pc.i, attempt); }
  }

  lemma SameInMap(m: GcsMap, x: string)
    ensures SameIn(m, m, x)
  {
  }

  lemma TombstoneCallSameIn(w: World, d: nat, attempt: Attempted, x: string)
    requires d in w.deletes && x != TombstoneKey(w.deletes[d].key)
    ensures SameIn(w.gcs, TombstoneCall(w, d, attempt).gcs, x)
  {
    hide TombstoneKey, AfterAttempt;
  }

  lemma GcsCallSameIn(w: World, d: nat, attempt: Attempted, x: string)
    requires d in w.deletes && x != w.deletes[d].key
    ensures SameIn(w.gcs, GcsCall(w, d, attempt).gcs, x)
  {
    hide AfterAttempt;
  }

  lemma StagingIsNoTombstone(s: Session, key: string)
    requires ValidSession(s)
    ensures s.stagingObjectKey != TombstoneKey(key)
  {
    hide Canonical, NamespaceOf, ValidSession;
    SessionKeysAreNoTombstones(s);
    NamespacesDisjoint("", key, Thumb, None);
  }

  lemma IngestKept(w: World, key: string, source: Result<Source, ErrorCode>, rt: Option<string>,
                   write: WriteOutcome, version: string, put: Outcome, s: Session)
    requires ValidSession(s)
    ensures SameIn(w.gcs, IngestObject(w, key, source, rt, write, version, put).0.gcs, s.stagingObjectKey)
  {
    hide Canonical, ValidSession, ParseAllowedContentType, IngestBytes;
    if Canonical(key) {
      CanonicalIsNotStaging(s, key);
      forall expected, ct
        ensures SameIn(w.gcs, IngestBytes(w, key, expected, ct, write, version, put).0.gcs, s.stagingObjectKey)
      {
        BytesKept(w, key, expected, ct, write, version, put, s.stagingObjectKey);
      }
    }
  }

  lemma BytesKept(w: World, key: string, expected: int, ct: ContentType, write: WriteOutcome, version: string,
                  put: Outcome, x: string)
    requires x != key
    ensures SameIn(w.gcs, IngestBytes(w, key, expected, ct, write, version, put).0.gcs, x)
  {
    hide MimeType, Replicate;
    if write.Streamed? {
      ReplicateKeepsIssued(StoreImage(w, key, write.bytes, ct).(issued := w.issued + {version}), key, write.bytes, ct,
                           version, put);
    }
  }

  /** A bystander leaves the upload as it is, for as long as the session has not expired. */
  lemma BystanderKeeps(t: Transform, w: World, a: Action, u: string)
    requires Inv(t, w) && Bystander(a, u) && u in w.sessions && Apply(t, w, a).now < w.sessions[u].expiresAt
    ensures Stands(w, Apply(t, w, a), u)
  {
    hide Inv, DeleteStep, WorkerStep, Stands, FinalizeUpload, CancelUpload, Presign, IngestObject, Reconcile,
      StartDelete,
      ClientPut, IsUlid;
    if DeleteAction(a) {
      DeleterKeeps(t, w, a, u);
    } else if WorkerAction(a) {
      ReaderKeeps(t, w, a, u);
    } else {
      WriterKeeps(t, w, a, u);
    }
  }

  lemma DeleterKeeps(t: Transform, w: World, a: Action, u: string)
    requires Inv(t, w) && DeleteAction(a) && u in w.sessions
    ensures Stands(w, DeleteStep(w, a), u)
  {
    hide Inv, ValidSession, DeleteStep;
    SessionOfId(t, w, u);
    DeleteKept(t, w, a, w.sessions[u]);
    DeleteSigned(w, a);
  }

  lemma ReaderKeeps(t: Transform, w: World, a: Action, u: string)
    requires WorkerAction(a) && u in w.sessions
    ensures Stands(w, WorkerStep(t, w, a), u)
  {
    hide WorkerStep;
    WorkerSigned(t, w, a);
  }

  lemma SameInItself(w: World, u: string)
    requires u in w.sessions
    ensures SameIn(w.signed, w.signed, u) && SameIn(w.gcs, w.gcs, w.sessions[u].stagingObjectKey)
  {
  }

  lemma DeleteSigned(w: World, a: Action)
    requires DeleteAction(a)
    ensures DeleteStep(w, a).sessions == w.sessions && DeleteStep(w, a).signed == w.signed
  {
    hide DeleteStep, Shrinks;
    NoDelete(w, a);
    if a.d in w.deletes { DeleteStepFrame(w, a); }
  }

  lemma WorkerSigned(t: Transform, w: World, a: Action)
    requires WorkerAction(a)
    ensures var w1 := WorkerStep(t, w, a); w1.gcs == w.gcs && w1.sessions == w.sessions && w1.signed == w.signed
  {
    hide MatchEdge, FirstRead, SecondRead, BuildVariantKey;
  }

  lemma FinalizeSessions(t: Transform, w: World, h: Headers, v: string, f: FinalizeFaults)
    requires Inv(t, w)
    ensures var w1 := FinalizeUpload(w, h, v, f).0;
      (w1.sessions == w.sessions || w1.sessions == w.sessions - {v}) && w1.signed == w.signed
  {
    hide FinalizeUpload, PromoteAndReplicate, Inv, ValidSession;
    if FinalizeUpload(w, h, v, f).1.Accepted? {
      AcceptedChecks(w, h, v, f);
      SessionOfId(t, w, v);
      AcceptedWorld(w, h, v, f);
    } else {
      RefusedFrame(w, h, v, f);
      RefusedSessions(w, h, v, f);
    }
  }

  lemma FinalizeIssued(t: Transform, w: World, h: Headers, v: string, f: FinalizeFaults)
    requires Inv(t, w)
    ensures FinalizeUpload(w, h, v, f).0.issued == w.issued
  {
    hide Inv, FinalizeUpload, ValidSession;
    if FinalizeUpload(w, h, v, f).1.Accepted? {
      FinalizeLogGrows(t, w, h, v, f);
      SessionOfId(t, w, v);
      AcceptedWorld(w, h, v, f);
    } else {
      RefusedFrame(w, h, v, f);
    }
  }

  lemma PresignKept(w: World, h: Headers, r: PresignRequest, v: string, ttl: int, f: PresignFaults, u: string)
    requires v != u && u in w.sessions
    ensures var w1 := Presign(w, h, r, v, ttl, f).0;
      u in w1.sessions && w1.sessions[u] == w.sessions[u] && SameIn(w.signed, w1.signed, u) && w1.gcs == w.gcs
  {
    hide CheckPresign, StagingKey, ProductOf, AuctionHouseOf;
  }

  lemma ClientPutOnlyGcs(w: World, v: string, body: Bytes, ct: Option<string>)
    ensures OnlyGcs(w, ClientPut(w, v, body, ct))
  {
  }

  lemma WriterKeeps(t: Transform, w: World, a: Action, u: string)
    requires Inv(t, w) && Bystander(a, u) && u in w.sessions && Apply(t, w, a).now < w.sessions[u].expiresAt
    requires !DeleteAction(a) && !WorkerAction(a)
    ensures Stands(w, Apply(t, w, a), u)
  {
    hide Inv, ValidSession, FinalizeUpload, CancelUpload, Presign, IngestObject, Reconcile, StartDelete, ClientPut,
      IsUlid, SameIn, Isolated;
    SessionOfId(t, w, u);
    IssuedSession(t, w, u);
    SameInItself(w, u);
    var s := w.sessions[u];
    match a {
      case PresignAct(h, r, v, ttl, f) => if FreshUlid(w, v) { PresignKept(w, h, r, v, ttl, f, u); }
      case ClientPutAct(v, body, ct) =>
        ClientPutIsIsolated(t, w, v, body, ct);
        OtherStagingKept(w, ClientPut(w, v, body, ct), s, v);
        ClientPutOnlyGcs(w, v, body, ct);
      case FinalizeAct(h, v, f) => FinalizeKept(t, w, h, v, f, s); FinalizeSessions(t, w, h, v, f);
      case CancelAct(h, v, f) =>
        CancelIsIsolated(t, w, h, v, f);
        OtherStagingKept(w, CancelUpload(w, h, v, f).0, s, v);
        CancelTouches(w, h, v, f);
        CancelWorld(w, h, v, f);
      case IngestAct(key, source, rt, write, version, put) =>
        IngestKept(w, key, source, rt, write, version, put, s);
        IngestLog(w, key, source, rt, write, version, put);
      case ReconcileAct(key) => ReconcileLog(w, key);
      case _ =>
    }
  }

  // ---------- runs ----------

  lemma DeleteNow(w: World, a: Action)
    requires DeleteAction(a)
    ensures DeleteStep(w, a).now == w.now
  {
    hide DeleteStep, Shrinks;
    NoDelete(w, a);
    if a.d in w.deletes { DeleteStepFrame(w, a); }
  }

  lemma WorkerNow(t: Transform, w: World, a: Action)
    requires WorkerAction(a)
    ensures WorkerStep(t, w, a).now == w.now
  {
    hide MatchEdge, FirstRead, SecondRead, BuildVariantKey;
  }

  /** The clock never goes back. */
  lemma NowGrows(t: Transform, w: World, a: Action)
    ensures w.now <= Apply(t, w, a).now
  {
    hide DeleteStep, WorkerStep, FinalizeUpload, CancelUpload, Presign, IngestObject, Reconcile, StartDelete, ClientPut,
      IsUlid;
    if DeleteAction(a) {
      DeleteNow(w, a);
    } else if WorkerAction(a) {
      WorkerNow(t, w, a);
    } else {
      WriteNow(t, w, a);
    }
  }

  lemma WriteNow(t: Transform, w: World, a: Action)
    requires !DeleteAction(a) && !WorkerAction(a)
    ensures w.now <= Apply(t, w, a).now
  {
    hide FinalizeUpload, CancelUpload, Presign, IngestObject, Reconcile, StartDelete, ClientPut, IsUlid, OnlySessions,
      OnlyGcs;
    match a {
      case FinalizeAct(h, u, f) => FinalizeNow(w, h, u, f);
      case CancelAct(h, u, f) => CancelNow(w, h, u, f);
      case PresignAct(h, r, u, ttl, f) => PresignNow(w, h, r, u, ttl, f);
      case IngestAct(key, source, rt, write, version, put) => IngestNow(w, key, source, rt, write, version, put);
      case ReconcileAct(key) => ReconcileNow(w, key);
      case ClientPutAct(v, body, ct) => PutNow(w, v, body, ct);
      case TickAct(elapsed) =>
      case _ => OtherNow(t, w, a);
    }
  }

  lemma OtherNow(t: Transform, w: World, a: Action)
    requires a.StartDeleteAct? || a.ArriveAct? || a.EvictAct? || a.PruneAct?
    ensures Apply(t, w, a).now == w.now
  {
    hide StartDelete;
  }

  lemma PresignNow(w: World, h: Headers, r: PresignRequest, u: string, ttl: int, f: PresignFaults)
    ensures Presign(w, h, r, u, ttl, f).0.now == w.now
  {
    hide Presign;
    PresignTouches(w, h, r, u, ttl, f);
  }

  lemma CancelNow(w: World, h: Headers, u: string, f: CancelFaults)
    ensures CancelUpload(w, h, u, f).0.now == w.now
  {
    hide CancelUpload;
    CancelTouches(w, h, u, f);
  }

  lemma PutNow(w: World, u: string, body: Bytes, ct: Option<string>)
    ensures ClientPut(w, u, body, ct).now == w.now
  {
  }

  lemma FinalizeNow(w: World, h: Headers, u: string, f: FinalizeFaults)
    ensures FinalizeUpload(w, h, u, f).0.now == w.now
  {
    hide FinalizeUpload;
    FinalizeFrame(w, h, u, f);
  }

  lemma IngestNow(w: World, key: string, source: Result<Source, ErrorCode>, rt: Option<string>,
                  write: WriteOutcome, version: string, put: Outcome)
    ensures IngestObject(w, key, source, rt, write, version, put).0.now == w.now
  {
    hide IngestObject;
    IngestFrame(w, key, source, rt, write, version, put);
  }

  lemma ReconcileNow(w: World, key: string)
    ensures Reconcile(w, key).now == w.now
  {
    hide Reconcile;
    ReconcileFrame(w, key);
  }

  ghost predicate AllBystanders(actions: seq<Action>, u: string) {
    forall i | 0 <= i < |actions| :: Bystander(actions[i], u)
  }

  /** Whatever others do, in whatever order, an upload stands until its session expires. */
  lemma {:induction false} UploadStands(t: Transform, w: World, actions: seq<Action>, u: string)
    requires Inv(t, w) && u in w.sessions && AllBystanders(actions, u)
    requires Run(t, w, actions).now < w.sessions[u].expiresAt
    ensures Stands(w, Run(t, w, actions), u)
    decreases |actions|
  {
    hide Inv, Apply, Bystander;
    if actions != [] {
      var n := |actions| - 1;
      var front := actions[..n];
      var w1 := Run(t, w, front);
      NowGrows(t, w1, actions[n]);
      UploadStands(t, w, front, u);
      RunKeeps(t, w, front);
      BystanderKeeps(t, w1, actions[n], u);
    }
  }
}
