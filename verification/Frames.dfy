/** What each kind of action leaves alone. */
module Frames {
  import opened Wrappers
  import opened Errors
  import opened ObjectKeys
  import opened ContentTypes
  import opened Requests
  import opened StorageKeys
  import opened Sessions
  import opened Storage
  import opened Variants
  import opened Worlds
  import opened Handlers
  import opened Systems

  // ---------- deletes ----------

  /** R2 lost some keys at most. */
  ghost predicate Shrinks(r2: R2Map, r2': R2Map) { forall y | y in r2' :: y in r2 && r2'[y] == r2[y] }

  /** A delete touches GCS and its own progress, and only removes from R2. */
  ghost predicate DeleteFrame(w: World, w1: World, d: nat)
    requires d in w.deletes
  {
    && d in w1.deletes && w1.deletes == w.deletes[d := w.deletes[d].(pc := w1.deletes[d].pc)]
    && Shrinks(w.r2, w1.r2)
    && w1 == w.(gcs := w1.gcs, r2 := w1.r2, deletes := w1.deletes)
  }

  lemma SetDeleteFrame(w: World, gcs: GcsMap, r2: R2Map, d: nat, pc: DeletePc)
    requires d in w.deletes && Shrinks(w.r2, r2)
    ensures DeleteFrame(w, SetDelete(w.(gcs := gcs, r2 := r2), d, pc), d)
  {
  }

  lemma TombstoneCallFrame(w: World, d: nat, a: Attempted)
    requires d in w.deletes
    ensures DeleteFrame(w, TombstoneCall(w, d, a), d)
  {
    hide TombstoneKey, AfterAttempt, TookEffect, DeleteFrame, SetDelete;
    SetDeleteFrame(w, TombstoneCallGcs(w, d, a), w.r2, d,
                   AfterAttempt(a, WriteTombstone, DeleteKeys(0), TombstoneWriteFailed));
  }

  lemma R2KeyCallFrame(w: World, d: nat, i: nat, a: Attempted)
    requires d in w.deletes && i < |DeleteKeyList(w.deletes[d].key)|
    ensures DeleteFrame(w, R2KeyCall(w, d, i, a), d)
  {
    hide DeleteKeyList, AfterKey, AfterAttempt, TookEffect, DeleteFrame, SetDelete;
    var x := w.deletes[d];
    var r2 := if TookEffect(a) then w.r2 - {DeleteKeyList(x.key)[i]} else w.r2;
    SetDeleteFrame(w, w.gcs, r2, d, AfterAttempt(a, DeleteKeys(i), AfterKey(i, x.key), R2Unavailable));
  }

  lemma GcsCallFrame(w: World, d: nat, a: Attempted)
    requires d in w.deletes
    ensures DeleteFrame(w, GcsCall(w, d, a), d)
  {
    hide AfterAttempt, TookEffect, DeleteFrame, SetDelete;
    var gcs := if TookEffect(a) then w.gcs - {w.deletes[d].key} else w.gcs;
    SetDeleteFrame(w, gcs, w.r2, d, AfterAttempt(a, DeleteGcs, Finished, StorageUnavailable));
  }

  lemma DeletePageFrame(w: World, d: nat, a: Attempted, removed: set<string>)
    requires d in w.deletes
    ensures DeleteFrame(w, DeletePage(w, d, a, removed), d)
  {
    hide AfterPage, AfterAttempt, DeleteFrame, SetDelete;
    UnchangedFrame(w, d);
    var x := w.deletes[d];
    if x.pc.DeletePrefixes? && x.pc.batch.Some? {
      var page := set k | k in x.pc.batch.value.page;
      SetDeleteFrame(w, w.gcs, w.r2 - (if a.Returns? then page else page * removed), d,
        AfterAttempt(a, DeletePrefixes(x.pc.j, None, None), AfterPage(x.pc.j, x.pc.batch.value.next), R2Unavailable));
    }
  }

  lemma UnchangedFrame(w: World, d: nat)
    requires d in w.deletes
    ensures DeleteFrame(w, w, d)
    ensures forall pc :: DeleteFrame(w, SetDelete(w, d, pc), d)
  {
    assert w.deletes == w.deletes[d := w.deletes[d].(pc := w.deletes[d].pc)];
  }

  lemma DeleteStepFrame(w: World, a: Action)
    requires DeleteAction(a) && a.d in w.deletes
    ensures DeleteFrame(w, DeleteStep(w, a), a.d)
  {
    hide BuildWebpVariantPrefix, IsPage, TombstoneCall, R2KeyCall, GcsCall, DeletePage, DeleteFrame, SetDelete,
      DeleteKeyList;
    UnchangedFrame(w, a.d);
    var pc := w.deletes[a.d].pc;
    match a
    case DeleteCallAct(d, attempt) =>
      TombstoneCallFrame(w, d, attempt);
      GcsCallFrame(w, d, attempt);
      if pc.DeleteKeys? && pc.i < |DeleteKeyList(w.deletes[d].key)| { R2KeyCallFrame(w, d, pc.i, attempt); }
    case DeletePageAct(d, attempt, removed) => DeletePageFrame(w, d, attempt, removed);
    case _ =>
  }

  // ---------- uploads ----------

  ghost predicate SameExcept<K(!new), V(!new)>(m: map<K, V>, m1: map<K, V>, k: K) {
    forall x | x != k :: (x in m1 <==> x in m) && (x in m ==> m1[x] == m[x])
  }

  /** Requests, deletes and the edge are untouched, and R2 and the history changed at most at
      one key and one version, where something was put. */
  ghost predicate UploadFrame(w: World, w1: World, key: string, version: string) {
    && w1.edge == w.edge && w1.workers == w.workers && w1.deletes == w.deletes && w1.now == w.now
    && SameExcept(w.r2, w1.r2, key) && (key in w.r2 ==> key in w1.r2)
    && SameExcept(w.minted, w1.minted, version)
  }

  lemma ReplicateFrame(w: World, key: string, body: Bytes, ct: ContentType, version: string, put: Outcome)
    ensures UploadFrame(w, Replicate(w, key, body, ct, version, put), key, version)
  {
    hide MimeType;
  }

  ghost predicate OnlyGcs(w: World, w1: World) { w1 == w.(gcs := w1.gcs) }

  lemma StoreImageOnlyGcs(w: World, key: string, body: Bytes, ct: ContentType)
    ensures OnlyGcs(w, StoreImage(w, key, body, ct)) && OnlyGcs(w, w)
  {
  }

  lemma DropStagedOnlyGcs(w: World, w1: World, s: Session, delete: Outcome)
    requires OnlyGcs(w, w1)
    ensures OnlyGcs(w, DropStaged(w1, s, delete))
  {
  }

  lemma PromoteFrame(w: World, s: Session, body: Bytes, f: FinalizeFaults)
    ensures OnlyGcs(w, Promote(w, s, body, f).0)
  {
    hide StoreImage, DropStaged, OnlyGcs;
    StoreImageOnlyGcs(w, s.objectKey, body, s.contentType);
    DropStagedOnlyGcs(w, w, s, f.stagingDelete);
    DropStagedOnlyGcs(w, StoreImage(w, s.objectKey, body, s.contentType), s, f.stagingDelete);
  }

  lemma SameFieldsFrame(w: World, w1: World, key: string, version: string)
    requires w1.edge == w.edge && w1.workers == w.workers && w1.deletes == w.deletes && w1.now == w.now
    requires w1.r2 == w.r2 && w1.minted == w.minted
    ensures UploadFrame(w, w1, key, version)
  {
  }

  lemma PromoteAndReplicateFrame(w: World, s: Session, body: Bytes, f: FinalizeFaults)
    ensures UploadFrame(w, PromoteAndReplicate(w, s, body, f).0, s.objectKey, s.uploadId)
  {
    hide Replicate, Promote, SameExcept;
    PromoteFrame(w, s, body, f);
    var w1 := Promote(w, s, body, f).0;
    SameFieldsFrame(w, w1, s.objectKey, s.uploadId);
    ReplicateFrame(w1, s.objectKey, body, s.contentType, s.uploadId, f.put);
  }

  /** An accepted finalize went through every check. */
  lemma AcceptedChecks(w: World, h: Headers, u: string, f: FinalizeFaults)
    requires FinalizeUpload(w, h, u, f).1.Accepted?
    ensures u in w.sessions && w.now < w.sessions[u].expiresAt && IsUlid(u)
    ensures var s := w.sessions[u];
      && EnforceContext(h, s.productId, s.auctionHouseId).Ok?
      && s.stagingObjectKey in w.gcs && w.gcs[s.stagingObjectKey].Image?
      && |w.gcs[s.stagingObjectKey].body| == s.contentLength
      && !ContradictsType(w.gcs[s.stagingObjectKey].contentType, s.contentType)
      && FinalizeUpload(w, h, u, f) == PromoteAndReplicate(w, s, w.gcs[s.stagingObjectKey].body, f)
  {
    hide FindSession, EnforceContext, ContradictsType, PromoteAndReplicate, IsUlid;
    FoundSession(w, h, u, f.sessionStoreDown);
  }

  /** Everything but GCS and the sessions stayed as it was. */
  ghost predicate OnlyStores(w: World, w1: World) {
    w1 == w.(gcs := w1.gcs, sessions := w1.sessions)
  }

  lemma RefusedStaged(w: World, s: Session, f: FinalizeFaults)
    requires FinalizeStaged(w, s, f).1.FinalizeRefused?
    ensures OnlyStores(w, FinalizeStaged(w, s, f).0)
  {
    hide ContradictsType, Promote, Replicate;
    if s.stagingObjectKey in w.gcs && w.gcs[s.stagingObjectKey].Image? {
      PromoteFrame(w, s, w.gcs[s.stagingObjectKey].body, f);
    }
  }

  lemma RefusedFrame(w: World, h: Headers, u: string, f: FinalizeFaults)
    requires FinalizeUpload(w, h, u, f).1.FinalizeRefused?
    ensures OnlyStores(w, FinalizeUpload(w, h, u, f).0)
  {
    hide FindSession, FinalizeStaged;
    var found := FindSession(w, h, u, f.sessionStoreDown);
    if found.Ok? && FinalizeStaged(w, found.value, f).1.FinalizeRefused? { RefusedStaged(w, found.value, f); }
  }

  lemma FinalizeFrame(w: World, h: Headers, u: string, f: FinalizeFaults)
    ensures u in w.sessions ==>
      UploadFrame(w, FinalizeUpload(w, h, u, f).0, w.sessions[u].objectKey, w.sessions[u].uploadId)
    ensures u !in w.sessions ==> UploadFrame(w, FinalizeUpload(w, h, u, f).0, "", "")
    ensures u !in w.sessions ==>
      FinalizeUpload(w, h, u, f).0.r2 == w.r2 && FinalizeUpload(w, h, u, f).0.minted == w.minted
  {
    hide FinalizeUpload, PromoteAndReplicate, EnforceContext, ContradictsType, UploadFrame, IsUlid;
    if FinalizeUpload(w, h, u, f).1.Accepted? {
      AcceptedChecks(w, h, u, f);
      PromoteAndReplicateFrame(w, w.sessions[u], w.gcs[w.sessions[u].stagingObjectKey].body, f);
    } else {
      RefusedFrame(w, h, u, f);
      var w1 := FinalizeUpload(w, h, u, f).0;
      SameFieldsFrame(w, w1, "", "");
      if u in w.sessions { SameFieldsFrame(w, w1, w.sessions[u].objectKey, w.sessions[u].uploadId); }
    }
  }

  lemma IngestBytesFrame(w: World, key: string, expected: int, ct: ContentType, write: WriteOutcome, version: string,
                         put: Outcome)
    ensures UploadFrame(w, IngestBytes(w, key, expected, ct, write, version, put).0, key, version)
  {
    hide MimeType, Replicate, SameExcept;
    SameFieldsFrame(w, w, key, version);
    if write.Streamed? {
      var w1 := StoreImage(w, key, write.bytes, ct).(issued := w.issued + {version});
      SameFieldsFrame(w, w1, key, version);
      ReplicateFrame(w1, key, write.bytes, ct, version, put);
    }
  }

  lemma IngestFrame(w: World, key: string, source: Result<Source, ErrorCode>, rt: Option<string>,
                    write: WriteOutcome, version: string, put: Outcome)
    ensures UploadFrame(w, IngestObject(w, key, source, rt, write, version, put).0, key, version)
    ensures !Canonical(key) ==> IngestObject(w, key, source, rt, write, version, put).0 == w
  {
    hide Canonical, ParseAllowedContentType, IngestBytes, UploadFrame;
    SameFieldsFrame(w, w, key, version);
    forall expected, ct ensures UploadFrame(w, IngestBytes(w, key, expected, ct, write, version, put).0, key, version) {
      IngestBytesFrame(w, key, expected, ct, write, version, put);
    }
  }

  lemma FoundSession(w: World, h: Headers, u: string, down: bool)
    requires FindSession(w, h, u, down).Ok?
    ensures u in w.sessions && FindSession(w, h, u, down).value == w.sessions[u] && w.now < w.sessions[u].expiresAt
    ensures EnforceContext(h, w.sessions[u].productId, w.sessions[u].auctionHouseId).Ok? && IsUlid(u)
  {
    hide EnforceContext, IsUlid, ParseTrustedProductId;
  }

  // ---------- the rest ----------

  /** What presign, cancel, client writes and the environment may change. */
  ghost predicate NoAnswers(w: World, w1: World) { w1.minted == w.minted && w1.workers == w.workers }

  lemma PresignTouches(w: World, h: Headers, r: PresignRequest, u: string, ttl: int, f: PresignFaults)
    ensures var w1 := Presign(w, h, r, u, ttl, f).0;
      w1 == w.(sessions := w1.sessions, issued := w1.issued, signed := w1.signed, log := w1.log)
  {
    hide CheckPresign, StagingKey;
  }

  ghost predicate OnlySessions(w: World, w1: World) { w1 == w.(gcs := w1.gcs, sessions := w1.sessions, log := w1.log) }

  lemma ForgetOnly(w: World, u: string)
    ensures OnlySessions(w, Forget(w, u))
  {
  }

  lemma DropForget(w: World, s: Session, delete: Outcome, u: string)
    ensures OnlySessions(w, DropStaged(w, s, delete))
    ensures OnlySessions(w, Forget(DropStaged(w, s, delete), u))
  {
  }

  lemma CancelTouches(w: World, h: Headers, u: string, f: CancelFaults)
    ensures OnlySessions(w, CancelUpload(w, h, u, f).0)
  {
    hide FindSession, DropStaged, Forget, OnlySessions;
    var found := FindSession(w, h, u, f.sessionStoreDown);
    ItselfOnly(w);
    ForgetOnly(w, u);
    if found.Ok? { DropForget(w, found.value, f.stagingDelete, u); }
  }

  lemma ItselfOnly(w: World)
    ensures OnlySessions(w, w)
  {
  }

  lemma OtherTouches(t: Transform, w: World, a: Action)
    requires !DeleteAction(a) && !WorkerAction(a) && !a.FinalizeAct? && !a.IngestAct? && !a.ArriveAct?
    ensures NoAnswers(w, Apply(t, w, a))
  {
    hide Presign, CancelUpload, StartDelete, Canonical, IsUlid, TombstoneKey;
    match a
    case PresignAct(h, r, u, ttl, f) => PresignTouches(w, h, r, u, ttl, f);
    case CancelAct(h, u, f) => CancelTouches(w, h, u, f);
    case _ =>
  }

  lemma ReconcileFrame(w: World, key: string)
    ensures UploadFrame(w, Reconcile(w, key), key, "")
    ensures Canonical(key) || Reconcile(w, key) == w
  {
    hide Canonical, TombstoneKey;
  }

  lemma StartDeleteFrame(w: World, d: nat, x: Deletion)
    requires d !in w.deletes
    ensures var w1 := w.(deletes := w.deletes[d := x]);
      && w1.r2 == w.r2 && w1.workers == w.workers
      && forall e | e in w.deletes :: e in w1.deletes && w1.deletes[e] == w.deletes[e]
  {
  }
}
