/** When reconciliation makes up for a put to R2 that failed. */
module Repairs {
  import opened Wrappers
  import opened Errors
  import opened ObjectKeys
  import opened ContentTypes
  import opened Variants
  import opened Requests
  import opened StorageKeys
  import opened Sessions
  import opened Storage
  import opened Worlds
  import opened Handlers
  import opened Systems
  import opened Frames
  import opened Invariants
  import opened WriteSteps
  import opened DeletePath
  import opened DeleteRuns
  import opened UploadScope
  import opened UploadOutcomes
  import opened Bystanders

  /** R2 holds these bytes at the key. */
  predicate HoldsBody(r2: R2Map, key: string, body: Bytes) { key in r2 && r2[key].body == body }

  /** R2 holds the bytes; or the key has no tombstone, and what R2 holds there, if anything, has
      another length. */
  predicate Repairable(w: World, key: string, body: Bytes) {
    || HoldsBody(w.r2, key, body)
    || (TombstoneKey(key) !in w.gcs && (key in w.r2 ==> |w.r2[key].body| != |body|))
  }

  /** GCS holds these bytes at the key. */
  predicate InGcs(w: World, key: string, body: Bytes) { key in w.gcs && w.gcs[key].Image? && w.gcs[key].body == body }

  /** R2 does not hold the bytes, and reconciliation sees no reason, or is not allowed, to bring
      anything of their length there. */
  predicate Hopeless(w: World, key: string, body: Bytes) {
    && Canonical(key) && !HoldsBody(w.r2, key, body)
    && (key in w.gcs && w.gcs[key].Image? ==> |w.gcs[key].body| == |body|)
    && (TombstoneKey(key) in w.gcs || (key in w.r2 && |w.r2[key].body| == |body|))
  }

  // ---------- one step ----------

  lemma SameHopeless(w: World, w1: World, key: string, body: Bytes)
    requires Hopeless(w, key, body) && SameAt(w, w1, key) && KeepsTombstones(w.gcs, w1.gcs)
    ensures Hopeless(w1, key, body)
  {
    hide Canonical, TombstoneKey, NamespaceOf;
    NamespacesDisjoint("", key, Thumb, None);
  }

  /** A delete takes the object out of a store, or leaves it. */
  lemma DeleteHopeless(t: Transform, w: World, a: Action, key: string, body: Bytes)
    requires Inv(t, w) && DeleteAction(a) && Hopeless(w, key, body)
    ensures Hopeless(DeleteStep(w, a), key, body)
  {
    hide Inv, Canonical, TombstoneKey, DeleteStep, NamespaceOf, VariantCovered;
    var w1 := DeleteStep(w, a);
    NoDelete(w, a);
    NamespacesDisjoint("", key, Thumb, None);
    DeleteKeepsTombstones(t, w, a);
    DeleteGcsAt(t, w, a, key);
    if a.d in w.deletes { DeleteStepFrame(w, a); }
    if key in w.r2 && key !in w1.r2 {
      DeleteRemoves(t, w, a, key);
      if VariantCovered(w.deletes[a.d].key, key) { VariantCoveredIsVariant(w.deletes[a.d].key, key); }
    }
  }

  lemma DeleteGcsAt(t: Transform, w: World, a: Action, key: string)
    requires Inv(t, w) && DeleteAction(a) && Canonical(key)
    ensures key in DeleteStep(w, a).gcs ==> key in w.gcs && DeleteStep(w, a).gcs[key] == w.gcs[key]
  {
    hide Inv, Canonical, DeleteKeyList, DeleteCall, DeletePage, ListPage, SetDelete, BatchUnderPrefix;
    if a.d in w.deletes {
      if a.DeleteCallAct? {
        DeletesOf(t, w, a.d);
        assert map[a.d := w.deletes[a.d]][a.d] == w.deletes[a.d];
        CallGcsAt(w, a.d, a.attempt, key);
      } else {
        NotGcs(w, a);
      }
    }
  }

  lemma CallGcsAt(w: World, d: nat, attempt: Attempted, key: string)
    requires d in w.deletes && Canonical(key)
    requires w.deletes[d].pc.DeleteKeys? ==> w.deletes[d].pc.i < |DeleteKeyList(w.deletes[d].key)|
    ensures var gcs := DeleteCall(w, d, attempt).gcs; key in gcs ==> key in w.gcs && gcs[key] == w.gcs[key]
  {
    hide Canonical, DeleteKeyList, TombstoneCall, R2KeyCall, NamespaceOf, TombstoneKey, AfterAttempt;
    var x := w.deletes[d];
    NamespacesDisjoint("", x.key, Thumb, None);
    NamespacesDisjoint("", key, Thumb, None);
    TombstoneCallSameIn(w, d, attempt, key);
    if x.pc.DeleteKeys? { R2KeyCallSameGcs(w, d, x.pc.i, attempt); }
  }

  lemma WorkerHopeless(t: Transform, w: World, a: Action, key: string, body: Bytes)
    requires WorkerAction(a) && Hopeless(w, key, body)
    ensures Hopeless(WorkerStep(t, w, a), key, body)
  {
    hide Canonical, TombstoneKey, WorkerStep;
    WorkerSameGcs(t, w, a);
    WorkerSameAt(t, w, a, key);
  }

  lemma WorkerSameAt(t: Transform, w: World, a: Action, key: string)
    requires WorkerAction(a) && Canonical(key)
    ensures SameIn(w.r2, WorkerStep(t, w, a).r2, key)
  {
    hide Canonical, BuildVariantKey, MatchEdge, FirstRead, SecondRead;
    if a.PutVariantAct? && a.k in w.workers && HoldsOriginal(w.workers[a.k]) {
      var p := w.workers[a.k].pc.parsed;
      KeyIsNoVariant(key, p.objectKey, p.variant.value, p.version);
    }
  }

  lemma ReconcileHopeless(w: World, k: string, key: string, body: Bytes)
    requires Hopeless(w, key, body)
    ensures Hopeless(Reconcile(w, k), key, body)
  {
    hide Canonical, TombstoneKey;
  }

  lemma IngestSameAt(w: World, k: string, source: Result<Source, ErrorCode>, rt: Option<string>,
                     write: WriteOutcome, version: string, put: Outcome, key: string)
    requires k != key
    ensures SameAt(w, IngestObject(w, k, source, rt, write, version, put).0, key)
  {
    hide Canonical, ParseAllowedContentType, IngestBytes;
    IngestFrame(w, k, source, rt, write, version, put);
    forall expected, ct ensures SameIn(w.gcs, IngestBytes(w, k, expected, ct, write, version, put).0.gcs, key) {
      BytesKept(w, k, expected, ct, write, version, put, key);
    }
  }

  lemma HopelessStays(t: Transform, w: World, a: Action, key: string, body: Bytes)
    requires Inv(t, w) && Hopeless(w, key, body) && !UploadsTo(w, a, key)
    ensures Hopeless(Apply(t, w, a), key, body)
  {
    hide Inv, Hopeless, DeleteStep, WorkerStep, UploadsTo;
    if DeleteAction(a) {
      DeleteHopeless(t, w, a, key, body);
    } else if WorkerAction(a) {
      WorkerHopeless(t, w, a, key, body);
    } else {
      WriteHopeless(t, w, a, key, body);
    }
  }

  lemma WriteHopeless(t: Transform, w: World, a: Action, key: string, body: Bytes)
    requires Inv(t, w) && Hopeless(w, key, body) && !UploadsTo(w, a, key) && !DeleteAction(a) && !WorkerAction(a)
    ensures Hopeless(Apply(t, w, a), key, body)
  {
    hide Inv, Hopeless, Canonical, FinalizeUpload, CancelUpload, Presign, IngestObject, Reconcile, StartDelete,
      ClientPut,
      IsUlid, KeepsTombstones, SameAt, Isolated;
    var w1 := Apply(t, w, a);
    assert Canonical(key) by { HopelessKey(w, key, body); }
    TombstonesStay(t, w, a);
    SameAtItself(w, w1, key);
    match a {
      case FinalizeAct(h, u, f) =>
        if !SameAt(w, w1, key) { OnlyOwnKey(t, w, h, u, f, key); }
        SameHopeless(w, w1, key, body);
      case CancelAct(h, u, f) => CancelIsIsolated(t, w, h, u, f); IsolatedHopeless(w, w1, u, key, body);
      case PresignAct(h, r, u, ttl, f) => PresignIsIsolated(w, h, r, u, ttl, f); IsolatedHopeless(w, w1, u, key, body);
      case ClientPutAct(u, b, ct) => ClientPutIsIsolated(t, w, u, b, ct); IsolatedHopeless(w, w1, u, key, body);
      case IngestAct(k, source, rt, write, version, put) =>
        IngestSameAt(w, k, source, rt, write, version, put, key);
        SameHopeless(w, w1, key, body);
      case ReconcileAct(k) => ReconcileHopeless(w, k, key, body);
      case _ => SameHopeless(w, w1, key, body);
    }
  }

  lemma HopelessKey(w: World, key: string, body: Bytes)
    requires Hopeless(w, key, body)
    ensures Canonical(key)
  {
  }

  lemma SameAtItself(w: World, w1: World, key: string)
    ensures SameAt(w, w, key) && (w1.gcs == w.gcs && w1.r2 == w.r2 ==> SameAt(w, w1, key))
  {
  }

  lemma IsolatedHopeless(w: World, w1: World, u: string, key: string, body: Bytes)
    requires Hopeless(w, key, body) && KeepsTombstones(w.gcs, w1.gcs) && (Isolated(w, w1, u) || w1 == w)
    ensures Hopeless(w1, key, body)
  {
    hide Canonical, KeepsTombstones, SameAt, StagingKey, HoldsBody;
    HopelessKey(w, key, body);
    if w1 != w { SameHopeless(w, w1, key, body); }
  }

  // ---------- runs ----------

  lemma {:induction false} RunHopeless(t: Transform, w: World, actions: seq<Action>, key: string, body: Bytes)
    requires Inv(t, w) && Hopeless(w, key, body) && NoUploadTo(t, w, actions, key)
    ensures Hopeless(Run(t, w, actions), key, body)
    decreases |actions|
  {
    hide Inv, Hopeless, UploadsTo, Apply;
    if actions != [] {
      var n := |actions| - 1;
      var front := actions[..n];
      assert forall i | 0 <= i < n :: front[..i] == actions[..i] && front[i] == actions[i];
      RunHopeless(t, w, front, key, body);
      RunKeeps(t, w, front);
      assert !UploadsTo(Run(t, w, actions[..n]), actions[n], key);
      HopelessStays(t, Run(t, w, front), actions[n], key, body);
    }
  }

  /** Without another upload to the key, R2 gets to hold the bytes at some time. */
  ghost predicate EverInR2(t: Transform, w: World, key: string, body: Bytes) {
    exists more :: NoUploadTo(t, w, more, key) && HoldsBody(Run(t, w, more).r2, key, body)
  }

  /** From any reachable state in which GCS holds an image: in some continuation without another
      upload to its key R2 comes to hold it, exactly if R2 holds it already, or the key has no
      tombstone and what R2 holds there, if anything, has another length. */
  lemma RepairedExactly(t: Transform, w: World, key: string, body: Bytes)
    requires Inv(t, w) && Canonical(key) && InGcs(w, key, body)
    ensures EverInR2(t, w, key, body) <==> Repairable(w, key, body)
    ensures HoldsBody(Reconcile(w, key).r2, key, body) <==> Repairable(w, key, body)
  {
    hide Inv, Canonical, TombstoneKey;
    if Repairable(w, key, body) {
      RepairRun(t, w, key);
      assert HoldsBody(Run(t, w, [ReconcileAct(key)]).r2, key, body);
    } else {
      forall more | NoUploadTo(t, w, more, key) ensures !HoldsBody(Run(t, w, more).r2, key, body) {
        RunHopeless(t, w, more, key, body);
      }
    }
  }

  lemma RepairRun(t: Transform, w: World, key: string)
    ensures Run(t, w, [ReconcileAct(key)]) == Reconcile(w, key) && NoUploadTo(t, w, [ReconcileAct(key)], key)
  {
    hide Reconcile, Run;
    RunOne(t, w, ReconcileAct(key));
  }

  // ---------- lost puts ----------

  /** When a finalize is answered 200 but the put to R2 failed, whether reconciliation will make
      up for it was decided before the upload, by the tombstone and by what R2 held. */
  lemma LostUploadIsRepaired(t: Transform, w: World, h: Headers, u: string, f: FinalizeFaults)
    requires Inv(t, w) && FinalizeUpload(w, h, u, f).1.Accepted? && f.put == FailedBefore
    ensures u in w.sessions && w.sessions[u].stagingObjectKey in w.gcs && w.gcs[w.sessions[u].stagingObjectKey].Image?
    ensures var (w1, reply) := FinalizeUpload(w, h, u, f);
      var body := w.gcs[w.sessions[u].stagingObjectKey].body;
      && InGcs(w1, reply.objectKey, body)
      && (EverInR2(t, w1, reply.objectKey, body) <==> Repairable(w, reply.objectKey, body))
      && (HoldsBody(Reconcile(w1, reply.objectKey).r2, reply.objectKey, body) <==> Repairable(w, reply.objectKey, body))
  {
    hide Inv, FinalizeUpload, Reconcile, Canonical, TombstoneKey, ValidSession, MimeType, NamespaceOf, EverInR2,
      ProductOf,
      AuctionHouseOf, EntityOf;
    FinalizeDelivers(t, w, h, u, f);
    SessionOfId(t, w, u);
    SessionOwner(w.sessions[u]);
    SessionKeysAreNoTombstones(w.sessions[u]);
    FinalizeKeeps(t, w, h, u, f);
    var (w1, reply) := FinalizeUpload(w, h, u, f);
    NamespacesDisjoint("", reply.objectKey, Thumb, None);
    RepairedExactly(t, w1, reply.objectKey, w.gcs[w.sessions[u].stagingObjectKey].body);
  }

  /** The same of an ingest. */
  lemma LostIngestIsRepaired(t: Transform, w: World, key: string, source: Result<Source, ErrorCode>,
                             requestedType: Option<string>, write: WriteOutcome, version: string)
    requires Inv(t, w) && FreshUlid(w, version)
    requires IngestObject(w, key, source, requestedType, write, version, FailedBefore).1.Ingested?
    ensures write.Streamed?
    ensures var w1 := IngestObject(w, key, source, requestedType, write, version, FailedBefore).0;
      && InGcs(w1, key, write.bytes)
      && (EverInR2(t, w1, key, write.bytes) <==> Repairable(w, key, write.bytes))
  {
    hide Inv, IngestObject, Reconcile, Canonical, TombstoneKey, MimeType, NamespaceOf, EverInR2, FreshUlid;
    IngestDelivers(w, key, source, requestedType, write, version, FailedBefore);
    IngestKeeps(t, w, key, source, requestedType, write, version, FailedBefore);
    NamespacesDisjoint("", key, Thumb, None);
    RepairedExactly(t, IngestObject(w, key, source, requestedType, write, version, FailedBefore).0, key, write.bytes);
  }
}
