/** Two ways in which what the Variant Worker serves falls behind an upload: unversioned variants
    go stale, and a tombstone keeps a lost replica from being repaired. */
module Staleness {
  import opened Wrappers
  import opened ObjectKeys
  import opened ContentTypes
  import opened Variants
  import opened Requests
  import opened StorageKeys
  import opened Sessions
  import opened Storage
  import opened Worlds
  import opened Handlers
  import opened Systems
  import opened Frames
  import opened Invariants
  import opened WriteSteps
  import opened ReadPath
  import opened DeleteRuns
  import opened UploadPath
  import opened UploadScope
  import opened UploadOutcomes
  import opened VariantWorkers
  import opened PublicUrls
  import opened Progress

  // ---------- unversioned variants ----------

  /** No variant is stored at the unversioned key, or the one for the present original is. */
  predicate UpToDate(t: Transform, r2: R2Map, key: string, v: WebpVariant, body: Bytes) {
    var x := BuildVariantKey(key, v, None);
    x !in r2 || r2[x].body == t(v, body)
  }

  /** The steps of an undisturbed request that has arrived: the edge cache, and then the rest. */
  function RequestServed(t: Transform, w: World, id: nat): World {
    VariantServed(t, WorkerStep(t, w, MatchEdgeAct(id)), id)
  }

  /** Request `id` has arrived, as a GET of `q`. */
  predicate Arrives(w: World, id: nat, q: ImageRequest) {
    id in w.workers && w.workers[id].request == q && w.workers[id].pc.Arrived? && q.verb == Method.Get
  }

  /** What R2 gives an unversioned variant request: the stored variant, or else a new one. */
  function VariantInR2(t: Transform, r2: R2Map, key: string, v: WebpVariant): Option<Bytes> {
    var x := BuildVariantKey(key, v, None);
    if x in r2 then Some(r2[x].body) else if key in r2 then Some(t(v, r2[key].body)) else None
  }

  /** An undisturbed unversioned variant request is answered 200 with these bytes exactly if the
      edge cache has that answer, or has none and R2 gives them. */
  lemma UnversionedAnswer(t: Transform, w: World, id: nat, q: ImageRequest, key: string, v: WebpVariant, body: Bytes)
    requires Arrives(w, id, q) && ParseImageRequest(q) == Ok(ParsedRequest(key, None, Some(v)))
    ensures var e := (w.workers[id].colo, q);
      AnsweredOk(RequestServed(t, w, id), id, q, body, WEBP_CONTENT_TYPE) <==>
        if e in w.edge then IsAnswer(w.edge[e], body, WEBP_CONTENT_TYPE) else VariantInR2(t, w.r2, key, v) == Some(body)
  {
    hide ParseImageRequest, BuildVariantKey, RequestServed, VariantServed, AnsweredOk, At, IsAnswer, WithVariant;
    if (w.workers[id].colo, q) in w.edge {
      EdgeServed(t, w, id, q);
      var r := w.edge[(w.workers[id].colo, q)];
      AnsweredExactly(w, id, WithCacheStatus(r, Hit, Edge), false, body, WEBP_CONTENT_TYPE);
      SameAnswer(r, body, WEBP_CONTENT_TYPE);
    } else {
      AfterMiss(t, w, id, q);
      var w1 := Missed(w, id);
      if key in w.r2 || BuildVariantKey(key, v, None) in w.r2 {
        VariantFromR2(t, w1, id, q, key, v);
        OneAnswer(VariantServed(t, w1, id), id, q, VariantInR2(t, w.r2, key, v).value, body, WEBP_CONTENT_TYPE,
                  WEBP_CONTENT_TYPE);
      } else {
        NothingServed(t, w1, id, q, key, v);
        AnsweredExactly(w1, id, Failed(404), false, body, WEBP_CONTENT_TYPE);
        NoAnswer(404, body, WEBP_CONTENT_TYPE);
      }
    }
  }

  /** The request has asked the edge cache in vain. */
  function Missed(w: World, id: nat): World
    requires id in w.workers
  {
    w.(workers := w.workers[id := w.workers[id].(pc := EdgeMissed)])
  }

  lemma AnsweredExactly(w: World, id: nat, r: Response, pending: bool, body: Bytes, contentType: string)
    requires id in w.workers
    ensures AnsweredOk(At(w, id, w.r2, w.edge, Answered(r, pending)), id, w.workers[id].request, body, contentType) <==>
      IsAnswer(r, body, contentType)
  {
  }

  lemma SameAnswer(r: Response, body: Bytes, contentType: string)
    ensures IsAnswer(WithCacheStatus(r, Hit, Edge), body, contentType) <==> IsAnswer(r, body, contentType)
  {
  }

  lemma NoAnswer(status: nat, body: Bytes, contentType: string)
    ensures !IsAnswer(Failed(status), body, contentType)
  {
  }

  lemma OneAnswer(w: World, id: nat, q: ImageRequest, b1: Bytes, b2: Bytes, t1: string, t2: string)
    requires AnsweredOk(w, id, q, b1, t1)
    ensures AnsweredOk(w, id, q, b2, t2) <==> b1 == b2 && t1 == t2
  {
  }

  /** In particular, while R2 holds an original, it is answered with the variant of that original
      exactly if the edge cache has that answer, or has none and R2 is up to date. */
  lemma UnversionedIsFresh(t: Transform, w: World, id: nat, q: ImageRequest, key: string, v: WebpVariant)
    requires Arrives(w, id, q) && ParseImageRequest(q) == Ok(ParsedRequest(key, None, Some(v))) && key in w.r2
    ensures var e := (w.workers[id].colo, q);
      var body := t(v, w.r2[key].body);
      AnsweredOk(RequestServed(t, w, id), id, q, body, WEBP_CONTENT_TYPE) <==>
        if e in w.edge then IsAnswer(w.edge[e], body, WEBP_CONTENT_TYPE) else UpToDate(t, w.r2, key, v, w.r2[key].body)
  {
    hide ParseImageRequest, BuildVariantKey, RequestServed, AnsweredOk, IsAnswer;
    UnversionedAnswer(t, w, id, q, key, v, t(v, w.r2[key].body));
  }

  /** The same of a request for an unversioned original. */
  lemma UnversionedOriginalAnswer(t: Transform, w: World, id: nat, q: ImageRequest, key: string, body: Bytes,
                                  contentType: string)
    requires Arrives(w, id, q) && ParseImageRequest(q) == Ok(ParsedRequest(key, None, None))
    ensures var e := (w.workers[id].colo, q);
      AnsweredOk(RequestServed(t, w, id), id, q, body, contentType) <==>
        if e in w.edge then IsAnswer(w.edge[e], body, contentType) else OriginalInR2(w.r2, key, body, contentType)
  {
    hide ParseImageRequest, RequestServed, VariantServed, AnsweredOk, At, IsAnswer;
    if (w.workers[id].colo, q) in w.edge {
      EdgeServed(t, w, id, q);
      var r := w.edge[(w.workers[id].colo, q)];
      AnsweredExactly(w, id, WithCacheStatus(r, Hit, Edge), false, body, contentType);
      SameAnswer(r, body, contentType);
    } else {
      AfterMiss(t, w, id, q);
      var w1 := Missed(w, id);
      OriginalServed(t, w1, id, q, key);
      if key in w.r2 {
        AnsweredExactly(w1, id, OriginalResponse(w.r2[key]), true, body, contentType);
        OriginalAnswer(w.r2, key, body, contentType);
      } else {
        AnsweredExactly(w1, id, Failed(404), false, body, contentType);
        NoAnswer(404, body, contentType);
      }
    }
  }

  predicate OriginalInR2(r2: R2Map, key: string, body: Bytes, contentType: string) {
    key in r2 && r2[key].body == body && OriginalContentType(r2[key].contentType) == contentType
  }

  lemma OriginalAnswer(r2: R2Map, key: string, body: Bytes, contentType: string)
    requires key in r2
    ensures IsAnswer(OriginalResponse(r2[key]), body, contentType) <==> OriginalInR2(r2, key, body, contentType)
  {
  }

  lemma EdgeServed(t: Transform, w: World, id: nat, q: ImageRequest)
    requires Arrives(w, id, q) && (w.workers[id].colo, q) in w.edge
    ensures var r := WithCacheStatus(w.edge[(w.workers[id].colo, q)], Hit, Edge);
      RequestServed(t, w, id) == At(w, id, w.r2, w.edge, Answered(r, false))
  {
    hide WorkerStep, At;
    var r := WithCacheStatus(w.edge[(w.workers[id].colo, q)], Hit, Edge);
    ArrivedAt(w, id);
    MatchEdgeStep(t, w, id, w.r2, w.edge);
    AnsweredStays(t, w, id, w.r2, w.edge, r, false);
  }

  lemma ArrivedAt(w: World, id: nat)
    requires id in w.workers
    ensures At(w, id, w.r2, w.edge, w.workers[id].pc) == w
  {
    assert w.workers[id := w.workers[id]] == w.workers;
  }

  lemma AnsweredStays(t: Transform, w: World, id: nat, r2: R2Map, edge: EdgeMap, r: Response, pending: bool)
    requires id in w.workers
    ensures VariantServed(t, At(w, id, r2, edge, Answered(r, pending)), id) == At(w, id, r2, edge, Answered(r, pending))
  {
  }

  lemma AfterMiss(t: Transform, w: World, id: nat, q: ImageRequest)
    requires Arrives(w, id, q) && (w.workers[id].colo, q) !in w.edge
    ensures RequestServed(t, w, id) == VariantServed(t, Missed(w, id), id)
  {
    hide WorkerStep, VariantServed;
    ArrivedAt(w, id);
    MatchEdgeStep(t, w, id, w.r2, w.edge);
  }

  lemma VariantFromR2(t: Transform, w: World, id: nat, q: ImageRequest, key: string, v: WebpVariant)
    requires ParseImageRequest(q) == Ok(ParsedRequest(key, None, Some(v)))
    requires id in w.workers && w.workers[id].request == q && w.workers[id].pc.EdgeMissed?
    requires key in w.r2 || BuildVariantKey(key, v, None) in w.r2
    ensures var w1 := VariantServed(t, w, id);
      && AnsweredOk(w1, id, q, VariantInR2(t, w.r2, key, v).value, WEBP_CONTENT_TYPE)
      && w1 == w.(r2 := w1.r2, workers := w1.workers) && w1.workers == w.workers[id := w1.workers[id]]
      && w1.r2 == WithVariant(t, w.r2, key, v)
  {
    hide ParseImageRequest, BuildVariantKey, VariantServed, FirstRead;
    var p := ParsedRequest(key, None, Some(v));
    VariantRead(w.r2, w.workers[id], p);
    FirstReadStep(t, w, id, w.r2, w.edge);
    ArrivedAt(w, id);
    if BuildVariantKey(key, v, None) in w.r2 {
      ServedFromR2(t, w, id, Served(VariantInR2(t, w.r2, key, v).value, WEBP_CONTENT_TYPE, Miss, R2));
    } else {
      ServedByTransform(t, w, id, p, w.r2[key]);
    }
  }

  lemma NothingServed(t: Transform, w: World, id: nat, q: ImageRequest, key: string, v: WebpVariant)
    requires ParseImageRequest(q) == Ok(ParsedRequest(key, None, Some(v)))
    requires id in w.workers && w.workers[id].request == q && w.workers[id].pc.EdgeMissed?
    requires key !in w.r2 && BuildVariantKey(key, v, None) !in w.r2
    ensures VariantServed(t, w, id) == At(w, id, w.r2, w.edge, Error(404))
  {
    hide ParseImageRequest, BuildVariantKey, FirstRead, WorkerStep, At;
    var p := ParsedRequest(key, None, Some(v));
    VariantRead(w.r2, w.workers[id], p);
    FirstReadStep(t, w, id, w.r2, w.edge);
    ArrivedAt(w, id);
    SecondReadStep(t, w, id, w.r2, w.edge, p);
    ErrorStays(t, w, id, w.r2, w.edge, 404);
  }

  lemma ErrorStays(t: Transform, w: World, id: nat, r2: R2Map, edge: EdgeMap, status: nat)
    requires id in w.workers
    ensures var w1 := At(w, id, r2, edge, Error(status));
      && WorkerStep(t, w1, SecondReadAct(id)) == w1 && WorkerStep(t, w1, PutVariantAct(id, Done)) == w1
      && WorkerStep(t, w1, AnswerAct(id)) == w1
  {
  }

  lemma OriginalServed(t: Transform, w: World, id: nat, q: ImageRequest, key: string)
    requires ParseImageRequest(q) == Ok(ParsedRequest(key, None, None))
    requires id in w.workers && w.workers[id].request == q && w.workers[id].pc.EdgeMissed?
    ensures VariantServed(t, w, id) == At(w, id, w.r2, w.edge,
      if key in w.r2 then Answered(OriginalResponse(w.r2[key]), true) else Error(404))
  {
    hide ParseImageRequest, FirstRead, WorkerStep, At;
    OriginalRead(w.r2, w.workers[id], key);
    FirstReadStep(t, w, id, w.r2, w.edge);
    ArrivedAt(w, id);
    if key in w.r2 {
      ServedFromR2(t, w, id, OriginalResponse(w.r2[key]));
    } else {
      ErrorStays(t, w, id, w.r2, w.edge, 404);
    }
  }

  function OriginalResponse(o: R2Object): Response { Served(o.body, OriginalContentType(o.contentType), Miss, R2) }

  lemma OriginalRead(r2: R2Map, k: Worker, key: string)
    requires ParseImageRequest(k.request) == Ok(ParsedRequest(key, None, None))
    ensures FirstRead(r2, k) == if key in r2 then Built(OriginalResponse(r2[key])) else Error(404)
  {
    hide ParseImageRequest;
  }

  /** R2 with the unversioned variant stored, as it was or made now. */
  function WithVariant(t: Transform, r2: R2Map, key: string, v: WebpVariant): R2Map {
    var x := BuildVariantKey(key, v, None);
    if x in r2 || key !in r2 then r2 else r2[x := R2Object(t(v, r2[key].body), Some(WEBP_CONTENT_TYPE), None)]
  }

  /** Whether unversioned variant requests see an upload that was answered 200 is decided before
      it, but for the outcome of the put to R2: by the edge cache, else by the stored variant, else
      they do if the put took effect, or the old original gives the same variant. */
  lemma UploadSeenUnversioned(t: Transform, w: World, h: Headers, u: string, f: FinalizeFaults, id: nat,
                              q: ImageRequest, v: WebpVariant)
    requires Inv(t, w) && FinalizeUpload(w, h, u, f).1.Accepted? && Arrives(w, id, q)
    requires ParseImageRequest(q) == Ok(ParsedRequest(FinalizeUpload(w, h, u, f).1.objectKey, None, Some(v)))
    ensures u in w.sessions && w.sessions[u].stagingObjectKey in w.gcs && w.gcs[w.sessions[u].stagingObjectKey].Image?
    ensures var (w1, reply) := FinalizeUpload(w, h, u, f);
      var body := t(v, w.gcs[w.sessions[u].stagingObjectKey].body);
      var e := (w.workers[id].colo, q);
      AnsweredOk(RequestServed(t, w1, id), id, q, body, WEBP_CONTENT_TYPE) <==>
        if e in w.edge then IsAnswer(w.edge[e], body, WEBP_CONTENT_TYPE)
        else SeenInR2(t, w.r2, reply.objectKey, v, body, Applied(f.put))
  {
    hide Inv, FinalizeUpload, ParseImageRequest, BuildVariantKey, RequestServed, MimeType, Canonical, ValidSession,
      AnsweredOk, IsAnswer;
    FinalizeDelivers(t, w, h, u, f);
    FinalizeFrame(w, h, u, f);
    var (w1, reply) := FinalizeUpload(w, h, u, f);
    SessionOfId(t, w, u);
    SessionOwner(w.sessions[u]);
    KeyIsNoVariant(reply.objectKey, reply.objectKey, v, None);
    UnversionedAnswer(t, w1, id, q, reply.objectKey, v, t(v, w.gcs[w.sessions[u].stagingObjectKey].body));
  }

  /** With R2 as it was before an upload whose variant this is: R2 will give it. */
  predicate SeenInR2(t: Transform, r2: R2Map, key: string, v: WebpVariant, variant: Bytes, put: bool) {
    var x := BuildVariantKey(key, v, None);
    if x in r2 then r2[x].body == variant else put || (key in r2 && t(v, r2[key].body) == variant)
  }

  // ---------- runs of whole uploads and requests ----------

  /** Presign, client PUT and finalize, in which only the put to R2 may fail. */
  function UploadActs(h: Headers, r: PresignRequest, u: string, ttl: int, body: Bytes, put: Outcome): seq<Action> {
    [PresignAct(h, r, u, ttl, PresignFaults(None, false)), ClientPutAct(u, body, None),
     FinalizeAct(h, u, NO_FAULTS.(put := put))]
  }

  /** The steps of a variant request that nothing disturbs. */
  function ReadActs(id: nat, colo: nat, q: ImageRequest): seq<Action> {
    [ArriveAct(id, colo, q), MatchEdgeAct(id), FirstReadAct(id), SecondReadAct(id), PutVariantAct(id, Done),
     AnswerAct(id)]
  }

  /** `w1` differs from `w` by an upload of `body` to `key` as `u`. */
  ghost predicate Uploaded(t: Transform, w: World, w1: World, key: string, u: string, body: Bytes, mime: string,
                           put: Outcome) {
    && Inv(t, w1) && w1.edge == w.edge && w1.workers == w.workers && w1.deletes == w.deletes && w1.now == w.now
    && w1.issued == w.issued + {u}
    && w1.r2 == (if Applied(put) then w.r2[key := R2Object(body, Some(mime), Some(u))] else w.r2)
    && key in w1.gcs && w1.gcs[key] == Image(body, Some(mime))
    && KeepsTombstones(w.gcs, w1.gcs)
  }

  /** A granted upload of what was announced always arrives. */
  lemma UploadsNow(t: Transform, w: World, h: Headers, r: PresignRequest, u: string, ttl: int, body: Bytes,
                   put: Outcome)
    requires Inv(t, w) && FreshUlid(w, u) && CheckPresign(h, r).Ok? && ttl > 0 && |body| == r.contentLength
    ensures var w1 := Run(t, w, UploadActs(h, r, u, ttl, body, put));
      Uploaded(t, w, w1, CheckPresign(h, r).value.0, u, body, r.contentType, put)
  {
    hide Inv, CheckPresign, Apply, TypeFits, FreshUlid, Canonical, KeepsTombstones, FinalizeUpload, OwnsEntity,
      Owns,
      StagingKey, MimeType, ProductOf, AuctionHouseOf;
    var (key, contentType) := CheckPresign(h, r).value;
    var presign, clientPut := PresignAct(h, r, u, ttl, PresignFaults(None, false)), ClientPutAct(u, body, None);
    var f := NO_FAULTS.(put := put);
    var w1 := Apply(t, w, presign);
    var w2 := Apply(t, w1, clientPut);
    var w3 := FinalizeUpload(w2, h, u, f).0;
    assert w3 == Apply(t, w2, FinalizeAct(h, u, f)) by { FinalizeIsApplied(t, w2, h, u, f); }
    RunThree(t, w, presign, clientPut, FinalizeAct(h, u, f));
    GrantedKey(h, r);
    StagedNow(t, w, h, r, u, ttl, body);
    FinalizableNow(t, w, h, r, u, ttl, body);
    FinalizeAcceptsExactly(t, w2, h, u, f);
    FinalizeDelivers(t, w2, h, u, f);
    FinalizeFrame(w2, h, u, f);
    AcceptedWorld(w2, h, u, f);
    FinalizeKeeps(t, w2, h, u, f);
    FinalizeKeepsTombstones(t, w2, h, u, f);
    KeepsTransitive(w.gcs, w2.gcs, w3.gcs);
  }

  /** After a granted presign and a fitting client PUT, the upload can be finalized. */
  lemma FinalizableNow(t: Transform, w: World, h: Headers, r: PresignRequest, u: string, ttl: int, body: Bytes)
    requires Inv(t, w) && FreshUlid(w, u) && CheckPresign(h, r).Ok? && ttl > 0 && |body| == r.contentLength
    ensures Finalizable(StagedWorld(t, w, h, r, u, ttl, body), h, u) && Inv(t, StagedWorld(t, w, h, r, u, ttl, body))
  {
    hide Inv, CheckPresign, Apply, TypeFits, FreshUlid, Canonical, KeepsTombstones, OwnsEntity, Owns,
      StagingKey, MimeType, ProductOf, AuctionHouseOf;
    var (key, contentType) := CheckPresign(h, r).value;
    GrantedKey(h, r);
    StagedNow(t, w, h, r, u, ttl, body);
    OwnsIts(h, key, r.entity);
    NoTypeFits(contentType);
  }

  /** The world after a presign and a client PUT. */
  ghost function StagedWorld(t: Transform, w: World, h: Headers, r: PresignRequest, u: string, ttl: int, body: Bytes)
    : World {
    Apply(t, Apply(t, w, PresignAct(h, r, u, ttl, PresignFaults(None, false))), ClientPutAct(u, body, None))
  }

  lemma FinalizeIsApplied(t: Transform, w: World, h: Headers, u: string, f: FinalizeFaults)
    ensures Apply(t, w, FinalizeAct(h, u, f)) == FinalizeUpload(w, h, u, f).0
  {
    hide FinalizeUpload;
  }

  lemma NoTypeFits(t: ContentType)
    ensures TypeFits(None, MimeType(t))
  {
  }

  lemma StagedNow(t: Transform, w: World, h: Headers, r: PresignRequest, u: string, ttl: int, body: Bytes)
    requires Inv(t, w) && FreshUlid(w, u) && CheckPresign(h, r).Ok?
    ensures var w1 := Apply(t, w, PresignAct(h, r, u, ttl, PresignFaults(None, false)));
      var w2 := Apply(t, w1, ClientPutAct(u, body, None));
      && Inv(t, w2) && w2.edge == w.edge && w2.workers == w.workers && w2.deletes == w.deletes && w2.now == w.now
      && w2.issued == w.issued + {u} && w2.r2 == w.r2 && KeepsTombstones(w.gcs, w2.gcs)
      && u in w2.sessions && w2.sessions[u] == SessionFor(w, h, r, u, ttl)
      && SessionFor(w, h, r, u, ttl).stagingObjectKey in w2.gcs
      && w2.gcs[SessionFor(w, h, r, u, ttl).stagingObjectKey] == Image(body, None)
  {
    hide Inv, CheckPresign, StagingKey, IsUlid, ProductOf, AuctionHouseOf, KeepsTombstones, NamespaceOf;
    var presign := PresignAct(h, r, u, ttl, PresignFaults(None, false));
    var w1 := Apply(t, w, presign);
    ApplyKeeps(t, w, presign);
    ApplyKeeps(t, w1, ClientPutAct(u, body, None));
    ClientPutKeepsTombstones(w1, u, body, None);
  }

  /** A lone unversioned request. */
  lemma ReadsNow(t: Transform, w: World, id: nat, colo: nat, q: ImageRequest, key: string, v: WebpVariant)
    requires ParseImageRequest(q) == Ok(ParsedRequest(key, None, Some(v))) && key in w.r2 && q.verb == Method.Get
    requires id !in w.workers && (colo, q) !in w.edge
    ensures var w1 := Run(t, w, ReadActs(id, colo, q));
      && AnsweredOk(w1, id, q, VariantInR2(t, w.r2, key, v).value, WEBP_CONTENT_TYPE)
      && w1 == w.(r2 := WithVariant(t, w.r2, key, v), workers := w1.workers)
      && w1.workers == w.workers[id := w1.workers[id]]
  {
    hide ParseImageRequest, BuildVariantKey, Run, WorkerStep, FirstRead, VariantInR2, WithVariant, AnsweredOk;
    var w1 := w.(workers := w.workers[id := Worker(colo, q, Arrived)]);
    var w2 := w1.(workers := w1.workers[id := Worker(colo, q, EdgeMissed)]);
    MatchEdgeStep(t, w1, id, w1.r2, w1.edge);
    assert At(w1, id, w1.r2, w1.edge, Arrived) == w1;
    assert At(w1, id, w1.r2, w1.edge, EdgeMissed) == w2;
    VariantFromR2(t, w2, id, q, key, v);
    RunRead(t, w, id, colo, q);
  }

  lemma RunRead(t: Transform, w: World, id: nat, colo: nat, q: ImageRequest)
    requires id !in w.workers
    ensures var w1 := w.(workers := w.workers[id := Worker(colo, q, Arrived)]);
      Run(t, w, ReadActs(id, colo, q)) == VariantServed(t, WorkerStep(t, w1, MatchEdgeAct(id)), id)
  {
    hide Run, WorkerStep, Apply;
    forall w: World, a | WorkerAction(a) { WorkerIsApplied(t, w, a); }
    ArriveIsApplied(t, w, id, colo, q);
    var first := [ArriveAct(id, colo, q), MatchEdgeAct(id), FirstReadAct(id)];
    var last := [SecondReadAct(id), PutVariantAct(id, Done), AnswerAct(id)];
    assert ReadActs(id, colo, q) == first + last;
    RunConcat(t, w, first, last);
    RunThree(t, w, first[0], first[1], first[2]);
    RunThree(t, Run(t, w, first), last[0], last[1], last[2]);
  }

  /** Upload, read, upload again, read again: from any reachable state without a stored variant,
      the second reader gets the variant of the first upload, whatever the second one was. */
  lemma SecondReaderIsStale(t: Transform, w: World, h: Headers, r: PresignRequest, u1: string, u2: string, ttl: int,
                            body1: Bytes, body2: Bytes, id1: nat, id2: nat, colo: nat, q: ImageRequest, v: WebpVariant)
    requires Inv(t, w) && FreshUlid(w, u1) && FreshUlid(w, u2) && u1 != u2 && CheckPresign(h, r).Ok? && ttl > 0
    requires |body1| == r.contentLength && |body2| == r.contentLength
    requires id1 !in w.workers && id2 !in w.workers && id1 != id2 && (colo, q) !in w.edge && q.verb == Method.Get
    requires ParseImageRequest(q) == Ok(ParsedRequest(CheckPresign(h, r).value.0, None, Some(v)))
    requires BuildVariantKey(CheckPresign(h, r).value.0, v, None) !in w.r2
    ensures var key := CheckPresign(h, r).value.0;
      var w4 := Run(t, w, UploadActs(h, r, u1, ttl, body1, Done) + ReadActs(id1, colo, q)
                          + (UploadActs(h, r, u2, ttl, body2, Done) + ReadActs(id2, colo, q)));
      && key in w4.r2 && w4.r2[key].body == body2
      && AnsweredOk(w4, id2, q, t(v, body1), WEBP_CONTENT_TYPE)
  {
    hide Inv, ParseImageRequest, BuildVariantKey, Run, CheckPresign, IsUlid, Canonical, KeepsTombstones;
    var key := CheckPresign(h, r).value.0;
    var up1, read1 := UploadActs(h, r, u1, ttl, body1, Done), ReadActs(id1, colo, q);
    var up2, read2 := UploadActs(h, r, u2, ttl, body2, Done), ReadActs(id2, colo, q);
    var w1 := Run(t, w, up1);
    var w2 := Run(t, w1, read1);
    var w3 := Run(t, w2, up2);
    RunConcat(t, w, up1, read1);
    RunConcat(t, w, up1 + read1, up2 + read2);
    RunConcat(t, w2, up2, read2);
    GrantedKey(h, r);
    KeyIsNoVariant(key, key, v, None);
    UploadsNow(t, w, h, r, u1, ttl, body1, Done);
    ReadsNow(t, w1, id1, colo, q, key, v);
    RunKeeps(t, w1, read1);
    UploadsNow(t, w2, h, r, u2, ttl, body2, Done);
    ReadsNow(t, w3, id2, colo, q, key, v);
  }

  // ---------- originals in the edge cache ----------

  /** The steps of an undisturbed request whose answer then goes into the edge cache. */
  function ReadAndCacheActs(id: nat, colo: nat, q: ImageRequest): seq<Action> {
    ReadActs(id, colo, q) + [EdgePutAct(id)]
  }

  /** A lone request for an unversioned original, and its edge put. */
  lemma OriginalIsCached(t: Transform, w: World, id: nat, colo: nat, q: ImageRequest, key: string)
    requires ParseImageRequest(q) == Ok(ParsedRequest(key, None, None)) && key in w.r2 && q.verb == Method.Get
    requires id !in w.workers && (colo, q) !in w.edge
    ensures var w1 := Run(t, w, ReadAndCacheActs(id, colo, q));
      && w1 == w.(edge := w.edge[(colo, q) := OriginalResponse(w.r2[key])], workers := w1.workers)
      && w1.workers.Keys == w.workers.Keys + {id}
  {
    hide ParseImageRequest, Run, WorkerStep, Apply, VariantServed, RequestServed, OriginalResponse, OriginalContentType;
    var w1 := w.(workers := w.workers[id := Worker(colo, q, Arrived)]);
    var r := OriginalResponse(w.r2[key]);
    RunRead(t, w, id, colo, q);
    AfterMiss(t, w1, id, q);
    assert VariantServed(t, Missed(w1, id), id) == RequestServed(t, w1, id) by { ServedAfterMatch(t, w1, id); }
    OriginalServed(t, Missed(w1, id), id, q, key);
    var w2 := Run(t, w, ReadActs(id, colo, q));
    assert w2 == At(Missed(w1, id), id, w.r2, w.edge, Answered(r, true)) by { ServedAfterMatch(t, w1, id); }
    RunConcat(t, w, ReadActs(id, colo, q), [EdgePutAct(id)]);
    RunOne(t, w2, EdgePutAct(id));
    WorkerIsApplied(t, w2, EdgePutAct(id));
    EdgePutStep(t, Missed(w1, id), id, w.r2, w.edge, r);
  }

  lemma ServedAfterMatch(t: Transform, w: World, id: nat)
    ensures RequestServed(t, w, id) == VariantServed(t, WorkerStep(t, w, MatchEdgeAct(id)), id)
  {
    hide WorkerStep, VariantServed;
  }

  /** Upload, read into the edge cache, upload again, read again: in the same data centre, and from
      any reachable state, the second reader gets the first original, whatever the second was. */
  lemma SecondReaderIsStaleAtEdge(t: Transform, w: World, h: Headers, r: PresignRequest, u1: string, u2: string,
                                  ttl: int,
                                  body1: Bytes, body2: Bytes, id1: nat, id2: nat, colo: nat, q: ImageRequest)
    requires Inv(t, w) && FreshUlid(w, u1) && FreshUlid(w, u2) && u1 != u2 && CheckPresign(h, r).Ok? && ttl > 0
    requires |body1| == r.contentLength && |body2| == r.contentLength
    requires id1 !in w.workers && id2 !in w.workers && id1 != id2 && (colo, q) !in w.edge && q.verb == Method.Get
    requires ParseImageRequest(q) == Ok(ParsedRequest(CheckPresign(h, r).value.0, None, None))
    ensures var key := CheckPresign(h, r).value.0;
      var w4 := Run(t, w, UploadActs(h, r, u1, ttl, body1, Done) + ReadAndCacheActs(id1, colo, q)
                          + (UploadActs(h, r, u2, ttl, body2, Done) + ReadActs(id2, colo, q)));
      && key in w4.r2 && w4.r2[key].body == body2
      && AnsweredOk(w4, id2, q, body1, r.contentType)
  {
    hide Inv, ParseImageRequest, Run, CheckPresign, IsUlid, Canonical, KeepsTombstones, AnsweredOk, RequestServed;
    var key := CheckPresign(h, r).value.0;
    var up1, read1 := UploadActs(h, r, u1, ttl, body1, Done), ReadAndCacheActs(id1, colo, q);
    var up2, read2 := UploadActs(h, r, u2, ttl, body2, Done), ReadActs(id2, colo, q);
    var w1 := Run(t, w, up1);
    var w2 := Run(t, w1, read1);
    var w3 := Run(t, w2, up2);
    RunConcat(t, w, up1, read1);
    RunConcat(t, w, up1 + read1, up2 + read2);
    RunConcat(t, w2, up2, read2);
    UploadsNow(t, w, h, r, u1, ttl, body1, Done);
    OriginalIsCached(t, w1, id1, colo, q, key);
    RunKeeps(t, w1, read1);
    UploadsNow(t, w2, h, r, u2, ttl, body2, Done);
    var w4 := w3.(workers := w3.workers[id2 := Worker(colo, q, Arrived)]);
    RunRead(t, w3, id2, colo, q);
    ServedAfterMatch(t, w4, id2);
    EdgeServed(t, w4, id2, q);
    assert w3.edge[(colo, q)] == Served(body1, r.contentType, Miss, R2);
    AnsweredExactly(w4, id2, Served(body1, r.contentType, Hit, Edge), false, body1, r.contentType);
  }

  // ---------- tombstones ----------

  /** A key that was deleted, uploaded again, and lost its put: the 200 stands, GCS holds the new
      bytes, and no run without another upload to the key ever brings them to R2. */
  lemma LostReuploadIsForGood(t: Transform, w: World, h: Headers, r: PresignRequest, u: string, ttl: int, body: Bytes)
    requires Inv(t, w) && FreshUlid(w, u) && CheckPresign(h, r).Ok? && ttl > 0 && |body| == r.contentLength
    requires StaysDeleted(w, CheckPresign(h, r).value.0)
    ensures var key := CheckPresign(h, r).value.0;
      var w1 := Run(t, w, UploadActs(h, r, u, ttl, body, FailedBefore));
      && key in w1.gcs && w1.gcs[key] == Image(body, Some(r.contentType)) && NeverInR2(t, w1, key)
  {
    hide Inv, CheckPresign, Run, FreshUlid, Canonical, TombstoneKey, NamespaceOf;
    var key := CheckPresign(h, r).value.0;
    var w1 := Run(t, w, UploadActs(h, r, u, ttl, body, FailedBefore));
    GrantedKey(h, r);
    UploadsNow(t, w, h, r, u, ttl, body, FailedBefore);
    NamespacesDisjoint("", key, Thumb, None);
    forall more | NoUploadTo(t, w1, more, key) ensures key !in Run(t, w1, more).r2 {
      DeletedStaysDeleted(t, w1, more, key);
    }
  }

  /** No run without an upload to the key puts it into R2. */
  ghost predicate NeverInR2(t: Transform, w: World, key: string) {
    forall more | NoUploadTo(t, w, more, key) :: key !in Run(t, w, more).r2
  }

  /** Such a run exists from every reachable state: upload, delete, upload again with a failing put. */
  lemma ReuploadCanBeLost(t: Transform, w: World, h: Headers, r: PresignRequest, u1: string, u2: string, ttl: int,
                          body1: Bytes, body2: Bytes, d: nat) returns (actions: seq<Action>)
    requires Inv(t, w) && FreshUlid(w, u1) && FreshUlid(w, u2) && u1 != u2 && CheckPresign(h, r).Ok? && ttl > 0
    requires |body1| == r.contentLength && |body2| == r.contentLength && d !in w.deletes
    ensures var key := CheckPresign(h, r).value.0;
      var w1 := Run(t, w, actions);
      && key in w1.gcs && w1.gcs[key] == Image(body2, Some(r.contentType)) && NeverInR2(t, w1, key)
  {
    hide Inv, CheckPresign, Run, IsUlid, Canonical, TombstoneKey, KeepsTombstones, NeverInR2, StartDelete, Owns,
      OwnsEntity, Apply;
    var key := CheckPresign(h, r).value.0;
    var path := OBJECT_PATH_PREFIX + key;
    GrantedKey(h, r);
    OwnsIts(h, key, r.entity);
    DeletePathRoundTrip(key);
    DeleteNeedsOwnership(h, path);
    var up1 := UploadActs(h, r, u1, ttl, body1, Done);
    var w1 := Run(t, w, up1);
    UploadsNow(t, w, h, r, u1, ttl, body1, Done);
    var start := StartDeleteAct(d, h, path);
    StartsDelete(t, w1, d, h, path);
    ApplyKeeps(t, w1, start);
    var steps := DeleteCanFinish(t, Apply(t, w1, start), d);
    RunCons(t, w1, start, steps);
    var w2 := Run(t, w1, [start] + steps);
    AttemptIsOrdered(t, w1, Attempt(d, h, path, steps), key);
    FullyDeleted(key, w1.gcs, w1.r2, w2.gcs, w2.r2);
    var up2 := UploadActs(h, r, u2, ttl, body2, FailedBefore);
    LostReuploadIsForGood(t, w2, h, r, u2, ttl, body2);
    RunConcat(t, w1, [start] + steps, up2);
    RunConcat(t, w, up1, [start] + steps + up2);
    actions := up1 + ([start] + steps + up2);
  }

  lemma StartsDelete(t: Transform, w: World, d: nat, h: Headers, path: string)
    requires d !in w.deletes
    ensures var w1 := Apply(t, w, StartDeleteAct(d, h, path)); d in w1.deletes && w1.deletes[d] == StartDelete(h, path)
  {
    hide StartDelete;
  }

  lemma FullyDeleted(key: string, gcs: GcsMap, r2: R2Map, gcs': GcsMap, r2': R2Map)
    requires FullDelete(key, gcs, r2, gcs', r2')
    ensures TombstoneKey(key) in gcs' && key !in r2'
  {
    hide VariantCovered, TombstoneKey;
  }
}
