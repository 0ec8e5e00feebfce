/** The whole system as one transition system. An action carries everything the environment
    decides: the request, its timing, and how each remote call ends. Worker requests and deletes
    are split at every remote call, so that any number of them interleave with the rest. */
module Systems {
  import opened Wrappers
  import opened Errors
  import opened ObjectKeys
  import opened Variants
  import opened Requests
  import opened StorageKeys
  import opened Storage
  import opened Worlds
  import opened Handlers

  /** The image transformation: any function of the variant and the original bytes. */
  type Transform = (WebpVariant, Bytes) -> Bytes

  // ---------- the Variant Worker (variant-worker/src/worker.ts) ----------

  const WEBP_CONTENT_TYPE := "image/webp"
  const DEFAULT_ORIGINAL_CONTENT_TYPE := "application/octet-stream"

  /** `withCacheStatus`. */
  function WithCacheStatus(r: Response, status: CacheStatus, source: CacheSource): Response {
    if r.Served? then Served(r.body, r.contentType, status, source) else r
  }

  /** `enforceCacheVersion`. */
  predicate VersionMatches(o: R2Object, version: Option<string>) {
    version.None? || o.cacheVersion == version
  }

  function OriginalContentType(t: Option<string>): string {
    if t.Some? then t.value else DEFAULT_ORIGINAL_CONTENT_TYPE
  }

  function MatchEdge(edge: EdgeMap, k: Worker): WorkerPc {
    if k.request.verb != Method.Get then Answered(Failed(405), false)
    else if (k.colo, k.request) in edge then Answered(WithCacheStatus(edge[(k.colo, k.request)], Hit, Edge), false)
    else EdgeMissed
  }

  /** The original of a parsed request, if it is there under the requested version. */
  function FetchOriginal(r2: R2Map, p: ParsedRequest): Option<R2Object> {
    if p.objectKey in r2 && VersionMatches(r2[p.objectKey], p.version) then Some(r2[p.objectKey]) else None
  }

  /** The first R2 read: the original itself, or the persisted variant. */
  function FirstRead(r2: R2Map, k: Worker): WorkerPc {
    var parsed := ParseImageRequest(k.request);
    if parsed.Err? then Answered(Failed(400), false) else
    var p := parsed.value;
    if p.variant.None? then
      var o := FetchOriginal(r2, p);
      if o.None? then Answered(Failed(404), false)
      else Built(Served(o.value.body, OriginalContentType(o.value.contentType), Miss, R2))
    else
      var key := BuildVariantKey(p.objectKey, p.variant.value, p.version);
      if key in r2 then Built(Served(r2[key].body, WEBP_CONTENT_TYPE, Miss, R2)) else VariantMissed(p)
  }

  /** The second R2 read, after a variant miss. */
  function SecondRead(r2: R2Map, p: ParsedRequest): WorkerPc {
    var o := FetchOriginal(r2, p);
    if o.None? then Answered(Failed(404), false) else OriginalRead(p, o.value)
  }

  // ---------- delete (upload-function/src/app.ts) ----------

  /** The R2 keys that delete removes one by one, in order. */
  function DeleteKeyList(key: string): seq<string> { [key] + BuildAllWebpVariantKeys(key) }

  function AfterKey(i: nat, key: string): DeletePc {
    if i + 1 < |DeleteKeyList(key)| then DeleteKeys(i + 1) else DeletePrefixes(0, None, None)
  }

  function AfterPage(j: nat, next: Option<string>): DeletePc {
    if next.Some? then DeletePrefixes(j, next, None)
    else if j + 1 < |WEBP_VARIANTS| then DeletePrefixes(j + 1, None, None)
    else DeleteGcs
  }

  /** How one attempt at a call of delete ends: it returns; or it fails, with or without its
      effect, and is retried or given up. */
  datatype Attempted = Returns | Fails(applied: bool, retried: bool)

  predicate TookEffect(a: Attempted) { a.Returns? || a.applied }

  function AfterAttempt(a: Attempted, again: DeletePc, next: DeletePc, code: ErrorCode): DeletePc {
    if a.Returns? then next else if a.retried then again else Aborted(code)
  }

  /** The checks of the delete route. */
  function StartDelete(h: Headers, path: string): Deletion {
    var trusted := ParseTrustedProductId(h.productId);
    if trusted.Err? then Deletion("", "", Aborted(trusted.error)) else
    var key := ExtractObjectKeyFromPath(path);
    if key.None? || !Canonical(key.value) then Deletion("", "", Aborted(ErrorCode.InvalidRequest)) else
    var e := EntityOf(key.value);
    var context := EnforceContext(h, ProductOf(e), AuctionHouseOf(e));
    if context.Err? then Deletion("", "", Aborted(context.error))
    else Deletion(key.value, if e.AuctionLot? then e.auctionHouseId else h.productId.value, WriteTombstone)
  }

  // ---------- actions ----------

  datatype Action =
    // uploads
    | PresignAct(h: Headers, request: PresignRequest, uploadId: string, ttlSeconds: int, presignFaults: PresignFaults)
    | ClientPutAct(uploadId: string, body: Bytes, contentType: Option<string>)
    | FinalizeAct(h: Headers, uploadId: string, finalizeFaults: FinalizeFaults)
    | CancelAct(h: Headers, uploadId: string, cancelFaults: CancelFaults)
    | IngestAct(key: string, source: Result<Source, ErrorCode>, requestedType: Option<string>,
                write: WriteOutcome, version: string, put: Outcome)
    // deletes
    | StartDeleteAct(d: nat, h: Headers, path: string)
    | DeleteCallAct(d: nat, attempt: Attempted)
    | ListPageAct(d: nat, page: seq<string>, next: Option<string>)
    | ListFailsAct(d: nat, retried: bool)
    | DeletePageAct(d: nat, pageOutcome: Attempted, removed: set<string>)
    | CrashDeleteAct(d: nat)
    // image requests
    | ArriveAct(k: nat, colo: nat, imageRequest: ImageRequest)
    | MatchEdgeAct(k: nat)
    | FirstReadAct(k: nat)
    | SecondReadAct(k: nat)
    | PutVariantAct(k: nat, outcome: Outcome)
    | WorkerFailsAct(k: nat, status: nat)
    | AnswerAct(k: nat)
    | EdgePutAct(k: nat)
    | EdgePutFailsAct(k: nat)
    // environment
    | EvictAct(colo: nat, imageRequest: ImageRequest)
    | PruneAct(expired: set<string>)
    | ReconcileAct(key: string)
    | TickAct(elapsed: nat)

  predicate DeleteAction(a: Action) {
    a.DeleteCallAct? || a.ListPageAct? || a.ListFailsAct? || a.DeletePageAct? || a.CrashDeleteAct?
  }

  predicate WorkerAction(a: Action) {
    a.MatchEdgeAct? || a.FirstReadAct? || a.SecondReadAct? || a.PutVariantAct? || a.WorkerFailsAct? || a.AnswerAct?
      || a.EdgePutAct? || a.EdgePutFailsAct?
  }

  function SetWorker(w: World, k: nat, pc: WorkerPc): World
    requires k in w.workers
  {
    w.(workers := w.workers[k := w.workers[k].(pc := pc)])
  }

  function SetDelete(w: World, d: nat, pc: DeletePc): World
    requires d in w.deletes
  {
    w.(deletes := w.deletes[d := w.deletes[d].(pc := pc)])
  }

  /** A worker action; it does nothing when the request is not at that point. */
  function WorkerStep(t: Transform, w: World, a: Action): World
    requires WorkerAction(a)
  {
    if a.k !in w.workers then w else
    var k := w.workers[a.k];
    match a
    case MatchEdgeAct(id) => if k.pc.Arrived? then SetWorker(w, id, MatchEdge(w.edge, k)) else w
    case FirstReadAct(id) => if k.pc.EdgeMissed? then SetWorker(w, id, FirstRead(w.r2, k)) else w
    case SecondReadAct(id) => if k.pc.VariantMissed? then SetWorker(w, id, SecondRead(w.r2, k.pc.parsed)) else w
    case PutVariantAct(id, outcome) => if k.pc.OriginalRead? then PutVariant(t, w, id, outcome) else w
    case WorkerFailsAct(id, status) =>
      if k.pc.Answered? || status < 500 then w else SetWorker(w, id, Answered(Failed(status), false))
    case AnswerAct(id) => if k.pc.Built? then SetWorker(w, id, Answered(k.pc.response, true)) else w
    case EdgePutFailsAct(id) =>
      if k.pc.Built? then
        SetWorker(w.(edge := w.edge[(k.colo, k.request) := k.pc.response]), id, Answered(Failed(500), false))
      else w
    case EdgePutAct(id) =>
      if k.pc.Answered? && k.pc.edgePutPending then
        SetWorker(w.(edge := w.edge[(k.colo, k.request) := k.pc.response]), id, Answered(k.pc.response, false))
      else w
  }

  /** Transform the original and persist the variant. */
  function PutVariant(t: Transform, w: World, id: nat, outcome: Outcome): World
    requires id in w.workers && w.workers[id].pc.OriginalRead?
  {
    var pc := w.workers[id].pc;
    var p := pc.parsed;
    if p.variant.None? then w else
    var body := t(p.variant.value, pc.original.body);
    var key := BuildVariantKey(p.objectKey, p.variant.value, p.version);
    var w1 := if Applied(outcome) then w.(r2 := w.r2[key := R2Object(body, Some(WEBP_CONTENT_TYPE), None)]) else w;
    SetWorker(w1, id,
      if outcome == Done then Built(Served(body, WEBP_CONTENT_TYPE, Miss, Images)) else Answered(Failed(500), false))
  }

  /** One call of a delete: the tombstone, one R2 key, or the GCS object. */
  function DeleteCall(w: World, d: nat, a: Attempted): World
    requires d in w.deletes
  {
    match w.deletes[d].pc
    case WriteTombstone => TombstoneCall(w, d, a)
    case DeleteKeys(i) => if i < |DeleteKeyList(w.deletes[d].key)| then R2KeyCall(w, d, i, a) else w
    case DeleteGcs => GcsCall(w, d, a)
    case _ => w
  }

  function TombstoneCallGcs(w: World, d: nat, a: Attempted): GcsMap
    requires d in w.deletes
  {
    var x := w.deletes[d];
    if TookEffect(a) then w.gcs[TombstoneKey(x.key) := Marker(Tombstone(x.key, w.now, x.deletedBy))] else w.gcs
  }

  function TombstoneCall(w: World, d: nat, a: Attempted): World
    requires d in w.deletes
  {
    SetDelete(w.(gcs := TombstoneCallGcs(w, d, a)), d,
      AfterAttempt(a, WriteTombstone, DeleteKeys(0), TombstoneWriteFailed))
  }

  function R2KeyCall(w: World, d: nat, i: nat, a: Attempted): World
    requires d in w.deletes && i < |DeleteKeyList(w.deletes[d].key)|
  {
    var x := w.deletes[d];
    var r2 := if TookEffect(a) then w.r2 - {DeleteKeyList(x.key)[i]} else w.r2;
    SetDelete(w.(r2 := r2), d, AfterAttempt(a, DeleteKeys(i), AfterKey(i, x.key), R2Unavailable))
  }

  function GcsCall(w: World, d: nat, a: Attempted): World
    requires d in w.deletes
  {
    var x := w.deletes[d];
    var gcs := if TookEffect(a) then w.gcs - {x.key} else w.gcs;
    SetDelete(w.(gcs := gcs), d, AfterAttempt(a, DeleteGcs, Finished, StorageUnavailable))
  }

  /** A page of the current prefix is listed. */
  ghost function ListPage(w: World, d: nat, page: seq<string>, next: Option<string>): World
    requires d in w.deletes
  {
    var x := w.deletes[d];
    if x.pc.DeletePrefixes? && x.pc.batch.None? && x.pc.j < |WEBP_VARIANTS| &&
       IsPage(w.r2.Keys, BuildWebpVariantPrefix(x.key, WEBP_VARIANTS[x.pc.j]), x.pc.token, page, next)
    then SetDelete(w, d, DeletePrefixes(x.pc.j, x.pc.token, Some(Batch(page, next))))
    else w
  }

  /** The listed page is deleted; a failed batch may have lost some of its keys, and a retry
      starts over with the first page of the prefix. */
  function DeletePage(w: World, d: nat, a: Attempted, removed: set<string>): World
    requires d in w.deletes
  {
    var x := w.deletes[d];
    if !x.pc.DeletePrefixes? || x.pc.batch.None? then w else
    var page := set k | k in x.pc.batch.value.page;
    var w1 := w.(r2 := w.r2 - (if a.Returns? then page else page * removed));
    SetDelete(w1, d,
      AfterAttempt(a, DeletePrefixes(x.pc.j, None, None), AfterPage(x.pc.j, x.pc.batch.value.next), R2Unavailable))
  }

  ghost function DeleteStep(w: World, a: Action): World
    requires DeleteAction(a)
  {
    if a.d !in w.deletes then w else
    match a
    case DeleteCallAct(d, attempt) => DeleteCall(w, d, attempt)
    case ListPageAct(d, page, next) => ListPage(w, d, page, next)
    case ListFailsAct(d, retried) =>
      var pc := w.deletes[d].pc;
      if pc.DeletePrefixes? && pc.batch.None? then
        SetDelete(w, d, if retried then DeletePrefixes(pc.j, None, None) else Aborted(R2Unavailable))
      else w
    case DeletePageAct(d, attempt, removed) => DeletePage(w, d, attempt, removed)
    case CrashDeleteAct(d) => if w.deletes[d].pc.Finished? then w else SetDelete(w, d, Aborted(InternalError))
  }

  /** A ULID that was never handed out before. */
  predicate FreshUlid(w: World, id: string) { IsUlid(id) && id !in w.issued }

  /** The next state; an action that is not possible changes nothing. */
  ghost function Apply(t: Transform, w: World, a: Action): World {
    match a
    case PresignAct(h, r, u, ttl, f) => if FreshUlid(w, u) then Presign(w, h, r, u, ttl, f).0 else w
    case ClientPutAct(u, body, ct) => ClientPut(w, u, body, ct)
    case FinalizeAct(h, u, f) => FinalizeUpload(w, h, u, f).0
    case CancelAct(h, u, f) => CancelUpload(w, h, u, f).0
    case IngestAct(key, source, rt, write, version, put) =>
      if FreshUlid(w, version) then IngestObject(w, key, source, rt, write, version, put).0 else w
    case StartDeleteAct(d, h, path) => if d in w.deletes then w else w.(deletes := w.deletes[d := StartDelete(h, path)])
    case DeleteCallAct(_, _) => DeleteStep(w, a)
    case ListPageAct(_, _, _) => DeleteStep(w, a)
    case ListFailsAct(_, _) => DeleteStep(w, a)
    case DeletePageAct(_, _, _) => DeleteStep(w, a)
    case CrashDeleteAct(_) => DeleteStep(w, a)
    case ArriveAct(k, colo, r) => if k in w.workers then w else w.(workers := w.workers[k := Worker(colo, r, Arrived)])
    case EvictAct(colo, r) => w.(edge := w.edge - {(colo, r)})
    case PruneAct(ids) =>
      w.(sessions := map id | id in w.sessions && (id !in ids || w.now < w.sessions[id].expiresAt) :: w.sessions[id])
    case ReconcileAct(key) => Reconcile(w, key)
    case TickAct(elapsed) => w.(now := w.now + elapsed)
    case _ => WorkerStep(t, w, a)
  }

  /** The state after a run. */
  ghost function Run(t: Transform, w: World, actions: seq<Action>): World
    decreases |actions|
  {
    if actions == [] then w else Apply(t, Run(t, w, actions[..|actions| - 1]), actions[|actions| - 1])
  }

  // ---------- runs ----------

  lemma RunOne(t: Transform, w: World, a: Action)
    ensures Run(t, w, [a]) == Apply(t, w, a)
  {
    hide Apply;
    assert [a][..0] == [];
    assert Run(t, w, []) == w;
  }

  lemma {:induction false} RunCons(t: Transform, w: World, a: Action, rest: seq<Action>)
    ensures Run(t, w, [a] + rest) == Run(t, Apply(t, w, a), rest)
    decreases |rest|
  {
    hide Apply;
    var all := [a] + rest;
    if rest == [] {
      assert all == [a];
      RunOne(t, w, a);
    } else {
      RunCons(t, w, a, rest[..|rest| - 1]);
      assert all[..|all| - 1] == [a] + rest[..|rest| - 1];
    }
  }

  lemma {:induction false} RunConcat(t: Transform, w: World, a: seq<Action>, b: seq<Action>)
    ensures Run(t, w, a + b) == Run(t, Run(t, w, a), b)
    decreases |b|
  {
    hide Apply;
    if b == [] {
      assert a + b == a;
    } else {
      RunConcat(t, w, a, b[..|b| - 1]);
      assert (a + b)[..|a + b| - 1] == a + b[..|b| - 1];
    }
  }

  lemma WorkerIsApplied(t: Transform, w: World, a: Action)
    requires WorkerAction(a)
    ensures Apply(t, w, a) == WorkerStep(t, w, a)
  {
    hide WorkerStep;
  }

  lemma RunThree(t: Transform, w: World, a: Action, b: Action, c: Action)
    ensures Run(t, w, [a, b, c]) == Apply(t, Apply(t, Apply(t, w, a), b), c)
  {
    hide Apply, Run;
    assert [a, b, c] == [a] + [b, c] && [b, c] == [b] + [c];
    RunCons(t, w, a, [b, c]);
    RunCons(t, Apply(t, w, a), b, [c]);
    RunOne(t, Apply(t, Apply(t, w, a), b), c);
  }

  lemma ArriveIsApplied(t: Transform, w: World, id: nat, colo: nat, q: ImageRequest)
    requires id !in w.workers
    ensures Apply(t, w, ArriveAct(id, colo, q)) == w.(workers := w.workers[id := Worker(colo, q, Arrived)])
  {
  }
}
