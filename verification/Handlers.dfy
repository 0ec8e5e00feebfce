/** The write handlers of the Upload Function (upload-function/src/app.ts). Each is a function of
    the world and of how its remote calls end. */
module Handlers {
  import opened Wrappers
  import opened Errors
  import opened Regexes
  import opened ObjectKeys
  import opened ContentTypes
  import opened Requests
  import opened StorageKeys
  import opened Sessions
  import opened Storage
  import opened Worlds
  import RedisStore

  /** The two trusted headers. */
  datatype Headers = Headers(productId: Option<string>, auctionHouseId: Option<string>)

  // ---------- trusted context ----------

  /** `parseTrustedProductId`. */
  function ParseTrustedProductId(value: Option<string>): Result<ProductId, ErrorCode> {
    if value.None? then Err(ProductRequired) else
    var p := RedisStore.ParseProductName(value.value);
    if p.None? then Err(ErrorCode.InvalidRequest) else Ok(p.value)
  }

  /** `parseTrustedAuctionHouseId`. */
  function ParseTrustedAuctionHouseId(value: Option<string>): Result<string, ErrorCode> {
    if value.None? then Err(AuctionHouseRequired)
    else if Matches(SEGMENT, value.value) then Ok(value.value)
    else Err(ErrorCode.InvalidRequest)
  }

  /** The product check, and the auction-house check where a house is given. */
  function EnforceContext(h: Headers, productId: ProductId, auctionHouseId: Option<string>): Result<(), ErrorCode> {
    var trusted :- ParseTrustedProductId(h.productId);
    if trusted != productId then Err(ProductMismatch)
    else if auctionHouseId.None? then Ok(())
    else
      var house :- ParseTrustedAuctionHouseId(h.auctionHouseId);
      if house == auctionHouseId.value then Ok(()) else Err(AuctionHouseMismatch)
  }

  // ---------- presign ----------

  datatype PresignRequest = PresignRequest(
    entity: Entity, imageId: string, suffix: Option<string>, contentType: string, contentLength: int)

  const MAX_PATH_SEGMENT_LENGTH := 64
  const MAX_VARIANT_SUFFIX_LENGTH := 16

  predicate FitsSegment(s: string) { 1 <= |s| <= MAX_PATH_SEGMENT_LENGTH }

  /** `PresignRequestSchema`. */
  predicate MatchesPresignSchema(r: PresignRequest) {
    && FitsSegment(r.imageId)
    && (r.suffix.Some? ==> |r.suffix.value| <= MAX_VARIANT_SUFFIX_LENGTH)
    && r.contentType != "" && r.contentLength > 0
    && match r.entity
       case GalleryArtwork(g, a) => FitsSegment(g) && FitsSegment(a)
       case AuctionLot(h, d, l) => FitsSegment(h) && FitsSegment(d) && FitsSegment(l)
       case PdbArtwork(p) => FitsSegment(p)
  }

  /** How the session store and the URL signer answer presign. */
  datatype PresignFaults = PresignFaults(storeRefuses: Option<ErrorCode>, signingFails: bool)

  datatype PresignReply = Issued(uploadId: string, objectKey: string) | PresignRefused(code: ErrorCode)

  /** The checks of presign, up to the object key. */
  function CheckPresign(h: Headers, r: PresignRequest): Result<(string, ContentType), ErrorCode> {
    var trusted :- ParseTrustedProductId(h.productId);
    if !MatchesPresignSchema(r) then Err(ErrorCode.InvalidRequest) else
    var t :- ParseAllowedContentType(r.contentType);
    if r.contentLength > MAX_UPLOAD_BYTES then Err(FileTooLarge) else
    var ok :- EnforceContext(h, ProductOf(r.entity), AuctionHouseOf(r.entity));
    var key :- BuildObjectKey(BuildInput(r.entity, r.imageId, r.suffix, t));
    Ok((key, t))
  }

  /** Presign with a fresh `uploadId`. */
  function Presign(w: World, h: Headers, r: PresignRequest, uploadId: string, ttlSeconds: int, f: PresignFaults)
    : (World, PresignReply)
  {
    var checked := CheckPresign(h, r);
    if checked.Err? then (w, PresignRefused(checked.error)) else
    var (key, t) := checked.value;
    var w1 := w.(issued := w.issued + {uploadId});
    if f.storeRefuses.Some? then (w1, PresignRefused(f.storeRefuses.value)) else
    var staging := StagingKey(uploadId, key);
    var expiresAt := w.now + ttlSeconds * 1000;
    var session := Session(uploadId, key, staging, ProductOf(r.entity), AuctionHouseOf(r.entity), t, r.contentLength,
                           expiresAt);
    var w2 := w1.(sessions := w.sessions[uploadId := session],
                  log := w.log + [Presigned(uploadId, expiresAt, r.contentLength)]);
    if f.signingFails then (w2, PresignRefused(InternalError))
    else (w2.(signed := w.signed[uploadId := staging]), Issued(uploadId, key))
  }

  /** A client writes whatever it likes to the staging key of its signed URL. */
  function ClientPut(w: World, uploadId: string, body: Bytes, contentType: Option<string>): World {
    if uploadId in w.signed then w.(gcs := w.gcs[w.signed[uploadId] := Image(body, contentType)]) else w
  }

  // ---------- sessions ----------

  /** `uploadSessionStore.get` forgets a session that it finds expired. */
  function AfterGet(w: World, uploadId: string): World {
    if Lookup(w.sessions, uploadId, w.now).None? then w.(sessions := w.sessions - {uploadId}) else w
  }

  // ---------- replication ----------

  /** `replicateToR2`: the put may take effect and still be reported as failed. */
  function Replicate(w: World, key: string, body: Bytes, t: ContentType, version: string, put: Outcome): World {
    if !Applied(put) then w else
    var contentType := Some(MimeType(t));
    w.(r2 := w.r2[key := R2Object(body, contentType, Some(version))],
       minted := w.minted[version := Replica(key, body, contentType)],
       replicated := w.replicated + {key})
  }

  // ---------- finalize ----------

  datatype FinalizeFaults = FinalizeFaults(
    sessionStoreDown: bool, metadataFails: bool,
    rejectDelete: Outcome, copy: Outcome, stagingDelete: Outcome, put: Outcome)

  datatype FinalizeReply =
    | Accepted(objectKey: string, version: string, size: int, contentType: ContentType, replicatedToR2: bool)
    | FinalizeRefused(code: ErrorCode)

  /** The live session of a finalize or cancel request that passes the context checks. */
  function FindSession(w: World, h: Headers, uploadId: string, storeDown: bool): Result<Session, ErrorCode> {
    var trusted :- ParseTrustedProductId(h.productId);
    if !IsUlid(uploadId) then Err(ErrorCode.InvalidRequest)
    else if storeDown then Err(SessionStoreUnavailable)
    else
      var found := Lookup(w.sessions, uploadId, w.now);
      if found.None? then Err(UploadSessionNotFound) else
      var context :- EnforceContext(h, found.value.productId, found.value.auctionHouseId);
      Ok(found.value)
  }

  function FinalizeUpload(w: World, h: Headers, uploadId: string, f: FinalizeFaults): (World, FinalizeReply) {
    var found := FindSession(w, h, uploadId, f.sessionStoreDown);
    if found == Err(UploadSessionNotFound) then (AfterGet(w, uploadId), FinalizeRefused(UploadSessionNotFound))
    else if found.Err? then (w, FinalizeRefused(found.error))
    else if f.metadataFails then (w, FinalizeRefused(StorageUnavailable))
    else FinalizeStaged(w, found.value, f)
  }

  /** The checks on the staged object, and then its promotion. */
  function FinalizeStaged(w: World, s: Session, f: FinalizeFaults): (World, FinalizeReply) {
    var missing := s.stagingObjectKey !in w.gcs || !w.gcs[s.stagingObjectKey].Image?;
    if missing then (w, FinalizeRefused(UploadNotReceived)) else
    var staged := w.gcs[s.stagingObjectKey];
    if |staged.body| != s.contentLength then RejectStaged(w, s, f.rejectDelete, SizeMismatch)
    else if ContradictsType(staged.contentType, s.contentType) then
      RejectStaged(w, s, f.rejectDelete, ContentTypeMismatch)
    else PromoteAndReplicate(w, s, staged.body, f)
  }

  /** A staged object that fails a check is deleted before the refusal. */
  function RejectStaged(w: World, s: Session, delete: Outcome, code: ErrorCode): (World, FinalizeReply) {
    (DropStaged(w, s, delete), FinalizeRefused(if delete == Done then code else StorageUnavailable))
  }

  /** `deleteObject` on the staging key. */
  function DropStaged(w: World, s: Session, delete: Outcome): World {
    if Applied(delete) then w.(gcs := w.gcs - {s.stagingObjectKey}) else w
  }

  /** `promoteObject`: copy to the canonical key, then delete the staged object. */
  function Promote(w: World, s: Session, body: Bytes, f: FinalizeFaults): (World, bool) {
    if s.stagingObjectKey == s.objectKey then (w, true) else
    var w1 := if Applied(f.copy) then StoreImage(w, s.objectKey, body, s.contentType) else w;
    if f.copy != Done then (w1, false) else (DropStaged(w1, s, f.stagingDelete), f.stagingDelete == Done)
  }

  function PromoteAndReplicate(w: World, s: Session, body: Bytes, f: FinalizeFaults): (World, FinalizeReply) {
    var (w1, promoted) := Promote(w, s, body, f);
    if !promoted then (w1, FinalizeRefused(StorageUnavailable)) else
    var w2 := Replicate(w1, s.objectKey, body, s.contentType, s.uploadId, f.put);
    (w2.(sessions := w.sessions - {s.uploadId}, log := w.log + [Finalized(s.uploadId, w.now, |body|)]),
     Accepted(s.objectKey, s.uploadId, |body|, s.contentType, f.put == Done))
  }

  // ---------- cancel ----------

  datatype CancelFaults = CancelFaults(sessionStoreDown: bool, stagingDelete: Outcome)

  datatype CancelReply = CancelDone | CancelRefused(code: ErrorCode)

  function CancelUpload(w: World, h: Headers, uploadId: string, f: CancelFaults): (World, CancelReply) {
    var found := FindSession(w, h, uploadId, f.sessionStoreDown);
    if found == Err(UploadSessionNotFound) then (Forget(w, uploadId), CancelDone)
    else if found.Err? then (w, CancelRefused(found.error))
    else
      var w1 := DropStaged(w, found.value, f.stagingDelete);
      if f.stagingDelete == Done then (Forget(w1, uploadId), CancelDone) else (w1, CancelRefused(StorageUnavailable))
  }

  function Forget(w: World, uploadId: string): World {
    w.(sessions := w.sessions - {uploadId}, log := w.log + [Cancelled(uploadId)])
  }

  // ---------- ingest ----------

  /** What the S3 source says about an object; its stream may end early or fail. */
  datatype Source = Source(contentLength: int, contentType: Option<string>)

  /** How `writeObject` ended: the bytes the stream delivered, or a failure, of the source or
      of GCS, that may have stored some of them. */
  datatype WriteOutcome = Streamed(bytes: Bytes) | WriteFailed(stored: Option<Bytes>, code: ErrorCode)

  datatype IngestReply =
    | Ingested(objectKey: string, version: string, size: int, contentType: ContentType, replicatedToR2: bool)
    | IngestRefused(code: ErrorCode)

  /** Ingest, with a fresh cache version. The stream is counted after it was stored, so a
      short one leaves its bytes at the canonical key. */
  function IngestObject(w: World, key: string, source: Result<Source, ErrorCode>, requestedType: Option<string>,
                        write: WriteOutcome, version: string, put: Outcome): (World, IngestReply)
  {
    if !Canonical(key) || |key| > 512 || requestedType == Some("") then (w, IngestRefused(ErrorCode.InvalidRequest))
    else if source.Err? then (w, IngestRefused(source.error))
    else if source.value.contentLength > MAX_UPLOAD_BYTES then (w, IngestRefused(FileTooLarge))
    else
      var raw := if requestedType.Some? then requestedType.value
                 else if source.value.contentType.Some? then source.value.contentType.value else "";
      var parsed := ParseAllowedContentType(raw);
      if parsed.Err? then (w, IngestRefused(parsed.error)) else
      IngestBytes(w, key, source.value.contentLength, parsed.value, write, version, put)
  }

  function IngestBytes(w: World, key: string, expected: int, t: ContentType, write: WriteOutcome, version: string,
                       put: Outcome)
    : (World, IngestReply)
  {
    match write
    case WriteFailed(None, code) => (w, IngestRefused(code))
    case WriteFailed(Some(bytes), code) => (StoreImage(w, key, bytes, t), IngestRefused(code))
    case Streamed(bytes) =>
      var w1 := StoreImage(w, key, bytes, t);
      if |bytes| != expected then (w1, IngestRefused(SourceUnavailable)) else
      (Replicate(w1.(issued := w.issued + {version}), key, bytes, t, version, put),
       Ingested(key, version, |bytes|, t, put == Done))
  }

  function StoreImage(w: World, key: string, bytes: Bytes, t: ContentType): World {
    w.(gcs := w.gcs[key := Image(bytes, Some(MimeType(t)))])
  }

  // ---------- reconciliation (environment) ----------

  /** One repair of the daily job: copy a GCS object whose R2 copy is missing or of another
      size, unless a tombstone says that it was deleted. */
  function Reconcile(w: World, key: string): World {
    if Canonical(key) && key in w.gcs && w.gcs[key].Image? && TombstoneKey(key) !in w.gcs &&
       (key in w.r2 ==> |w.r2[key].body| != |w.gcs[key].body|) then
      w.(r2 := w.r2[key := R2Object(w.gcs[key].body, w.gcs[key].contentType, None)],
         replicated := w.replicated + {key})
    else w
  }
}
