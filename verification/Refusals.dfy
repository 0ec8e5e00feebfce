/** What the upload endpoints answer to requests that do not succeed, and what those leave behind;
    and when exactly a cancel does. */
module Refusals {
  import opened Wrappers
  import opened Errors
  import opened Regexes
  import opened ObjectKeys
  import opened ContentTypes
  import opened Requests
  import opened Sessions
  import opened Storage
  import opened Worlds
  import opened Handlers
  import opened Systems
  import opened Frames
  import opened Invariants
  import opened WriteSteps
  import opened UploadScope
  import opened UploadOutcomes
  import RedisStore

  /** There is a session for the upload, and it has not expired. */
  predicate IsLive(w: World, u: string) { u in w.sessions && w.now < w.sessions[u].expiresAt }

  /** What the checks before a finalize or a cancel lead to: the session, exactly for the owner of
      its key, or the reason why not. */
  lemma SessionChecks(t: Transform, w: World, h: Headers, u: string, down: bool)
    requires Inv(t, w)
    ensures FindSession(w, h, u, down) ==
      if !KnownProduct(h) then Err(WhyRefused(h, ""))
      else if !IsUlid(u) then Err(ErrorCode.InvalidRequest)
      else if down then Err(SessionStoreUnavailable)
      else if !IsLive(w, u) then Err(UploadSessionNotFound)
      else if Owns(h, w.sessions[u].objectKey) then Ok(w.sessions[u])
      else Err(WhyRefused(h, ProductText(w.sessions[u].objectKey)))
    ensures Status(SessionStoreUnavailable) == 503 && Status(UploadSessionNotFound) == 404
  {
    hide Inv, Canonical, EnforceContext, Owns, ValidSession, IsUlid, ProductText, EntityOf, IsValidPathSegment,
      ProductOf, AuctionHouseOf;
    if u in w.sessions {
      SessionOfId(t, w, u);
      SessionOwner(w.sessions[u]);
      ContextIsKeyOwnership(h, w.sessions[u].objectKey);
    }
  }

  /** Nothing was received for the session. */
  predicate NothingStaged(w: World, s: Session) {
    s.stagingObjectKey !in w.gcs || !w.gcs[s.stagingObjectKey].Image?
  }

  /** Why received bytes that do not fit are refused. */
  function WhyUnfit(w: World, s: Session): ErrorCode
    requires !NothingStaged(w, s)
  {
    if |w.gcs[s.stagingObjectKey].body| != s.contentLength then SizeMismatch else ContentTypeMismatch
  }

  /** The owner's finalize of a live upload that received nothing is answered 409 and changes
      nothing. If it received bytes of another length, or of another type, it is answered 400, with
      the staged object gone; where the delete fails, 503. The session stays for another try. */
  lemma FinalizeRejects(t: Transform, w: World, h: Headers, u: string, f: FinalizeFaults)
    requires Inv(t, w) && KnownProduct(h) && IsLive(w, u) && Owns(h, w.sessions[u].objectKey)
    requires !f.sessionStoreDown && !f.metadataFails && !StagedFits(w, w.sessions[u])
    ensures var (w1, reply) := FinalizeUpload(w, h, u, f);
      var s := w.sessions[u];
      if NothingStaged(w, s) then w1 == w && reply == FinalizeRefused(UploadNotReceived)
      else
        && w1 == w.(gcs := if Applied(f.rejectDelete) then w.gcs - {s.stagingObjectKey} else w.gcs)
        && reply == FinalizeRefused(if f.rejectDelete == Done then WhyUnfit(w, s) else StorageUnavailable)
    ensures Status(UploadNotReceived) == 409 && Status(StorageUnavailable) == 503
    ensures Status(SizeMismatch) == 400 && Status(ContentTypeMismatch) == 400
  {
    hide Inv, FindSession, Owns, ValidSession, ContradictsType, TypeFits, MimeType, PromoteAndReplicate, IsUlid,
      ProductText, WhyRefused, KnownProduct;
    var s := w.sessions[u];
    SessionOfId(t, w, u);
    SessionUlid(s);
    SessionChecks(t, w, h, u, false);
    TypeIsChecked(w, s);
    Started(w, h, u, f);
  }

  /** A finalize that does not get past the session or the metadata changes nothing, but that an
      expired session is forgotten. */
  lemma UncheckedFinalize(w: World, h: Headers, u: string, f: FinalizeFaults)
    requires FindSession(w, h, u, f.sessionStoreDown).Err? || f.metadataFails
    ensures var (w1, reply) := FinalizeUpload(w, h, u, f);
      var found := FindSession(w, h, u, f.sessionStoreDown);
      && reply == FinalizeRefused(if found.Err? then found.error else StorageUnavailable)
      && (found == Err(UploadSessionNotFound) || w1 == w)
      && (found == Err(UploadSessionNotFound) ==> w1 == if IsLive(w, u) then w else w.(sessions := w.sessions - {u}))
  {
    hide FindSession, FinalizeStaged;
  }

  /** The answer to every finalize. */
  lemma FinalizeAnswers(t: Transform, w: World, h: Headers, u: string, f: FinalizeFaults)
    requires Inv(t, w)
    ensures var found := FindSession(w, h, u, f.sessionStoreDown);
      FinalizeUpload(w, h, u, f).1 ==
        if found.Err? then FinalizeRefused(found.error)
        else if f.metadataFails then FinalizeRefused(StorageUnavailable)
        else if NothingStaged(w, found.value) then FinalizeRefused(UploadNotReceived)
        else if !StagedFits(w, found.value) then
          FinalizeRefused(if f.rejectDelete == Done then WhyUnfit(w, found.value) else StorageUnavailable)
        else if f.copy != Done || f.stagingDelete != Done then FinalizeRefused(StorageUnavailable)
        else
          var s := found.value;
          Accepted(s.objectKey, u, s.contentLength, s.contentType, f.put == Done)
  {
    hide Inv, FindSession, Owns, ValidSession, ContradictsType, TypeFits, MimeType, PromoteAndReplicate, IsUlid;
    var found := FindSession(w, h, u, f.sessionStoreDown);
    if found.Err? || f.metadataFails {
      UncheckedFinalize(w, h, u, f);
    } else {
      FoundSession(w, h, u, f.sessionStoreDown);
      SessionOfId(t, w, u);
      SessionKeysAreNoTombstones(found.value);
      TypeIsChecked(w, found.value);
      Started(w, h, u, f);
      if !NothingStaged(w, found.value) {
        PromotionAnswers(w, found.value, w.gcs[found.value.stagingObjectKey].body, f);
      }
    }
  }

  lemma PromotionAnswers(w: World, s: Session, body: Bytes, f: FinalizeFaults)
    requires s.stagingObjectKey != s.objectKey
    ensures PromoteAndReplicate(w, s, body, f).1 ==
      if f.copy != Done || f.stagingDelete != Done then FinalizeRefused(StorageUnavailable)
      else Accepted(s.objectKey, s.uploadId, |body|, s.contentType, f.put == Done)
  {
    hide Replicate, MimeType;
  }

  /** A cancel: without a live session it is done, and the stores stay as they are. With one it is
      done exactly if the caller owns the key and the staged object could be deleted, which then
      is gone, and so is the session; after a failed delete the session stays for another try;
      a caller who does not own it changes nothing. */
  lemma CancelExactly(t: Transform, w: World, h: Headers, u: string, f: CancelFaults)
    requires Inv(t, w) && KnownProduct(h) && IsUlid(u) && !f.sessionStoreDown
    ensures var (w1, reply) := CancelUpload(w, h, u, f);
      if !IsLive(w, u) then
        reply == CancelDone && w1.gcs == w.gcs && w1.r2 == w.r2 && w1.sessions == w.sessions - {u}
      else
        var s := w.sessions[u];
        && (reply == CancelDone <==> Owns(h, s.objectKey) && f.stagingDelete == Done)
        && (reply == CancelDone ==> w1.gcs == w.gcs - {s.stagingObjectKey} && w1.sessions == w.sessions - {u})
        && (Owns(h, s.objectKey) && f.stagingDelete != Done ==>
              && reply == CancelRefused(StorageUnavailable)
              && w1 == w.(gcs := if f.stagingDelete == FailedAfter then w.gcs - {s.stagingObjectKey} else w.gcs))
        && (!Owns(h, s.objectKey) ==>
              reply == CancelRefused(WhyRefused(h, ProductText(s.objectKey))) && w1 == w)
  {
    hide Inv, FindSession, Owns, ValidSession, IsUlid, ProductText, IsValidPathSegment;
    SessionChecks(t, w, h, u, false);
    if IsLive(w, u) { SessionOfId(t, w, u); }
  }

  // ---------- presign ----------

  /** Why the checks of presign refuse a request: the first of these that holds. */
  lemma PresignRefusesWith(h: Headers, r: PresignRequest)
    requires CheckPresign(h, r).Err?
    ensures CheckPresign(h, r).error ==
      if !KnownProduct(h) then WhyRefused(h, "")
      else if !MatchesPresignSchema(r) then ErrorCode.InvalidRequest
      else if r.contentType !in ["image/jpeg", "image/png", "image/webp"] then UnsupportedContentType
      else if r.contentLength > 52_428_800 then FileTooLarge
      else if !OwnsEntity(h, r.entity) then WhyRefused(h, RedisStore.ProductName(ProductOf(r.entity)))
      else ErrorCode.InvalidRequest
    ensures Status(UnsupportedContentType) == 400 && Status(FileTooLarge) == 400
  {
    hide MatchesPresignSchema, BuildObjectKey, IsValidPathSegment;
    BuildErrors();
    EntityContext(h, r.entity);
  }

  /** The context checks on an entity whose names may be no words. */
  lemma EntityContext(h: Headers, e: Entity)
    ensures var context := EnforceContext(h, ProductOf(e), AuctionHouseOf(e));
      if context.Ok? then OwnsEntity(h, e)
      else context.error == if OwnsEntity(h, e) then ErrorCode.InvalidRequest
                            else WhyRefused(h, RedisStore.ProductName(ProductOf(e)))
    ensures ParseTrustedProductId(h.productId).Ok? <==> KnownProduct(h)
    ensures !KnownProduct(h) ==> ParseTrustedProductId(h.productId) == Err(WhyRefused(h, ""))
  {
    hide Matches;
  }

  /** What presign leaves: a refused request changes nothing; a session store that refuses the
      session leaves none; otherwise the session is stored, for the given time, and if the URL
      could be signed, that writes to its staging key. */
  lemma PresignExactly(w: World, h: Headers, r: PresignRequest, u: string, ttl: int, f: PresignFaults)
    ensures var (w1, reply) := Presign(w, h, r, u, ttl, f);
      if CheckPresign(h, r).Err? then w1 == w && reply == PresignRefused(CheckPresign(h, r).error)
      else if f.storeRefuses.Some? then
        w1 == w.(issued := w.issued + {u}) && reply == PresignRefused(f.storeRefuses.value)
      else
        var (key, t) := CheckPresign(h, r).value;
        var staging := "staging/uploads/" + (u + ("/" + key));
        && w1.sessions == w.sessions[u := Session(u, key, staging, ProductOf(r.entity), AuctionHouseOf(r.entity), t,
             r.contentLength, w.now + 1000 * ttl)]
        && w1.signed == (if f.signingFails then w.signed else w.signed[u := staging])
        && reply == (if f.signingFails then PresignRefused(InternalError) else Issued(u, key))
        && w1 == w.(issued := w.issued + {u}, sessions := w1.sessions, signed := w1.signed,
             log := w.log + [Presigned(u, w.now + 1000 * ttl, r.contentLength)])
    ensures Status(InternalError) == 500 && Status(TooManySessions) == 503
  {
    hide CheckPresign, ProductOf, AuctionHouseOf;
  }

  // ---------- ingest ----------

  /** Why an ingest is refused: the first of these that holds. */
  lemma IngestRefusesWith(w: World, key: string, source: Result<Source, ErrorCode>, requestedType: Option<string>,
                          write: WriteOutcome, version: string, put: Outcome)
    requires IngestObject(w, key, source, requestedType, write, version, put).1.IngestRefused?
    ensures IngestObject(w, key, source, requestedType, write, version, put).1.code ==
      if !Canonical(key) || |key| > 512 || requestedType == Some("") then ErrorCode.InvalidRequest
      else if source.Err? then source.error
      else if source.value.contentLength > 52_428_800 then FileTooLarge
      else if !IsAllowed(DeclaredType(source, requestedType)) then UnsupportedContentType
      else if write.WriteFailed? then write.code
      else SourceUnavailable
    ensures Status(SourceUnavailable) == 502
  {
    hide Canonical, IsAllowed, MimeType, IngestBytes;
    if source.Ok? {
      forall t: ContentType { BytesRefusal(w, key, source.value.contentLength, t, write, version, put); }
    }
    AllowedTypes(DeclaredType(source, requestedType));
    AllowedTypes(requestedType);
  }

  lemma BytesRefusal(w: World, key: string, expected: int, t: ContentType, write: WriteOutcome, version: string,
                     put: Outcome)
    ensures var reply := IngestBytes(w, key, expected, t, write, version, put).1;
      reply.IngestRefused? ==> reply.code == if write.WriteFailed? then write.code else SourceUnavailable
  {
    hide MimeType;
  }
}
