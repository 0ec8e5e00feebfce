/** When exactly the upload endpoints succeed, what a success delivers, and what a failed
    finalize leaves for the next attempt. */
module UploadOutcomes {
  import opened Wrappers
  import opened Errors
  import opened Text
  import opened Regexes
  import opened ObjectKeys
  import opened ContentTypes
  import opened Requests
  import opened Sessions
  import opened Storage
  import opened Worlds
  import opened Handlers
  import opened Systems
  import opened Invariants
  import opened WriteSteps
  import opened UploadScope
  import opened RemoteCalls
  import opened GcsBuckets

  // ---------- presign ----------

  /** The names in a presign request that become segments of the key. */
  function NamesIn(r: PresignRequest): seq<string> {
    [r.imageId] + match r.entity
                  case GalleryArtwork(g, a) => [g, a]
                  case AuctionLot(h, d, l) => [h, d, l]
                  case PdbArtwork(p) => [p]
  }

  /** Every name is a word of 1 to 64 characters, and so is the suffix, if any, of at most 16. */
  predicate WellNamed(r: PresignRequest) {
    && (forall n | n in NamesIn(r) :: |n| <= 64 && IsValidPathSegment(n))
    && (r.suffix.Some? ==> |r.suffix.value| <= 16 && ValidSuffix(r.suffix))
  }

  function ExtensionOf(contentType: string): string {
    if contentType == "image/jpeg" then ".jpg" else if contentType == "image/png" then ".png" else ".webp"
  }

  /** The key that presign grants to a well-formed request, segment for segment. */
  function GrantedSegments(r: PresignRequest): seq<string> {
    var filename := r.imageId + (if r.suffix.Some? then r.suffix.value else "") + ExtensionOf(r.contentType);
    match r.entity
    case GalleryArtwork(g, a) => ["products", "galleries", "artworks", g, a, "images", filename]
    case AuctionLot(h, d, l) => ["products", "artnet-auctions", "auction-lots", h, d, l, "images", filename]
    case PdbArtwork(p) => ["products", "pdb", "artworks", p, "images", filename]
  }

  /** The checks of presign pass exactly for a well-formed request, of one of the three types
      and of 1 byte to 50 MB, for an entity of the caller, and lead to the key that spells it; that
      key parses back to the entity. */
  lemma PresignGrantsExactly(h: Headers, r: PresignRequest)
    ensures CheckPresign(h, r).Ok? <==>
      && WellNamed(r) && r.contentType in ["image/jpeg", "image/png", "image/webp"]
      && 0 < r.contentLength <= 52_428_800 && OwnsEntity(h, r.entity)
    ensures CheckPresign(h, r).Ok? ==>
      var (key, contentType) := CheckPresign(h, r).value;
      && Split(key) == GrantedSegments(r) && MimeType(contentType) == r.contentType
      && Canonical(key) && EntityOf(key) == r.entity
    ensures CheckPresign(h, r).Err? ==> Status(CheckPresign(h, r).error) in [400, 403]
  {
    hide EnforceContext, BuildObjectKey, Canonical, IsValidPathSegment, ValidSuffix, ValidEntity, MatchesPresignSchema,
      OwnsEntity, ParseTrustedProductId, WellNamed, WhyRefused, GrantedSegments;
    WellNamedMatches(r);
    var t := ParseAllowedContentType(r.contentType);
    if t.Ok? { BuildThenParse(BuildInput(r.entity, r.imageId, r.suffix, t.value)); }
    if ValidEntity(r.entity) {
      ContextIsOwnership(h, r.entity);
      EnforcedProduct(h, r.entity);
    }
    if CheckPresign(h, r).Ok? {
      CheckedPresign(h, r);
      GrantedText(r);
    } else {
      ContextStatus(h, r.entity);
      BuildErrors();
    }
  }

  /** What a granted request leads to. */
  lemma GrantedKey(h: Headers, r: PresignRequest)
    requires CheckPresign(h, r).Ok?
    ensures var (key, contentType) := CheckPresign(h, r).value;
      Canonical(key) && EntityOf(key) == r.entity && MimeType(contentType) == r.contentType && OwnsEntity(h, r.entity)
  {
    hide CheckPresign, OwnsEntity, WellNamed, GrantedSegments, Canonical;
    PresignGrantsExactly(h, r);
  }

  lemma ContextStatus(h: Headers, e: Entity)
    ensures EnforceContext(h, ProductOf(e), AuctionHouseOf(e)).Err? ==>
      Status(EnforceContext(h, ProductOf(e), AuctionHouseOf(e)).error) in [400, 403]
    ensures ParseTrustedProductId(h.productId).Err? ==> Status(ParseTrustedProductId(h.productId).error) in [400, 403]
  {
    hide IsValidPathSegment;
  }

  lemma BuildErrors()
    ensures forall i :: BuildObjectKey(i).Err? ==> BuildObjectKey(i).error == ErrorCode.InvalidRequest
  {
    hide Canonical, IsValidPathSegment, ValidSuffix, ValidEntity;
  }

  lemma WellNamedMatches(r: PresignRequest)
    ensures WellNamed(r) && r.contentType != "" && r.contentLength > 0 <==>
      MatchesPresignSchema(r) && IsValidPathSegment(r.imageId) && ValidSuffix(r.suffix) && ValidEntity(r.entity)
  {
    forall n: string ensures IsValidPathSegment(n) ==> |n| >= 1 {}
    hide IsValidPathSegment, Matches;
    match r.entity
    case GalleryArtwork(g, a) => AllOf(r, [r.imageId, g, a]);
    case AuctionLot(h, d, l) => AllOf(r, [r.imageId, h, d, l]);
    case PdbArtwork(p) => AllOf(r, [r.imageId, p]);
  }

  lemma AllOf(r: PresignRequest, names: seq<string>)
    requires NamesIn(r) == names
    ensures WellNamed(r) <==>
      && (forall i | 0 <= i < |names| :: |names[i]| <= 64 && IsValidPathSegment(names[i]))
      && (r.suffix.Some? ==> |r.suffix.value| <= 16 && ValidSuffix(r.suffix))
  {
    hide IsValidPathSegment, ValidSuffix, NamesIn;
    forall i | 0 <= i < |names| ensures names[i] in NamesIn(r) {}
  }

  lemma GrantedText(r: PresignRequest)
    requires ParseAllowedContentType(r.contentType).Ok?
    requires var i := BuildInput(r.entity, r.imageId, r.suffix, ParseAllowedContentType(r.contentType).value);
      BuildObjectKey(i).Ok?
    ensures var i := BuildInput(r.entity, r.imageId, r.suffix, ParseAllowedContentType(r.contentType).value);
      Split(BuildObjectKey(i).value) == GrantedSegments(r)
  {
    hide Canonical, IsValidPathSegment, ValidSuffix, ValidEntity, Join, Split, Filename;
    var i := BuildInput(r.entity, r.imageId, r.suffix, ParseAllowedContentType(r.contentType).value);
    BuildThenParse(i);
    KeySegments(i);
    FilenameText(i, ExtensionOf(r.contentType));
  }

  lemma FilenameText(i: BuildInput, extension: string)
    requires extension == "." + Extension(i.contentType)
    ensures Filename(i) == i.imageId + SuffixText(i.suffix) + extension
  {
    ConcatAssoc(i.imageId + SuffixText(i.suffix), ".", Extension(i.contentType));
  }

  lemma EnforcedProduct(h: Headers, e: Entity)
    ensures EnforceContext(h, ProductOf(e), AuctionHouseOf(e)).Ok? ==> ParseTrustedProductId(h.productId).Ok?
  {
    hide ParseTrustedProductId;
  }

  // ---------- finalize ----------

  /** The staged object has the length of its session, and no other type. */
  ghost predicate StagedFits(w: World, s: Session) {
    && s.stagingObjectKey in w.gcs && w.gcs[s.stagingObjectKey].Image?
    && |w.gcs[s.stagingObjectKey].body| == s.contentLength
    && TypeFits(w.gcs[s.stagingObjectKey].contentType, MimeType(s.contentType))
  }

  /** The caller owns a live session whose staged object fits it. */
  ghost predicate Finalizable(w: World, h: Headers, u: string) {
    && u in w.sessions && w.now < w.sessions[u].expiresAt && Canonical(w.sessions[u].objectKey)
    && Owns(h, w.sessions[u].objectKey) && StagedFits(w, w.sessions[u])
  }

  /** No call that finalize depends on fails; a failing replication does not matter. */
  predicate Undisturbed(f: FinalizeFaults) {
    !f.sessionStoreDown && !f.metadataFails && f.copy == Done && f.stagingDelete == Done
  }

  /** A finalize is answered 200 exactly when the caller owns a live session whose staged bytes
      have the declared length and no other type, and no storage call fails. */
  lemma FinalizeAcceptsExactly(t: Transform, w: World, h: Headers, u: string, f: FinalizeFaults)
    requires Inv(t, w)
    ensures FinalizeUpload(w, h, u, f).1.Accepted? <==> Finalizable(w, h, u) && Undisturbed(f)
  {
    hide Inv, Canonical, ContradictsType, TypeFits, EnforceContext, Owns, ValidSession, Replicate, IsUlid, FindSession;
    FindsOwner(t, w, h, u, f.sessionStoreDown);
    if u in w.sessions {
      TypeIsChecked(w, w.sessions[u]);
      SessionOfId(t, w, u);
      SessionKeysAreNoTombstones(w.sessions[u]);
    }
  }

  lemma TypeIsChecked(w: World, s: Session)
    ensures s.stagingObjectKey in w.gcs && w.gcs[s.stagingObjectKey].Image? ==>
      var stored := w.gcs[s.stagingObjectKey].contentType;
      ContradictsType(stored, s.contentType) <==> !TypeFits(stored, MimeType(s.contentType))
  {
    hide ContradictsType, TypeFits;
    if s.stagingObjectKey in w.gcs && w.gcs[s.stagingObjectKey].Image? {
      ContradictsExactly(w.gcs[s.stagingObjectKey].contentType, s.contentType);
    }
  }

  /** The session checks pass exactly for the owner of a live session. */
  lemma FindsOwner(t: Transform, w: World, h: Headers, u: string, down: bool)
    requires Inv(t, w)
    ensures FindSession(w, h, u, down).Ok? <==>
      !down && u in w.sessions && w.now < w.sessions[u].expiresAt && Canonical(w.sessions[u].objectKey)
        && Owns(h, w.sessions[u].objectKey)
    ensures FindSession(w, h, u, down).Ok? ==> FindSession(w, h, u, down) == Ok(w.sessions[u])
  {
    hide Inv, Canonical, EnforceContext, Owns, ValidSession, IsUlid, ParseTrustedProductId, ProductOf, AuctionHouseOf,
      EntityOf;
    if u in w.sessions {
      var s := w.sessions[u];
      SessionOfId(t, w, u);
      SessionOwner(s);
      SessionUlid(s);
      ContextIsKeyOwnership(h, s.objectKey);
      EnforcedProduct(h, EntityOf(s.objectKey));
    }
  }

  lemma SessionUlid(s: Session)
    requires ValidSession(s)
    ensures IsUlid(s.uploadId)
  {
    hide Canonical;
  }

  /** The failure took the staged bytes to the canonical key and lost the answer. */
  predicate MovedUnnoticed(f: FinalizeFaults) {
    !f.sessionStoreDown && !f.metadataFails && f.copy == Done && f.stagingDelete == FailedAfter
  }

  /** GCS with the staged bytes of the session moved to its canonical key. */
  function Moved(gcs: GcsMap, s: Session): GcsMap
    requires s.stagingObjectKey in gcs && gcs[s.stagingObjectKey].Image?
  {
    gcs[s.objectKey := Image(gcs[s.stagingObjectKey].body, Some(MimeType(s.contentType)))] - {s.stagingObjectKey}
  }

  /** After a finalize of a finalizable upload failed, an undisturbed second try succeeds,
      except in one case: the failed call had deleted the staged object after the copy. Then
      the second try is answered 409, the canonical key holds the bytes, and R2 was never told. */
  lemma FailedFinalizeCanBeRetried(t: Transform, w: World, h: Headers, u: string, f: FinalizeFaults, f2: FinalizeFaults)
    requires Inv(t, w) && Finalizable(w, h, u) && FinalizeUpload(w, h, u, f).1.FinalizeRefused? && Undisturbed(f2)
    ensures var w1 := FinalizeUpload(w, h, u, f).0;
      && (FinalizeUpload(w1, h, u, f2).1.Accepted? <==> !MovedUnnoticed(f))
      && (MovedUnnoticed(f) ==>
            && FinalizeUpload(w1, h, u, f2).1 == FinalizeRefused(UploadNotReceived) && w1.r2 == w.r2
            && w1.gcs == Moved(w.gcs, w.sessions[u]))
  {
    hide Inv, Canonical, ContradictsType, TypeFits, Owns, ValidSession, FinalizeStaged, FinalizeUpload, FindSession,
      MimeType;
    var s := w.sessions[u];
    var w1 := FinalizeUpload(w, h, u, f).0;
    FindsOwner(t, w, h, u, f.sessionStoreDown);
    FinalizeKeeps(t, w, h, u, f);
    SessionOfId(t, w, u);
    SessionKeysAreNoTombstones(s);
    if f.sessionStoreDown || f.metadataFails {
      NotStarted(w, h, u, f);
    } else {
      assert FinalizeUpload(w, h, u, f) == FinalizeStaged(w, s, f) by { Started(w, h, u, f); }
      FailedPromotion(w, s, f);
    }
    FindsOwner(t, w1, h, u, f2.sessionStoreDown);
    FinalizeAcceptsExactly(t, w1, h, u, f2);
    if MovedUnnoticed(f) { Missing(w1, h, u, f2); }
  }

  lemma NotStarted(w: World, h: Headers, u: string, f: FinalizeFaults)
    requires u in w.sessions && w.now < w.sessions[u].expiresAt
    requires FindSession(w, h, u, f.sessionStoreDown).Err? || f.metadataFails
    ensures FinalizeUpload(w, h, u, f).0 == w
  {
    hide FindSession, FinalizeStaged;
  }

  lemma Started(w: World, h: Headers, u: string, f: FinalizeFaults)
    requires FindSession(w, h, u, f.sessionStoreDown).Ok? && !f.metadataFails
    ensures FinalizeUpload(w, h, u, f) == FinalizeStaged(w, FindSession(w, h, u, f.sessionStoreDown).value, f)
  {
    hide FindSession, FinalizeStaged;
  }

  lemma Missing(w: World, h: Headers, u: string, f: FinalizeFaults)
    requires FindSession(w, h, u, f.sessionStoreDown).Ok? && !f.metadataFails
    requires FindSession(w, h, u, f.sessionStoreDown).value.stagingObjectKey !in w.gcs
    ensures FinalizeUpload(w, h, u, f).1 == FinalizeRefused(UploadNotReceived)
  {
    hide FindSession, PromoteAndReplicate;
  }

  /** A failed promotion keeps the session and the staged object, but in one case. */
  lemma FailedPromotion(w: World, s: Session, f: FinalizeFaults)
    requires s.stagingObjectKey != s.objectKey && StagedFits(w, s) && FinalizeStaged(w, s, f).1.FinalizeRefused?
    requires !f.sessionStoreDown && !f.metadataFails
    ensures var w1 := FinalizeStaged(w, s, f).0;
      && w1.sessions == w.sessions && w1.now == w.now && w1.r2 == w.r2
      && (if MovedUnnoticed(f) then
            w1.gcs == Moved(w.gcs, s)
          else s.stagingObjectKey in w1.gcs && w1.gcs[s.stagingObjectKey] == w.gcs[s.stagingObjectKey])
  {
    hide ContradictsType, TypeFits, MimeType, Promote, Replicate;
    TypeIsChecked(w, s);
    var body := w.gcs[s.stagingObjectKey].body;
    PromoteCases(w, s, body, f);
    assert FinalizeStaged(w, s, f).0 == Promote(w, s, body, f).0;
  }

  lemma PromoteCases(w: World, s: Session, body: Bytes, f: FinalizeFaults)
    requires s.stagingObjectKey != s.objectKey
    ensures var copied := w.gcs[s.objectKey := Image(body, Some(MimeType(s.contentType)))];
      Promote(w, s, body, f) == (w.(gcs :=
        if f.copy == FailedBefore then w.gcs
        else if f.copy == FailedAfter || f.stagingDelete == FailedBefore then copied
        else copied - {s.stagingObjectKey}), f.copy == Done && f.stagingDelete == Done)
  {
    hide MimeType;
    if f.copy == FailedBefore { assert Promote(w, s, body, f).0 == w; }
  }

  // ---------- ingest ----------

  /** A successful ingest stored exactly the declared number of bytes at its canonical key, of
      the requested type or else the source's; R2 holds them under the new version exactly when the
      put took effect, which `replicatedToR2` implies. Nothing else changed in either store. */
  lemma IngestDelivers(w: World, key: string, source: Result<Source, ErrorCode>, requestedType: Option<string>,
                       write: WriteOutcome, version: string, put: Outcome)
    requires IngestObject(w, key, source, requestedType, write, version, put).1.Ingested?
    ensures var (w1, reply) := IngestObject(w, key, source, requestedType, write, version, put);
      && Canonical(key) && source.Ok? && write.Streamed?
      && w1.gcs == w.gcs[key := Image(write.bytes, Some(MimeType(reply.contentType)))]
      && Some(MimeType(reply.contentType)) == (if requestedType.Some? then requestedType else source.value.contentType)
      && reply.objectKey == key && reply.version == version
      && reply.size == |write.bytes| == source.value.contentLength <= MAX_UPLOAD_BYTES
      && var mime := Some(MimeType(reply.contentType));
      && w1.r2 == (if Applied(put) then w.r2[key := R2Object(write.bytes, mime, Some(version))] else w.r2)
      && w1.minted == (if Applied(put) then w.minted[version := Replica(key, write.bytes, mime)] else w.minted)
      && (reply.replicatedToR2 <==> put == Done)
      && w1.sessions == w.sessions && w1.issued == w.issued + {version}
  {
    hide Canonical;
    assert write.Streamed?;
  }

  /** An ingest is answered 200 exactly when the key is canonical and not too long, the source is
      there and not too large, it is requested as an allowed type or else is of one, and GCS took
      exactly the declared number of bytes; the put to R2 does not matter. */
  lemma IngestAcceptsExactly(w: World, key: string, source: Result<Source, ErrorCode>, requestedType: Option<string>,
                             write: WriteOutcome, version: string, put: Outcome)
    ensures IngestObject(w, key, source, requestedType, write, version, put).1.Ingested? <==>
      && Canonical(key) && |key| <= 512
      && source.Ok? && source.value.contentLength <= MAX_UPLOAD_BYTES
      && IsAllowed(if requestedType.Some? then requestedType else source.value.contentType)
      && write.Streamed? && |write.bytes| == source.value.contentLength
  {
    hide Canonical;
    if source.Ok? {
      AllowedTypes(requestedType);
      AllowedTypes(source.value.contentType);
    }
  }

  predicate IsAllowed(declared: Option<string>) { exists t: ContentType :: declared == Some(MimeType(t)) }

  lemma AllowedTypes(declared: Option<string>)
    ensures IsAllowed(declared) <==> declared.Some? && ParseAllowedContentType(declared.value).Ok?
    ensures declared == Some("") ==> !IsAllowed(declared)
    ensures ParseAllowedContentType("").Err?
  {
    if declared.Some? && ParseAllowedContentType(declared.value).Ok? {
      assert MimeType(ParseAllowedContentType(declared.value).value) == declared.value;
    }
  }

  /** The type that an ingest declares: the requested one, or else the source's. */
  function DeclaredType(source: Result<Source, ErrorCode>, requestedType: Option<string>): Option<string> {
    if requestedType.Some? then requestedType else if source.Ok? then source.value.contentType else None
  }

  /** The checks of ingest that come before it writes. */
  predicate IngestChecked(key: string, source: Result<Source, ErrorCode>, requestedType: Option<string>) {
    && Canonical(key) && |key| <= 512
    && source.Ok? && source.value.contentLength <= MAX_UPLOAD_BYTES
    && IsAllowed(DeclaredType(source, requestedType))
  }

  /** Some attempt that was made stored these bytes, acknowledged or not. */
  ghost predicate Left(open: nat -> Result<Stream, ErrorCode>, upload: nat -> Call, bytes: Bytes) {
    exists i: nat :: LeftBy(open, upload, i, bytes) || StreamedBy(open, upload, i, bytes)
  }

  /** What a refused ingest leaves: nothing changed if a check failed or no attempt stored
      anything; otherwise the canonical object is what some attempt stored, whole, whether it was
      too short, too long, or right and its answer lost. */
  lemma RefusedIngestLeaves(w: World, key: string, source: Result<Source, ErrorCode>, requestedType: Option<string>,
                            open: nat -> Result<Stream, ErrorCode>, upload: nat -> Call, version: string, put: Outcome)
    requires IngestObject(w, key, source, requestedType, WriteOutcomeOf(open, upload), version, put).1.IngestRefused?
    ensures var w1 := IngestObject(w, key, source, requestedType, WriteOutcomeOf(open, upload), version, put).0;
      if IngestChecked(key, source, requestedType) && exists bytes :: Left(open, upload, bytes) then
        exists bytes ::
          Left(open, upload, bytes) && w1 == Overwritten(w, key, bytes, DeclaredType(source, requestedType))
      else w1 == w
  {
    hide Canonical, WriteOutcomeOf, Left, Explains, IngestObject, IngestChecked, Overwritten, StoredBy;
    var write := WriteOutcomeOf(open, upload);
    WriteOutcomeIsWhole(open, upload);
    LeftExactly(open, upload, write);
    RefusedIngestWorld(w, key, source, requestedType, write, version, put);
  }

  /** What a write stored, whether it streamed or failed. */
  function StoredBy(write: WriteOutcome): Option<Bytes> { if write.Streamed? then Some(write.bytes) else write.stored }

  lemma RefusedIngestWorld(w: World, key: string, source: Result<Source, ErrorCode>, requestedType: Option<string>,
                           write: WriteOutcome, version: string, put: Outcome)
    requires IngestObject(w, key, source, requestedType, write, version, put).1.IngestRefused?
    ensures IngestObject(w, key, source, requestedType, write, version, put).0 ==
      if IngestChecked(key, source, requestedType) && StoredBy(write).Some?
      then Overwritten(w, key, StoredBy(write).value, DeclaredType(source, requestedType)) else w
  {
    hide Canonical, IngestBytes, ParseAllowedContentType, MimeType, Overwritten, StoredBy, IsAllowed;
    var declared := DeclaredType(source, requestedType);
    AllowedTypes(declared);
    AllowedTypes(requestedType);
    if IngestChecked(key, source, requestedType) {
      var ct := ParseAllowedContentType(declared.value).value;
      AllowedMime(declared.value);
      RefusedBytes(w, key, source.value.contentLength, ct, write, version, put);
    }
  }

  lemma AllowedMime(declared: string)
    requires ParseAllowedContentType(declared).Ok?
    ensures MimeType(ParseAllowedContentType(declared).value) == declared
  {
  }

  lemma RefusedBytes(w: World, key: string, expected: int, ct: ContentType, write: WriteOutcome, version: string,
                     put: Outcome)
    requires IngestBytes(w, key, expected, ct, write, version, put).1.IngestRefused?
    ensures IngestBytes(w, key, expected, ct, write, version, put).0 ==
      if StoredBy(write).Some? then Overwritten(w, key, StoredBy(write).value, Some(MimeType(ct))) else w
  {
    hide MimeType;
  }

  function Overwritten(w: World, key: string, bytes: Bytes, contentType: Option<string>): World {
    w.(gcs := w.gcs[key := Image(bytes, contentType)])
  }

  lemma LeftExactly(open: nat -> Result<Stream, ErrorCode>, upload: nat -> Call, write: WriteOutcome)
    requires Explains(open, upload, write)
    ensures StoredBy(write).Some? ==> Left(open, upload, StoredBy(write).value)
    ensures StoredBy(write).None? ==> forall bytes :: !Left(open, upload, bytes)
  {
    hide LeftBy, StreamedBy;
  }
}
