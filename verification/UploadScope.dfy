/** Which objects an upload request may change. */
module UploadScope {
  import opened Wrappers
  import opened Errors
  import opened ObjectKeys
  import opened ContentTypes
  import opened Variants
  import opened Requests
  import opened StorageKeys
  import opened Sessions
  import opened Storage
  import opened Worlds
  import opened Handlers
  import opened Systems
  import opened DeleteTraces
  import opened Frames
  import opened Invariants
  import opened WriteSteps
  import opened DeletePath
  import opened DeleteRuns
  import RedisStore
  import WorkerKeys
  import opened Regexes
  import opened Text

  // ---------- a successful finalize ----------

  /** A finalize that answers 200 moved the staged bytes to the canonical key: GCS holds them
      there and no longer at the staging key, their size is the declared one and at most 50 MB,
      the session is gone; R2 holds the same bytes under the version in the public URL exactly
      when the put took effect, which `replicatedToR2` implies. */
  lemma FinalizeDelivers(t: Transform, w: World, h: Headers, u: string, f: FinalizeFaults)
    requires Inv(t, w) && FinalizeUpload(w, h, u, f).1.Accepted?
    ensures u in w.sessions
    ensures var (w1, reply) := FinalizeUpload(w, h, u, f);
      var s := w.sessions[u];
      && s.stagingObjectKey in w.gcs && w.gcs[s.stagingObjectKey].Image?
      && var body := w.gcs[s.stagingObjectKey].body;
      && w1.gcs == w.gcs[s.objectKey := Image(body, Some(MimeType(s.contentType)))] - {s.stagingObjectKey}
      && s.objectKey in w1.gcs && s.stagingObjectKey !in w1.gcs && u !in w1.sessions
      && reply.objectKey == s.objectKey && reply.version == u && reply.contentType == s.contentType
      && reply.size == |body| == s.contentLength <= MAX_UPLOAD_BYTES
      && var mime := Some(MimeType(s.contentType));
      && w1.r2 == (if Applied(f.put) then w.r2[s.objectKey := R2Object(body, mime, Some(u))] else w.r2)
      && w1.minted == (if Applied(f.put) then w.minted[u := Replica(s.objectKey, body, mime)] else w.minted)
      && (reply.replicatedToR2 <==> f.put == Done)
  {
    hide Inv, FinalizeUpload, ContradictsType, EnforceContext, MimeType, ValidSession, NamespaceOf, IsUlid;
    AcceptedChecks(w, h, u, f);
    SessionOfId(t, w, u);
    var s := w.sessions[u];
    SessionKeysAreNoTombstones(s);
    ValidLength(s);
    DeliveredWorld(w, s, w.gcs[s.stagingObjectKey].body, f);
  }

  lemma ValidLength(s: Session)
    requires ValidSession(s)
    ensures 0 < s.contentLength <= MAX_UPLOAD_BYTES
  {
    hide Canonical;
  }

  lemma DeliveredWorld(w: World, s: Session, body: Bytes, f: FinalizeFaults)
    requires s.stagingObjectKey != s.objectKey && PromoteAndReplicate(w, s, body, f).1.Accepted?
    ensures var (w1, reply) := PromoteAndReplicate(w, s, body, f);
      && w1.gcs == w.gcs[s.objectKey := Image(body, Some(MimeType(s.contentType)))] - {s.stagingObjectKey}
      && w1.sessions == w.sessions - {s.uploadId}
      && reply == Accepted(s.objectKey, s.uploadId, |body|, s.contentType, f.put == Done)
      && var mime := Some(MimeType(s.contentType));
      && w1.r2 == (if Applied(f.put) then w.r2[s.objectKey := R2Object(body, mime, Some(s.uploadId))] else w.r2)
      && w1.minted == (if Applied(f.put) then w.minted[s.uploadId := Replica(s.objectKey, body, mime)] else w.minted)
  {
    hide MimeType;
    assert f.copy == Done && f.stagingDelete == Done;
    var w0 := DropStaged(StoreImage(w, s.objectKey, body, s.contentType), s, Done);
    assert Promote(w, s, body, f) == (w0, true);
  }

  // ---------- ownership ----------

  /** The product that a canonical key names: its second segment, or, for the keys of the old
      layout, the auctions. */
  function ProductText(key: string): string {
    var s := Split(key);
    if s[0] == "products" && |s| > 1 then s[1] else "artnet-auctions"
  }

  /** The auction house that the key of a lot names. */
  function HouseText(key: string): Option<string> {
    var s := Split(key);
    if s[0] == "lot_images" && |s| == 5 then Some(s[1])
    else if ProductText(key) == "artnet-auctions" && |s| == 8 then Some(s[3])
    else None
  }

  /** The trusted headers name the product in the key, and its auction house if it has one. */
  predicate Owns(h: Headers, key: string) {
    h.productId == Some(ProductText(key)) && (HouseText(key).Some? ==> h.auctionHouseId == HouseText(key))
  }

  /** The same for the entity that a request names. */
  predicate OwnsEntity(h: Headers, e: Entity) {
    match e
    case GalleryArtwork(_, _) => h.productId == Some("galleries")
    case AuctionLot(house, _, _) => h.productId == Some("artnet-auctions") && h.auctionHouseId == Some(house)
    case PdbArtwork(_) => h.productId == Some("pdb")
  }

  /** The entity that a canonical key spells, by its segments. */
  function EntityInText(key: string): Option<Entity> {
    var s := Split(key);
    if |s| == 5 then Some(AuctionLot(s[1], s[2], s[3]))
    else if |s| == 6 then Some(PdbArtwork(s[3]))
    else if |s| == 7 then Some(GalleryArtwork(s[3], s[4]))
    else if |s| == 8 then Some(AuctionLot(s[3], s[4], s[5]))
    else None
  }

  /** The names in a canonical key are those of the entity it parses to. */
  lemma KeyNamesEntity(key: string)
    requires Canonical(key)
    ensures ProductText(key) == RedisStore.ProductName(ProductOf(EntityOf(key)))
    ensures HouseText(key) == AuctionHouseOf(EntityOf(key)) && EntityInText(key) == Some(EntityOf(key))
    ensures forall h :: Owns(h, key) <==> OwnsEntity(h, EntityOf(key))
  {
    hide Matches, Split;
    WorkerKeys.LegacyShape(key);
  }

  predicate KnownProduct(h: Headers) {
    h.productId.Some? && h.productId.value in ["galleries", "artnet-auctions", "pdb"]
  }

  /** What a caller is told who does not own something of this product. */
  function WhyRefused(h: Headers, product: string): ErrorCode {
    if h.productId.None? then ProductRequired
    else if !KnownProduct(h) then ErrorCode.InvalidRequest
    else if h.productId.value != product then ProductMismatch
    else if h.auctionHouseId.None? then AuctionHouseRequired
    else if IsValidPathSegment(h.auctionHouseId.value) then AuctionHouseMismatch
    else ErrorCode.InvalidRequest
  }

  /** The context checks pass exactly for the owner; others get a 403, or a 400 for a header that
      cannot be one. */
  lemma ContextIsOwnership(h: Headers, e: Entity)
    requires ValidEntity(e)
    ensures EnforceContext(h, ProductOf(e), AuctionHouseOf(e)) ==
      if OwnsEntity(h, e) then Ok(()) else Err(WhyRefused(h, RedisStore.ProductName(ProductOf(e))))
    ensures var code := WhyRefused(h, RedisStore.ProductName(ProductOf(e)));
      Status(code) == if code == ErrorCode.InvalidRequest then 400 else 403
  {
    hide Matches;
    ProductNamesInvert(h.productId, ProductOf(e));
  }

  lemma ContextIsKeyOwnership(h: Headers, key: string)
    requires Canonical(key)
    ensures EnforceContext(h, ProductOf(EntityOf(key)), AuctionHouseOf(EntityOf(key))) ==
      if Owns(h, key) then Ok(()) else Err(WhyRefused(h, ProductText(key)))
  {
    hide Canonical, EnforceContext, IsValidPathSegment, Owns, OwnsEntity, WhyRefused;
    EntityIsValid(key);
    KeyNamesEntity(key);
    ContextIsOwnership(h, EntityOf(key));
  }

  /** What a canonical key parses to has only valid segments. */
  lemma EntityIsValid(key: string)
    requires Canonical(key)
    ensures ValidEntity(EntityOf(key))
  {
    hide Matches, IsValidImageFilename, Split;
    WorkerKeys.LegacyShape(key);
  }

  lemma ProductNamesInvert(v: Option<string>, p: ProductId)
    ensures ParseTrustedProductId(v) == Ok(p) <==> v == Some(RedisStore.ProductName(p))
  {
  }

  /** In every reachable state, a stored session carries the product and the auction house that
      its own object key names. */
  lemma SessionsBelongToTheirKeys(t: Transform, now: int, actions: seq<Action>)
    ensures forall u | u in Run(t, InitialWorld(now), actions).sessions ::
      var s := Run(t, InitialWorld(now), actions).sessions[u];
      && s.uploadId == u && Canonical(s.objectKey) && s.stagingObjectKey == StagingKey(u, s.objectKey)
      && RedisStore.ProductName(s.productId) == ProductText(s.objectKey)
      && s.auctionHouseId == HouseText(s.objectKey)
  {
    hide ReadInv, Canonical, IsUlid, Run, ProductText, HouseText, RedisStore.ProductName;
    InitialInv(t, now);
    RunKeeps(t, InitialWorld(now), actions);
    forall u | u in Run(t, InitialWorld(now), actions).sessions
      ensures var s := Run(t, InitialWorld(now), actions).sessions[u];
        && RedisStore.ProductName(s.productId) == ProductText(s.objectKey)
        && s.auctionHouseId == HouseText(s.objectKey)
    {
      KeyNamesEntity(Run(t, InitialWorld(now), actions).sessions[u].objectKey);
    }
  }

  ghost predicate SameAt(w: World, w1: World, x: string) {
    && (x in w1.gcs <==> x in w.gcs) && (x in w.gcs ==> w1.gcs[x] == w.gcs[x])
    && (x in w1.r2 <==> x in w.r2) && (x in w.r2 ==> w1.r2[x] == w.r2[x])
  }

  /** A finalize changes canonical objects, in GCS or R2, only if they belong to the product and
      auction house of its trusted headers. */
  lemma FinalizeStaysInScope(t: Transform, w: World, h: Headers, u: string, f: FinalizeFaults, x: string)
    requires Inv(t, w) && Canonical(x) && !SameAt(w, FinalizeUpload(w, h, u, f).0, x)
    ensures Owns(h, x)
  {
    hide Inv, Canonical, FinalizeUpload, Owns, SameAt;
    OnlyOwnKey(t, w, h, u, f, x);
    var s := w.sessions[u];
    SessionOfId(t, w, u);
    SessionOwner(s);
    ContextIsKeyOwnership(h, x);
  }

  lemma SessionOwner(s: Session)
    requires ValidSession(s)
    ensures Canonical(s.objectKey) && s.productId == ProductOf(EntityOf(s.objectKey))
    ensures s.auctionHouseId == AuctionHouseOf(EntityOf(s.objectKey))
  {
    hide Canonical;
  }

  lemma OnlyOwnKey(t: Transform, w: World, h: Headers, u: string, f: FinalizeFaults, x: string)
    requires Inv(t, w) && Canonical(x) && !SameAt(w, FinalizeUpload(w, h, u, f).0, x)
    ensures u in w.sessions && w.sessions[u].objectKey == x
    ensures EnforceContext(h, w.sessions[u].productId, w.sessions[u].auctionHouseId).Ok?
  {
    hide Inv, Canonical, FindSession, FinalizeStaged, EnforceContext, ValidSession, SameAt, FinalizeUpload;
    var found := FindSession(w, h, u, f.sessionStoreDown);
    if found.Err? || f.metadataFails {
      UncheckedSameAt(w, h, u, f, x);
      assert false;
    } else {
      StagedIsNext(w, h, u, f);
      FoundSession(w, h, u, f.sessionStoreDown);
      SessionOfId(t, w, u);
      CanonicalIsNotStaging(w.sessions[u], x);
      if x != w.sessions[u].objectKey { FinalizeStagedSameAt(w, w.sessions[u], f, x); }
    }
  }

  lemma UncheckedSameAt(w: World, h: Headers, u: string, f: FinalizeFaults, x: string)
    requires FindSession(w, h, u, f.sessionStoreDown).Err? || f.metadataFails
    ensures SameAt(w, FinalizeUpload(w, h, u, f).0, x)
  {
    hide FindSession, FinalizeStaged;
  }

  lemma StagedIsNext(w: World, h: Headers, u: string, f: FinalizeFaults)
    requires FindSession(w, h, u, f.sessionStoreDown).Ok? && !f.metadataFails
    ensures FinalizeUpload(w, h, u, f) == FinalizeStaged(w, FindSession(w, h, u, f.sessionStoreDown).value, f)
  {
    hide FindSession, FinalizeStaged;
  }

  lemma SameAtChains(w: World, w1: World, w2: World, x: string)
    requires SameAt(w, w1, x) && SameAt(w1, w2, x)
    ensures SameAt(w, w2, x)
  {
  }

  lemma PiecesSameAt(w: World, s: Session, delete: Outcome, body: Bytes, put: Outcome, x: string)
    requires x != s.stagingObjectKey && x != s.objectKey
    ensures SameAt(w, w, x) && SameAt(w, DropStaged(w, s, delete), x)
    ensures SameAt(w, StoreImage(w, s.objectKey, body, s.contentType), x)
    ensures SameAt(w, Replicate(w, s.objectKey, body, s.contentType, s.uploadId, put), x)
  {
    hide MimeType;
  }

  lemma PromoteSameAt(w: World, s: Session, body: Bytes, f: FinalizeFaults, x: string)
    requires x != s.stagingObjectKey && x != s.objectKey
    ensures SameAt(w, Promote(w, s, body, f).0, x)
  {
    hide SameAt, DropStaged, StoreImage;
    var w1 := StoreImage(w, s.objectKey, body, s.contentType);
    PiecesSameAt(w, s, f.stagingDelete, body, f.put, x);
    PiecesSameAt(w1, s, f.stagingDelete, body, f.put, x);
    SameAtChains(w, w1, DropStaged(w1, s, f.stagingDelete), x);
  }

  lemma PromoteAndReplicateSameAt(w: World, s: Session, body: Bytes, f: FinalizeFaults, x: string)
    requires x != s.stagingObjectKey && x != s.objectKey
    ensures SameAt(w, PromoteAndReplicate(w, s, body, f).0, x)
  {
    hide Promote, Replicate;
    PromoteSameAt(w, s, body, f, x);
    PiecesSameAt(Promote(w, s, body, f).0, s, f.stagingDelete, body, f.put, x);
  }

  lemma FinalizeStagedSameAt(w: World, s: Session, f: FinalizeFaults, x: string)
    requires x != s.stagingObjectKey && x != s.objectKey
    ensures SameAt(w, FinalizeStaged(w, s, f).0, x)
  {
    hide ContradictsType, SameAt, DropStaged, PromoteAndReplicate;
    PiecesSameAt(w, s, f.rejectDelete, [], f.put, x);
    if s.stagingObjectKey in w.gcs && w.gcs[s.stagingObjectKey].Image? {
      PromoteAndReplicateSameAt(w, s, w.gcs[s.stagingObjectKey].body, f, x);
    }
  }

  lemma CanonicalIsNotStaging(s: Session, x: string)
    requires ValidSession(s) && Canonical(x)
    ensures x != s.stagingObjectKey
  {
    hide Canonical, NamespaceOf;
    NamespacesDisjoint(s.uploadId, s.objectKey, Thumb, None);
    NamespacesDisjoint("", x, Thumb, None);
  }

  /** The delete route starts a delete exactly for the owner of a canonical key, and will write
      the auction house, or else the product, of the key into the tombstone; anybody else is
      told why not. */
  lemma DeleteNeedsOwnership(h: Headers, path: string)
    ensures var key := ExtractObjectKeyFromPath(path);
      StartDelete(h, path) ==
        if key.Some? && Canonical(key.value) && Owns(h, key.value) then
          Deletion(key.value, if HouseText(key.value).Some? then HouseText(key.value).value else ProductText(key.value),
            WriteTombstone)
        else
          Deletion("", "", Aborted(
            if KnownProduct(h) && (key.None? || !Canonical(key.value)) then ErrorCode.InvalidRequest
            else WhyRefused(h, if key.Some? then ProductText(key.value) else "")))
  {
    hide Canonical, ExtractObjectKeyFromPath, EnforceContext, ProductText;
    var key := ExtractObjectKeyFromPath(path);
    if key.Some? && Canonical(key.value) {
      ContextIsKeyOwnership(h, key.value);
      KeyNamesEntity(key.value);
    }
  }

  /** The same for the path that a client sends for a canonical key, escaped or not. */
  lemma DeleteOfKeyNeedsOwnership(h: Headers, key: string)
    requires Canonical(key)
    ensures StartDelete(h, "/v1/objects/" + key).pc == WriteTombstone <==> Owns(h, key)
    ensures StartDelete(h, "/v1/objects/" + EncodeSlashes(key)) == StartDelete(h, "/v1/objects/" + key)
    ensures Owns(h, key) ==> StartDelete(h, "/v1/objects/" + key).key == key
  {
    hide Canonical, ExtractObjectKeyFromPath, StartDelete, Owns, WhyRefused, ProductText, HouseText;
    DeletePathRoundTrip(key);
    DeleteNeedsOwnership(h, "/v1/objects/" + key);
    DeleteNeedsOwnership(h, "/v1/objects/" + EncodeSlashes(key));
  }

  /** And that delete changes no canonical object but its own. */
  lemma DeleteStaysInScope(t: Transform, w: World, a: Attempt, key: string, x: string)
    requires Inv(t, w) && ValidAttempt(w, a, key) && Canonical(x) && !SameAt(w, AttemptRun(t, w, a), x)
    ensures x == key && Owns(a.h, x)
  {
    hide Inv, Canonical, Owns, AttemptRun, StartDelete, FullDelete, VariantCovered, TombstoneKey, NamespaceOf,
      ExtractObjectKeyFromPath;
    AttemptIsOrdered(t, w, a, key);
    DeleteNeedsOwnership(a.h, a.path);
    NamespacesDisjoint("", x, Thumb, None);
    NamespacesDisjoint("", key, Thumb, None);
    if VariantCovered(key, x) { VariantCoveredIsVariant(key, x); }
  }

  // ---------- isolation ----------

  /** No canonical object changed in either store, and no staged object of another upload. */
  ghost predicate Isolated(w: World, w1: World, u: string) {
    && w1.r2 == w.r2
    && (forall x | Canonical(x) :: SameAt(w, w1, x))
    && (forall v, k | IsUlid(v) && v != u :: SameAt(w, w1, StagingKey(v, k)))
  }

  /** A change at one staging key of `u` only. */
  lemma OneStagingKey(w: World, w1: World, u: string, key: string)
    requires IsUlid(u) && w1.r2 == w.r2
    requires SameExcept(w.gcs, w1.gcs, StagingKey(u, key))
    ensures Isolated(w, w1, u)
  {
    hide Canonical, NamespaceOf, StagingKey, IsUlid;
    NamespacesDisjoint(u, key, Thumb, None);
    forall x | Canonical(x) ensures SameAt(w, w1, x) { NamespacesDisjoint("", x, Thumb, None); }
    forall v, k | IsUlid(v) && v != u ensures SameAt(w, w1, StagingKey(v, k)) { StagingInjective(u, key, v, k); }
  }

  lemma NoStagingKey(w: World, w1: World, u: string)
    requires w1.r2 == w.r2 && w1.gcs == w.gcs
    ensures Isolated(w, w1, u)
  {
    hide Canonical, StagingKey, IsUlid;
  }

  /** Presign changes no stored object at all. */
  lemma PresignIsIsolated(w: World, h: Headers, r: PresignRequest, u: string, ttl: int, f: PresignFaults)
    ensures Isolated(w, Presign(w, h, r, u, ttl, f).0, u)
  {
    hide Isolated, Presign;
    PresignTouches(w, h, r, u, ttl, f);
    NoStagingKey(w, Presign(w, h, r, u, ttl, f).0, u);
  }

  /** A client write through a signed URL reaches the staged object of that upload only. */
  lemma ClientPutIsIsolated(t: Transform, w: World, u: string, body: Bytes, ct: Option<string>)
    requires Inv(t, w)
    ensures Isolated(w, ClientPut(w, u, body, ct), u)
  {
    hide Isolated, Canonical, StagingKey, IsUlid, ReadInv;
    NoStagingKey(w, w, u);
    if u in w.signed {
      var key :| Canonical(key) && w.signed[u] == StagingKey(u, key);
      OneStagingKey(w, ClientPut(w, u, body, ct), u, key);
    }
  }

  lemma DropIsIsolated(w: World, s: Session, delete: Outcome)
    requires ValidSession(s)
    ensures Isolated(w, DropStaged(w, s, delete), s.uploadId)
  {
    hide Isolated, Canonical, StagingKey, IsUlid;
    OneStagingKey(w, DropStaged(w, s, delete), s.uploadId, s.objectKey);
  }

  /** A cancel, however it ends. */
  lemma CancelIsIsolated(t: Transform, w: World, h: Headers, u: string, f: CancelFaults)
    requires Inv(t, w)
    ensures Isolated(w, CancelUpload(w, h, u, f).0, u)
  {
    hide Inv, FindSession, DropStaged, ValidSession, Isolated;
    var w1 := CancelUpload(w, h, u, f).0;
    var found := FindSession(w, h, u, f.sessionStoreDown);
    if found.Ok? {
      FoundSession(w, h, u, f.sessionStoreDown);
      SessionOfId(t, w, u);
      DropIsIsolated(w, found.value, f.stagingDelete);
      SameStores(w, DropStaged(w, found.value, f.stagingDelete), w1, u);
    } else {
      NoStagingKey(w, w1, u);
    }
  }

  lemma SameStores(w: World, w1: World, w2: World, u: string)
    requires Isolated(w, w1, u) && w2.gcs == w1.gcs && w2.r2 == w1.r2
    ensures Isolated(w, w2, u)
  {
    hide Canonical, StagingKey, IsUlid;
  }

  /** A finalize that is refused with 400, 403, 404 or 409. */
  lemma RefusedFinalizeIsIsolated(t: Transform, w: World, h: Headers, u: string, f: FinalizeFaults)
    requires Inv(t, w) && FinalizeUpload(w, h, u, f).1.FinalizeRefused?
    requires Status(FinalizeUpload(w, h, u, f).1.code) < 500
    ensures Isolated(w, FinalizeUpload(w, h, u, f).0, u)
  {
    hide Inv, FindSession, DropStaged, ValidSession, Isolated, PromoteAndReplicate, ContradictsType;
    NoStagingKey(w, w, u);
    NoStagingKey(w, AfterGet(w, u), u);
    var found := FindSession(w, h, u, f.sessionStoreDown);
    if found.Ok? {
      FoundSession(w, h, u, f.sessionStoreDown);
      SessionOfId(t, w, u);
      DropIsIsolated(w, found.value, f.rejectDelete);
      if found.value.stagingObjectKey in w.gcs && w.gcs[found.value.stagingObjectKey].Image? {
        UnavailableOrAccepted(w, found.value, w.gcs[found.value.stagingObjectKey].body, f);
      }
    }
  }

  lemma UnavailableOrAccepted(w: World, s: Session, body: Bytes, f: FinalizeFaults)
    ensures var reply := PromoteAndReplicate(w, s, body, f).1;
      reply.Accepted? || reply == FinalizeRefused(StorageUnavailable)
  {
    hide Promote, Replicate;
  }
}
