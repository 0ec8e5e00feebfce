/** Concrete inputs on which the code does not do what one would expect of it. */
module Counterexamples {
  import opened Wrappers
  import opened Errors
  import opened Regexes
  import opened ObjectKeys
  import opened Variants
  import opened Requests
  import opened Retry
  import opened Worlds
  import opened RemoteCalls
  import opened GcsBuckets
  import opened Handlers
  import opened Systems
  import opened Invariants
  import opened WriteSteps
  import opened ReadPath
  import opened UploadOutcomes
  import opened Staleness
  import opened Progress
  import opened PublicUrls
  import opened UrlLives
  import opened Repairs
  import opened Text
  import opened UploadScope
  import opened ContentTypes
  import opened Sessions

  const ARTWORK := PdbArtwork("p")

  lemma ArtworkIsValid()
    ensures ValidEntity(ARTWORK) && IsValidPathSegment("a") && IsValidPathSegment("a_1")
    ensures IsValidPathSegment("195") && ValidSuffix(Some("_1"))
  {
    MatchCat(One(NonZero), Star(Digit), "1", "");
    assert "1" + "" == "1" && "_" + "1" == "_1";
    MatchCat(Lit("_"), Cat(One(NonZero), Star(Digit)), "_", "1");
  }

  // ---------- colliding names ----------

  /** Image `a` with suffix `_1` and image `a_1` without one get the same key. */
  lemma TwoInputsOneKey()
    ensures var i1 := BuildInput(ARTWORK, "a", Some("_1"), Jpeg);
      var i2 := BuildInput(ARTWORK, "a_1", None, Jpeg);
      i1 != i2 && BuildObjectKey(i1).Ok? && BuildObjectKey(i1) == BuildObjectKey(i2)
  {
    hide BuildObjectKey;
    var i1, i2 := BuildInput(ARTWORK, "a", Some("_1"), Jpeg), BuildInput(ARTWORK, "a_1", None, Jpeg);
    ArtworkIsValid();
    BuildThenParse(i1);
    BuildThenParse(i2);
    assert i1.imageId + SuffixText(i1.suffix) == i2.imageId + SuffixText(i2.suffix);
    BuildCollisions(i1, i2);
  }

  /** `195.jpg` and `195.png` of one artwork are two keys with one stem, so that a delete of one
      covers every variant of the other. */
  lemma TwoKeysOneStem(v: WebpVariant, version: Option<string>)
    ensures var jpg := BuildObjectKey(BuildInput(ARTWORK, "195", None, Jpeg));
      var png := BuildObjectKey(BuildInput(ARTWORK, "195", None, Png));
      && jpg.Ok? && png.Ok? && jpg != png && Stem(jpg.value) == Stem(png.value)
      && VariantCovered(jpg.value, BuildVariantKey(png.value, v, version))
  {
    hide BuildObjectKey, VariantCovered, BuildVariantKey, Canonical, Stem;
    var i1, i2 := BuildInput(ARTWORK, "195", None, Jpeg), BuildInput(ARTWORK, "195", None, Png);
    ArtworkIsValid();
    BuildThenParse(i1);
    BuildThenParse(i2);
    BuildCollisions(i1, i2);
    BuiltStemCollisions(i1, i2);
    var jpg, png := BuildObjectKey(i1).value, BuildObjectKey(i2).value;
    CanonicalFromParse(jpg);
    CanonicalFromParse(png);
    DeleteCoversExactlyItsStem(jpg, png, v, version);
  }

  // ---------- a promotion that cannot be retried ----------

  /** The first attempt removes the object and answers 500; the second would be acknowledged. */
  const LOST_ANSWER: nat -> Call := i => if i == 0 then Lost(HttpStatus(500), true) else Acknowledged

  /** An idempotent call succeeds on these attempts, the removal phase of a promotion fails. */
  lemma LostAnswerFailsRemoval(maxRetries: nat)
    requires maxRetries > 0
    ensures CallOutcome(LOST_ANSWER, maxRetries) == Done && RemovalOutcome(LOST_ANSWER, maxRetries) == FailedAfter
  {
    assert OutcomeFrom(LOST_ANSWER, maxRetries, 1, true) == Done;
  }

  // ---------- an ingest that leaves its bytes behind ----------

  /** A source of two bytes whose stream ends after one: answered 502, and the one byte is there. */
  lemma ShortIngestIsStored(w: World, key: string, version: string, put: Outcome)
    requires Canonical(key) && |key| <= 512
    ensures var (w1, reply) :=
      IngestObject(w, key, Ok(Source(2, None)), Some("image/png"), Streamed([7]), version, put);
      reply == IngestRefused(SourceUnavailable) && key in w1.gcs && w1.gcs[key] == Image([7], Some("image/png"))
  {
    hide Canonical;
  }

  /** A source of one byte whose stream has two: answered 502, and both bytes are there. */
  lemma LongIngestIsStored(w: World, key: string, version: string, put: Outcome)
    requires Canonical(key) && |key| <= 512
    ensures var (w1, reply) :=
        IngestObject(w, key, Ok(Source(1, None)), Some("image/png"), Streamed([7, 8]), version, put);
      reply == IngestRefused(SourceUnavailable) && key in w1.gcs && w1.gcs[key] == Image([7, 8], Some("image/png"))
  {
    hide Canonical;
  }

  const ONE_BYTE: nat -> Result<Stream, ErrorCode> := i => Ok(Stream([[7]], false))
  const NEVER_ANSWERED: nat -> Call := i => Lost(HttpStatus(400), true)

  /** A stream of just the declared length whose write takes effect and is answered with an
      error: the ingest is answered 503, and the byte is there. */
  lemma UnansweredIngestIsStored(w: World, key: string, version: string, put: Outcome)
    requires Canonical(key) && |key| <= 512
    ensures var write := WriteOutcomeOf(ONE_BYTE, NEVER_ANSWERED);
      var (w1, reply) := IngestObject(w, key, Ok(Source(1, None)), Some("image/png"), write, version, put);
      reply == IngestRefused(StorageUnavailable) && key in w1.gcs && w1.gcs[key] == Image([7], Some("image/png"))
  {
    hide Canonical;
    assert Concat([[7]]) == [7] by { assert [[7]][..0] == []; }
    assert WriteOutcomeOf(ONE_BYTE, NEVER_ANSWERED) == WriteFailed(Some([7]), StorageUnavailable);
  }

  // ---------- stale variants and lost uploads ----------

  const HEADERS := Headers(Some("pdb"), None)
  const REQUEST := PresignRequest(ARTWORK, "a", None, "image/jpeg", 1)
  const FIRST := "00000000000000000000000000"
  const SECOND := "11111111111111111111111111"

  lemma Granted()
    ensures CheckPresign(HEADERS, REQUEST).Ok?
  {
    hide CheckPresign, Matches;
    ArtworkIsValid();
    PresignGrantsExactly(HEADERS, REQUEST);
  }

  lemma FreshIds()
    ensures FreshUlid(InitialWorld(0), FIRST) && FreshUlid(InitialWorld(0), SECOND) && FIRST != SECOND
  {
    assert FIRST[0] != SECOND[0];
    assert AllIn(Crockford, FIRST) && |FIRST| == 26;
    assert AllIn(Crockford, SECOND) && |SECOND| == 26;
  }

  /** The request for the thumbnail of the uploaded key. */
  function Thumbnail(): ImageRequest
    requires CheckPresign(HEADERS, REQUEST).Ok?
  {
    ImageRequest(Method.Get, "/" + CheckPresign(HEADERS, REQUEST).value.0, [("variant", "thumb")])
  }

  predicate AsksThumbnail(q: ImageRequest, key: string) {
    ParseImageRequest(q) == Ok(ParsedRequest(key, None, Some(Thumb)))
  }

  lemma ThumbnailParses()
    requires CheckPresign(HEADERS, REQUEST).Ok?
    ensures ParseImageRequest(Thumbnail())
         == Ok(ParsedRequest(CheckPresign(HEADERS, REQUEST).value.0, None, Some(Thumb)))
  {
    hide BuildObjectKey, LegacyForm, ParseImageRequest, Canonical, EnforceContext;
    var i := BuildInput(ARTWORK, "a", None, Jpeg);
    GrantedKey(HEADERS, REQUEST);
    BuiltLegacyForm(i);
    UnversionedRequestParses(CheckPresign(HEADERS, REQUEST).value.0, Thumb);
  }

  /** With a transform that keeps the bytes: the image 1 is uploaded and read as a thumbnail,
      then the image 2 is uploaded to the same key, and the next reader still gets 1. */
  lemma StaleThumbnail() returns (t: Transform, actions: seq<Action>, key: string)
    ensures var w := Run(t, InitialWorld(0), actions);
      && key in w.r2 && w.r2[key].body == [2] && t(Thumb, [2]) == [2]
      && exists q :: AsksThumbnail(q, key) && AnsweredOk(w, 1, q, [1], WEBP_CONTENT_TYPE)
  {
    hide CheckPresign, ParseImageRequest, Run, Inv, BuildVariantKey;
    t := (v, b) => b;
    Granted();
    FreshIds();
    ThumbnailParses();
    InitialInv(t, 0);
    key := CheckPresign(HEADERS, REQUEST).value.0;
    SecondReaderIsStale(t, InitialWorld(0), HEADERS, REQUEST, FIRST, SECOND, 1, [1], [2], 0, 1, 0, Thumbnail(), Thumb);
    actions := UploadActs(HEADERS, REQUEST, FIRST, 1, [1], Done) + ReadActs(0, 0, Thumbnail())
             + (UploadActs(HEADERS, REQUEST, SECOND, 1, [2], Done) + ReadActs(1, 0, Thumbnail()));
  }

  /** The image 1 is uploaded and deleted, and the image 2 is uploaded to the same key while R2
      is down: its finalize is answered 200, and no run without another upload repairs R2. */
  lemma LostReupload(t: Transform) returns (actions: seq<Action>, key: string)
    ensures var w := Run(t, InitialWorld(0), actions);
      key in w.gcs && w.gcs[key] == Image([2], Some("image/jpeg")) && NeverInR2(t, w, key)
  {
    hide CheckPresign, Run, Inv, NeverInR2;
    Granted();
    FreshIds();
    InitialInv(t, 0);
    key := CheckPresign(HEADERS, REQUEST).value.0;
    actions := ReuploadCanBeLost(t, InitialWorld(0), HEADERS, REQUEST, FIRST, SECOND, 1, [1], [2], 0);
  }

  /** The image 1 is uploaded, and the image 2 of the same length while R2 is down: its finalize is
      answered 200, there is no tombstone, and yet no run without another upload repairs R2. */
  lemma SameLengthIsNotRepaired(t: Transform) returns (actions: seq<Action>, key: string)
    ensures var w := Run(t, InitialWorld(0), actions);
      && key in w.gcs && w.gcs[key] == Image([2], Some("image/jpeg")) && key in w.r2 && w.r2[key].body == [1]
      && !EverInR2(t, w, key, [2])
  {
    hide CheckPresign, Run, Inv, EverInR2, KeepsTombstones, IsUlid;
    Granted();
    FreshIds();
    InitialInv(t, 0);
    key := CheckPresign(HEADERS, REQUEST).value.0;
    assert Canonical(key) by { KeyIsPlain(); }
    var up1, up2 :=
      UploadActs(HEADERS, REQUEST, FIRST, 1, [1], Done), UploadActs(HEADERS, REQUEST, SECOND, 1, [2], FailedBefore);
    var w1 := Run(t, InitialWorld(0), up1);
    UploadsNow(t, InitialWorld(0), HEADERS, REQUEST, FIRST, 1, [1], Done);
    UploadsNow(t, w1, HEADERS, REQUEST, SECOND, 1, [2], FailedBefore);
    RunConcat(t, InitialWorld(0), up1, up2);
    actions := up1 + up2;
    RepairedExactly(t, Run(t, InitialWorld(0), actions), key, [2]);
  }

  // ---------- dead URLs ----------

  const ORIGIN := "https://img"
  const LOT_HEADERS := Headers(Some("artnet-auctions"), Some("house"))
  const LOT_REQUEST := PresignRequest(AuctionLot("house", "2024", "12"), "7i", None, "image/jpeg", 1)

  lemma OriginIsFine()
    ensures IsOrigin(ORIGIN)
  {
    hide IndexOf;
    assert ORIGIN[..5] == "https" && ORIGIN[5] == ':';
    IndexOfUnique(ORIGIN, ':', 5);
    assert ORIGIN[5..8] == "://";
  }

  lemma LotPasses()
    ensures CheckPresign(LOT_HEADERS, LOT_REQUEST).Ok?
  {
    hide CheckPresign, Matches, GrantedSegments;
    assert ValidSegments() by { ShortWords(); }
    PresignGrantsExactly(LOT_HEADERS, LOT_REQUEST);
  }

  lemma LotIsGranted()
    ensures CheckPresign(LOT_HEADERS, LOT_REQUEST).Ok? && LegacyForm(CheckPresign(LOT_HEADERS, LOT_REQUEST).value.0)
  {
    hide LegacyForm, Matches, BuildObjectKey, EnforceContext, IsValidPathSegment;
    LegacyKeysAreBuilt();
    LotPasses();
  }

  /** The image `7i` of a lot is uploaded and replicated, and its finalize answered 200; no request
      for the URL that it returned is ever answered 200. */
  lemma LegacyUrlIsDeadForGood(t: Transform) returns (actions: seq<Action>, q: ImageRequest)
    ensures CheckPresign(LOT_HEADERS, LOT_REQUEST).Ok?
    ensures q == PublicRequest(ORIGIN, "", FIRST, CheckPresign(LOT_HEADERS, LOT_REQUEST).value.0)
    ensures actions == UploadActs(LOT_HEADERS, LOT_REQUEST, FIRST, 1, [1], Done)
    ensures var w2 := StagedWorld(t, InitialWorld(0), LOT_HEADERS, LOT_REQUEST, FIRST, 1, [1]);
      && FinalizeUpload(w2, LOT_HEADERS, FIRST, NO_FAULTS).1.Accepted?
      && !EverAnswered(t, Run(t, InitialWorld(0), actions), q)
  {
    hide CheckPresign, Run, Inv, EverAnswered, LegacyForm, IsOrigin, PublicRequest, StagedWorld, FinalizeUpload;
    LotIsGranted();
    FreshIds();
    OriginIsFine();
    InitialInv(t, 0);
    q := PublicRequest(ORIGIN, "", FIRST, CheckPresign(LOT_HEADERS, LOT_REQUEST).value.0);
    actions := UploadActs(LOT_HEADERS, LOT_REQUEST, FIRST, 1, [1], Done);
    UploadedUrlLives(t, InitialWorld(0), LOT_HEADERS, LOT_REQUEST, FIRST, 1, [1], Done, ORIGIN, "");
    assert NO_FAULTS.(put := Done) == NO_FAULTS;
  }

  /** The image `a` of an artwork is uploaded while R2 is down: finalize is answered 200 all the
      same, and no request for the URL that it returned is ever answered 200. */
  lemma LostPutUrlIsDead(t: Transform) returns (actions: seq<Action>, q: ImageRequest)
    ensures CheckPresign(HEADERS, REQUEST).Ok?
    ensures q == PublicRequest(ORIGIN, "", FIRST, CheckPresign(HEADERS, REQUEST).value.0)
    ensures actions == UploadActs(HEADERS, REQUEST, FIRST, 1, [1], FailedBefore)
    ensures var w2 := StagedWorld(t, InitialWorld(0), HEADERS, REQUEST, FIRST, 1, [1]);
      && FinalizeUpload(w2, HEADERS, FIRST, NO_FAULTS.(put := FailedBefore)).1.Accepted?
      && !EverAnswered(t, Run(t, InitialWorld(0), actions), q)
  {
    hide CheckPresign, Run, Inv, EverAnswered, LegacyForm, IsOrigin, PublicRequest, StagedWorld, FinalizeUpload;
    Granted();
    FreshIds();
    OriginIsFine();
    InitialInv(t, 0);
    q := PublicRequest(ORIGIN, "", FIRST, CheckPresign(HEADERS, REQUEST).value.0);
    actions := UploadActs(HEADERS, REQUEST, FIRST, 1, [1], FailedBefore);
    UploadedUrlLives(t, InitialWorld(0), HEADERS, REQUEST, FIRST, 1, [1], FailedBefore, ORIGIN, "");
  }

  // ---------- a stuck upload ----------

  /** The finalize whose staged object is deleted by an attempt that is answered with a 500. */
  const LOST_DELETE := NO_FAULTS.(stagingDelete := RemovalOutcome(LOST_ANSWER, MAX_TRANSIENT_RETRIES))

  /** A fitting upload is finalized with these faults: from the empty system, that is answered 503,
      and the next finalize, in which nothing fails, 409. */
  lemma StuckFinalize(t: Transform) returns (actions: seq<Action>)
    ensures var w2 := StagedWorld(t, InitialWorld(0), HEADERS, REQUEST, FIRST, 1, [1]);
      && FinalizeUpload(w2, HEADERS, FIRST, LOST_DELETE).1 == FinalizeRefused(StorageUnavailable)
      && Run(t, InitialWorld(0), actions) == FinalizeUpload(w2, HEADERS, FIRST, LOST_DELETE).0
    ensures FinalizeUpload(Run(t, InitialWorld(0), actions), HEADERS, FIRST, NO_FAULTS).1
         == FinalizeRefused(UploadNotReceived)
  {
    hide CheckPresign, Run, Inv, FinalizeUpload, Finalizable, Apply, RemovalOutcome;
    Granted();
    FreshIds();
    InitialInv(t, 0);
    LostAnswerFailsRemoval(MAX_TRANSIENT_RETRIES);
    var w2 := StagedWorld(t, InitialWorld(0), HEADERS, REQUEST, FIRST, 1, [1]);
    FinalizableNow(t, InitialWorld(0), HEADERS, REQUEST, FIRST, 1, [1]);
    FinalizeAcceptsExactly(t, w2, HEADERS, FIRST, LOST_DELETE);
    FailedFinalizeCanBeRetried(t, w2, HEADERS, FIRST, LOST_DELETE, NO_FAULTS);
    LostDeleteIs503(t, w2, HEADERS, FIRST);
    var acts := UploadActs(HEADERS, REQUEST, FIRST, 1, [1], Done);
    actions := [acts[0], acts[1], FinalizeAct(HEADERS, FIRST, LOST_DELETE)];
    RunThree(t, InitialWorld(0), acts[0], acts[1], FinalizeAct(HEADERS, FIRST, LOST_DELETE));
    FinalizeIsApplied(t, w2, HEADERS, FIRST, LOST_DELETE);
  }

  lemma LostDeleteIs503(t: Transform, w: World, h: Headers, u: string)
    requires Inv(t, w) && Finalizable(w, h, u) && RemovalOutcome(LOST_ANSWER, MAX_TRANSIENT_RETRIES) == FailedAfter
    ensures FinalizeUpload(w, h, u, LOST_DELETE).1 == FinalizeRefused(StorageUnavailable)
  {
    hide Inv, FindSession, Owns, Canonical, ContradictsType, TypeFits, MimeType, Replicate, ValidSession,
      RemovalOutcome, Promote;
    FindsOwner(t, w, h, u, false);
    TypeIsChecked(w, w.sessions[u]);
    SessionOfId(t, w, u);
    SessionKeysAreNoTombstones(w.sessions[u]);
    PromoteCases(w, w.sessions[u], w.gcs[w.sessions[u].stagingObjectKey].body, LOST_DELETE);
  }

  // ---------- stale originals at the edge ----------

  /** The image 1 is uploaded and read into an edge cache, the image 2 is uploaded to the same
      key, and the next reader in the same data centre still gets 1, though R2 holds 2. */
  lemma StaleOriginal(t: Transform) returns (actions: seq<Action>, key: string)
    ensures var w := Run(t, InitialWorld(0), actions);
      && key in w.r2 && w.r2[key].body == [2]
      && exists q :: AsksOriginal(q, key) && AnsweredOk(w, 1, q, [1], "image/jpeg")
  {
    hide CheckPresign, ParseImageRequest, Run, Inv, LegacyForm;
    Granted();
    FreshIds();
    InitialInv(t, 0);
    key := CheckPresign(HEADERS, REQUEST).value.0;
    assert Canonical(key) && !LegacyForm(key) by { KeyIsPlain(); }
    PlainRequestParses(key);
    var q := ImageRequest(Method.Get, "/" + key, []);
    SecondReaderIsStaleAtEdge(t, InitialWorld(0), HEADERS, REQUEST, FIRST, SECOND, 1, [1], [2], 0, 1, 0, q);
    actions := UploadActs(HEADERS, REQUEST, FIRST, 1, [1], Done) + ReadAndCacheActs(0, 0, q)
             + (UploadActs(HEADERS, REQUEST, SECOND, 1, [2], Done) + ReadActs(1, 0, q));
    assert AsksOriginal(q, key);
  }

  predicate AsksOriginal(q: ImageRequest, key: string) { ParseImageRequest(q) == Ok(ParsedRequest(key, None, None)) }

  lemma KeyIsPlain()
    requires CheckPresign(HEADERS, REQUEST).Ok?
    ensures Canonical(CheckPresign(HEADERS, REQUEST).value.0) && !LegacyForm(CheckPresign(HEADERS, REQUEST).value.0)
  {
    hide BuildObjectKey, LegacyForm, Canonical, EnforceContext;
    GrantedKey(HEADERS, REQUEST);
    BuiltLegacyForm(BuildInput(ARTWORK, "a", None, Jpeg));
  }
}
