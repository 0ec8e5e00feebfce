/** From an upload to its public URL: which published images the Variant Worker serves. */
module PublicUrls {
  import opened Wrappers
  import opened Errors
  import opened Regexes
  import opened ObjectKeys
  import opened ContentTypes
  import opened Variants
  import opened Requests
  import opened RequestTexts
  import opened Sessions
  import opened Storage
  import opened Worlds
  import opened Handlers
  import opened Systems
  import opened Frames
  import opened Invariants
  import opened WriteSteps
  import opened ReadPath
  import opened UploadScope
  import opened UploadOutcomes
  import opened VariantWorkers

  /** A plain GET of the public URL of `key` under `version`. */
  function PublicRequest(origin: string, slashes: string, version: string, key: string): ImageRequest {
    ImageRequest(Method.Get, Pathname(BuildVersionedPublicUrl(origin + slashes, version, key)), [])
  }

  /** R2 holds `replica` at its key, under `version`. */
  predicate Holds(r2: R2Map, version: string, replica: Replica) {
    replica.key in r2 && r2[replica.key] == R2Object(replica.body, replica.contentType, Some(version))
  }

  /** A request that misses the edge cache reads this answer in R2. */
  predicate Reads(r2: R2Map, colo: nat, q: ImageRequest, body: Bytes, contentType: string) {
    FirstRead(r2, Worker(colo, q, EdgeMissed)) == Built(Served(body, contentType, Miss, R2))
  }

  /** While R2 holds a replica, a request for its public URL reads exactly its bytes and its
      content type, unless the key has the legacy form. */
  lemma PublishedIsServed(w: World, colo: nat, origin: string, slashes: string, version: string, replica: Replica)
    requires IsOrigin(origin) && (forall c | c in slashes :: c == '/') && IsUlid(version) && Canonical(replica.key)
    requires Holds(w.r2, version, replica) && !LegacyForm(replica.key)
    ensures Reads(w.r2, colo, PublicRequest(origin, slashes, version, replica.key), replica.body,
      OriginalContentType(replica.contentType))
  {
    hide Canonical, LegacyForm, IsUlid, ParseImageRequest, Pathname, BuildVersionedPublicUrl, IsOrigin;
    PublicUrlRoundTrip(origin, slashes, version, replica.key);
  }

  /** The four steps of an undisturbed variant request after an edge miss. */
  function VariantServed(t: Transform, w: World, id: nat): World {
    var w1 := WorkerStep(t, w, FirstReadAct(id));
    var w2 := WorkerStep(t, w1, SecondReadAct(id));
    var w3 := WorkerStep(t, w2, PutVariantAct(id, Done));
    WorkerStep(t, w3, AnswerAct(id))
  }

  /** While R2 holds a replica, a versioned request for one of its variants is answered with the
      transform of exactly its bytes, persisted before or not; afterwards it is persisted, and
      the next request reads the same answer from R2. */
  lemma VariantIsServed(t: Transform, w: World, id: nat, q: ImageRequest, version: string, replica: Replica,
                        v: WebpVariant, colo: nat)
    requires Inv(t, w) && Holds(w.r2, version, replica)
    requires AsksFor(q, ParsedRequest(replica.key, Some(version), Some(v)))
    requires id in w.workers && w.workers[id].request == q && w.workers[id].pc.EdgeMissed?
    ensures var w1 := VariantServed(t, w, id);
      && id in w1.workers && w1.workers[id].request == q
      && w1.workers[id].pc == Answered(Served(t(v, replica.body), "image/webp", Miss,
           if BuildVariantKey(replica.key, v, Some(version)) in w.r2 then R2 else Images), true)
      && Reads(w1.r2, colo, q, t(v, replica.body), "image/webp")
  {
    hide Inv, ParseImageRequest, BuildVariantKey, Canonical, Stem, VariantServed, FirstRead, AsksFor;
    var p := ParsedRequest(replica.key, Some(version), Some(v));
    ParseExactly(q, p);
    var x := BuildVariantKey(replica.key, v, Some(version));
    ReplicaIsMinted(t, w, q, version, replica, v);
    VariantRead(w.r2, w.workers[id], p);
    FirstReadStep(t, w, id, w.r2, w.edge);
    assert At(w, id, w.r2, w.edge, EdgeMissed) == w;
    if x in w.r2 {
      ServedFromR2(t, w, id, Served(t(v, replica.body), WEBP_CONTENT_TYPE, Miss, R2));
      VariantRead(w.r2, Worker(colo, q, EdgeMissed), p);
    } else {
      ServedByTransform(t, w, id, p, w.r2[replica.key]);
      VariantRead(VariantServed(t, w, id).r2, Worker(colo, q, EdgeMissed), p);
    }
  }

  /** The same for the public URL of the replica with a variant parameter. */
  lemma PublicVariantIsServed(t: Transform, w: World, id: nat, version: string, replica: Replica, v: WebpVariant,
                              colo: nat, origin: string, slashes: string)
    requires Inv(t, w) && Holds(w.r2, version, replica) && Canonical(replica.key) && !LegacyForm(replica.key)
    requires IsOrigin(origin) && (forall c | c in slashes :: c == '/') && IsUlid(version)
    requires id in w.workers && w.workers[id].pc.EdgeMissed?
    requires w.workers[id].request
          == PublicRequest(origin, slashes, version, replica.key).(query := [("variant", Name(v))])
    ensures var w1 := VariantServed(t, w, id);
      && id in w1.workers && AnsweredOk(w1, id, w.workers[id].request, t(v, replica.body), "image/webp")
      && Reads(w1.r2, colo, w.workers[id].request, t(v, replica.body), "image/webp")
  {
    hide Inv, ParseImageRequest, Canonical, LegacyForm, IsOrigin, IsUlid, AsksFor, Pathname, BuildVersionedPublicUrl,
      VariantServed, Reads, Name, BuildVariantKey;
    var q := w.workers[id].request;
    PublicVariantParses(origin, slashes, version, replica.key, v);
    ParseExactly(q, ParsedRequest(replica.key, Some(version), Some(v)));
    VariantIsServed(t, w, id, q, version, replica, v, colo);
  }

  lemma ReplicaIsMinted(t: Transform, w: World, q: ImageRequest, version: string, replica: Replica, v: WebpVariant)
    requires Inv(t, w) && Holds(w.r2, version, replica)
    requires ParseImageRequest(q) == Ok(ParsedRequest(replica.key, Some(version), Some(v)))
    ensures version in w.minted && w.minted[version] == replica
    ensures var x := BuildVariantKey(replica.key, v, Some(version)); x in w.r2 ==> w.r2[x].body == t(v, replica.body)
  {
    hide WriteInv, ReadInv, ParseImageRequest, BuildVariantKey, Canonical, Stem;
    var p := ParsedRequest(replica.key, Some(version), Some(v));
    ParsedKeyCanonical(q);
    FetchedIsOriginal(t, w, p);
    if BuildVariantKey(replica.key, v, Some(version)) in w.r2 { StoredVariantIsExpected(t, w, p); }
  }

  lemma ServedFromR2(t: Transform, w: World, id: nat, r: Response)
    requires id in w.workers && WorkerStep(t, w, FirstReadAct(id)) == At(w, id, w.r2, w.edge, Built(r))
    ensures VariantServed(t, w, id) == At(w, id, w.r2, w.edge, Answered(r, true))
  {
    hide WorkerStep, At;
    BuiltStays(t, w, id, w.r2, w.edge, r);
    AnswerStep(t, w, id, w.r2, w.edge, r);
  }

  lemma ServedByTransform(t: Transform, w: World, id: nat, p: ParsedRequest, o: R2Object)
    requires id in w.workers && p.variant.Some? && SecondRead(w.r2, p) == OriginalRead(p, o)
    requires WorkerStep(t, w, FirstReadAct(id)) == At(w, id, w.r2, w.edge, VariantMissed(p))
    ensures var body := t(p.variant.value, o.body);
      var stored :=
        w.r2[BuildVariantKey(p.objectKey, p.variant.value, p.version) := R2Object(body, Some(WEBP_CONTENT_TYPE), None)];
      VariantServed(t, w, id) == At(w, id, stored, w.edge,
        Answered(Served(body, WEBP_CONTENT_TYPE, Miss, Images), true))
  {
    hide WorkerStep, At, BuildVariantKey;
    var body := t(p.variant.value, o.body);
    var stored :=
      w.r2[BuildVariantKey(p.objectKey, p.variant.value, p.version) := R2Object(body, Some(WEBP_CONTENT_TYPE), None)];
    SecondReadStep(t, w, id, w.r2, w.edge, p);
    PutVariantStep(t, w, id, w.r2, w.edge, p, o, Done);
    AnswerStep(t, w, id, stored, w.edge, Served(body, WEBP_CONTENT_TYPE, Miss, Images));
  }

  lemma VariantRead(r2: R2Map, k: Worker, p: ParsedRequest)
    requires ParseImageRequest(k.request) == Ok(p) && p.variant.Some?
    ensures var x := BuildVariantKey(p.objectKey, p.variant.value, p.version);
      FirstRead(r2, k) == if x in r2 then Built(Served(r2[x].body, WEBP_CONTENT_TYPE, Miss, R2)) else VariantMissed(p)
  {
    hide ParseImageRequest, BuildVariantKey;
  }

  lemma BuiltStays(t: Transform, w: World, id: nat, r2: R2Map, edge: EdgeMap, r: Response)
    requires id in w.workers
    ensures var w1 := At(w, id, r2, edge, Built(r));
      WorkerStep(t, w1, SecondReadAct(id)) == w1 && WorkerStep(t, w1, PutVariantAct(id, Done)) == w1
  {
  }

  /** The public URL of a key of the legacy form is dead: over every run, no request for it is
      ever answered 200, because the worker looks for a variant of another key. */
  lemma LegacyPublicUrlIsDead(t: Transform, now: int, actions: seq<Action>, origin: string, slashes: string,
                              version: string,
                              k: nat, body: Bytes, contentType: string)
    requires IsOrigin(origin) && (forall c | c in slashes :: c == '/') && IsUlid(version)
    requires var w := Run(t, InitialWorld(now), actions);
      version in w.minted && LegacyForm(w.minted[version].key)
    ensures var w := Run(t, InitialWorld(now), actions);
      !AnsweredOk(w, k, PublicRequest(origin, slashes, version, w.minted[version].key), body, contentType)
  {
    hide Inv, LegacyForm, IsUlid, IsOrigin, Run, PublicRequest, AnsweredOk;
    InitialInv(t, now);
    RunKeeps(t, InitialWorld(now), actions);
    LegacyUrlIsDead(t, Run(t, InitialWorld(now), actions), origin, slashes, version, k, body, contentType);
  }

  lemma LegacyUrlIsDead(t: Transform, w: World, origin: string, slashes: string, version: string,
                        k: nat, body: Bytes, contentType: string)
    requires Inv(t, w) && IsOrigin(origin) && (forall c | c in slashes :: c == '/') && IsUlid(version)
    requires version in w.minted && LegacyForm(w.minted[version].key)
    ensures !AnsweredOk(w, k, PublicRequest(origin, slashes, version, w.minted[version].key), body, contentType)
  {
    hide Inv, LegacyForm, IsUlid, ParseImageRequest, Pathname, BuildVersionedPublicUrl, IsOrigin, Canonical,
      AnsweredOk, SizeLetterOf, Stem;
    var key := w.minted[version].key;
    var q := PublicRequest(origin, slashes, version, key);
    LegacyRewrite(key);
    PublicUrlRoundTrip(origin, slashes, version, key);
    var p := ParseImageRequest(q).value;
    if AnsweredOk(w, k, q, body, contentType) {
      AnswerIsVersioned(t, w, k, q, body, contentType);
      SizeLetterChangesStem(key, p.objectKey, p.variant.value);
      assert false;
    }
  }

  /** A version that was never replicated is read from nowhere. */
  lemma UnmintedIsNotRead(t: Transform, w: World, colo: nat, q: ImageRequest, version: string)
    requires Inv(t, w) && InVersion(q, version) && version !in w.minted
    ensures !FirstRead(w.r2, Worker(colo, q, EdgeMissed)).Built?
  {
    hide ParseImageRequest, BuildVariantKey, WriteInv, ReadInv, Canonical, Stem, InVersion;
    if ParseImageRequest(q).Err? {
      return;
    }
    var p := ParseImageRequest(q).value;
    VersionIsInPath(q, version);
    ParsedKeyCanonical(q);
    if p.variant.Some? && BuildVariantKey(p.objectKey, p.variant.value, p.version) in w.r2 {
      StoredVariantIsExpected(t, w, p);
      assert false;
    }
    if p.variant.None? && FetchOriginal(w.r2, p).Some? {
      FetchedIsOriginal(t, w, p);
      assert false;
    }
  }

  /** Whether the public URL of a version reads its replica, right after it was, or was not, put:
      exactly if the put took effect and the key does not have the legacy form. */
  lemma PutIsPublished(t: Transform, w: World, colo: nat, origin: string, slashes: string, version: string,
                       replica: Replica, put: Outcome)
    requires Inv(t, w) && IsOrigin(origin) && (forall c | c in slashes :: c == '/')
    requires IsUlid(version) && Canonical(replica.key)
    requires IsReplica(w, version, replica, put)
    ensures var q := PublicRequest(origin, slashes, version, replica.key);
      Reads(w.r2, colo, q, replica.body, OriginalContentType(replica.contentType)) <==>
        Applied(put) && !LegacyForm(replica.key)
  {
    hide Inv, LegacyForm, ParseImageRequest, Pathname, BuildVersionedPublicUrl, IsOrigin, Canonical, IsUlid, FirstRead,
      InVersion;
    PublicUrlRoundTrip(origin, slashes, version, replica.key);
    if !Applied(put) {
      VersionIsInPath(PublicRequest(origin, slashes, version, replica.key), version);
      UnmintedIsNotRead(t, w, colo, PublicRequest(origin, slashes, version, replica.key), version);
    } else if LegacyForm(replica.key) {
      LegacyReadsNoReplica(t, w, colo, origin, slashes, version, replica.key);
    } else {
      PublishedIsServed(w, colo, origin, slashes, version, replica);
    }
  }

  lemma SizeLetterChangesStem(key: string, to: string, v: WebpVariant)
    requires SizeLetterOf(key, to, v)
    ensures Stem(key) != Stem(to)
  {
    var a := to[..|to| - 4];
    var c := if key == a + "i.jpg" then "i" else "o";
    assert key == (a + c) + ".jpg" && to == a + ".jpg";
    StripShort(a + c, ".jpg");
    StripShort(a, ".jpg");
  }

  /** Every finalize that is answered 200, replicated or not: right afterwards the public URL that
      it returns serves the bytes that the client had staged, exactly if the put to R2 took effect
      and the key does not have the legacy form. */
  lemma UploadIsPublished(t: Transform, w: World, h: Headers, u: string, f: FinalizeFaults, colo: nat, origin: string,
                          slashes: string)
    requires Inv(t, w) && IsOrigin(origin) && (forall c | c in slashes :: c == '/')
    requires FinalizeUpload(w, h, u, f).1.Accepted?
    ensures var (w1, reply) := FinalizeUpload(w, h, u, f);
      var q := PublicRequest(origin, slashes, reply.version, reply.objectKey);
      && u in w.sessions && w.sessions[u].stagingObjectKey in w.gcs && w.gcs[w.sessions[u].stagingObjectKey].Image?
      && var body := w.gcs[w.sessions[u].stagingObjectKey].body;
      Reads(w1.r2, colo, q, body, MimeType(w.sessions[u].contentType)) <==>
        Applied(f.put) && !LegacyForm(reply.objectKey)
  {
    hide Inv, FinalizeUpload, LegacyForm, IsOrigin, Canonical, IsUlid, MimeType, PublicRequest, Reads, IsReplica;
    FinalizedReplica(t, w, h, u, f);
    var s := w.sessions[u];
    var replica := Replica(s.objectKey, w.gcs[s.stagingObjectKey].body, Some(MimeType(s.contentType)));
    PutIsPublished(t, FinalizeUpload(w, h, u, f).0, colo, origin, slashes, u, replica, f.put);
  }

  /** R2 holds the replica under the version if the put took effect, and else nothing ever was. */
  predicate IsReplica(w: World, version: string, replica: Replica, put: Outcome) {
    if Applied(put) then Holds(w.r2, version, replica) && version in w.minted && w.minted[version] == replica
    else version !in w.minted
  }

  lemma FinalizedReplica(t: Transform, w: World, h: Headers, u: string, f: FinalizeFaults)
    requires Inv(t, w) && FinalizeUpload(w, h, u, f).1.Accepted?
    ensures u in w.sessions && w.sessions[u].stagingObjectKey in w.gcs && w.gcs[w.sessions[u].stagingObjectKey].Image?
    ensures var (w1, reply) := FinalizeUpload(w, h, u, f);
      var s := w.sessions[u];
      && Inv(t, w1) && IsUlid(u) && Canonical(s.objectKey) && reply.version == u && reply.objectKey == s.objectKey
      && IsReplica(w1, u, Replica(s.objectKey, w.gcs[s.stagingObjectKey].body, Some(MimeType(s.contentType))), f.put)
  {
    hide Inv, FinalizeUpload, Canonical, IsUlid, ValidSession, MimeType, ContradictsType, EnforceContext,
      PromoteAndReplicate, ProductOf, AuctionHouseOf, EntityOf;
    FinalizeDelivers(t, w, h, u, f);
    SessionOfId(t, w, u);
    SessionUnminted(t, w, u);
    SessionOwner(w.sessions[u]);
    AcceptedChecks(w, h, u, f);
    FinalizeKeeps(t, w, h, u, f);
  }

  lemma SessionUnminted(t: Transform, w: World, u: string)
    requires Inv(t, w) && u in w.sessions
    ensures u !in w.minted && u in w.issued
  {
    hide ValidSession, ReadInv;
  }

  /** The same of every ingest that is answered 200. */
  lemma IngestIsPublished(t: Transform, w: World, key: string, source: Result<Source, ErrorCode>,
                          requestedType: Option<string>, write: WriteOutcome, version: string, put: Outcome,
                          colo: nat, origin: string, slashes: string)
    requires Inv(t, w) && FreshUlid(w, version) && IsOrigin(origin) && (forall c | c in slashes :: c == '/')
    requires IngestObject(w, key, source, requestedType, write, version, put).1.Ingested?
    ensures var (w1, reply) := IngestObject(w, key, source, requestedType, write, version, put);
      var q := PublicRequest(origin, slashes, reply.version, reply.objectKey);
      && write.Streamed?
      && (Reads(w1.r2, colo, q, write.bytes, MimeType(reply.contentType)) <==> Applied(put) && !LegacyForm(key))
  {
    hide Inv, IngestObject, LegacyForm, IsOrigin, Canonical, IsUlid, MimeType, PublicRequest, Reads;
    IngestDelivers(w, key, source, requestedType, write, version, put);
    IngestKeeps(t, w, key, source, requestedType, write, version, put);
    FreshUnminted(t, w, version);
    var (w1, reply) := IngestObject(w, key, source, requestedType, write, version, put);
    var replica := Replica(key, write.bytes, Some(MimeType(reply.contentType)));
    PutIsPublished(t, w1, colo, origin, slashes, version, replica, put);
  }

  lemma FreshUnminted(t: Transform, w: World, version: string)
    requires Inv(t, w) && version !in w.issued
    ensures version !in w.minted && version !in w.sessions
  {
    hide ValidSession, R2Inv, EdgeInv, WorkersInv;
  }

  /** What a request for a legacy public URL first reads is never a 200. */
  lemma LegacyReadsNoReplica(t: Transform, w: World, colo: nat, origin: string, slashes: string, version: string,
                             key: string)
    requires Inv(t, w) && IsOrigin(origin) && (forall c | c in slashes :: c == '/') && IsUlid(version)
    requires version in w.minted && w.minted[version].key == key && LegacyForm(key)
    ensures !FirstRead(w.r2, Worker(colo, PublicRequest(origin, slashes, version, key), EdgeMissed)).Built?
  {
    hide LegacyForm, IsUlid, ParseImageRequest, Pathname, BuildVersionedPublicUrl, IsOrigin, Canonical, SizeLetterOf,
      Stem, BuildVariantKey, WriteInv, ReadInv;
    LegacyRewrite(key);
    PublicUrlRoundTrip(origin, slashes, version, key);
    var p := ParseImageRequest(PublicRequest(origin, slashes, version, key)).value;
    SizeLetterChangesStem(key, p.objectKey, p.variant.value);
    if BuildVariantKey(p.objectKey, p.variant.value, p.version) in w.r2 {
      ParsedKeyCanonical(PublicRequest(origin, slashes, version, key));
      StoredVariantIsExpected(t, w, p);
      assert false;
    }
  }

  /** Presign hands out such keys: an auction-lot JPEG with the image ID `7i` is uploaded,
      replicated, and can never be fetched under the URL that finalize returns. */
  lemma LegacyKeysAreBuilt()
    ensures var i := BuildInput(AuctionLot("house", "2024", "12"), "7i", None, Jpeg);
      BuildObjectKey(i).Ok? && LegacyForm(BuildObjectKey(i).value)
  {
    hide LegacyForm, BuildObjectKey, Matches;
    var i := BuildInput(AuctionLot("house", "2024", "12"), "7i", None, Jpeg);
    assert ValidSegments() by { ShortWords(); }
    BuildThenParse(i);
    BuiltLegacyForm(i);
    ImageSevenI();
    assert "7i" + SuffixText(None) == "7i";
  }

  predicate ValidSegments() {
    forall s | s in ["house", "2024", "12", "7i"] :: IsValidPathSegment(s)
  }

  lemma ShortWords()
    ensures ValidSegments()
  {
  }

  lemma ImageSevenI()
    ensures Matches(Cat(IMAGE_NUMBER, One(LegacySize)), "7i")
  {
    assert "7" + "" == "7" && "7" + "i" == "7i";
    assert Matches(IMAGE_NUMBER, "7") by { MatchCat(Plus(Digit), Opt(VARIANT_SUFFIX), "7", ""); }
    MatchCat(IMAGE_NUMBER, One(LegacySize), "7", "i");
  }
}
