/** The upload handlers as they run, call by call, against the adapters
    (upload-function/src/app.ts). */
module UploadApps {
  import opened Wrappers
  import opened Errors
  import opened ObjectKeys
  import opened ContentTypes
  import opened Variants
  import opened Requests
  import opened StorageKeys
  import opened Sessions
  import opened MemoryStore
  import opened Storage
  import opened R2Buckets
  import opened GcsBuckets
  import opened Worlds
  import opened RemoteCalls
  import opened Retry
  import opened Handlers
  import opened Systems
  import opened DeleteTraces
  import opened DeletePath
  import opened DeleteRuns
  import UploadOutcomes
  import WriteSteps
  import opened Regexes
  import opened RedisStore

  /** How each attempt of each remote call of a finalize ends. */
  datatype FinalizeCalls = FinalizeCalls(
    metadataFails: bool, rejectDelete: nat -> Call, copy: nat -> Call, stagingDelete: nat -> Call, put: nat -> Call)

  function FinalizeFaultsOf(c: FinalizeCalls, maxRetries: nat): FinalizeFaults {
    FinalizeFaults(false, c.metadataFails,
      CallOutcome(c.rejectDelete, MAX_TRANSIENT_RETRIES), CallOutcome(c.copy, MAX_TRANSIENT_RETRIES),
      RemovalOutcome(c.stagingDelete, MAX_TRANSIENT_RETRIES), CallOutcome(c.put, maxRetries))
  }

  /** The same for a delete, with the attempts for each R2 key and for each R2 prefix. */
  datatype DeleteCalls = DeleteCalls(
    tombstone: nat -> Call, r2Key: nat -> (nat -> Call), r2Prefix: nat -> (nat -> Retry.Attempt), gcs: nat -> Call)

  predicate TombstoneDone(c: DeleteCalls) { CallOutcome(c.tombstone, MAX_TRANSIENT_RETRIES) == Done }
  predicate KeysDone(c: DeleteCalls, n: nat, maxRetries: nat) {
    forall i: nat | i < n :: CallOutcome(c.r2Key(i), maxRetries) == Done
  }
  ghost predicate PrefixesDone(c: DeleteCalls, n: nat, maxRetries: nat) {
    forall j: nat | j < n :: PrefixDone(c.r2Prefix(j), maxRetries)
  }
  predicate GcsDone(c: DeleteCalls) { CallOutcome(c.gcs, MAX_TRANSIENT_RETRIES) == Done }

  /** What a delete answers: its first call that fails decides. */
  ghost function DeleteReply(c: DeleteCalls, key: string, maxRetries: nat): (r: Result<(), ErrorCode>)
    ensures r.Err? ==> Status(r.error) == 503
  {
    if !TombstoneDone(c) then Err(TombstoneWriteFailed)
    else if !KeysDone(c, |DeleteKeyList(key)|, maxRetries) then Err(R2Unavailable)
    else if !PrefixesDone(c, |WEBP_VARIANTS|, maxRetries) then Err(R2Unavailable)
    else if !GcsDone(c) then Err(StorageUnavailable)
    else Ok(())
  }

  class UploadApp {
    const gcs: GcsBucket
    const r2: R2Bucket
    const store: InMemoryUploadSessionStore
    const maxRetries: nat

    constructor (gcs: GcsBucket, r2: R2Bucket, store: InMemoryUploadSessionStore, maxRetries: nat)
      ensures this.gcs == gcs && this.r2 == r2 && this.store == store && this.maxRetries == maxRetries
    {
      this.gcs, this.r2, this.store, this.maxRetries := gcs, r2, store, maxRetries;
    }

    /** The stores as a world without history. */
    ghost function State(now: int): World
      reads gcs, r2, store
    {
      InitialWorld(now).(gcs := gcs.objects, sessions := store.sessions, r2 := r2.objects)
    }

    /** Every stored session was made by presign. */
    ghost predicate ValidSessions()
      reads store
    {
      forall u | u in store.sessions :: store.sessions[u].uploadId == u && ValidSession(store.sessions[u])
    }

    /** Presign with a fresh `uploadId`. Creating the session may first drop expired ones. */
    method PresignUpload(h: Headers, request: PresignRequest, uploadId: string, ttlSeconds: int, now: int,
                         signingFails: bool)
      returns (reply: PresignReply, ghost kept: SessionMap)
      requires IsUlid(uploadId)
      modifies store
      ensures old(ValidSessions()) ==> ValidSessions()
      ensures kept == old(store.sessions) || kept == old(Live(store.sessions, now))
      ensures var full := old(|Live(store.sessions, now)|) >= store.maxSessions;
        var (w, expected) := Presign(old(State(now)).(sessions := kept), h, request, uploadId, ttlSeconds,
          PresignFaults(if full then Some(TooManySessions) else None, signingFails));
        reply == expected && store.sessions == w.sessions
      ensures old(|store.sessions|) <= store.maxSessions ==> |store.sessions| <= store.maxSessions
    {
      hide CheckPresign, StagingKey, ProductOf, AuctionHouseOf, Live, ValidSession, IsUlid, Presign;
      kept := store.sessions;
      forall w: World, f { PresignCases(w, h, request, uploadId, ttlSeconds, f); }
      var checked := CheckPresign(h, request);
      if checked.Err? {
        return PresignRefused(checked.error), kept;
      }
      var (key, contentType) := checked.value;
      var session := Session(uploadId, key, StagingKey(uploadId, key), ProductOf(request.entity),
        AuctionHouseOf(request.entity), contentType, request.contentLength, now + ttlSeconds * 1000);
      GrantedIsValid(h, request, session);
      var created;
      created, kept := CreateSession(session, now);
      if created.Err? {
        return PresignRefused(created.error), kept;
      }
      reply := if signingFails then PresignRefused(InternalError) else Issued(uploadId, key);
    }

    /** The new session joins those kept: all of them, or the unexpired ones. */
    method CreateSession(session: Session, now: int) returns (r: Result<Session, ErrorCode>, ghost kept: SessionMap)
      modifies store
      ensures kept == old(store.sessions) || kept == old(Live(store.sessions, now))
      ensures old(ValidSessions()) && ValidSession(session) ==> ValidSessions()
      ensures store.sessions == if r.Ok? then kept[session.uploadId := session] else kept
      ensures r == if old(|Live(store.sessions, now)|) >= store.maxSessions then Err(TooManySessions) else Ok(session)
      ensures old(|store.sessions|) <= store.maxSessions ==> |store.sessions| <= store.maxSessions
    {
      hide ValidSession;
      LiveIsPart(store.sessions, now);
      kept := if |store.sessions| >= store.maxSessions then Live(store.sessions, now) else store.sessions;
      SubmapSize(Live(store.sessions, now), store.sessions);
      r := store.Create(session, now);
    }

    /** The cancel handler: the staged object goes first, so that a failure keeps the session. */
    method Cancel(h: Headers, uploadId: string, now: int, calls: nat -> Call) returns (reply: CancelReply)
      modifies gcs, store
      ensures old(ValidSessions()) ==> ValidSessions()
      ensures var (w, expected) :=
        CancelUpload(old(State(now)), h, uploadId, CancelFaults(false, CallOutcome(calls, MAX_TRANSIENT_RETRIES)));
        reply == expected && gcs.objects == w.gcs && store.sessions == w.sessions
    {
      hide FindSession, ValidSession;
      var found := FindLiveSession(h, uploadId, now);
      if found.Err? && found.error != UploadSessionNotFound {
        return CancelRefused(found.error);
      }
      if found.Ok? {
        FoundIsStored(old(State(now)), h, uploadId);
        var deleted := gcs.DeleteObject(found.value.stagingObjectKey, calls);
        if deleted.Err? {
          return CancelRefused(deleted.error);
        }
      }
      store.Delete(uploadId);
      reply := CancelDone;
    }

    /** The ingest handler, with a fresh cache version. */
    method Ingest(key: string, source: Result<Source, ErrorCode>, requestedType: Option<string>,
                  open: nat -> Result<Stream, ErrorCode>, upload: nat -> Call, sha256: Bytes -> string,
                  version: string, put: nat -> Call)
      returns (reply: IngestReply)
      modifies gcs, r2
      ensures var (w, expected) := IngestObject(old(State(0)), key, source, requestedType,
                                                WriteOutcomeOf(open, upload), version, CallOutcome(put, maxRetries));
        reply == expected && gcs.objects == w.gcs && r2.objects == w.r2
    {
      hide Canonical, ParseAllowedContentType, MimeType, WriteOutcomeOf, CallOutcome;
      if !Canonical(key) || |key| > 512 || requestedType == Some("") {
        return IngestRefused(ErrorCode.InvalidRequest);
      }
      if source.Err? {
        return IngestRefused(source.error);
      }
      var contentLength := source.value.contentLength;
      if contentLength > MAX_UPLOAD_BYTES {
        return IngestRefused(FileTooLarge);
      }
      var raw := if requestedType.Some? then requestedType.value
                 else if source.value.contentType.Some? then source.value.contentType.value else "";
      var parsed := ParseAllowedContentType(raw);
      if parsed.Err? {
        return IngestRefused(parsed.error);
      }
      var written := gcs.WriteObject(key, parsed.value, contentLength, open, upload, sha256);
      if written.Err? {
        return IngestRefused(written.error);
      }
      var replica := R2Object(gcs.objects[key].body, Some(MimeType(parsed.value)), Some(version));
      var replicated := r2.Put(key, replica, maxRetries, put);
      reply := Ingested(key, version, written.value.size, parsed.value, replicated.Ok?);
    }

    /** The live session of a request that passes the context checks. */
    method FindLiveSession(h: Headers, uploadId: string, now: int) returns (r: Result<Session, ErrorCode>)
      modifies store
      ensures forall u | u in store.sessions :: u in old(store.sessions) && store.sessions[u] == old(store.sessions[u])
      ensures r == FindSession(old(State(now)), h, uploadId, false)
      ensures store.sessions ==
        if r == Err(UploadSessionNotFound) then old(AfterGet(State(now), uploadId).sessions) else old(store.sessions)
    {
      hide ParseProductName, Matches, IsUlid;
      var trusted := ParseTrustedProductId(h.productId);
      if trusted.Err? {
        return Err(trusted.error);
      }
      if !IsUlid(uploadId) {
        return Err(ErrorCode.InvalidRequest);
      }
      var found := store.Get(uploadId, now);
      if found.None? {
        return Err(UploadSessionNotFound);
      }
      var context := EnforceContext(h, found.value.productId, found.value.auctionHouseId);
      if context.Err? {
        return Err(context.error);
      }
      return Ok(found.value);
    }

    /** The handler does to the stores, and answers, exactly what the transition system says that
        a finalize does when its remote calls end so. */
    method Finalize(h: Headers, uploadId: string, now: int, calls: FinalizeCalls) returns (reply: FinalizeReply)
      requires ValidSessions()
      modifies gcs, r2, store
      ensures ValidSessions()
      ensures var (w, expected) := FinalizeUpload(old(State(now)), h, uploadId, FinalizeFaultsOf(calls, maxRetries));
        reply == expected && gcs.objects == w.gcs && r2.objects == w.r2 && store.sessions == w.sessions
    {
      hide FindSession, FinalizeStaged, ValidSession, CallOutcome, RemovalOutcome;
      var found := FindLiveSession(h, uploadId, now);
      if found.Err? {
        return FinalizeRefused(found.error);
      }
      FoundIsStored(State(now), h, uploadId);
      if calls.metadataFails {
        return FinalizeRefused(StorageUnavailable);
      }
      reply := FinalizeReceived(found.value, now, calls);
    }

    /** The checks on the staged object, the promotion, the replication, and then the end of
        the session. */
    method FinalizeReceived(session: Session, now: int, calls: FinalizeCalls) returns (reply: FinalizeReply)
      requires ValidSession(session)
      modifies gcs, r2, store
      ensures forall u | u in store.sessions :: u in old(store.sessions) && store.sessions[u] == old(store.sessions[u])
      ensures var (w, expected) := FinalizeStaged(old(State(now)), session, FinalizeFaultsOf(calls, maxRetries));
        reply == expected && gcs.objects == w.gcs && r2.objects == w.r2 && store.sessions == w.sessions
    {
      WriteSteps.SessionKeysAreNoTombstones(session);
      hide ValidSession, MimeType, ContradictsType, TombstoneKey, CallOutcome, RemovalOutcome, RejectStaged,
        PromoteAndReplicate,
        LastAttempt, TotalDelay;
      ghost var f := FinalizeFaultsOf(calls, maxRetries);
      if session.stagingObjectKey !in gcs.objects || !gcs.objects[session.stagingObjectKey].Image? {
        return FinalizeRefused(UploadNotReceived);
      }
      var staged := gcs.objects[session.stagingObjectKey];
      RejectCases(State(now), session, f.rejectDelete, SizeMismatch);
      RejectCases(State(now), session, f.rejectDelete, ContentTypeMismatch);
      PromotionCases(State(now), session, staged.body, f);
      if |staged.body| != session.contentLength {
        var deleted := gcs.DeleteObject(session.stagingObjectKey, calls.rejectDelete);
        return FinalizeRefused(if deleted.Ok? then SizeMismatch else deleted.error);
      }
      if ContradictsType(staged.contentType, session.contentType) {
        var deleted := gcs.DeleteObject(session.stagingObjectKey, calls.rejectDelete);
        return FinalizeRefused(if deleted.Ok? then ContentTypeMismatch else deleted.error);
      }
      var promoted := gcs.PromoteObject(session.stagingObjectKey, session.objectKey, session.contentType, calls.copy,
                                        calls.stagingDelete);
      if promoted.Err? {
        return FinalizeRefused(promoted.error);
      }
      var replica := R2Object(gcs.objects[session.objectKey].body, Some(MimeType(session.contentType)),
                              Some(session.uploadId));
      var replicated := r2.Put(session.objectKey, replica, maxRetries, calls.put);
      store.Delete(session.uploadId);
      return Accepted(session.objectKey, session.uploadId, |staged.body|, session.contentType, replicated.Ok?);
    }

    /** GCS has the tombstone of this delete, with its key, time and author. */
    ghost predicate Marked(x: Deletion, now: int)
      reads gcs
    {
      var path := "tombstones/" + (x.key + ".json");
      path in gcs.objects && gcs.objects[path] == Marker(Tombstone(x.key, now, x.deletedBy))
    }

    /** The delete handler: tombstone, R2 keys, R2 prefixes, GCS object, in this order. A request
        that fails the checks changes nothing; a failed call leaves a partial delete; a 204 is a
        full delete. From whatever world it starts in, the handler is a run of the transition
        system that takes only steps of this delete and ends with it finished or given up. */
    method DeleteObject(h: Headers, path: string, now: int, calls: DeleteCalls, ghost t: Transform, ghost w: World,
                        ghost d: nat)
      returns (r: Result<(), ErrorCode>, ghost steps: seq<Action>)
      requires r2.pageSize > 0
      requires d !in w.deletes && w.gcs == gcs.objects && w.r2 == r2.objects && w.now == now
      modifies gcs, r2
      ensures forall a | a in steps :: OfDelete(a, d)
      ensures Run(t, w, [StartDeleteAct(d, h, path)] + steps)
           == w.(gcs := gcs.objects, r2 := r2.objects, deletes := w.deletes[d := Ended(StartDelete(h, path), r)])
      ensures var start := StartDelete(h, path);
        if start.pc.Aborted? then
          r == Err(start.pc.code) && gcs.objects == old(gcs.objects) && r2.objects == old(r2.objects)
        else
          && PartialDelete(start.key, old(gcs.objects), old(r2.objects), gcs.objects, r2.objects)
          && (r.Ok? ==> FullDelete(start.key, old(gcs.objects), old(r2.objects), gcs.objects, r2.objects))
          && r == DeleteReply(calls, start.key, maxRetries)
          && (if TombstoneDone(calls) then Marked(start, now)
              else r2.objects == old(r2.objects) && (start.key in old(gcs.objects) ==> start.key in gcs.objects))
    {
      hide CallOutcome, StartDelete, PartialDelete, FullDelete, DeleteKeyList, Led, Run, Apply;
      var start := StartDelete(h, path);
      ghost var w1 := w.(deletes := w.deletes[d := start]);
      steps := [];
      StartsRun(t, w, d, h, path);
      if start.pc.Aborted? {
        EndsRun(t, w, d, h, path, [], gcs.objects, r2.objects, Err(start.pc.code));
        return Err(start.pc.code), steps;
      }
      r, steps := DeleteStarted(start, now, calls, t, w1, d);
      EndsRun(t, w, d, h, path, steps, gcs.objects, r2.objects, r);
    }

    /** What follows the checks. */
    method DeleteStarted(start: Deletion, now: int, calls: DeleteCalls, ghost t: Transform, ghost w: World,
                         ghost d: nat)
      returns (r: Result<(), ErrorCode>, ghost steps: seq<Action>)
      requires r2.pageSize > 0 && Canonical(start.key)
      requires d in w.deletes && w.deletes[d] == start && w.now == now
      requires Led(t, w, d, [], gcs.objects, r2.objects, WriteTombstone)
      modifies gcs, r2
      ensures Led(t, w, d, steps, gcs.objects, r2.objects, EndOf(r))
      ensures PartialDelete(start.key, old(gcs.objects), old(r2.objects), gcs.objects, r2.objects)
      ensures r.Ok? ==> FullDelete(start.key, old(gcs.objects), old(r2.objects), gcs.objects, r2.objects)
      ensures r == DeleteReply(calls, start.key, maxRetries)
      ensures TombstoneDone(calls) ==> Marked(start, now)
      ensures !TombstoneDone(calls) ==>
        r2.objects == old(r2.objects) && (start.key in old(gcs.objects) ==> start.key in gcs.objects)
    {
      assert TombstoneKey(start.key) == "tombstones/" + (start.key + ".json");
      hide CallOutcome, PartialDelete, FullDelete, DeleteKeyList, Led, Canonical, TombstoneKey, KeysDone, PrefixesDone;
      var key := start.key;
      ghost var gcs0, r20 := gcs.objects, r2.objects;
      KeyIsNoTombstone(key);
      var marked := gcs.WriteTombstone(TombstoneKey(key), Tombstone(key, now, start.deletedBy), calls.tombstone);
      steps := TombstoneLeads(t, w, d, gcs0, r20, calls.tombstone);
      MarkedIsPartial(key, gcs0, r20, gcs.objects);
      if marked.Err? {
        return marked, steps;
      }
      var deleted;
      deleted, steps := DeleteR2Keys(key, calls, t, w, d, steps);
      PartialThenPartial(key, gcs0, r20, gcs.objects, r20, gcs.objects, r2.objects);
      if deleted.Err? {
        return deleted, steps;
      }
      ghost var r21 := r2.objects;
      deleted, steps := DeleteR2Prefixes(key, calls, t, w, d, steps);
      PartialThenPartial(key, gcs0, r20, gcs.objects, r21, gcs.objects, r2.objects);
      if deleted.Err? {
        return deleted, steps;
      }
      NoneCovered(key, gcs.objects, r21, r2.objects);
      ghost var gcs1 := gcs.objects;
      deleted := gcs.DeleteObject(key, calls.gcs);
      steps := GcsLeads(t, w, d, steps, gcs1, r2.objects, calls.gcs);
      GcsLast(key, gcs1, r2.objects, gcs.objects);
      PartialThenPartial(key, gcs0, r20, gcs1, r2.objects, gcs.objects, r2.objects);
      if deleted.Ok? {
        CompletedIsFull(key, gcs0, r20, gcs.objects, r2.objects);
      }
      return deleted, steps;
    }

    method DeleteR2Keys(key: string, calls: DeleteCalls, ghost t: Transform, ghost w: World, ghost d: nat,
                        ghost steps: seq<Action>)
      returns (r: Result<(), ErrorCode>, ghost more: seq<Action>)
      requires TombstoneKey(key) in gcs.objects
      requires d in w.deletes && w.deletes[d].key == key && Led(t, w, d, steps, gcs.objects, r2.objects, DeleteKeys(0))
      modifies r2
      ensures Led(t, w, d, more, gcs.objects, r2.objects,
        if r.Ok? then DeletePrefixes(0, None, None) else Aborted(R2Unavailable))
      ensures PartialDelete(key, gcs.objects, old(r2.objects), gcs.objects, r2.objects)
      ensures r.Ok? ==> forall y | y in DeleteKeyList(key) :: y !in r2.objects
      ensures r.Ok? <==> KeysDone(calls, |DeleteKeyList(key)|, maxRetries)
      ensures r.Err? ==> r.error == R2Unavailable
    {
      hide Covered, DeleteKeyList, PartialDelete, TombstoneKey, CallOutcome, Led;
      var r2Keys := DeleteKeyList(key);
      more := steps;
      NoChange(key, gcs.objects, r2.objects);
      KeyListLength(key);
      for n := 0 to |r2Keys|
        invariant PartialDelete(key, gcs.objects, old(r2.objects), gcs.objects, r2.objects)
        invariant KeysDone(calls, n, maxRetries) && forall m | 0 <= m < n :: r2Keys[m] !in r2.objects
        invariant Led(t, w, d, more, gcs.objects, r2.objects, AtKey(key, n))
      {
        ghost var before := r2.objects;
        r := r2.Delete(r2Keys[n], maxRetries, calls.r2Key(n));
        more := KeyLeads(t, w, d, more, gcs.objects, before, n, calls.r2Key(n), maxRetries);
        CoveredSplits(key, r2Keys[n]);
        KeyGone(key, gcs.objects, before, r2.objects, r2Keys[n]);
        PartialThenPartial(key, gcs.objects, old(r2.objects), gcs.objects, before, gcs.objects, r2.objects);
        if r.Err? {
          return;
        }
      }
      r := Ok(());
    }

    method DeleteR2Prefixes(key: string, calls: DeleteCalls, ghost t: Transform, ghost w: World, ghost d: nat,
                            ghost steps: seq<Action>)
      returns (r: Result<(), ErrorCode>, ghost more: seq<Action>)
      requires r2.pageSize > 0 && TombstoneKey(key) in gcs.objects
      requires d in w.deletes && w.deletes[d].key == key
      requires Led(t, w, d, steps, gcs.objects, r2.objects, DeletePrefixes(0, None, None))
      modifies r2
      ensures Led(t, w, d, more, gcs.objects, r2.objects, if r.Ok? then DeleteGcs else Aborted(R2Unavailable))
      ensures PartialDelete(key, gcs.objects, old(r2.objects), gcs.objects, r2.objects)
      ensures r.Ok? ==> forall y | y in r2.objects :: !UnderPrefixFrom(key, 0, y)
      ensures r.Ok? <==> PrefixesDone(calls, |WEBP_VARIANTS|, maxRetries)
      ensures r.Err? ==> r.error == R2Unavailable
    {
      hide Covered, PartialDelete, TombstoneKey, BuildWebpVariantPrefix, Led;
      var prefixes := BuildAllWebpVariantPrefixes(key);
      more := steps;
      NoChange(key, gcs.objects, r2.objects);
      for n := 0 to |prefixes|
        invariant PartialDelete(key, gcs.objects, old(r2.objects), gcs.objects, r2.objects)
        invariant PrefixesDone(calls, n, maxRetries)
        invariant forall m, y | 0 <= m < n && y in r2.objects :: !(prefixes[m] <= y)
        invariant Led(t, w, d, more, gcs.objects, r2.objects, AtPrefix(n))
      {
        ghost var before := r2.objects;
        r, more := r2.DeleteByPrefix(prefixes[n], maxRetries, calls.r2Prefix(n), Paging(t, w, d, n, gcs.objects), more);
        PrefixGone(key, gcs.objects, before, r2.objects, n);
        PartialThenPartial(key, gcs.objects, old(r2.objects), gcs.objects, before, gcs.objects, r2.objects);
        if r.Err? {
          return;
        }
        assert forall y | y in r2.objects :: !(prefixes[n] <= y) && y in before;
      }
      NonePrefixed(key, r2.objects);
      r := Ok(());
    }
  }

  // ---------- the delete handler as a run ----------

  /** Where a delete ends. */
  function EndOf(r: Result<(), ErrorCode>): DeletePc { if r.Ok? then Finished else Aborted(r.error) }

  /** A delete that ended. */
  function Ended(x: Deletion, r: Result<(), ErrorCode>): Deletion { x.(pc := EndOf(r)) }

  /** Before the n-th R2 key, or past the last. */
  function AtKey(key: string, n: nat): DeletePc {
    if n < |DeleteKeyList(key)| then DeleteKeys(n) else DeletePrefixes(0, None, None)
  }

  /** At the start of the n-th prefix, or past the last. */
  function AtPrefix(n: nat): DeletePc { if n < |WEBP_VARIANTS| then DeletePrefixes(n, None, None) else DeleteGcs }

  lemma KeyListLength(key: string)
    ensures |DeleteKeyList(key)| > 0
  {
  }

  lemma StartsRun(t: Transform, w: World, d: nat, h: Headers, path: string)
    requires d !in w.deletes
    ensures var start := StartDelete(h, path);
      var w1 := w.(deletes := w.deletes[d := start]);
      && Led(t, w1, d, [], w.gcs, w.r2, start.pc)
      && (!start.pc.Aborted? ==> start.pc == WriteTombstone && Canonical(start.key))
  {
    hide StartDelete, Canonical;
    StartIsCanonical(h, path);
    var start := StartDelete(h, path);
    var w1 := w.(deletes := w.deletes[d := start]);
    assert w1.deletes[d].(pc := start.pc) == start;
    assert w1.deletes[d := start] == w1.deletes;
    assert DeleteAt(w1, d, w.gcs, w.r2, start.pc) == w1;
  }

  /** A run of the started delete is a run of the whole request. */
  lemma EndsRun(t: Transform, w: World, d: nat, h: Headers, path: string, steps: seq<Action>,
                gcs: GcsMap, r2: R2Map, r: Result<(), ErrorCode>)
    requires d !in w.deletes
    requires Led(t, w.(deletes := w.deletes[d := StartDelete(h, path)]), d, steps, gcs, r2, EndOf(r))
    ensures forall a | a in steps :: OfDelete(a, d)
    ensures Run(t, w, [StartDeleteAct(d, h, path)] + steps)
         == w.(gcs := gcs, r2 := r2, deletes := w.deletes[d := Ended(StartDelete(h, path), r)])
  {
    hide StartDelete, Run;
    var start := StartDeleteAct(d, h, path);
    RunCons(t, w, start, steps);
    StartApplied(t, w, d, h, path);
  }

  lemma StartApplied(t: Transform, w: World, d: nat, h: Headers, path: string)
    requires d !in w.deletes
    ensures Apply(t, w, StartDeleteAct(d, h, path)) == w.(deletes := w.deletes[d := StartDelete(h, path)])
  {
    hide StartDelete;
  }

  lemma TombstoneLeads(t: Transform, w: World, d: nat, gcs: GcsMap, r2: R2Map, calls: nat -> Call)
    returns (more: seq<Action>)
    requires d in w.deletes && Led(t, w, d, [], gcs, r2, WriteTombstone)
    ensures var x := w.deletes[d];
      var outcome := CallOutcome(calls, MAX_TRANSIENT_RETRIES);
      var marked := gcs[TombstoneKey(x.key) := Marker(Tombstone(x.key, w.now, x.deletedBy))];
      Led(t, w, d, more, if Applied(outcome) then marked else gcs, r2,
        if outcome == Done then DeleteKeys(0) else Aborted(TombstoneWriteFailed))
  {
    hide Led, TombstoneKey, Behaves;
    var x := w.deletes[d];
    var e := Effect(gcs, r2, gcs[TombstoneKey(x.key) := Marker(Tombstone(x.key, w.now, x.deletedBy))], r2);
    TombstoneBehaves(w, d, gcs, r2);
    more := CallsLead(t, w, d, [], e, WriteTombstone, DeleteKeys(0), TombstoneWriteFailed, calls, MAX_TRANSIENT_RETRIES,
                      0, false);
  }

  lemma KeyLeads(t: Transform, w: World, d: nat, steps: seq<Action>, gcs: GcsMap, r2: R2Map, n: nat, calls: nat -> Call,
                 maxRetries: nat)
    returns (more: seq<Action>)
    requires d in w.deletes && n < |DeleteKeyList(w.deletes[d].key)|
    requires Led(t, w, d, steps, gcs, r2, AtKey(w.deletes[d].key, n))
    ensures var key := w.deletes[d].key;
      var outcome := CallOutcome(calls, maxRetries);
      Led(t, w, d, more, gcs, if Applied(outcome) then r2 - {DeleteKeyList(key)[n]} else r2,
          if outcome == Done then AtKey(key, n + 1) else Aborted(R2Unavailable))
  {
    hide Led, DeleteKeyList, Behaves;
    var key := w.deletes[d].key;
    KeyBehaves(w, d, gcs, r2, n);
    var e := Effect(gcs, r2, gcs, r2 - {DeleteKeyList(key)[n]});
    more := CallsLead(t, w, d, steps, e, DeleteKeys(n), AfterKey(n, key), R2Unavailable, calls, maxRetries, 0, false);
  }

  lemma GcsLeads(t: Transform, w: World, d: nat, steps: seq<Action>, gcs: GcsMap, r2: R2Map, calls: nat -> Call)
    returns (more: seq<Action>)
    requires d in w.deletes && Led(t, w, d, steps, gcs, r2, DeleteGcs)
    ensures var outcome := CallOutcome(calls, MAX_TRANSIENT_RETRIES);
      Led(t, w, d, more, if Applied(outcome) then gcs - {w.deletes[d].key} else gcs, r2,
          if outcome == Done then Finished else Aborted(StorageUnavailable))
  {
    hide Led, Behaves;
    GcsBehaves(w, d, gcs, r2);
    var e := Effect(gcs, r2, gcs - {w.deletes[d].key}, r2);
    more := CallsLead(t, w, d, steps, e, DeleteGcs, Finished, StorageUnavailable, calls, MAX_TRANSIENT_RETRIES, 0,
                      false);
  }

  lemma StartIsCanonical(h: Headers, path: string)
    ensures var x := StartDelete(h, path); !x.pc.Aborted? ==> x.pc == WriteTombstone && Canonical(x.key)
  {
    hide Canonical, EnforceContext, ExtractObjectKeyFromPath;
  }

  lemma PresignCases(w: World, h: Headers, r: PresignRequest, u: string, ttl: int, f: PresignFaults)
    ensures var (w1, reply) := Presign(w, h, r, u, ttl, f);
      var checked := CheckPresign(h, r);
      if checked.Err? then w1.sessions == w.sessions && reply == PresignRefused(checked.error)
      else if f.storeRefuses.Some? then w1.sessions == w.sessions && reply == PresignRefused(f.storeRefuses.value)
      else
        var (key, t) := checked.value;
        var session := Session(u, key, StagingKey(u, key), ProductOf(r.entity), AuctionHouseOf(r.entity), t,
          r.contentLength, w.now + ttl * 1000);
        && w1.sessions == w.sessions[u := session]
        && reply == if f.signingFails then PresignRefused(InternalError) else Issued(u, key)
  {
    hide CheckPresign, StagingKey, ProductOf, AuctionHouseOf;
  }

  lemma GrantedIsValid(h: Headers, r: PresignRequest, s: Session)
    requires CheckPresign(h, r).Ok? && IsUlid(s.uploadId) && s.objectKey == CheckPresign(h, r).value.0
    requires s.stagingObjectKey == StagingKey(s.uploadId, s.objectKey) && s.contentLength == r.contentLength
    requires s.productId == ProductOf(r.entity) && s.auctionHouseId == AuctionHouseOf(r.entity)
    ensures ValidSession(s)
  {
    hide CheckPresign, Canonical, IsUlid;
    WriteSteps.CheckedPresign(h, r);
  }

  lemma LiveIsPart(m: SessionMap, now: int)
    ensures forall u | u in Live(m, now) :: u in m && Live(m, now)[u] == m[u]
  {
  }

  /** What a refused staged object leaves. */
  lemma RejectCases(w: World, s: Session, delete: Outcome, code: ErrorCode)
    ensures var (w1, reply) := RejectStaged(w, s, delete, code);
      && w1.r2 == w.r2 && w1.sessions == w.sessions
      && w1.gcs == (if Applied(delete) then w.gcs - {s.stagingObjectKey} else w.gcs)
      && reply == FinalizeRefused(if delete == Done then code else StorageUnavailable)
  {
  }

  /** What a promotion and its replication do, case by case. */
  lemma PromotionCases(w: World, s: Session, body: Bytes, f: FinalizeFaults)
    requires s.stagingObjectKey != s.objectKey
    ensures var (w1, reply) := PromoteAndReplicate(w, s, body, f);
      var mime := Some(MimeType(s.contentType));
      var copied := w.gcs[s.objectKey := Image(body, mime)];
      if f.copy != Done || f.stagingDelete != Done then
        && w1.r2 == w.r2 && w1.sessions == w.sessions && reply == FinalizeRefused(StorageUnavailable)
        && w1.gcs == (if f.copy == FailedBefore then w.gcs
                      else if f.copy == FailedAfter || f.stagingDelete == FailedBefore then copied
                      else copied - {s.stagingObjectKey})
      else
        && w1.gcs == copied - {s.stagingObjectKey} && w1.sessions == w.sessions - {s.uploadId}
        && w1.r2 == (if Applied(f.put) then w.r2[s.objectKey := R2Object(body, mime, Some(s.uploadId))] else w.r2)
        && reply == Accepted(s.objectKey, s.uploadId, |body|, s.contentType, f.put == Done)
  {
    hide MimeType, Promote;
    UploadOutcomes.PromoteCases(w, s, body, f);
  }

  lemma FoundIsStored(w: World, h: Headers, uploadId: string)
    requires FindSession(w, h, uploadId, false).Ok?
    ensures uploadId in w.sessions && FindSession(w, h, uploadId, false) == Ok(w.sessions[uploadId])
  {
    hide EnforceContext, ParseTrustedProductId, IsUlid;
  }

  // ---------- each phase is a partial delete ----------

  lemma NoChange(key: string, gcs: GcsMap, r2: R2Map)
    ensures PartialDelete(key, gcs, r2, gcs, r2)
  {
    hide Covered, TombstoneKey;
  }

  lemma MarkedIsPartial(key: string, gcs: GcsMap, r2: R2Map, gcs': GcsMap)
    requires TombstoneKey(key) != key
    requires gcs' == gcs || exists m :: gcs' == gcs[TombstoneKey(key) := Marker(m)]
    ensures PartialDelete(key, gcs, r2, gcs', r2)
  {
    hide Covered, TombstoneKey;
  }

  lemma KeyGone(key: string, gcs: GcsMap, r2: R2Map, r2': R2Map, y: string)
    requires TombstoneKey(key) in gcs && Covered(key, y) && (r2' == r2 || r2' == r2 - {y})
    ensures PartialDelete(key, gcs, r2, gcs, r2')
  {
    hide Covered, TombstoneKey;
  }

  lemma PrefixGone(key: string, gcs: GcsMap, r2: R2Map, r2': R2Map, n: nat)
    requires n < |WEBP_VARIANTS| && TombstoneKey(key) in gcs
    requires OnlyPrefixRemoved(r2, r2', BuildWebpVariantPrefix(key, WEBP_VARIANTS[n]))
    ensures PartialDelete(key, gcs, r2, gcs, r2')
  {
    hide Covered, TombstoneKey, BuildWebpVariantPrefix;
    forall y | y in r2 && y !in r2' ensures Covered(key, y) {
      assert UnderPrefixFrom(key, 0, y);
      CoveredSplits(key, y);
    }
  }

  lemma NonePrefixed(key: string, r2: R2Map)
    requires forall m, y | 0 <= m < |BuildAllWebpVariantPrefixes(key)| && y in r2 ::
      !(BuildAllWebpVariantPrefixes(key)[m] <= y)
    ensures forall y | y in r2 :: !UnderPrefixFrom(key, 0, y)
  {
    forall y | y in r2 ensures !UnderPrefixFrom(key, 0, y) {
      hide BuildWebpVariantPrefix;
      assert forall i | 0 <= i < |WEBP_VARIANTS| ::
        BuildAllWebpVariantPrefixes(key)[i] == BuildWebpVariantPrefix(key, WEBP_VARIANTS[i]);
    }
  }

  lemma GcsLast(key: string, gcs: GcsMap, r2: R2Map, gcs': GcsMap)
    requires TombstoneKey(key) != key && (gcs' == gcs || gcs' == gcs - {key})
    requires forall y | y in r2 :: !Covered(key, y)
    ensures PartialDelete(key, gcs, r2, gcs', r2)
  {
    hide Covered, TombstoneKey;
  }

  lemma NoneCovered(key: string, gcs: GcsMap, before: R2Map, after: R2Map)
    requires PartialDelete(key, gcs, before, gcs, after)
    requires forall y | y in DeleteKeyList(key) :: y !in before
    requires forall y | y in after :: !UnderPrefixFrom(key, 0, y)
    ensures forall y | y in after :: !Covered(key, y)
  {
    hide Covered, UnderPrefixFrom, DeleteKeyList;
    forall y | y in after ensures !Covered(key, y) { CoveredSplits(key, y); }
  }
}
