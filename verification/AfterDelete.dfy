/** What can still be answered with 200 after a delete has done its R2 part. */
module AfterDelete {
  import opened Wrappers
  import opened Errors
  import opened ObjectKeys
  import opened Variants
  import opened Requests
  import opened StorageKeys
  import opened Storage
  import opened Worlds
  import opened Handlers
  import opened Systems
  import opened Frames
  import opened Invariants
  import opened WriteSteps
  import opened ReadPath
  import opened DeletePath

  /** A request for an image, original or variant, of the stem of `key`. */
  predicate AsksFor(q: ImageRequest, key: string) {
    ParseImageRequest(q).Ok? && Stem(ParseImageRequest(q).value.objectKey) == Stem(key)
  }

  predicate HasResponse(pc: WorkerPc) { pc.Built? || pc.Answered? }

  /** In `w`, this answer to `q` is in some edge cache, or was already built or given. */
  ghost predicate Shown(w: World, q: ImageRequest, body: Bytes, contentType: string) {
    || (exists colo: nat :: (colo, q) in w.edge && IsAnswer(w.edge[(colo, q)], body, contentType))
    || (exists id :: id in w.workers && w.workers[id].request == q && HasResponse(w.workers[id].pc)
                     && IsAnswer(w.workers[id].pc.response, body, contentType))
  }

  /** Where the observation starts: the requests as of delete's first R2 call, and the end of its
      R2 part. */
  datatype Since = Since(t: Transform, w0: World, w2: World)

  /** Request `id` held, in `w0`, the original whose variant at `x` has this body. */
  predicate MadeFrom(s: Since, id: nat, x: string, body: Bytes) {
    id in s.w0.workers && HoldsOriginal(s.w0.workers[id]) && PutKey(s.w0.workers[id]) == x
    && PutObject(s.t, s.w0.workers[id]).body == body
  }

  /** The variant key that a parsed variant request is about. */
  function KeyOf(p: ParsedRequest): string
    requires p.variant.Some?
  {
    BuildVariantKey(p.objectKey, p.variant.value, p.version)
  }

  /** The answer is the variant asked for, made from an original that a request held in `w0`. */
  ghost predicate MadeEarly(s: Since, q: ImageRequest, body: Bytes, contentType: string) {
    ParseImageRequest(q).Ok? && ParseImageRequest(q).value.variant.Some? && contentType == WEBP_CONTENT_TYPE
    && exists id :: MadeFrom(s, id, KeyOf(ParseImageRequest(q).value), body)
  }

  /** A response to `q` is no 200, or one that was there in `w2`, or made early. */
  ghost predicate Old(s: Since, q: ImageRequest, r: Response) {
    r.Served? ==> Shown(s.w2, q, r.body, r.contentType) || MadeEarly(s, q, r.body, r.contentType)
  }

  ghost predicate EarlyVariants(s: Since, r2: R2Map, key: string) {
    forall k, v, version | Canonical(k) && Stem(k) == Stem(key) && BuildVariantKey(k, v, version) in r2 ::
      exists id :: MadeFrom(s, id, BuildVariantKey(k, v, version), r2[BuildVariantKey(k, v, version)].body)
  }

  ghost predicate OldWorkers(s: Since, workers: map<nat, Worker>, key: string) {
    forall k | k in workers && AsksFor(workers[k].request, key) && HasResponse(workers[k].pc) ::
      Old(s, workers[k].request, workers[k].pc.response)
  }

  ghost predicate OldEdge(s: Since, edge: EdgeMap, key: string) {
    forall e | e in edge && AsksFor(e.1, key) :: Old(s, e.1, edge[e])
  }

  /** What is left of the stem was made early, and so is every answer that is new since `w2`. */
  ghost predicate Quiet(s: Since, w: World, key: string) {
    && EarlyVariants(s, w.r2, key) && EarlyReaders(s.w0, w.workers, key)
    && OldWorkers(s, w.workers, key) && OldEdge(s, w.edge, key)
  }

  lemma QuietStart(s: Since, key: string)
    requires EarlyVariants(s, s.w2.r2, key) && EarlyReaders(s.w0, s.w2.workers, key)
    ensures Quiet(s, s.w2, key)
  {
    hide EarlyVariants, EarlyReaders, AsksFor, MadeEarly;
    var w := s.w2;
    forall e | e in w.edge ensures Old(s, e.1, w.edge[e]) {
      if w.edge[e].Served? {
        assert (e.0, e.1) == e;
        assert IsAnswer(w.edge[(e.0, e.1)], w.edge[e].body, w.edge[e].contentType);
      }
    }
    forall k | k in w.workers && HasResponse(w.workers[k].pc)
      ensures Old(s, w.workers[k].request, w.workers[k].pc.response)
    {
      var r := w.workers[k].pc.response;
      assert r.Served? ==> IsAnswer(r, r.body, r.contentType);
    }
  }

  // ---------- worker steps ----------

  lemma PcQuiet(s: Since, w: World, k: nat, pc: WorkerPc, key: string)
    requires Quiet(s, w, key) && k in w.workers
    requires pc.OriginalRead? ==> Stem(pc.parsed.objectKey) != Stem(key)
    requires HasResponse(pc) && AsksFor(w.workers[k].request, key) ==> Old(s, w.workers[k].request, pc.response)
    ensures Quiet(s, SetWorker(w, k, pc), key)
  {
    hide EarlyVariants, AsksFor, Old, Stem, OldEdge;
  }

  /** A first read for the stem finds a variant that was made early, or nothing. */
  lemma ReadsEarly(s: Since, r2: R2Map, k: Worker, key: string)
    requires EarlyVariants(s, r2, key) && NoOriginal(r2, key) && AsksFor(k.request, key)
    ensures var pc := FirstRead(r2, k); HasResponse(pc) ==> Old(s, k.request, pc.response)
  {
    hide Canonical, Stem, BuildVariantKey, ParseImageRequest, Shown, MadeFrom;
    ParsedKeyCanonical(k.request);
    var p := ParseImageRequest(k.request).value;
    if p.variant.Some? && KeyOf(p) in r2 {
      var id :| MadeFrom(s, id, BuildVariantKey(p.objectKey, p.variant.value, p.version), r2[KeyOf(p)].body);
      assert MadeFrom(s, id, KeyOf(p), r2[KeyOf(p)].body);
    }
  }

  /** A second read finds nothing. */
  lemma ReadsNothing(r2: R2Map, q: ImageRequest, key: string)
    requires NoOriginal(r2, key) && AsksFor(q, key)
    ensures SecondRead(r2, ParseImageRequest(q).value) == Answered(Failed(404), false)
  {
    hide Canonical, Stem, ParseImageRequest;
    ParsedKeyCanonical(q);
  }

  lemma FirstReadQuiet(t: Transform, s: Since, w: World, id: nat, key: string)
    requires Quiet(s, w, key) && NoOriginal(w.r2, key) && id in w.workers
    ensures Quiet(s, SetWorker(w, id, FirstRead(w.r2, w.workers[id])), key)
  {
    hide Quiet, EarlyVariants, NoOriginal, AsksFor, Old, FirstRead;
    var k := w.workers[id];
    NotRead(w, k);
    if AsksFor(k.request, key) {
      QuietParts(s, w, key);
      ReadsEarly(s, w.r2, k, key);
    }
    PcQuiet(s, w, id, FirstRead(w.r2, k), key);
  }

  lemma FailureIsOld(s: Since, q: ImageRequest, pc: WorkerPc)
    ensures HasResponse(pc) && !pc.response.Served? ==> Old(s, q, pc.response)
  {
    hide Shown, MadeEarly;
  }

  lemma QuietParts(s: Since, w: World, key: string)
    requires Quiet(s, w, key)
    ensures EarlyVariants(s, w.r2, key)
    ensures forall k | k in w.workers && HoldsStem(w.workers[k], key) ::
      k in s.w0.workers && s.w0.workers[k].pc == w.workers[k].pc
    ensures forall k | k in w.workers && AsksFor(w.workers[k].request, key) && HasResponse(w.workers[k].pc) ::
      Old(s, w.workers[k].request, w.workers[k].pc.response)
    ensures forall e | e in w.edge && AsksFor(e.1, key) :: Old(s, e.1, w.edge[e])
  {
    hide EarlyVariants, Stem, AsksFor, Old;
  }

  lemma SecondReadQuiet(t: Transform, s: Since, w: World, id: nat, key: string)
    requires Inv(t, w) && Quiet(s, w, key) && NoOriginal(w.r2, key)
    requires id in w.workers && w.workers[id].pc.VariantMissed?
    ensures Quiet(s, SetWorker(w, id, SecondRead(w.r2, w.workers[id].pc.parsed)), key)
  {
    hide Inv, Quiet, NoOriginal, Old, ParseImageRequest, Stem, WorkerInv, SetWorker;
    var k := w.workers[id];
    var pc := SecondRead(w.r2, k.pc.parsed);
    WorkerAsks(t, w, id);
    if AsksFor(k.request, key) { ReadsNothing(w.r2, k.request, key); }
    FailureIsOld(s, k.request, pc);
    PcQuiet(s, w, id, pc, key);
  }

  lemma WorkerAsks(t: Transform, w: World, id: nat)
    requires Inv(t, w) && id in w.workers && (w.workers[id].pc.VariantMissed? || w.workers[id].pc.OriginalRead?)
    ensures ParseImageRequest(w.workers[id].request) == Ok(w.workers[id].pc.parsed)
    ensures w.workers[id].pc.parsed.variant.Some? && Canonical(w.workers[id].pc.parsed.objectKey)
  {
    hide Canonical, ParseImageRequest, R2Inv, EdgeInv, WriteInv, HistoryInv, IsOriginal;
    assert WorkerInv(t, w.workers[id], w.minted, w.replicated);
    ParsedKeyCanonical(w.workers[id].request);
  }

  /** A put for the stem puts what was made early; another one puts no variant of the stem. */
  lemma PutEarlyVariants(s: Since, r2: R2Map, id: nat, k: Worker, key: string)
    requires EarlyVariants(s, r2, key) && HoldsOriginal(k) && Canonical(k.pc.parsed.objectKey)
    requires HoldsStem(k, key) ==> id in s.w0.workers && s.w0.workers[id].pc == k.pc
    ensures EarlyVariants(s, r2[PutKey(k) := PutObject(s.t, k)], key)
    ensures HoldsStem(k, key) ==> MadeFrom(s, id, PutKey(k), PutObject(s.t, k).body)
  {
    hide Canonical, Stem, BuildVariantKey;
    var p := k.pc.parsed;
    var r2' := r2[PutKey(k) := PutObject(s.t, k)];
    if HoldsStem(k, key) { assert MadeFrom(s, id, PutKey(k), PutObject(s.t, k).body); }
    forall k1, v, version | Canonical(k1) && Stem(k1) == Stem(key) && BuildVariantKey(k1, v, version) in r2'
      ensures exists i :: MadeFrom(s, i, BuildVariantKey(k1, v, version), r2'[BuildVariantKey(k1, v, version)].body)
    {
      if BuildVariantKey(k1, v, version) == PutKey(k) {
        VariantKeysInjective(k1, v, version, p.objectKey, p.variant.value, p.version);
      }
    }
  }

  lemma PutQuiet(t: Transform, s: Since, w: World, id: nat, outcome: Outcome, key: string)
    requires Inv(t, w) && Quiet(s, w, key) && s.t == t && id in w.workers && w.workers[id].pc.OriginalRead?
    ensures Quiet(s, PutVariant(t, w, id, outcome), key)
  {
    hide Inv, Canonical, Stem, BuildVariantKey, EarlyVariants, EarlyReaders, OldWorkers, OldEdge, ParseImageRequest,
      Shown, SetWorker, MadeFrom;
    WorkerAsks(t, w, id);
    var k := w.workers[id];
    assert HoldsStem(k, key) ==> id in s.w0.workers && s.w0.workers[id].pc == k.pc by { QuietParts(s, w, key); }
    PutEarlyVariants(s, w.r2, id, k, key);
    var w1 := if Applied(outcome) then w.(r2 := w.r2[PutKey(k) := PutObject(t, k)]) else w;
    assert Quiet(s, w1, key);
    var body := PutObject(t, k).body;
    if AsksFor(k.request, key) { assert MadeFrom(s, id, KeyOf(k.pc.parsed), body); }
    var pc1 :=
      if outcome == Done then Built(Served(body, WEBP_CONTENT_TYPE, Miss, Images))
      else Answered(Failed(500), false);
    PcQuiet(s, w1, id, pc1, key);
  }

  lemma MatchEdgeQuiet(s: Since, w: World, id: nat, key: string)
    requires Quiet(s, w, key) && id in w.workers
    ensures Quiet(s, SetWorker(w, id, MatchEdge(w.edge, w.workers[id])), key)
  {
    hide Quiet, Shown, MadeEarly, AsksFor, EarlyVariants, HoldsStem, SetWorker;
    QuietParts(s, w, key);
    PcQuiet(s, w, id, MatchEdge(w.edge, w.workers[id]), key);
  }

  /** The response goes into the edge cache, and the request ends as `pc`. */
  lemma EdgePutQuiet(s: Since, w: World, id: nat, pc: WorkerPc, key: string)
    requires Quiet(s, w, key) && id in w.workers && HasResponse(w.workers[id].pc)
    requires pc.Answered? && (pc.response == w.workers[id].pc.response || !pc.response.Served?)
    ensures var k := w.workers[id];
      Quiet(s, SetWorker(w.(edge := w.edge[(k.colo, k.request) := k.pc.response]), id, pc), key)
  {
    hide Old, AsksFor, EarlyVariants, EarlyReaders, HoldsStem, SetWorker;
    QuietParts(s, w, key);
    var k := w.workers[id];
    var w1 := w.(edge := w.edge[(k.colo, k.request) := k.pc.response]);
    assert Quiet(s, w1, key);
    FailureIsOld(s, k.request, pc);
    PcQuiet(s, w1, id, pc, key);
  }

  lemma WorkerQuiet(t: Transform, s: Since, w: World, a: Action, key: string)
    requires Inv(t, w) && WorkerAction(a) && Quiet(s, w, key) && s.t == t && NoOriginal(w.r2, key)
    ensures Quiet(s, WorkerStep(t, w, a), key)
  {
    hide Inv, Quiet, NoOriginal, MatchEdge, FirstRead, SecondRead, PutVariant, SetWorker, Old, AsksFor, EarlyVariants,
      HoldsStem;
    if a.k in w.workers {
      var k := w.workers[a.k];
      QuietParts(s, w, key);
      match a
      case MatchEdgeAct(id) => MatchEdgeQuiet(s, w, id, key);
      case FirstReadAct(id) => FirstReadQuiet(t, s, w, id, key);
      case SecondReadAct(id) => if k.pc.VariantMissed? { SecondReadQuiet(t, s, w, id, key); }
      case PutVariantAct(id, o) => if k.pc.OriginalRead? { PutQuiet(t, s, w, id, o, key); }
      case WorkerFailsAct(id, status) =>
        FailureIsOld(s, k.request, Answered(Failed(status), false));
        PcQuiet(s, w, id, Answered(Failed(status), false), key);
      case AnswerAct(id) => if k.pc.Built? { PcQuiet(s, w, id, Answered(k.pc.response, true), key); }
      case EdgePutAct(id) => if k.pc.Answered? { EdgePutQuiet(s, w, id, Answered(k.pc.response, false), key); }
      case EdgePutFailsAct(id) => if k.pc.Built? { EdgePutQuiet(s, w, id, Answered(Failed(500), false), key); }
    }
  }

  // ---------- the rest ----------

  /** An upload to a canonical key makes no variant. */
  lemma UploadQuiet(s: Since, w: World, w1: World, key: string, put: string, version: string)
    requires Quiet(s, w, key) && UploadFrame(w, w1, put, version) && (Canonical(put) || w1.r2 == w.r2)
    ensures Quiet(s, w1, key)
  {
    hide Canonical, Stem, BuildVariantKey, EarlyReaders, OldWorkers, OldEdge, NamespaceOf, MadeFrom;
    if Canonical(put) {
      forall k, v, version ensures BuildVariantKey(k, v, version) != put {
        NamespacesDisjoint("", put, v, version);
        NamespacesDisjoint("", k, v, version);
      }
    }
  }

  lemma ShrinkQuiet(s: Since, w: World, w1: World, key: string)
    requires Quiet(s, w, key) && Shrinks(w.r2, w1.r2) && w1.edge == w.edge && w1.workers == w.workers
    ensures Quiet(s, w1, key)
  {
    hide Canonical, Stem, BuildVariantKey, EarlyReaders, OldWorkers, OldEdge, MadeFrom;
  }

  lemma ApplyQuiet(t: Transform, s: Since, w: World, a: Action, key: string)
    requires Inv(t, w) && Quiet(s, w, key) && s.t == t && NoOriginal(w.r2, key)
    ensures Quiet(s, Apply(t, w, a), key)
  {
    hide Inv, Quiet, NoOriginal, WorkerStep, DeleteStep;
    if DeleteAction(a) {
      if a.d in w.deletes {
        DeleteStepFrame(w, a);
        ShrinkQuiet(s, w, DeleteStep(w, a), key);
      }
      assert a.d !in w.deletes ==> DeleteStep(w, a) == w by { NoSuchDelete(w, a); }
    } else if WorkerAction(a) {
      WorkerQuiet(t, s, w, a, key);
    } else {
      OtherQuiet(t, s, w, a, key);
    }
  }

  lemma NoSuchDelete(w: World, a: Action)
    requires DeleteAction(a)
    ensures a.d !in w.deletes ==> DeleteStep(w, a) == w
  {
  }

  lemma OtherQuiet(t: Transform, s: Since, w: World, a: Action, key: string)
    requires Inv(t, w) && Quiet(s, w, key) && !DeleteAction(a) && !WorkerAction(a)
    ensures Quiet(s, Apply(t, w, a), key)
  {
    hide Inv, Quiet, FinalizeUpload, IngestObject, Presign, CancelUpload, StartDelete, Reconcile, IsUlid, UploadFrame;
    match a {
      case FinalizeAct(h, u, f) => FinalizeQuiet(t, s, w, h, u, f, key);
      case IngestAct(k, source, rt, write, version, put) => IngestQuiet(s, w, k, source, rt, write, version, put, key);
      case ReconcileAct(k) => ReconcileQuiet(s, w, k, key);
      case ArriveAct(k, colo, r) => ArriveQuiet(s, w, k, Worker(colo, r, Arrived), key);
      case EvictAct(colo, r) => EvictQuiet(s, w, (colo, r), key);
      case PresignAct(h, r, u, ttl, f) => PresignQuiet(s, w, h, r, u, ttl, f, key);
      case CancelAct(h, u, f) => CancelQuiet(s, w, h, u, f, key);
      case _ => SameReadsQuiet(s, w, Apply(t, w, a), key);
    }
  }

  lemma IngestQuiet(s: Since, w: World, k: string, source: Result<Source, ErrorCode>, rt: Option<string>,
                    write: WriteOutcome, version: string, put: Outcome, key: string)
    requires Quiet(s, w, key)
    ensures Quiet(s, IngestObject(w, k, source, rt, write, version, put).0, key)
  {
    hide Quiet, Canonical, IngestObject, UploadFrame;
    IngestFrame(w, k, source, rt, write, version, put);
    UploadQuiet(s, w, IngestObject(w, k, source, rt, write, version, put).0, key, k, version);
  }

  lemma ReconcileQuiet(s: Since, w: World, k: string, key: string)
    requires Quiet(s, w, key)
    ensures Quiet(s, Reconcile(w, k), key)
  {
    hide Quiet, Canonical, Reconcile, UploadFrame;
    ReconcileFrame(w, k);
    UploadQuiet(s, w, Reconcile(w, k), key, k, "");
  }

  lemma PresignQuiet(s: Since, w: World, h: Headers, r: PresignRequest, u: string, ttl: int, f: PresignFaults,
                     key: string)
    requires Quiet(s, w, key)
    ensures Quiet(s, Presign(w, h, r, u, ttl, f).0, key)
  {
    hide Quiet, Presign;
    PresignTouches(w, h, r, u, ttl, f);
    SameReadsQuiet(s, w, Presign(w, h, r, u, ttl, f).0, key);
  }

  lemma CancelQuiet(s: Since, w: World, h: Headers, u: string, f: CancelFaults, key: string)
    requires Quiet(s, w, key)
    ensures Quiet(s, CancelUpload(w, h, u, f).0, key)
  {
    hide Quiet, CancelUpload;
    CancelTouches(w, h, u, f);
    SameReadsQuiet(s, w, CancelUpload(w, h, u, f).0, key);
  }

  lemma FinalizeQuiet(t: Transform, s: Since, w: World, h: Headers, u: string, f: FinalizeFaults, key: string)
    requires Inv(t, w) && Quiet(s, w, key)
    ensures Quiet(s, FinalizeUpload(w, h, u, f).0, key)
  {
    hide Inv, Quiet, Canonical, FinalizeUpload, UploadFrame;
    var w1 := FinalizeUpload(w, h, u, f).0;
    FinalizeFrame(w, h, u, f);
    if u in w.sessions {
      SessionOfId(t, w, u);
      UploadQuiet(s, w, w1, key, w.sessions[u].objectKey, w.sessions[u].uploadId);
    } else {
      UploadQuiet(s, w, w1, key, "", "");
    }
  }

  lemma SameReadsQuiet(s: Since, w: World, w1: World, key: string)
    requires Quiet(s, w, key) && w1.r2 == w.r2 && w1.edge == w.edge && w1.workers == w.workers
    ensures Quiet(s, w1, key)
  {
    hide EarlyVariants, EarlyReaders, OldWorkers, OldEdge;
  }

  lemma ArriveQuiet(s: Since, w: World, k: nat, x: Worker, key: string)
    requires Quiet(s, w, key) && x.pc.Arrived?
    ensures Quiet(s, if k in w.workers then w else w.(workers := w.workers[k := x]), key)
  {
    hide EarlyVariants, OldEdge, Old, AsksFor, Stem;
  }

  lemma EvictQuiet(s: Since, w: World, e: (nat, ImageRequest), key: string)
    requires Quiet(s, w, key)
    ensures Quiet(s, w.(edge := w.edge - {e}), key)
  {
    hide EarlyVariants, EarlyReaders, OldWorkers, Old, AsksFor;
  }

  lemma {:induction false} RunQuiet(s: Since, more: seq<Action>, key: string)
    requires Inv(s.t, s.w2) && Quiet(s, s.w2, key) && NoOriginalMeanwhile(s.t, s.w2, more, key)
    ensures Quiet(s, Run(s.t, s.w2, more), key)
    decreases |more|
  {
    hide Inv, Quiet, NoOriginal, Apply;
    if more != [] {
      var n := |more| - 1;
      var front := more[..n];
      assert forall i | 0 <= i <= n :: front[..i] == more[..i];
      RunQuiet(s, front, key);
      RunKeeps(s.t, s.w2, front);
      assert NoOriginal(Run(s.t, s.w2, more[..n]).r2, key);
      ApplyQuiet(s.t, s, Run(s.t, s.w2, front), more[n], key);
    }
  }

  /** After a delete has done its R2 part, and while no original of its stem comes back: every
      200 that any request for the stem ever gets, in any data centre, repeats an answer to the
      same request that was in an edge cache, built or given when the R2 part ended; or it is the
      variant asked for, made from an original that some request had read before delete's first
      R2 call. Without such a request in flight, the former. */
  lemma DeletedIsOnlyRepeated(t: Transform, now: int, before: seq<Action>, d: nat, attempt: Attempted,
                              after: seq<Action>, more: seq<Action>,
                              id: nat, q: ImageRequest, body: Bytes, contentType: string)
    requires var w0 := Run(t, InitialWorld(now), before);
      && d in w0.deletes && w0.deletes[d].pc == DeleteKeys(0)
      && var w1 := Apply(t, w0, DeleteCallAct(d, attempt));
      var w2 := Run(t, w1, after);
      && NoOriginalMeanwhile(t, w1, after, w0.deletes[d].key)
      && d in w2.deletes && (w2.deletes[d].pc.DeleteGcs? || w2.deletes[d].pc.Finished?)
      && NoOriginalMeanwhile(t, w2, more, w0.deletes[d].key)
      && AsksFor(q, w0.deletes[d].key) && AnsweredOk(Run(t, w2, more), id, q, body, contentType)
    ensures var w0 := Run(t, InitialWorld(now), before);
      var w2 := Run(t, Apply(t, w0, DeleteCallAct(d, attempt)), after);
      Shown(w2, q, body, contentType) || MadeEarly(Since(t, w0, w2), q, body, contentType)
    ensures var w0 := Run(t, InitialWorld(now), before);
      (forall k | k in w0.workers :: !HoldsStem(w0.workers[k], w0.deletes[d].key)) ==>
        Shown(Run(t, Apply(t, w0, DeleteCallAct(d, attempt)), after), q, body, contentType)
  {
    hide Inv, Clearing, Quiet, AsksFor, NoOriginalMeanwhile, EarlyVariants, EarlyReaders, Canonical, Shown, MadeEarly,
      Landed, Run, HoldsStem;
    var w0 := Run(t, InitialWorld(now), before);
    var key := w0.deletes[d].key;
    var w1 := Apply(t, w0, DeleteCallAct(d, attempt));
    var w2 := Run(t, w1, after);
    var s := Since(t, w0, w2);
    InitialInv(t, now);
    RunKeeps(t, InitialWorld(now), before);
    ApplyKeeps(t, w0, DeleteCallAct(d, attempt));
    RunKeeps(t, w1, after);
    SomeDelete(t, w0, d);
    FirstCallClears(t, w0, d, attempt);
    RunClearing(t, w0, w1, after, d, key);
    assert EarlyReaders(w0, w2.workers, key) by { ClearingReaders(w0, w2, d, key, Landed(t, w0, w1, after)); }
    LeftAreEarly(t, now, before, d, attempt, after);
    QuietStart(s, key);
    RunQuiet(s, more, key);
    AnswerIsOld(s, Run(t, w2, more), key, id, q, body, contentType);
    if (forall k | k in w0.workers :: !HoldsStem(w0.workers[k], key)) && MadeEarly(s, q, body, contentType) {
      EarlyHolder(t, s, key, q, body, contentType);
      assert false;
    }
  }

  lemma ClearingReaders(w0: World, w: World, d: nat, key: string, landed: R2Map)
    requires Clearing(w0, w, d, key, landed)
    ensures EarlyReaders(w0, w.workers, key)
  {
    hide AllPending, HoldsLanded, Stem;
  }

  /** Whoever made such an answer held an original of the stem. */
  lemma EarlyHolder(t: Transform, s: Since, key: string, q: ImageRequest, body: Bytes, contentType: string)
    requires Inv(t, s.w0) && AsksFor(q, key) && MadeEarly(s, q, body, contentType)
    ensures exists k :: k in s.w0.workers && HoldsStem(s.w0.workers[k], key)
  {
    hide Inv, Canonical, Stem, BuildVariantKey, ParseImageRequest, PutObject;
    var p := ParseImageRequest(q).value;
    var k :| MadeFrom(s, k, KeyOf(p), body);
    ParsedKeyCanonical(q);
    HolderCanonical(t, s.w0, k);
    SamePutSameStem(s.w0.workers[k], p.objectKey, p.variant.value, p.version);
    assert HoldsStem(s.w0.workers[k], key);
  }

  lemma LeftAreEarly(t: Transform, now: int, before: seq<Action>, d: nat, attempt: Attempted, after: seq<Action>)
    requires var w0 := Run(t, InitialWorld(now), before);
      && d in w0.deletes && w0.deletes[d].pc == DeleteKeys(0)
      && var w1 := Apply(t, w0, DeleteCallAct(d, attempt));
      && NoOriginalMeanwhile(t, w1, after, w0.deletes[d].key)
      && d in Run(t, w1, after).deletes
      && (Run(t, w1, after).deletes[d].pc.DeleteGcs? || Run(t, w1, after).deletes[d].pc.Finished?)
    ensures var w0 := Run(t, InitialWorld(now), before);
      var w2 := Run(t, Apply(t, w0, DeleteCallAct(d, attempt)), after);
      EarlyVariants(Since(t, w0, w2), w2.r2, w0.deletes[d].key)
  {
    hide NoOriginalMeanwhile, Canonical, Stem, BuildVariantKey, Run, PutAt, Apply, MadeFrom, HoldsStem;
    DeleteUnderServing(t, now, before, d, attempt, after);
    var w0 := Run(t, InitialWorld(now), before);
    var w1 := Apply(t, w0, DeleteCallAct(d, attempt));
    var w2 := Run(t, w1, after);
    var s := Since(t, w0, w2);
    forall k, v, version | Canonical(k) && Stem(k) == Stem(w0.deletes[d].key) && BuildVariantKey(k, v, version) in w2.r2
      ensures exists id :: MadeFrom(s, id, BuildVariantKey(k, v, version), w2.r2[BuildVariantKey(k, v, version)].body)
    {
      var x := BuildVariantKey(k, v, version);
      var i :| PutAt(t, w0, w1, after, i, x, w2.r2[x]);
      var id := Putter(s, w1, after, i, x, w2.r2[x]);
    }
  }

  lemma Putter(s: Since, w1: World, after: seq<Action>, i: nat, x: string, o: R2Object) returns (id: nat)
    requires PutAt(s.t, s.w0, w1, after, i, x, o)
    ensures MadeFrom(s, id, x, o.body)
  {
    hide PutKey, PutObject, Run;
    id := after[i].k;
  }

  lemma AnswerIsOld(s: Since, w: World, key: string, id: nat, q: ImageRequest, body: Bytes, contentType: string)
    requires Quiet(s, w, key) && AsksFor(q, key) && AnsweredOk(w, id, q, body, contentType)
    ensures Shown(s.w2, q, body, contentType) || MadeEarly(s, q, body, contentType)
  {
    hide EarlyVariants, EarlyReaders, AsksFor, Shown, MadeEarly, OldEdge;
  }
}
