/** Image requests keep the invariant, whatever they interleave with. */
module ReadSteps {
  import opened Wrappers
  import opened ObjectKeys
  import opened Variants
  import opened Requests
  import opened StorageKeys
  import opened Sessions
  import opened Storage
  import opened Worlds
  import opened Systems
  import opened Invariants

  /** Only the requests, the edge cache and R2 variants differ, and R2 only grew. */
  lemma SetWorkerKeeps(t: Transform, w: World, k: nat, pc: WorkerPc)
    requires Inv(t, w) && k in w.workers
    requires WorkerInv(t, w.workers[k].(pc := pc), w.minted, w.replicated)
    ensures Inv(t, SetWorker(w, k, pc))
  {
    hide WorkerInv, IsOriginal, ResponseInv, ValidSession;
  }

  lemma WorkerOf(t: Transform, w: World, k: nat)
    requires Inv(t, w) && k in w.workers
    ensures WorkerInv(t, w.workers[k], w.minted, w.replicated)
  {
  }

  lemma MatchEdgeKeeps(t: Transform, w: World, id: nat)
    requires Inv(t, w)
    ensures Inv(t, WorkerStep(t, w, MatchEdgeAct(id)))
  {
    if id in w.workers && w.workers[id].pc.Arrived? {
      var k := w.workers[id];
      if k.request.verb == Method.Get && (k.colo, k.request) in w.edge {
        assert ResponseInv(t, w.minted, k.request, w.edge[(k.colo, k.request)]);
      }
      SetWorkerKeeps(t, w, id, MatchEdge(w.edge, k));
    }
  }

  lemma FirstReadInv(t: Transform, w: World, k: Worker)
    requires ReadInv(t, w)
    ensures WorkerInv(t, k.(pc := FirstRead(w.r2, k)), w.minted, w.replicated)
  {
    hide Canonical, BuildVariantKey, ParseImageRequest;
    var parsed := ParseImageRequest(k.request);
    if parsed.Ok? {
      var p := parsed.value;
      ParsedKeyCanonical(k.request);
      if p.variant.None? {
        if FetchOriginal(w.r2, p).Some? { FetchedIsOriginal(t, w, p); }
      } else if BuildVariantKey(p.objectKey, p.variant.value, p.version) in w.r2 {
        StoredVariantIsExpected(t, w, p);
      }
    }
  }

  lemma FirstReadKeeps(t: Transform, w: World, id: nat)
    requires Inv(t, w)
    ensures Inv(t, WorkerStep(t, w, FirstReadAct(id)))
  {
    hide WorkerInv, FirstRead;
    if id in w.workers && w.workers[id].pc.EdgeMissed? {
      FirstReadInv(t, w, w.workers[id]);
      SetWorkerKeeps(t, w, id, FirstRead(w.r2, w.workers[id]));
    }
  }

  lemma SecondReadKeeps(t: Transform, w: World, id: nat)
    requires Inv(t, w)
    ensures Inv(t, WorkerStep(t, w, SecondReadAct(id)))
  {
    hide Canonical, BuildVariantKey, ParseImageRequest;
    if id in w.workers && w.workers[id].pc.VariantMissed? {
      var k := w.workers[id];
      var p := k.pc.parsed;
      assert WorkerInv(t, k, w.minted, w.replicated);
      ParsedKeyCanonical(k.request);
      if FetchOriginal(w.r2, p).Some? { FetchedIsOriginal(t, w, p); }
      SetWorkerKeeps(t, w, id, SecondRead(w.r2, p));
    }
  }

  /** Storing the transform of an original that was read under its version. */
  lemma PutVariantKeeps(t: Transform, w: World, id: nat, outcome: Outcome)
    requires Inv(t, w)
    ensures Inv(t, WorkerStep(t, w, PutVariantAct(id, outcome)))
  {
    hide Canonical, BuildVariantKey, ParseImageRequest, ValidSession, Stem;
    if id in w.workers && w.workers[id].pc.OriginalRead? {
      var k := w.workers[id];
      var p, o := k.pc.parsed, k.pc.original;
      assert WorkerInv(t, k, w.minted, w.replicated);
      var body := t(p.variant.value, o.body);
      var x := BuildVariantKey(p.objectKey, p.variant.value, p.version);
      var w1 := if Applied(outcome) then w.(r2 := w.r2[x := R2Object(body, Some(WEBP_CONTENT_TYPE), None)]) else w;
      if p.version.Some? {
        assert w.minted[p.version.value] == Replica(p.objectKey, o.body, o.contentType);
        assert IsVersionedVariant(t, x, R2Object(body, Some(WEBP_CONTENT_TYPE), None), w.minted);
      } else {
        assert IsPlainVariant(x, w.replicated);
      }
      VariantPutKeeps(t, w, w1, x);
      SetWorkerKeeps(t, w1, id,
        if outcome == Done then Built(Served(body, WEBP_CONTENT_TYPE, Miss, Images)) else Answered(Failed(500), false));
    }
  }

  lemma VariantPutKeeps(t: Transform, w: World, w1: World, x: string)
    requires Inv(t, w)
    requires w1 == w.(r2 := w1.r2) && w1.r2.Keys <= w.r2.Keys + {x} && w.r2.Keys <= w1.r2.Keys
    requires forall y | y in w.r2 && y != x :: w1.r2[y] == w.r2[y]
    requires x in w1.r2 ==>
      w1.r2 == w.r2 || IsPlainVariant(x, w.replicated) || IsVersionedVariant(t, x, w1.r2[x], w.minted)
    ensures Inv(t, w1)
  {
    hide IsOriginal, IsPlainVariant, IsVersionedVariant, WorkerInv, ResponseInv, ValidSession, TombstoneKey;
  }

  lemma WorkerFailsKeeps(t: Transform, w: World, id: nat, status: nat)
    requires Inv(t, w)
    ensures Inv(t, WorkerStep(t, w, WorkerFailsAct(id, status)))
  {
    if id in w.workers && !w.workers[id].pc.Answered? && status >= 500 {
      SetWorkerKeeps(t, w, id, Answered(Failed(status), false));
    }
  }

  lemma AnswerKeeps(t: Transform, w: World, id: nat)
    requires Inv(t, w)
    ensures Inv(t, WorkerStep(t, w, AnswerAct(id)))
  {
    hide Inv, ResponseInv;
    if id in w.workers && w.workers[id].pc.Built? {
      WorkerOf(t, w, id);
      SetWorkerKeeps(t, w, id, Answered(w.workers[id].pc.response, true));
    }
  }

  lemma EdgeEntryKeeps(t: Transform, w: World, e: (nat, ImageRequest), r: Response)
    requires Inv(t, w) && ResponseInv(t, w.minted, e.1, r)
    ensures Inv(t, w.(edge := w.edge[e := r]))
  {
    hide ResponseInv, R2Inv, SessionsInv, MissingInv, DeletesInv, SignedInv, WorkersInv;
  }

  lemma EdgePutKeeps(t: Transform, w: World, id: nat)
    requires Inv(t, w)
    ensures Inv(t, WorkerStep(t, w, EdgePutAct(id)))
  {
    hide Inv, ResponseInv;
    if id in w.workers && w.workers[id].pc.Answered? && w.workers[id].pc.edgePutPending {
      var k := w.workers[id];
      WorkerOf(t, w, id);
      EdgeEntryKeeps(t, w, (k.colo, k.request), k.pc.response);
      SetWorkerKeeps(t, w.(edge := w.edge[(k.colo, k.request) := k.pc.response]), id, Answered(k.pc.response, false));
    }
  }

  lemma EdgePutFailsKeeps(t: Transform, w: World, id: nat)
    requires Inv(t, w)
    ensures Inv(t, WorkerStep(t, w, EdgePutFailsAct(id)))
  {
    hide Inv, ResponseInv;
    if id in w.workers && w.workers[id].pc.Built? {
      var k := w.workers[id];
      WorkerOf(t, w, id);
      EdgeEntryKeeps(t, w, (k.colo, k.request), k.pc.response);
      assert ResponseInv(t, w.minted, k.request, Failed(500)) by { FailureIsFine(t, w.minted, k.request); }
      SetWorkerKeeps(t, w.(edge := w.edge[(k.colo, k.request) := k.pc.response]), id, Answered(Failed(500), false));
    }
  }

  lemma FailureIsFine(t: Transform, minted: map<string, Replica>, q: ImageRequest)
    ensures ResponseInv(t, minted, q, Failed(500))
  {
  }

  /** No step of any image request breaks the invariant. */
  lemma WorkerStepKeeps(t: Transform, w: World, a: Action)
    requires Inv(t, w)
    requires WorkerAction(a)
    ensures Inv(t, WorkerStep(t, w, a))
  {
    hide Inv, WorkerStep;
    match a
    case MatchEdgeAct(id) => MatchEdgeKeeps(t, w, id);
    case FirstReadAct(id) => FirstReadKeeps(t, w, id);
    case SecondReadAct(id) => SecondReadKeeps(t, w, id);
    case PutVariantAct(id, outcome) => PutVariantKeeps(t, w, id, outcome);
    case WorkerFailsAct(id, status) => WorkerFailsKeeps(t, w, id, status);
    case AnswerAct(id) => AnswerKeeps(t, w, id);
    case EdgePutAct(id) => EdgePutKeeps(t, w, id);
    case EdgePutFailsAct(id) => EdgePutFailsKeeps(t, w, id);
  }

  lemma ArriveKeeps(t: Transform, w: World, k: nat, colo: nat, r: ImageRequest)
    requires Inv(t, w) && k !in w.workers
    ensures Inv(t, w.(workers := w.workers[k := Worker(colo, r, Arrived)]))
  {
    hide ResponseInv, R2Inv, SessionsInv, MissingInv, DeletesInv, SignedInv, IsOriginal;
  }

  lemma EvictKeeps(t: Transform, w: World, e: (nat, ImageRequest))
    requires Inv(t, w)
    ensures Inv(t, w.(edge := w.edge - {e}))
  {
    hide ResponseInv, R2Inv, SessionsInv, MissingInv, DeletesInv, SignedInv, WorkersInv;
  }
}
