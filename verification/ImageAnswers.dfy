/** What every image request is answered when none of its calls fails. */
module ImageAnswers {
  import opened Wrappers
  import opened Variants
  import opened Requests
  import opened RequestTexts
  import opened Storage
  import opened Worlds
  import opened Systems
  import opened VariantWorkers
  import opened PublicUrls
  import opened Staleness

  /** R2 holds the original, under the version if one is asked for. */
  predicate HoldsOriginal(r2: R2Map, p: ParsedRequest) {
    p.objectKey in r2 && (p.version.Some? ==> r2[p.objectKey].cacheVersion == p.version)
  }

  /** Where the variant that is asked for is persisted. */
  function VariantKey(p: ParsedRequest): string
    requires p.variant.Some?
  {
    BuildVariantKey(p.objectKey, p.variant.value, p.version)
  }

  /** The variant has to be made. */
  predicate IsMade(r2: R2Map, p: ParsedRequest) {
    p.variant.Some? && VariantKey(p) !in r2 && HoldsOriginal(r2, p)
  }

  /** The answer out of R2 to a request that asks for `p`. */
  function AnswerFrom(t: Transform, r2: R2Map, p: ParsedRequest): Response {
    if IsMade(r2, p) then Served(t(p.variant.value, r2[p.objectKey].body), "image/webp", Miss, Images)
    else if p.variant.Some? && VariantKey(p) in r2 then Served(r2[VariantKey(p)].body, "image/webp", Miss, R2)
    else if p.variant.None? && HoldsOriginal(r2, p) then
      var o := r2[p.objectKey];
      Served(o.body, if o.contentType.Some? then o.contentType.value else "application/octet-stream", Miss, R2)
    else Failed(404)
  }

  /** R2 afterwards: a variant that was made is persisted. */
  function AfterAnswer(t: Transform, r2: R2Map, p: ParsedRequest): R2Map {
    if IsMade(r2, p)
    then r2[VariantKey(p) := R2Object(t(p.variant.value, r2[p.objectKey].body), Some("image/webp"), None)]
    else r2
  }

  /** An answer out of the edge cache. */
  function FromEdge(r: Response): Response { if r.Served? then Served(r.body, r.contentType, Hit, Edge) else r }

  /** The request has been answered so, and R2 is as given. */
  ghost predicate Answers(w: World, w1: World, id: nat, r: Response, r2: R2Map) {
    && id in w.workers && id in w1.workers
    && w1 == w.(r2 := r2, workers := w1.workers) && w1.workers == w.workers[id := w1.workers[id]]
    && w1.workers[id] == w.workers[id].(pc := w1.workers[id].pc)
    && w1.workers[id].pc.Answered? && w1.workers[id].pc.response == r
  }

  /** A request that arrives and meets no failure is answered 405 if it is no GET; else from the
      edge cache, if that has it; else 400 if its URL asks for nothing; and else from R2, which
      then holds the variant if it was made. */
  lemma UndisturbedAnswer(t: Transform, w: World, id: nat)
    requires id in w.workers && w.workers[id].pc.Arrived?
    ensures var q := w.workers[id].request;
      var e := (w.workers[id].colo, q);
      var w1 := RequestServed(t, w, id);
      if q.verb != Method.Get then Answers(w, w1, id, Failed(405), w.r2)
      else if e in w.edge then Answers(w, w1, id, FromEdge(w.edge[e]), w.r2)
      else if exists p :: AsksFor(q, p) then
        exists p :: AsksFor(q, p) && Answers(w, w1, id, AnswerFrom(t, w.r2, p), AfterAnswer(t, w.r2, p))
      else Answers(w, w1, id, Failed(400), w.r2)
  {
    hide WorkerStep, VariantServed, AsksFor, ParseImageRequest, MatchEdge, FirstRead, Answers, AnswerFrom, AfterAnswer;
    var q := w.workers[id].request;
    ArrivedAt(w, id);
    MatchEdgeStep(t, w, id, w.r2, w.edge);
    EdgeAnswers(t, w, id);
    forall p ensures ParseImageRequest(q) == Ok(p) <==> AsksFor(q, p) { ParseExactly(q, p); }
    if q.verb == Method.Get && (w.workers[id].colo, q) !in w.edge {
      if ParseImageRequest(q).Ok? {
        R2Answers(t, w, id, ParseImageRequest(q).value);
      } else {
        NothingAsked(t, w, id);
      }
    }
  }

  /** A put of a variant that fails is answered 500, whether or not it stored the variant. */
  lemma FailedPutAnswer(t: Transform, w: World, id: nat, p: ParsedRequest, o: R2Object, outcome: Outcome)
    requires id in w.workers && w.workers[id].pc == OriginalRead(p, o) && p.variant.Some? && outcome != Done
    ensures var variant := R2Object(t(p.variant.value, o.body), Some("image/webp"), None);
      Answers(w, WorkerStep(t, w, PutVariantAct(id, outcome)), id, Failed(500),
        if outcome == FailedAfter then w.r2[VariantKey(p) := variant] else w.r2)
  {
    hide BuildVariantKey;
  }

  /** What the edge cache and the method decide. */
  lemma EdgeAnswers(t: Transform, w: World, id: nat)
    requires id in w.workers && w.workers[id].pc.Arrived?
    ensures var q := w.workers[id].request;
      var e := (w.workers[id].colo, q);
      var w1 := RequestServed(t, w, id);
      if q.verb != Method.Get then Answers(w, w1, id, Failed(405), w.r2)
      else if e in w.edge then Answers(w, w1, id, FromEdge(w.edge[e]), w.r2)
      else w1 == VariantServed(t, Missed(w, id), id)
  {
    hide WorkerStep, VariantServed;
    var k := w.workers[id];
    ArrivedAt(w, id);
    MatchEdgeStep(t, w, id, w.r2, w.edge);
    if k.request.verb != Method.Get {
      AnsweredStays(t, w, id, w.r2, w.edge, Failed(405), false);
    } else if (k.colo, k.request) in w.edge {
      AnsweredStays(t, w, id, w.r2, w.edge, FromEdge(w.edge[(k.colo, k.request)]), false);
    }
  }

  lemma NothingAsked(t: Transform, w: World, id: nat)
    requires id in w.workers && ParseImageRequest(w.workers[id].request).Err?
    ensures Answers(w, VariantServed(t, Missed(w, id), id), id, Failed(400), w.r2)
  {
    hide ParseImageRequest, WorkerStep, Answers, At;
    MissedIsAt(w, id);
    FirstReadStep(t, w, id, w.r2, w.edge);
    ErrorAnswer(t, w, id, 400);
  }

  lemma AtAnswers(w: World, id: nat, r2: R2Map, r: Response, pending: bool)
    requires id in w.workers
    ensures Answers(w, At(Missed(w, id), id, r2, w.edge, Answered(r, pending)), id, r, r2)
  {
  }

  lemma R2Answers(t: Transform, w: World, id: nat, p: ParsedRequest)
    requires id in w.workers && ParseImageRequest(w.workers[id].request) == Ok(p)
    ensures Answers(w, VariantServed(t, Missed(w, id), id), id, AnswerFrom(t, w.r2, p), AfterAnswer(t, w.r2, p))
  {
    hide ParseImageRequest, WorkerStep, VariantKey, BuildVariantKey, FirstRead, Answers, At, HoldsOriginal;
    var w0 := Missed(w, id);
    var r := AnswerFrom(t, w.r2, p);
    FirstReadExactly(w.r2, w0.workers[id], p);
    FirstReadStep(t, w, id, w.r2, w.edge);
    assert At(w, id, w.r2, w.edge, EdgeMissed) == w0 by { MissedIsAt(w, id); }
    if p.variant.Some? && VariantKey(p) !in w.r2 {
      if HoldsOriginal(w.r2, p) {
        MadeAnswer(t, w, id, p);
      } else {
        NotFound(t, w, id, p);
      }
    } else if r.Served? {
      BuiltAnswer(t, w, id, r);
    } else {
      ErrorAnswer(t, w, id, 404);
    }
  }

  lemma MissedIsAt(w: World, id: nat)
    requires id in w.workers
    ensures At(w, id, w.r2, w.edge, EdgeMissed) == Missed(w, id)
    ensures forall pc :: At(w, id, w.r2, w.edge, pc) == At(Missed(w, id), id, w.r2, w.edge, pc)
  {
  }

  lemma BuiltAnswer(t: Transform, w: World, id: nat, r: Response)
    requires id in w.workers
    requires WorkerStep(t, Missed(w, id), FirstReadAct(id)) == At(w, id, w.r2, w.edge, Built(r))
    ensures Answers(w, VariantServed(t, Missed(w, id), id), id, r, w.r2)
  {
    hide WorkerStep, Answers, At;
    MissedIsAt(w, id);
    ServedFromR2(t, Missed(w, id), id, r);
    AtAnswers(w, id, w.r2, r, true);
  }

  lemma ErrorAnswer(t: Transform, w: World, id: nat, status: nat)
    requires id in w.workers
    requires WorkerStep(t, Missed(w, id), FirstReadAct(id)) == At(w, id, w.r2, w.edge, Error(status))
    ensures Answers(w, VariantServed(t, Missed(w, id), id), id, Failed(status), w.r2)
  {
    hide WorkerStep, Answers, At;
    MissedIsAt(w, id);
    ErrorStays(t, w, id, w.r2, w.edge, status);
    AtAnswers(w, id, w.r2, Failed(status), false);
  }

  /** Neither the variant nor the original is there. */
  lemma NotFound(t: Transform, w: World, id: nat, p: ParsedRequest)
    requires id in w.workers && !HoldsOriginal(w.r2, p)
    requires WorkerStep(t, Missed(w, id), FirstReadAct(id)) == At(w, id, w.r2, w.edge, VariantMissed(p))
    ensures Answers(w, VariantServed(t, Missed(w, id), id), id, Failed(404), w.r2)
  {
    hide WorkerStep, Answers, At;
    MissedIsAt(w, id);
    SecondReadStep(t, w, id, w.r2, w.edge, p);
    ErrorStays(t, w, id, w.r2, w.edge, 404);
    AtAnswers(w, id, w.r2, Failed(404), false);
  }

  lemma FirstReadExactly(r2: R2Map, k: Worker, p: ParsedRequest)
    requires ParseImageRequest(k.request) == Ok(p)
    ensures FirstRead(r2, k) ==
      if p.variant.Some? && VariantKey(p) !in r2 then VariantMissed(p)
      else if p.variant.None? && !HoldsOriginal(r2, p) then Error(404)
      else Built(AnswerFrom((v, body) => body, r2, p))
  {
    hide ParseImageRequest, BuildVariantKey;
  }

  lemma MadeAnswer(t: Transform, w: World, id: nat, p: ParsedRequest)
    requires id in w.workers && IsMade(w.r2, p)
    requires WorkerStep(t, Missed(w, id), FirstReadAct(id)) == At(w, id, w.r2, w.edge, VariantMissed(p))
    ensures Answers(w, VariantServed(t, Missed(w, id), id), id, AnswerFrom(t, w.r2, p), AfterAnswer(t, w.r2, p))
  {
    hide WorkerStep, BuildVariantKey;
    ServedByTransform(t, Missed(w, id), id, p, w.r2[p.objectKey]);
  }
}
