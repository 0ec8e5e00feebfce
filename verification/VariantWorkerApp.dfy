/** The Variant Worker's request handler as it runs, call by call (variant-worker/src/worker.ts). */
module VariantWorkers {
  import opened Wrappers
  import opened Variants
  import opened Requests
  import opened Storage
  import opened Worlds
  import opened Systems

  /** What `serveOriginal` and `serveVariant` return. */
  datatype ServeResult = ServeResult(body: Bytes, contentType: string, source: CacheSource)

  function Reply(s: ServeResult): Response { Served(s.body, s.contentType, Miss, s.source) }

  function Error(status: nat): WorkerPc { Answered(Failed(status), false) }

  /** Where a request stands when it was served, or an error was thrown. */
  function PcOf(r: Result<ServeResult, nat>): WorkerPc {
    if r.Ok? then Built(Reply(r.value)) else Error(r.error)
  }

  /** The world `w` but for these caches and the point where request `k` stands. */
  function At(w: World, k: nat, r2: R2Map, edge: EdgeMap, pc: WorkerPc): World
    requires k in w.workers
  {
    w.(r2 := r2, edge := edge, workers := w.workers[k := w.workers[k].(pc := pc)])
  }

  /** Only actions of request `k`. */
  predicate StepsOf(steps: seq<Action>, k: nat) {
    forall a | a in steps :: WorkerAction(a) && a.k == k
  }

  /** The steps are a run of request `k` alone that leads from `w` to `pc`. */
  ghost predicate Reached(t: Transform, w: World, k: nat, steps: seq<Action>, r2: R2Map, edge: EdgeMap, pc: WorkerPc) {
    k in w.workers && StepsOf(steps, k) && Run(t, w, steps) == At(w, k, r2, edge, pc)
  }

  lemma Step(t: Transform, w: World, k: nat, steps: seq<Action>, r2: R2Map, edge: EdgeMap, pc: WorkerPc,
             a: Action, r2': R2Map, edge': EdgeMap, pc': WorkerPc)
    requires Reached(t, w, k, steps, r2, edge, pc)
    requires WorkerAction(a) && a.k == k && WorkerStep(t, At(w, k, r2, edge, pc), a) == At(w, k, r2', edge', pc')
    ensures Reached(t, w, k, steps + [a], r2', edge', pc')
  {
    hide WorkerStep, At, Apply;
    WorkerIsApplied(t, Run(t, w, steps), a);
    var all := steps + [a];
    assert all[..|all| - 1] == steps;
  }

  lemma MatchEdgeStep(t: Transform, w: World, k: nat, r2: R2Map, edge: EdgeMap)
    requires k in w.workers && w.workers[k].pc == Arrived
    ensures WorkerStep(t, At(w, k, r2, edge, Arrived), MatchEdgeAct(k))
         == At(w, k, r2, edge, MatchEdge(edge, w.workers[k]))
  {
    hide MatchEdge;
    assert At(w, k, r2, edge, Arrived).workers[k] == w.workers[k];
  }

  lemma FirstReadStep(t: Transform, w: World, k: nat, r2: R2Map, edge: EdgeMap)
    requires k in w.workers
    ensures WorkerStep(t, At(w, k, r2, edge, EdgeMissed), FirstReadAct(k))
         == At(w, k, r2, edge, FirstRead(r2, w.workers[k].(pc := EdgeMissed)))
  {
    hide FirstRead;
  }

  lemma SecondReadStep(t: Transform, w: World, k: nat, r2: R2Map, edge: EdgeMap, p: ParsedRequest)
    requires k in w.workers
    ensures WorkerStep(t, At(w, k, r2, edge, VariantMissed(p)), SecondReadAct(k))
         == At(w, k, r2, edge, SecondRead(r2, p))
  {
    hide SecondRead;
  }

  lemma PutVariantStep(t: Transform, w: World, k: nat, r2: R2Map, edge: EdgeMap, p: ParsedRequest, o: R2Object,
                       outcome: Outcome)
    requires k in w.workers && p.variant.Some?
    ensures var body := t(p.variant.value, o.body);
      var stored :=
        r2[BuildVariantKey(p.objectKey, p.variant.value, p.version) := R2Object(body, Some(WEBP_CONTENT_TYPE), None)];
      WorkerStep(t, At(w, k, r2, edge, OriginalRead(p, o)), PutVariantAct(k, outcome))
        == At(w, k, if Applied(outcome) then stored else r2, edge,
              if outcome == Done then Built(Reply(ServeResult(body, WEBP_CONTENT_TYPE, Images))) else Error(500))
  {
    hide BuildVariantKey;
  }

  lemma FailStep(t: Transform, w: World, k: nat, r2: R2Map, edge: EdgeMap, pc: WorkerPc, status: nat)
    requires k in w.workers && !pc.Answered? && status >= 500
    ensures WorkerStep(t, At(w, k, r2, edge, pc), WorkerFailsAct(k, status)) == At(w, k, r2, edge, Error(status))
  {
  }

  lemma AnswerStep(t: Transform, w: World, k: nat, r2: R2Map, edge: EdgeMap, r: Response)
    requires k in w.workers
    ensures WorkerStep(t, At(w, k, r2, edge, Built(r)), AnswerAct(k)) == At(w, k, r2, edge, Answered(r, true))
  {
  }

  lemma EdgePutStep(t: Transform, w: World, k: nat, r2: R2Map, edge: EdgeMap, r: Response)
    requires k in w.workers
    ensures WorkerStep(t, At(w, k, r2, edge, Answered(r, true)), EdgePutAct(k))
         == At(w, k, r2, edge[(w.workers[k].colo, w.workers[k].request) := r], Answered(r, false))
  {
  }

  lemma EdgePutFailsStep(t: Transform, w: World, k: nat, r2: R2Map, edge: EdgeMap, r: Response)
    requires k in w.workers
    ensures WorkerStep(t, At(w, k, r2, edge, Built(r)), EdgePutFailsAct(k))
         == At(w, k, r2, edge[(w.workers[k].colo, w.workers[k].request) := r], Error(500))
  {
  }

  /** How the remote calls of one request end. */
  datatype WorkerCalls = WorkerCalls(
    matchFails: bool, firstReadFails: bool, secondReadFails: bool, noBody: bool, putFails: bool, putApplied: bool,
    edgeThrows: bool, edgeStores: bool)

  predicate Undisturbed(c: WorkerCalls) {
    !c.matchFails && !c.firstReadFails && !c.secondReadFails && !c.noBody && !c.putFails && !c.edgeThrows
  }

  /** No step is a failure. */
  predicate NoFailures(steps: seq<Action>) {
    forall a | a in steps :: !a.WorkerFailsAct? && !a.EdgePutFailsAct? && (a.PutVariantAct? ==> a.outcome == Done)
  }

  class VariantWorker {
    var r2: R2Map
    var edge: EdgeMap
    const colo: nat
    const hasCache: bool
    const transform: Transform

    constructor (colo: nat, hasCache: bool, transform: Transform)
      ensures this.colo == colo && this.hasCache == hasCache && this.transform == transform
      ensures r2 == map[] && edge == map[] && Valid()
    {
      this.colo, this.hasCache, this.transform := colo, hasCache, transform;
      r2, edge := map[], map[];
    }

    /** Without a cache binding nothing is ever cached. */
    ghost predicate Valid()
      reads this
    {
      !hasCache ==> edge == map[]
    }

    /** Request `k` of `w` is this request, at this data centre, and has just arrived. */
    ghost predicate Receives(w: World, k: nat, request: ImageRequest) {
      k in w.workers && w.workers[k] == Worker(colo, request, Arrived)
    }

    /** In whatever world the request arrives, handling it is a run of the transition system
        that takes only steps of this request and ends with it answered; no step fails unless a
        remote call does. */
    method HandleRequest(request: ImageRequest, calls: WorkerCalls, ghost w: World, ghost k: nat)
      returns (response: Response, ghost steps: seq<Action>, ghost pending: bool)
      requires Valid() && Receives(w, k, request) && w.r2 == r2 && w.edge == edge
      modifies this
      ensures Valid()
      ensures Reached(transform, w, k, steps, r2, edge, Answered(response, pending))
      ensures Undisturbed(calls) ==> NoFailures(steps)
      ensures hasCache && calls.edgeStores ==> !pending
      ensures response.Served? ==>
        if old((colo, request) in edge) then response.cacheStatus == Hit && response.source == Edge
        else response.cacheStatus == Miss && response.source in [R2, Images]
    {
      hide At, Reached, FirstRead, SecondRead, WorkerStep;
      steps, pending := [MatchEdgeAct(k)], false;
      Begin(w, k);
      if request.verb != Method.Get {
        return Failed(405), steps, pending;
      }
      if hasCache && calls.matchFails {
        steps := [WorkerFailsAct(k, 500)];
        FailAtOnce(w, k);
        return Failed(500), steps, pending;
      }
      if hasCache && (colo, request) in edge {
        return WithCacheStatus(edge[(colo, request)], Hit, Edge), steps, pending;
      }
      ghost var more;
      var served;
      served, more := Serve(request, calls, w, k, steps);
      steps := more;
      if served.Err? {
        return Failed(served.error), steps, pending;
      }
      response := Reply(served.value);
      if hasCache && calls.edgeThrows && calls.edgeStores {
        EdgePutFailsStep(transform, w, k, r2, edge, response);
        Step(transform, w, k, steps, r2, edge, Built(response), EdgePutFailsAct(k), r2,
             edge[(colo, request) := response], Error(500));
        edge := edge[(colo, request) := response];
        return Failed(500), steps + [EdgePutFailsAct(k)], pending;
      }
      if hasCache && calls.edgeThrows {
        FailStep(transform, w, k, r2, edge, Built(response), 500);
        Step(transform, w, k, steps, r2, edge, Built(response), WorkerFailsAct(k, 500), r2, edge, Error(500));
        return Failed(500), steps + [WorkerFailsAct(k, 500)], pending;
      }
      AnswerStep(transform, w, k, r2, edge, response);
      Step(transform, w, k, steps, r2, edge, Built(response), AnswerAct(k), r2, edge, Answered(response, true));
      steps, pending := steps + [AnswerAct(k)], true;
      if hasCache && calls.edgeStores {
        EdgePutStep(transform, w, k, r2, edge, response);
        Step(transform, w, k, steps, r2, edge, Answered(response, true), EdgePutAct(k), r2,
             edge[(colo, request) := response], Answered(response, false));
        edge := edge[(colo, request) := response];
        steps, pending := steps + [EdgePutAct(k)], false;
      }
    }

    lemma Begin(w: World, k: nat)
      requires k in w.workers && w.workers[k].pc.Arrived? && w.r2 == r2 && w.edge == edge
      ensures Reached(transform, w, k, [MatchEdgeAct(k)], r2, edge, MatchEdge(edge, w.workers[k]))
    {
      hide MatchEdge, WorkerStep;
      assert At(w, k, r2, edge, Arrived) == w;
      MatchEdgeStep(transform, w, k, r2, edge);
      Step(transform, w, k, [], r2, edge, Arrived, MatchEdgeAct(k), r2, edge, MatchEdge(edge, w.workers[k]));
      assert [] + [MatchEdgeAct(k)] == [MatchEdgeAct(k)];
    }

    /** The edge cache throws when asked. */
    lemma FailAtOnce(w: World, k: nat)
      requires k in w.workers && w.workers[k].pc.Arrived? && w.r2 == r2 && w.edge == edge
      ensures Reached(transform, w, k, [WorkerFailsAct(k, 500)], r2, edge, Error(500))
    {
      hide WorkerStep;
      assert At(w, k, r2, edge, Arrived) == w;
      FailStep(transform, w, k, r2, edge, Arrived, 500);
      Step(transform, w, k, [], r2, edge, Arrived, WorkerFailsAct(k, 500), r2, edge, Error(500));
      assert [] + [WorkerFailsAct(k, 500)] == [WorkerFailsAct(k, 500)];
    }

    /** After an edge miss: parse, then serve the original or the variant. */
    method Serve(request: ImageRequest, calls: WorkerCalls, ghost w: World, ghost k: nat, ghost steps: seq<Action>)
      returns (r: Result<ServeResult, nat>, ghost more: seq<Action>)
      requires k in w.workers && w.workers[k].request == request
      requires Reached(transform, w, k, steps, r2, edge, EdgeMissed)
      modifies this`r2
      ensures r.Ok? ==> r.value.source in [R2, Images]
      ensures Reached(transform, w, k, more, r2, edge, PcOf(r))
      ensures Undisturbed(calls) && NoFailures(steps) ==> NoFailures(more)
    {
      hide At, Reached, WorkerStep, SecondRead, BuildVariantKey, ParseImageRequest;
      ghost var pc := FirstRead(r2, w.workers[k].(pc := EdgeMissed));
      FirstReadStep(transform, w, k, r2, edge);
      Step(transform, w, k, steps, r2, edge, EdgeMissed, FirstReadAct(k), r2, edge, pc);
      more := steps + [FirstReadAct(k)];
      var parsed := ParseImageRequest(request);
      if parsed.Err? {
        return Err(400), more;
      }
      if calls.firstReadFails {
        FailStep(transform, w, k, r2, edge, EdgeMissed, 500);
        Step(transform, w, k, steps, r2, edge, EdgeMissed, WorkerFailsAct(k, 500), r2, edge, Error(500));
        return Err(500), steps + [WorkerFailsAct(k, 500)];
      }
      var p := parsed.value;
      if p.variant.None? {
        r := ServeOriginal(p.objectKey, p.version);
      } else {
        var variantKey := BuildVariantKey(p.objectKey, p.variant.value, p.version);
        if variantKey in r2 {
          return Ok(ServeResult(r2[variantKey].body, WEBP_CONTENT_TYPE, R2)), more;
        }
        r, more := TransformAndStore(p, variantKey, calls, w, k, more);
      }
    }

    /** `serveOriginal` on an R2 that answers. */
    method ServeOriginal(objectKey: string, version: Option<string>) returns (r: Result<ServeResult, nat>)
      ensures r.Ok? <==> objectKey in r2 && (version.Some? ==> r2[objectKey].cacheVersion == version)
      ensures r.Ok? ==> r.value == ServeResult(r2[objectKey].body, OriginalContentType(r2[objectKey].contentType), R2)
      ensures r.Err? ==> r.error == 404
    {
      if objectKey !in r2 || !VersionMatches(r2[objectKey], version) {
        return Err(404);
      }
      return Ok(ServeResult(r2[objectKey].body, OriginalContentType(r2[objectKey].contentType), R2));
    }

    /** The second half of `serveVariant`: read the original, transform it, persist the result. */
    method TransformAndStore(p: ParsedRequest, variantKey: string, calls: WorkerCalls, ghost w: World, ghost k: nat,
                             ghost steps: seq<Action>)
      returns (r: Result<ServeResult, nat>, ghost more: seq<Action>)
      requires p.variant.Some? && variantKey == BuildVariantKey(p.objectKey, p.variant.value, p.version)
      requires k in w.workers
      requires Reached(transform, w, k, steps, r2, edge, VariantMissed(p))
      modifies this`r2
      ensures r.Ok? ==> r.value.source == Images
      ensures Reached(transform, w, k, more, r2, edge, PcOf(r))
      ensures Undisturbed(calls) && NoFailures(steps) ==> NoFailures(more)
    {
      hide At, Reached, WorkerStep, BuildVariantKey;
      if calls.secondReadFails {
        FailStep(transform, w, k, r2, edge, VariantMissed(p), 500);
        Step(transform, w, k, steps, r2, edge, VariantMissed(p), WorkerFailsAct(k, 500), r2, edge, Error(500));
        return Err(500), steps + [WorkerFailsAct(k, 500)];
      }
      SecondReadStep(transform, w, k, r2, edge, p);
      Step(transform, w, k, steps, r2, edge, VariantMissed(p), SecondReadAct(k), r2, edge, SecondRead(r2, p));
      more := steps + [SecondReadAct(k)];
      if p.objectKey !in r2 || !VersionMatches(r2[p.objectKey], p.version) {
        return Err(404), more;
      }
      r, more := PutTransformed(p, variantKey, r2[p.objectKey], calls, w, k, more);
    }

    method PutTransformed(p: ParsedRequest, variantKey: string, original: R2Object, calls: WorkerCalls, ghost w: World,
                          ghost k: nat, ghost steps: seq<Action>)
      returns (r: Result<ServeResult, nat>, ghost more: seq<Action>)
      requires p.variant.Some? && variantKey == BuildVariantKey(p.objectKey, p.variant.value, p.version)
      requires k in w.workers
      requires Reached(transform, w, k, steps, r2, edge, OriginalRead(p, original))
      modifies this`r2
      ensures r.Ok? ==> r.value.source == Images
      ensures Reached(transform, w, k, more, r2, edge, PcOf(r))
      ensures Undisturbed(calls) && NoFailures(steps) ==> NoFailures(more)
    {
      hide At, Reached, WorkerStep, BuildVariantKey;
      if calls.noBody {
        FailStep(transform, w, k, r2, edge, OriginalRead(p, original), 502);
        Step(transform, w, k, steps, r2, edge, OriginalRead(p, original), WorkerFailsAct(k, 502), r2, edge, Error(502));
        return Err(502), steps + [WorkerFailsAct(k, 502)];
      }
      var body := transform(p.variant.value, original.body);
      var variant := R2Object(body, Some(WEBP_CONTENT_TYPE), None);
      ghost var outcome := if !calls.putFails then Done else if calls.putApplied then FailedAfter else FailedBefore;
      ghost var before := r2;
      if !calls.putFails || calls.putApplied {
        r2 := r2[variantKey := variant];
      }
      r := if calls.putFails then Err(500) else Ok(ServeResult(body, WEBP_CONTENT_TYPE, Images));
      PutVariantStep(transform, w, k, before, edge, p, original, outcome);
      Step(transform, w, k, steps, before, edge, OriginalRead(p, original), PutVariantAct(k, outcome), r2, edge,
           PcOf(r));
      more := steps + [PutVariantAct(k, outcome)];
    }
  }
}
