/** Over all that can follow: which returned URLs are ever answered. */
module UrlLives {
  import opened Wrappers
  import opened Errors
  import opened ObjectKeys
  import opened ContentTypes
  import opened Variants
  import opened Requests
  import opened RequestTexts
  import opened Sessions
  import opened Storage
  import opened Worlds
  import opened Handlers
  import opened Systems
  import opened Frames
  import opened Invariants
  import opened WriteSteps
  import opened ReadPath
  import opened UploadPath
  import opened UploadScope
  import opened UploadOutcomes
  import opened VariantWorkers
  import opened PublicUrls
  import opened Bystanders
  import opened DeleteRuns
  import opened Progress
  import opened Staleness

  // ---------- a version that will never be replicated ----------

  /** The ULID was handed out, nothing was replicated under it, and no session will. */
  predicate Spent(w: World, u: string) { u in w.issued && u !in w.minted && u !in w.sessions }

  lemma FinalizeSpent(t: Transform, w: World, h: Headers, v: string, f: FinalizeFaults, u: string)
    requires Inv(t, w) && Spent(w, u)
    ensures Spent(FinalizeUpload(w, h, v, f).0, u)
  {
    hide Inv, FinalizeUpload, ValidSession;
    FinalizeFrame(w, h, v, f);
    FinalizeSessions(t, w, h, v, f);
    FinalizeIssued(t, w, h, v, f);
    if v in w.sessions { SessionOfId(t, w, v); }
  }

  lemma IngestSpent(w: World, key: string, source: Result<Source, ErrorCode>, rt: Option<string>,
                    write: WriteOutcome, version: string, put: Outcome, u: string)
    requires Spent(w, u) && version !in w.issued
    ensures Spent(IngestObject(w, key, source, rt, write, version, put).0, u)
  {
    hide IngestObject;
    IngestFrame(w, key, source, rt, write, version, put);
    IngestLog(w, key, source, rt, write, version, put);
  }

  lemma PresignSpent(w: World, h: Headers, r: PresignRequest, v: string, ttl: int, f: PresignFaults, u: string)
    requires Spent(w, u) && v !in w.issued
    ensures Spent(Presign(w, h, r, v, ttl, f).0, u)
  {
    hide CheckPresign, ProductOf, AuctionHouseOf;
  }

  lemma CancelSpent(w: World, h: Headers, v: string, f: CancelFaults, u: string)
    requires Spent(w, u)
    ensures Spent(CancelUpload(w, h, v, f).0, u)
  {
    hide CancelUpload;
    CancelTouches(w, h, v, f);
    CancelWorld(w, h, v, f);
  }

  lemma ReconcileSpent(w: World, key: string, u: string)
    requires Spent(w, u)
    ensures Spent(Reconcile(w, key), u)
  {
    hide Canonical;
  }

  lemma DeleteSpent(w: World, a: Action, u: string)
    requires DeleteAction(a) && Spent(w, u)
    ensures Spent(DeleteStep(w, a), u)
  {
    hide DeleteStep, Shrinks;
    NoDelete(w, a);
    if a.d in w.deletes { DeleteStepFrame(w, a); }
  }

  lemma WorkerSpent(t: Transform, w: World, a: Action, u: string)
    requires WorkerAction(a) && Spent(w, u)
    ensures Spent(WorkerStep(t, w, a), u)
  {
    hide WorkerStep;
    WorkerLog(t, w, a);
    WorkerRemembers(t, w, a);
    WorkerMinted(t, w, a);
  }

  lemma WorkerMinted(t: Transform, w: World, a: Action)
    requires WorkerAction(a)
    ensures WorkerStep(t, w, a).minted == w.minted
  {
    hide MatchEdge, FirstRead, SecondRead, BuildVariantKey;
  }

  lemma ApplySpent(t: Transform, w: World, a: Action, u: string)
    requires Inv(t, w) && Spent(w, u)
    ensures Spent(Apply(t, w, a), u)
  {
    hide Inv, Spent, DeleteStep, WorkerStep;
    if DeleteAction(a) {
      DeleteSpent(w, a, u);
    } else if WorkerAction(a) {
      WorkerSpent(t, w, a, u);
    } else {
      WriteSpent(t, w, a, u);
    }
  }

  lemma WriteSpent(t: Transform, w: World, a: Action, u: string)
    requires Inv(t, w) && Spent(w, u) && !DeleteAction(a) && !WorkerAction(a)
    ensures Spent(Apply(t, w, a), u)
  {
    hide Inv, Spent, FinalizeUpload, CancelUpload, Presign, IngestObject, Reconcile, StartDelete, ClientPut, IsUlid;
    match a {
      case FinalizeAct(h, v, f) => FinalizeSpent(t, w, h, v, f, u);
      case CancelAct(h, v, f) => CancelSpent(w, h, v, f, u);
      case PresignAct(h, r, v, ttl, f) => if FreshUlid(w, v) { PresignSpent(w, h, r, v, ttl, f, u); }
      case IngestAct(key, source, rt, write, version, put) =>
        if FreshUlid(w, version) { IngestSpent(w, key, source, rt, write, version, put, u); }
      case ReconcileAct(key) => ReconcileSpent(w, key, u);
      case ClientPutAct(v, body, ct) => ClientPutOnlyGcs(w, v, body, ct); SameSpent(w, Apply(t, w, a), u);
      case _ => SameSpent(w, Apply(t, w, a), u);
    }
  }

  lemma SameSpent(w: World, w1: World, u: string)
    requires Spent(w, u) && w1.issued == w.issued && w1.minted == w.minted && w1.sessions.Keys <= w.sessions.Keys
    ensures Spent(w1, u)
  {
  }

  lemma {:induction false} RunSpent(t: Transform, w: World, actions: seq<Action>, u: string)
    requires Inv(t, w) && Spent(w, u)
    ensures Spent(Run(t, w, actions), u) && Inv(t, Run(t, w, actions))
    decreases |actions|
  {
    hide Inv, Spent, Apply;
    RunKeeps(t, w, actions);
    if actions != [] {
      var front := actions[..|actions| - 1];
      RunSpent(t, w, front, u);
      ApplySpent(t, Run(t, w, front), actions[|actions| - 1], u);
    }
  }

  /** Whatever follows, repairs by reconciliation and uploads of the key under other versions
      included: no request under a spent version is ever answered 200. */
  lemma SpentIsDead(t: Transform, w: World, u: string, more: seq<Action>, k: nat, q: ImageRequest,
                    body: Bytes, contentType: string)
    requires Inv(t, w) && Spent(w, u) && InVersion(q, u)
    ensures !AnsweredOk(Run(t, w, more), k, q, body, contentType)
  {
    hide Inv, Run, ParseImageRequest, Stem, AnsweredOk, InVersion;
    RunSpent(t, w, more, u);
    if AnsweredOk(Run(t, w, more), k, q, body, contentType) {
      AnswerIsVersioned(t, Run(t, w, more), k, q, body, contentType);
      VersionIsInPath(q, u);
      assert false;
    }
  }

  // ---------- a version that was replicated ----------

  lemma FreshNat(s: set<nat>) returns (n: nat)
    ensures n !in s && forall x | x in s :: x < n
    decreases |s|
  {
    if s == {} {
      n := 0;
    } else {
      var x :| x in s;
      var m := FreshNat(s - {x});
      assert s == (s - {x}) + {x};
      n := if m > x then m else x + 1;
    }
  }

  lemma FreshColo(edge: EdgeMap) returns (colo: nat)
    ensures forall e | e in edge :: e.0 != colo
  {
    var colos := set e | e in edge :: e.0;
    colo := FreshNat(colos);
    assert forall e | e in edge :: e.0 in colos;
  }

  /** While R2 reads this answer to a request, some request gets it. */
  lemma ReadIsAnswered(t: Transform, w: World, q: ImageRequest, body: Bytes, contentType: string)
    returns (more: seq<Action>, id: nat)
    requires q.verb == Method.Get && forall colo :: Reads(w.r2, colo, q, body, contentType)
    ensures AnsweredOk(Run(t, w, more), id, q, body, contentType)
  {
    hide WorkerStep, FirstRead, Apply, Run, At;
    id := FreshNat(w.workers.Keys);
    var colo := FreshColo(w.edge);
    assert (colo, q) !in w.edge;
    var w1 := w.(workers := w.workers[id := Worker(colo, q, Arrived)]);
    var r := Served(body, contentType, Miss, R2);
    assert Reads(w.r2, colo, q, body, contentType);
    ReadSteps(t, w1, id, r);
    ArriveIsApplied(t, w, id, colo, q);
    var w2, w3 := At(w1, id, w1.r2, w1.edge, EdgeMissed), At(w1, id, w1.r2, w1.edge, Built(r));
    WorkerIsApplied(t, w1, MatchEdgeAct(id));
    WorkerIsApplied(t, w2, FirstReadAct(id));
    WorkerIsApplied(t, w3, AnswerAct(id));
    more := [ArriveAct(id, colo, q), MatchEdgeAct(id), FirstReadAct(id), AnswerAct(id)];
    RunFour(t, w, ArriveAct(id, colo, q), MatchEdgeAct(id), FirstReadAct(id), AnswerAct(id));
    assert Run(t, w, more) == At(w1, id, w1.r2, w1.edge, Answered(r, true));
    AnsweredAt(w1, id, r);
  }

  lemma AnsweredAt(w: World, id: nat, r: Response)
    requires id in w.workers && r.Served?
    ensures AnsweredOk(At(w, id, w.r2, w.edge, Answered(r, true)), id, w.workers[id].request, r.body, r.contentType)
  {
  }

  /** The three steps of a request that finds its answer at the first read. */
  lemma ReadSteps(t: Transform, w: World, id: nat, r: Response)
    requires id in w.workers && w.workers[id].pc.Arrived? && w.workers[id].request.verb == Method.Get
    requires (w.workers[id].colo, w.workers[id].request) !in w.edge
    requires FirstRead(w.r2, w.workers[id].(pc := EdgeMissed)) == Built(r)
    ensures WorkerStep(t, w, MatchEdgeAct(id)) == At(w, id, w.r2, w.edge, EdgeMissed)
    ensures WorkerStep(t, At(w, id, w.r2, w.edge, EdgeMissed), FirstReadAct(id)) == At(w, id, w.r2, w.edge, Built(r))
    ensures WorkerStep(t, At(w, id, w.r2, w.edge, Built(r)), AnswerAct(id))
         == At(w, id, w.r2, w.edge, Answered(r, true))
  {
    hide WorkerStep, FirstRead;
    assert At(w, id, w.r2, w.edge, Arrived) == w;
    MatchEdgeStep(t, w, id, w.r2, w.edge);
    FirstReadStep(t, w, id, w.r2, w.edge);
    AnswerStep(t, w, id, w.r2, w.edge, r);
  }

  lemma RunFour(t: Transform, w: World, a: Action, b: Action, c: Action, d: Action)
    ensures Run(t, w, [a, b, c, d]) == Apply(t, Apply(t, Apply(t, Apply(t, w, a), b), c), d)
  {
    hide Apply, Run;
    assert [a, b, c, d] == [a, b, c] + [d];
    RunConcat(t, w, [a, b, c], [d]);
    RunThree(t, w, a, b, c);
    RunOne(t, Apply(t, Apply(t, Apply(t, w, a), b), c), d);
  }

  /** Some request for `q` is answered 200 in some continuation. */
  ghost predicate EverAnswered(t: Transform, w: World, q: ImageRequest) {
    exists more, k, body, contentType :: AnsweredOk(Run(t, w, more), k, q, body, contentType)
  }

  /** A URL returned with a 200 is ever answered 200 exactly if the put to R2 took effect and the
      key does not have the legacy form. */
  lemma ReturnedUrlLives(t: Transform, w: World, origin: string, slashes: string, version: string, replica: Replica,
                         put: Outcome)
    requires Inv(t, w) && IsOrigin(origin) && (forall c | c in slashes :: c == '/')
    requires IsUlid(version) && Canonical(replica.key) && IsReplica(w, version, replica, put)
    requires version in w.issued && version !in w.sessions
    ensures EverAnswered(t, w, PublicRequest(origin, slashes, version, replica.key)) <==>
      Applied(put) && !LegacyForm(replica.key)
  {
    hide Inv, LegacyForm, IsOrigin, IsUlid, Canonical, PublicRequest, Reads, AnsweredOk, Run, ParseImageRequest,
      InVersion;
    var q := PublicRequest(origin, slashes, version, replica.key);
    PublicAsks(origin, slashes, version, replica.key);
    if Applied(put) && !LegacyForm(replica.key) {
      forall colo ensures Reads(w.r2, colo, q, replica.body, OriginalContentType(replica.contentType)) {
        PutIsPublished(t, w, colo, origin, slashes, version, replica, put);
      }
      var more, id := ReadIsAnswered(t, w, q, replica.body, OriginalContentType(replica.contentType));
    } else {
      forall more, k, body, contentType ensures !AnsweredOk(Run(t, w, more), k, q, body, contentType) {
        if Applied(put) {
          RunKeeps(t, w, more);
          RunRemembers(t, w, more);
          LegacyUrlIsDead(t, Run(t, w, more), origin, slashes, version, k, body, contentType);
        } else {
          SpentIsDead(t, w, version, more, k, q, body, contentType);
        }
      }
    }
  }

  lemma PublicAsks(origin: string, slashes: string, version: string, key: string)
    requires IsOrigin(origin) && (forall c | c in slashes :: c == '/') && IsUlid(version) && Canonical(key)
    ensures InVersion(PublicRequest(origin, slashes, version, key), version)
    ensures PublicRequest(origin, slashes, version, key).verb == Method.Get
  {
    hide LegacyForm, IsOrigin, IsUlid, Canonical, ParseImageRequest, Pathname, BuildVersionedPublicUrl, SizeLetterOf,
      InVersion;
    PublicUrlRoundTrip(origin, slashes, version, key);
    VersionIsInPath(PublicRequest(origin, slashes, version, key), version);
  }

  /** For the URL that a finalize returns with its 200. */
  lemma FinalizedUrlLives(t: Transform, w: World, h: Headers, u: string, f: FinalizeFaults, origin: string,
                          slashes: string)
    requires Inv(t, w) && IsOrigin(origin) && (forall c | c in slashes :: c == '/')
    requires FinalizeUpload(w, h, u, f).1.Accepted?
    ensures var (w1, reply) := FinalizeUpload(w, h, u, f);
      EverAnswered(t, w1, PublicRequest(origin, slashes, reply.version, reply.objectKey)) <==>
        Applied(f.put) && !LegacyForm(reply.objectKey)
  {
    hide Inv, FinalizeUpload, LegacyForm, IsOrigin, Canonical, IsUlid, MimeType, PublicRequest, IsReplica, EverAnswered;
    FinalizedReplica(t, w, h, u, f);
    FinalizedEnds(t, w, h, u, f);
    var s := w.sessions[u];
    var replica := Replica(s.objectKey, w.gcs[s.stagingObjectKey].body, Some(MimeType(s.contentType)));
    ReturnedUrlLives(t, FinalizeUpload(w, h, u, f).0, origin, slashes, u, replica, f.put);
  }

  lemma FinalizedEnds(t: Transform, w: World, h: Headers, u: string, f: FinalizeFaults)
    requires Inv(t, w) && FinalizeUpload(w, h, u, f).1.Accepted?
    ensures var w1 := FinalizeUpload(w, h, u, f).0; u in w1.issued && u !in w1.sessions
  {
    hide Inv, FinalizeUpload, ContradictsType, EnforceContext, PromoteAndReplicate, ValidSession;
    AcceptedChecks(w, h, u, f);
    SessionUnminted(t, w, u);
    SessionOfId(t, w, u);
    AcceptedWorld(w, h, u, f);
  }

  /** For the URL that an ingest returns with its 200. */
  lemma IngestedUrlLives(t: Transform, w: World, key: string, source: Result<Source, ErrorCode>,
                         requestedType: Option<string>, write: WriteOutcome, version: string, put: Outcome,
                         origin: string, slashes: string)
    requires Inv(t, w) && FreshUlid(w, version) && IsOrigin(origin) && (forall c | c in slashes :: c == '/')
    requires IngestObject(w, key, source, requestedType, write, version, put).1.Ingested?
    ensures var (w1, reply) := IngestObject(w, key, source, requestedType, write, version, put);
      EverAnswered(t, w1, PublicRequest(origin, slashes, reply.version, reply.objectKey)) <==>
        Applied(put) && !LegacyForm(key)
  {
    hide Inv, IngestObject, LegacyForm, IsOrigin, Canonical, IsUlid, MimeType, PublicRequest, EverAnswered;
    IngestDelivers(w, key, source, requestedType, write, version, put);
    IngestKeeps(t, w, key, source, requestedType, write, version, put);
    FreshUnminted(t, w, version);
    var (w1, reply) := IngestObject(w, key, source, requestedType, write, version, put);
    var replica := Replica(key, write.bytes, Some(MimeType(reply.contentType)));
    ReturnedUrlLives(t, w1, origin, slashes, version, replica, put);
  }

  /** The whole upload, from any reachable state: the URL that finalize returns with its 200 is ever
      answered exactly if the put took effect and the requested name gives no key of the legacy form. */
  lemma UploadedUrlLives(t: Transform, w: World, h: Headers, r: PresignRequest, u: string, ttl: int, body: Bytes,
                         put: Outcome, origin: string, slashes: string)
    requires Inv(t, w) && FreshUlid(w, u) && CheckPresign(h, r).Ok? && ttl > 0 && |body| == r.contentLength
    requires IsOrigin(origin) && forall c | c in slashes :: c == '/'
    ensures var (key, contentType) := CheckPresign(h, r).value;
      var w2 := StagedWorld(t, w, h, r, u, ttl, body);
      && FinalizeUpload(w2, h, u, NO_FAULTS.(put := put)).1 == Accepted(key, u, |body|, contentType, put == Done)
      && (EverAnswered(t, Run(t, w, UploadActs(h, r, u, ttl, body, put)), PublicRequest(origin, slashes, u, key)) <==>
            Applied(put) && !LegacyForm(key))
  {
    hide Inv, FinalizeUpload, LegacyForm, IsOrigin, CheckPresign, FreshUlid, Canonical, PublicRequest, EverAnswered,
      Apply,
      Run, Finalizable, StagedWorld, MimeType;
    var f := NO_FAULTS.(put := put);
    var w2 := StagedWorld(t, w, h, r, u, ttl, body);
    FinalizableNow(t, w, h, r, u, ttl, body);
    StagedSession(t, w, h, r, u, ttl, body);
    FinalizeAcceptsExactly(t, w2, h, u, f);
    FinalizeDelivers(t, w2, h, u, f);
    FinalizedUrlLives(t, w2, h, u, f, origin, slashes);
    UploadIsRun(t, w, h, r, u, ttl, body, put);
  }

  lemma UploadIsRun(t: Transform, w: World, h: Headers, r: PresignRequest, u: string, ttl: int, body: Bytes,
                    put: Outcome)
    ensures Run(t, w, UploadActs(h, r, u, ttl, body, put)) ==
      FinalizeUpload(StagedWorld(t, w, h, r, u, ttl, body), h, u, NO_FAULTS.(put := put)).0
  {
    hide Run, Apply, FinalizeUpload;
    var f := NO_FAULTS.(put := put);
    RunThree(t, w, PresignAct(h, r, u, ttl, PresignFaults(None, false)), ClientPutAct(u, body, None),
             FinalizeAct(h, u, f));
    FinalizeIsApplied(t, StagedWorld(t, w, h, r, u, ttl, body), h, u, f);
  }

  lemma StagedSession(t: Transform, w: World, h: Headers, r: PresignRequest, u: string, ttl: int, body: Bytes)
    requires Inv(t, w) && FreshUlid(w, u) && CheckPresign(h, r).Ok?
    ensures var w2 := StagedWorld(t, w, h, r, u, ttl, body);
      && u in w2.sessions && w2.sessions[u].objectKey == CheckPresign(h, r).value.0
      && w2.sessions[u].contentType == CheckPresign(h, r).value.1 && w2.sessions[u].contentLength == r.contentLength
  {
    hide Inv, CheckPresign, Apply, FreshUlid, KeepsTombstones, ProductOf, AuctionHouseOf;
    StagedNow(t, w, h, r, u, ttl, body);
  }
}
