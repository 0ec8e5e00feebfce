/** What a delete still has to remove at each of its steps, and what it leaves behind when it
    runs beside image requests. */
module DeletePath {
  import opened Wrappers
  import opened ObjectKeys
  import opened Variants
  import opened Requests
  import opened StorageKeys
  import opened Storage
  import opened Worlds
  import opened Handlers
  import opened Systems
  import opened Frames
  import opened Invariants
  import opened WriteSteps

  /** The R2 keys that a delete of `key` is about. */
  predicate Covered(key: string, y: string) { y == key || VariantCovered(key, y) }

  // ---------- what a delete still has to remove ----------

  predicate UnderPrefixFrom(key: string, j: nat, y: string) {
    exists i | j <= i < |WEBP_VARIANTS| :: BuildWebpVariantPrefix(key, WEBP_VARIANTS[i]) <= y
  }

  /** `y` is among what remains of the current prefix. */
  predicate InCurrentPrefix(x: Deletion, y: string)
    requires x.pc.DeletePrefixes? && x.pc.j < |WEBP_VARIANTS|
  {
    CurrentPrefix(x) <= y &&
    (if x.pc.batch.None? then After(x.pc.token, y)
     else y in x.pc.batch.value.page || (x.pc.batch.value.next.Some? && Less(x.pc.batch.value.next.value, y)))
  }

  /** The delete will still remove `y`, or was given up. */
  predicate Pending(x: Deletion, y: string) {
    match x.pc
    case WriteTombstone => true
    case Aborted(_) => true
    case DeleteKeys(i) =>
      (exists n | i <= n < |DeleteKeyList(x.key)| :: DeleteKeyList(x.key)[n] == y) || UnderPrefixFrom(x.key, 0, y)
    case DeletePrefixes(j, _, _) => j < |WEBP_VARIANTS| ==> InCurrentPrefix(x, y) || UnderPrefixFrom(x.key, j + 1, y)
    case DeleteGcs => false
    case Finished => false
  }

  /** Every covered key in R2 is still to be removed, except for some tolerated ones. */
  ghost predicate AllPending(r2: R2Map, x: Deletion, tolerated: set<string>) {
    forall y | y in r2 && Covered(x.key, y) && y !in tolerated :: Pending(x, y)
  }

  lemma CoveredSplits(key: string, y: string)
    ensures Covered(key, y) <==> y in DeleteKeyList(key) || UnderPrefixFrom(key, 0, y)
  {
    var prefixes := BuildAllWebpVariantPrefixes(key);
    if UnderPrefixFrom(key, 0, y) {
      var i: nat :| 0 <= i < |WEBP_VARIANTS| && BuildWebpVariantPrefix(key, WEBP_VARIANTS[i]) <= y;
      assert prefixes[i] in prefixes;
    }
    if exists p | p in prefixes :: p <= y {
      var p :| p in prefixes && p <= y;
      var i :| 0 <= i < |prefixes| && prefixes[i] == p;
      assert BuildWebpVariantPrefix(key, WEBP_VARIANTS[i]) <= y;
    }
  }

  // ---------- the steps of a delete ----------

  lemma PendingAfterKey(x: Deletion, i: nat, y: string)
    requires x.pc == DeleteKeys(i) && i < |DeleteKeyList(x.key)| && Pending(x, y) && y != DeleteKeyList(x.key)[i]
    ensures Pending(x.(pc := AfterKey(i, x.key)), y)
  {
    hide BuildWebpVariantPrefix, DeleteKeyList;
    if UnderPrefixFrom(x.key, 0, y) {
      PendingPrefixStart(x.key, x.deletedBy, 0, y);
    }
  }

  /** At the start of a prefix, everything under it or a later one is pending. */
  lemma PendingPrefixStart(key: string, who: string, j: nat, y: string)
    requires j < |WEBP_VARIANTS| && UnderPrefixFrom(key, j, y)
    ensures Pending(Deletion(key, who, DeletePrefixes(j, None, None)), y)
  {
    hide BuildWebpVariantPrefix;
    var x := Deletion(key, who, DeletePrefixes(j, None, None));
    var i: nat :| j <= i < |WEBP_VARIANTS| && BuildWebpVariantPrefix(key, WEBP_VARIANTS[i]) <= y;
    if i == j { assert InCurrentPrefix(x, y); }
  }

  lemma PendingMeansUnder(x: Deletion, y: string)
    requires x.pc.DeletePrefixes? && x.pc.j < |WEBP_VARIANTS| && Pending(x, y)
    ensures UnderPrefixFrom(x.key, x.pc.j, y)
  {
    hide BuildWebpVariantPrefix;
  }

  /** A key that is not on the page just deleted is still pending afterwards. */
  lemma PendingAfterPage(x: Deletion, y: string)
    requires x.pc.DeletePrefixes? && x.pc.j < |WEBP_VARIANTS| && x.pc.batch.Some?
    requires Pending(x, y) && y !in x.pc.batch.value.page
    ensures Pending(x.(pc := AfterPage(x.pc.j, x.pc.batch.value.next)), y)
  {
    hide BuildWebpVariantPrefix;
    var j := x.pc.j;
    if x.pc.batch.value.next.None? && UnderPrefixFrom(x.key, j + 1, y) {
      PendingPrefixStart(x.key, x.deletedBy, j + 1, y);
    }
  }

  lemma PendingListed(r2: R2Map, x: Deletion, page: seq<string>, next: Option<string>, y: string)
    requires x.pc.DeletePrefixes? && x.pc.j < |WEBP_VARIANTS| && x.pc.batch.None?
    requires IsPage(r2.Keys, CurrentPrefix(x), x.pc.token, page, next)
    requires Pending(x, y) && y in r2
    ensures Pending(x.(pc := DeletePrefixes(x.pc.j, x.pc.token, Some(Batch(page, next)))), y)
  {
    hide BuildWebpVariantPrefix;
    if InCurrentPrefix(x, y) {
      assert y in Remaining(r2.Keys, CurrentPrefix(x), x.pc.token);
    }
  }

  /** Whatever else happens, the calls of a delete leave no covered key behind them: what they
      do not remove stays pending. */
  lemma DeleteStepPending(t: Transform, w: World, a: Action, tolerated: set<string>)
    requires Inv(t, w) && DeleteAction(a) && a.d in w.deletes
    requires AllPending(w.r2, w.deletes[a.d], tolerated)
    ensures a.d in DeleteStep(w, a).deletes && DeleteStep(w, a).deletes[a.d].key == w.deletes[a.d].key
    ensures AllPending(DeleteStep(w, a).r2, DeleteStep(w, a).deletes[a.d], tolerated)
  {
    hide Inv, Covered, DeleteStep, Pending, Canonical, TombstoneKey, BatchUnderPrefix, DeleteKeyList;
    var x := w.deletes[a.d];
    DeletesOf(t, w, a.d);
    assert map[a.d := x][a.d] == x;
    DeleteStepFrame(w, a);
    forall y | y in DeleteStep(w, a).r2 && Covered(x.key, y) && y !in tolerated
      ensures Pending(DeleteStep(w, a).deletes[a.d], y)
    {
      StepKeepsPending(w, a, y);
    }
  }

  lemma StepKeepsPending(w: World, a: Action, y: string)
    requires DeleteAction(a) && a.d in w.deletes
    requires var pc := w.deletes[a.d].pc;
      && (pc.DeletePrefixes? ==> pc.j < |WEBP_VARIANTS|)
      && (pc.DeleteKeys? ==> pc.i < |DeleteKeyList(w.deletes[a.d].key)|)
    requires Covered(w.deletes[a.d].key, y) && Pending(w.deletes[a.d], y) && y in w.r2 && y in DeleteStep(w, a).r2
    ensures Pending(DeleteStep(w, a).deletes[a.d], y)
  {
    hide BuildWebpVariantPrefix, TombstoneKey, DeleteKeyList, UnderPrefixFrom, IsPage;
    var x := w.deletes[a.d];
    match a
    case DeleteCallAct(d, attempt) =>
      CoveredSplits(x.key, y);
      if x.pc.DeleteKeys? && attempt.Returns? { PendingAfterKey(x, x.pc.i, y); }
    case ListPageAct(d, page, next) =>
      if ListPage(w, d, page, next) != w { PendingListed(w.r2, x, page, next, y); }
    case ListFailsAct(d, retried) =>
      if x.pc.DeletePrefixes? { PendingMeansUnder(x, y); PendingPrefixStart(x.key, x.deletedBy, x.pc.j, y); }
    case DeletePageAct(d, attempt, removed) =>
      if x.pc.DeletePrefixes? {
        PendingMeansUnder(x, y);
        PendingPrefixStart(x.key, x.deletedBy, x.pc.j, y);
        if x.pc.batch.Some? && attempt.Returns? { PendingAfterPage(x, y); }
      }
    case CrashDeleteAct(d) =>
  }

  // ---------- deletes and requests interleaved ----------

  /** No original of the stem of `key` is in R2. */
  ghost predicate NoOriginal(r2: R2Map, key: string) { forall k | k in r2 && Canonical(k) :: Stem(k) != Stem(key) }

  predicate HoldsOriginal(k: Worker) { k.pc.OriginalRead? && k.pc.parsed.variant.Some? }

  function PutKey(k: Worker): string
    requires HoldsOriginal(k)
  {
    BuildVariantKey(k.pc.parsed.objectKey, k.pc.parsed.variant.value, k.pc.parsed.version)
  }

  /** What such a request puts. */
  function PutObject(t: Transform, k: Worker): R2Object
    requires HoldsOriginal(k)
  {
    R2Object(t(k.pc.parsed.variant.value, k.pc.original.body), Some(WEBP_CONTENT_TYPE), None)
  }

  /** In `w`, the action stores the variant of an original that its request has held since `w0`. */
  predicate LatePut(w0: World, w: World, a: Action) {
    && a.PutVariantAct? && Applied(a.outcome)
    && a.k in w0.workers && HoldsOriginal(w0.workers[a.k])
    && a.k in w.workers && w.workers[a.k].pc == w0.workers[a.k].pc
  }

  /** What the late puts of a run left at each key. */
  ghost function Landed(t: Transform, w0: World, w: World, actions: seq<Action>): R2Map
    decreases |actions|
  {
    if actions == [] then map[] else
    var front := actions[..|actions| - 1];
    Lands(t, w0, Run(t, w, front), actions[|actions| - 1], Landed(t, w0, w, front))
  }

  ghost function Lands(t: Transform, w0: World, w: World, a: Action, landed: R2Map): R2Map {
    if LatePut(w0, w, a) then landed[PutKey(w0.workers[a.k]) := PutObject(t, w0.workers[a.k])] else landed
  }

  /** Requests that hold an original of the stem have held it since `w0`. */
  ghost predicate EarlyReaders(w0: World, workers: map<nat, Worker>, key: string) {
    forall k | k in workers && HoldsOriginal(workers[k]) && Stem(workers[k].pc.parsed.objectKey) == Stem(key) ::
      k in w0.workers && w0.workers[k].pc == workers[k].pc
  }

  /** At a covered key where a late put landed, R2 holds what it put, or nothing. */
  ghost predicate HoldsLanded(r2: R2Map, key: string, landed: R2Map) {
    forall y | y in r2 && y in landed && Covered(key, y) :: r2[y] == landed[y]
  }

  /** Delete `d` is on its way, and only late puts undo its work. */
  ghost predicate Clearing(w0: World, w: World, d: nat, key: string, landed: R2Map) {
    && d in w.deletes && w.deletes[d].key == key
    && AllPending(w.r2, w.deletes[d], landed.Keys) && HoldsLanded(w.r2, key, landed)
    && EarlyReaders(w0, w.workers, key)
  }

  lemma VariantCoveredIsVariant(key: string, y: string)
    requires VariantCovered(key, y)
    ensures NamespaceOf(y) == VariantSpace
  {
    hide NamespaceOf, BuildWebpVariantKey, BuildWebpVariantPrefix;
    if y in BuildAllWebpVariantKeys(key) {
      var i :| 0 <= i < |BuildAllWebpVariantKeys(key)| && BuildAllWebpVariantKeys(key)[i] == y;
      SameUnversionedKey(key, WEBP_VARIANTS[i]);
      NamespacesDisjoint("", key, WEBP_VARIANTS[i], None);
    } else {
      var p :| p in BuildAllWebpVariantPrefixes(key) && p <= y;
      var i :| 0 <= i < |WEBP_VARIANTS| && BuildAllWebpVariantPrefixes(key)[i] == p;
      UnderPrefixIsVariant(key, WEBP_VARIANTS[i], y);
    }
  }

  lemma OriginalNotCovered(r2: R2Map, key: string, put: string)
    requires Canonical(put) && put in r2 && NoOriginal(r2, key)
    ensures !Covered(key, put)
  {
    hide Canonical, VariantCovered, Stem, NamespaceOf;
    NamespacesDisjoint("", put, Thumb, None);
    if VariantCovered(key, put) { VariantCoveredIsVariant(key, put); }
  }

  /** An upload that leaves no original of the stem adds nothing that the delete covers. */
  lemma UploadClearing(w0: World, w: World, w1: World, d: nat, key: string, put: string, version: string, landed: R2Map)
    requires Clearing(w0, w, d, key, landed) && NoOriginal(w1.r2, key)
    requires UploadFrame(w, w1, put, version) && Canonical(put)
    ensures Clearing(w0, w1, d, key, landed)
  {
    hide Canonical, Covered, Pending, EarlyReaders, NoOriginal;
    if put in w1.r2 { OriginalNotCovered(w1.r2, key, put); }
  }

  lemma NothingNewClearing(w0: World, w: World, w1: World, d: nat, key: string, landed: R2Map)
    requires Clearing(w0, w, d, key, landed)
    requires w1.workers == w.workers && Shrinks(w.r2, w1.r2) && d in w1.deletes && w1.deletes[d] == w.deletes[d]
    ensures Clearing(w0, w1, d, key, landed)
  {
    hide Covered, Pending, EarlyReaders;
  }

  /** A request can only move on from the original it holds, or find none. */
  lemma WorkerPcClearing(w0: World, w: World, k: nat, pc: WorkerPc, edge: EdgeMap, d: nat, key: string, landed: R2Map)
    requires Clearing(w0, w, d, key, landed) && k in w.workers
    requires pc.OriginalRead? ==> Stem(pc.parsed.objectKey) != Stem(key)
    ensures Clearing(w0, SetWorker(w.(edge := edge), k, pc), d, key, landed)
  {
    hide AllPending, HoldsLanded, Stem;
  }

  lemma PutClearing(t: Transform, w0: World, w: World, k: nat, o: Outcome, d: nat, key: string, landed: R2Map)
    requires Clearing(w0, w, d, key, landed) && Canonical(key) && k in w.workers && HoldsOriginal(w.workers[k])
    requires Canonical(w.workers[k].pc.parsed.objectKey)
    ensures Clearing(w0, PutVariant(t, w, k, o), d, key, Lands(t, w0, w, PutVariantAct(k, o), landed))
  {
    hide Pending, Stem, Canonical, Covered, BuildVariantKey, EarlyReaders;
    PutIsLate(w0, w, k, key);
    PutKeepsReaders(t, w0, w, k, o, key);
    var y := PutKey(w.workers[k]);
    if Applied(o) && Covered(key, y) {
      assert Lands(t, w0, w, PutVariantAct(k, o), landed) == landed[y := PutObject(t, w.workers[k])];
    }
  }

  lemma PutKeepsReaders(t: Transform, w0: World, w: World, k: nat, o: Outcome, key: string)
    requires EarlyReaders(w0, w.workers, key) && k in w.workers && HoldsOriginal(w.workers[k])
    ensures EarlyReaders(w0, PutVariant(t, w, k, o).workers, key)
  {
    hide BuildVariantKey, Stem;
  }

  /** A variant that the delete covers can only be put by a request that held its original in `w0`. */
  lemma PutIsLate(w0: World, w: World, k: nat, key: string)
    requires EarlyReaders(w0, w.workers, key) && Canonical(key) && k in w.workers && HoldsOriginal(w.workers[k])
    requires Canonical(w.workers[k].pc.parsed.objectKey)
    ensures Covered(key, PutKey(w.workers[k])) ==> k in w0.workers && w0.workers[k].pc == w.workers[k].pc
  {
    hide Stem, Canonical, VariantCovered, BuildVariantKey, NamespaceOf;
    var p := w.workers[k].pc.parsed;
    NamespacesDisjoint("", p.objectKey, p.variant.value, p.version);
    NamespacesDisjoint("", key, p.variant.value, p.version);
    DeleteCoversExactlyItsStem(key, p.objectKey, p.variant.value, p.version);
  }

  lemma WorkerClearing(t: Transform, w0: World, w: World, a: Action, d: nat, key: string, landed: R2Map)
    requires Inv(t, w) && WorkerAction(a) && Clearing(w0, w, d, key, landed) && Canonical(key) && NoOriginal(w.r2, key)
    ensures Clearing(w0, WorkerStep(t, w, a), d, key, Lands(t, w0, w, a, landed))
  {
    hide Inv, Clearing, Canonical, MatchEdge, FirstRead, PutVariant, Stem, SetWorker, WorkerInv, Lands;
    if a.PutVariantAct? && a.k in w.workers && w.workers[a.k].pc.OriginalRead? {
      ParsedCanonical(t, w, a.k);
      PutClearing(t, w0, w, a.k, a.outcome, d, key, landed);
    } else {
      NoPutLands(t, w0, w, a, landed);
      ReadClearing(t, w0, w, a, d, key, landed);
    }
  }

  lemma NoPutLands(t: Transform, w0: World, w: World, a: Action, landed: R2Map)
    requires a.PutVariantAct? ==> a.k !in w.workers || !w.workers[a.k].pc.OriginalRead?
    ensures Lands(t, w0, w, a, landed) == landed
  {
    hide PutKey, PutObject;
  }

  lemma ReadClearing(t: Transform, w0: World, w: World, a: Action, d: nat, key: string, landed: R2Map)
    requires Inv(t, w) && WorkerAction(a) && Clearing(w0, w, d, key, landed) && Canonical(key) && NoOriginal(w.r2, key)
    requires a.PutVariantAct? ==> a.k !in w.workers || !w.workers[a.k].pc.OriginalRead?
    ensures Clearing(w0, WorkerStep(t, w, a), d, key, landed)
  {
    hide Inv, Clearing, Canonical, MatchEdge, FirstRead, PutVariant, Stem, SetWorker, WorkerInv;
    if a.k in w.workers {
      var k := w.workers[a.k];
      match a
      case MatchEdgeAct(id) =>
        if k.pc.Arrived? { NotRead(w, k); WorkerPcClearing(w0, w, id, MatchEdge(w.edge, k), w.edge, d, key, landed); }
      case FirstReadAct(id) =>
        if k.pc.EdgeMissed? { NotRead(w, k); WorkerPcClearing(w0, w, id, FirstRead(w.r2, k), w.edge, d, key, landed); }
      case SecondReadAct(id) =>
        if k.pc.VariantMissed? {
          ParsedCanonical(t, w, id);
          WorkerPcClearing(w0, w, id, SecondRead(w.r2, k.pc.parsed), w.edge, d, key, landed);
        }
      case PutVariantAct(id, o) =>
      case WorkerFailsAct(id, status) =>
        WorkerPcClearing(w0, w, id, Answered(Failed(status), false), w.edge, d, key, landed);
      case AnswerAct(id) =>
        if k.pc.Built? { WorkerPcClearing(w0, w, id, Answered(k.pc.response, true), w.edge, d, key, landed); }
      case EdgePutFailsAct(id) =>
        if k.pc.Built? {
          var edge := w.edge[(k.colo, k.request) := k.pc.response];
          WorkerPcClearing(w0, w, id, Answered(Failed(500), false), edge, d, key, landed);
        }
      case EdgePutAct(id) =>
        if k.pc.Answered? && k.pc.edgePutPending {
          var edge := w.edge[(k.colo, k.request) := k.pc.response];
          WorkerPcClearing(w0, w, id, Answered(k.pc.response, false), edge, d, key, landed);
        }
    }
  }

  lemma NotRead(w: World, k: Worker)
    ensures !MatchEdge(w.edge, k).OriginalRead? && !FirstRead(w.r2, k).OriginalRead?
  {
  }

  lemma ParsedCanonical(t: Transform, w: World, k: nat)
    requires Inv(t, w) && k in w.workers && (w.workers[k].pc.VariantMissed? || w.workers[k].pc.OriginalRead?)
    ensures Canonical(w.workers[k].pc.parsed.objectKey) && w.workers[k].pc.parsed.variant.Some?
  {
    hide Canonical, ParseImageRequest;
    assert WorkerInv(t, w.workers[k], w.minted, w.replicated);
    ParsedKeyCanonical(w.workers[k].request);
  }

  lemma ApplyClearing(t: Transform, w0: World, w: World, a: Action, d: nat, key: string, landed: R2Map)
    requires Inv(t, w) && Clearing(w0, w, d, key, landed) && Canonical(key)
    requires NoOriginal(w.r2, key) && NoOriginal(Apply(t, w, a).r2, key)
    ensures Clearing(w0, Apply(t, w, a), d, key, Lands(t, w0, w, a, landed))
  {
    hide Inv, Canonical, NoOriginal, WorkerStep, DeleteCall, DeletePage, ListPage, FinalizeUpload, IngestObject,
      Presign, CancelUpload,
      StartDelete, Reconcile, IsUlid, AllPending, HoldsLanded, EarlyReaders, Lands;
    if !WorkerAction(a) { NoPutLands(t, w0, w, a, landed); }
    if DeleteAction(a) {
      if a.d in w.deletes {
        DeleteStepFrame(w, a);
        if a.d == d { DeleteStepPending(t, w, a, landed.Keys); ShrinksLanded(w.r2, DeleteStep(w, a).r2, key, landed); }
        else { NothingNewClearing(w0, w, DeleteStep(w, a), d, key, landed); }
      }
    } else if WorkerAction(a) {
      WorkerClearing(t, w0, w, a, d, key, landed);
    } else {
      OtherClearing(t, w0, w, a, d, key, landed);
    }
  }

  lemma ShrinksLanded(r2: R2Map, r2': R2Map, key: string, landed: R2Map)
    requires HoldsLanded(r2, key, landed) && Shrinks(r2, r2')
    ensures HoldsLanded(r2', key, landed)
  {
    hide Covered;
  }

  lemma OtherClearing(t: Transform, w0: World, w: World, a: Action, d: nat, key: string, landed: R2Map)
    requires Inv(t, w) && Clearing(w0, w, d, key, landed) && Canonical(key)
    requires !DeleteAction(a) && !WorkerAction(a)
    requires NoOriginal(Apply(t, w, a).r2, key)
    ensures Clearing(w0, Apply(t, w, a), d, key, landed)
  {
    hide Inv, Canonical, NoOriginal, FinalizeUpload, IngestObject, Presign, CancelUpload, StartDelete, Reconcile,
      ClientPut, IsUlid, Clearing, UploadFrame;
    var w1 := Apply(t, w, a);
    match a
    case FinalizeAct(h, u, f) => FinalizeClearing(t, w0, w, h, u, f, d, key, landed);
    case IngestAct(k, source, rt, write, version, put) =>
      if FreshUlid(w, version) {
        IngestFrame(w, k, source, rt, write, version, put);
        if Canonical(k) { UploadClearing(w0, w, w1, d, key, k, version, landed); }
      }
    case ReconcileAct(k) =>
      ReconcileFrame(w, k);
      if Canonical(k) { UploadClearing(w0, w, w1, d, key, k, "", landed); }
    case ArriveAct(k, colo, r) => ArriveClearing(w0, w, k, colo, r, d, key, landed);
    case PresignAct(h, r, u, ttl, f) => PresignTouches(w, h, r, u, ttl, f); PlainClearing(w0, w, w1, d, key, landed);
    case CancelAct(h, u, f) => CancelTouches(w, h, u, f); PlainClearing(w0, w, w1, d, key, landed);
    case StartDeleteAct(e, h, path) =>
      if e !in w.deletes { StartDeleteFrame(w, e, StartDelete(h, path)); NewDeleteClearing(w0, w, w1, d, key, landed); }
    case ClientPutAct(u, body, ct) => ClientPutFrame(w, u, body, ct); PlainClearing(w0, w, w1, d, key, landed);
    case EvictAct(_, _) => PlainClearing(w0, w, w1, d, key, landed);
    case PruneAct(_) => PlainClearing(w0, w, w1, d, key, landed);
    case TickAct(_) => PlainClearing(w0, w, w1, d, key, landed);
  }

  lemma ClientPutFrame(w: World, u: string, body: Bytes, ct: Option<string>)
    ensures OnlyGcs(w, ClientPut(w, u, body, ct))
  {
  }

  lemma FinalizeClearing(t: Transform, w0: World, w: World, h: Headers, u: string, f: FinalizeFaults, d: nat,
                         key: string,
                         landed: R2Map)
    requires Inv(t, w) && Clearing(w0, w, d, key, landed) && Canonical(key)
    requires NoOriginal(FinalizeUpload(w, h, u, f).0.r2, key)
    ensures Clearing(w0, FinalizeUpload(w, h, u, f).0, d, key, landed)
  {
    hide Inv, Canonical, NoOriginal, FinalizeUpload, Clearing, UploadFrame;
    var w1 := FinalizeUpload(w, h, u, f).0;
    FinalizeFrame(w, h, u, f);
    if u in w.sessions {
      SessionOfId(t, w, u);
      assert Canonical(w.sessions[u].objectKey);
      UploadClearing(w0, w, w1, d, key, w.sessions[u].objectKey, w.sessions[u].uploadId, landed);
    } else {
      SameR2Clearing(w0, w, w1, d, key, "", landed);
    }
  }

  lemma PlainClearing(w0: World, w: World, w1: World, d: nat, key: string, landed: R2Map)
    requires Clearing(w0, w, d, key, landed) && w1.workers == w.workers && w1.r2 == w.r2 && w1.deletes == w.deletes
    ensures Clearing(w0, w1, d, key, landed)
  {
    hide AllPending, HoldsLanded, EarlyReaders;
  }

  lemma NewDeleteClearing(w0: World, w: World, w1: World, d: nat, key: string, landed: R2Map)
    requires Clearing(w0, w, d, key, landed) && w1.workers == w.workers && w1.r2 == w.r2
    requires forall e | e in w.deletes :: e in w1.deletes && w1.deletes[e] == w.deletes[e]
    ensures Clearing(w0, w1, d, key, landed)
  {
    hide AllPending, HoldsLanded, EarlyReaders;
  }

  lemma SameR2Clearing(w0: World, w: World, w1: World, d: nat, key: string, put: string, landed: R2Map)
    requires Clearing(w0, w, d, key, landed) && UploadFrame(w, w1, put, "") && w1.r2 == w.r2
    ensures Clearing(w0, w1, d, key, landed)
  {
    hide AllPending, HoldsLanded, EarlyReaders, SameExcept;
  }

  lemma ArriveClearing(w0: World, w: World, k: nat, colo: nat, r: ImageRequest, d: nat, key: string, landed: R2Map)
    requires Clearing(w0, w, d, key, landed)
    ensures var w1 := if k in w.workers then w else w.(workers := w.workers[k := Worker(colo, r, Arrived)]);
      Clearing(w0, w1, d, key, landed)
  {
    hide AllPending, HoldsLanded, Stem;
  }

  /** In every state of a run, R2 holds no original of the stem. */
  ghost predicate NoOriginalMeanwhile(t: Transform, w: World, actions: seq<Action>, key: string) {
    forall i | 0 <= i <= |actions| :: NoOriginal(Run(t, w, actions[..i]).r2, key)
  }

  lemma {:induction false} RunClearing(t: Transform, w0: World, w: World, actions: seq<Action>, d: nat, key: string)
    requires Inv(t, w) && Clearing(w0, w, d, key, map[]) && Canonical(key)
    requires NoOriginalMeanwhile(t, w, actions, key)
    ensures Clearing(w0, Run(t, w, actions), d, key, Landed(t, w0, w, actions))
    decreases |actions|
  {
    hide Inv, Clearing, Canonical, NoOriginal, Apply, Lands;
    if actions != [] {
      var n := |actions| - 1;
      var front := actions[..n];
      assert forall i | 0 <= i <= n :: front[..i] == actions[..i];
      RunClearing(t, w0, w, front, d, key);
      RunKeeps(t, w, front);
      assert actions[..n] == front && actions[..n + 1] == actions;
      assert NoOriginal(Run(t, w, actions[..n]).r2, key) && NoOriginal(Run(t, w, actions[..n + 1]).r2, key);
      ApplyClearing(t, w0, Run(t, w, front), actions[n], d, key, Landed(t, w0, w, front));
    }
  }

  /** The first R2 call of a delete, however it ends, finds everything still pending. */
  lemma FirstCallClears(t: Transform, w0: World, d: nat, attempt: Attempted)
    requires Inv(t, w0) && d in w0.deletes && w0.deletes[d].pc == DeleteKeys(0)
    ensures Clearing(w0, DeleteStep(w0, DeleteCallAct(d, attempt)), d, w0.deletes[d].key, map[])
  {
    hide Inv, Covered, Pending, Stem, PutKey, Canonical;
    var a := DeleteCallAct(d, attempt);
    var x := w0.deletes[d];
    forall y | Covered(x.key, y) ensures Pending(x, y) { StartPending(x, y); }
    var none: R2Map := map[];
    assert AllPending(w0.r2, x, none.Keys);
    DeleteStepPending(t, w0, a, none.Keys);
    DeleteStepFrame(w0, a);
  }

  lemma StartPending(x: Deletion, y: string)
    requires x.pc == DeleteKeys(0) && Covered(x.key, y)
    ensures Pending(x, y)
  {
    hide Covered, DeleteKeyList, UnderPrefixFrom;
    CoveredSplits(x.key, y);
  }

  lemma SomeDelete(t: Transform, w: World, d: nat)
    requires Inv(t, w) && d in w.deletes && PastTombstone(w.deletes[d].pc)
    ensures Canonical(w.deletes[d].key)
  {
    DeletesOf(t, w, d);
    assert map[d := w.deletes[d]][d] == w.deletes[d];
  }

  /** The i-th action stored `o` at `x`, for a request that had held the original since `w0`. */
  ghost predicate PutAt(t: Transform, w0: World, w: World, actions: seq<Action>, i: nat, x: string, o: R2Object) {
    && i < |actions| && LatePut(w0, Run(t, w, actions[..i]), actions[i])
    && PutKey(w0.workers[actions[i].k]) == x && PutObject(t, w0.workers[actions[i].k]) == o
  }

  lemma {:induction false} LandedWasPut(t: Transform, w0: World, w: World, actions: seq<Action>, x: string)
    returns (i: nat)
    requires x in Landed(t, w0, w, actions)
    ensures PutAt(t, w0, w, actions, i, x, Landed(t, w0, w, actions)[x])
    decreases |actions|
  {
    hide PutKey, PutObject;
    var n := |actions| - 1;
    var front := actions[..n];
    if LatePut(w0, Run(t, w, front), actions[n]) && PutKey(w0.workers[actions[n].k]) == x {
      i := n;
    } else {
      i := LandedWasPut(t, w0, w, front, x);
      assert front[..i] == actions[..i];
    }
  }

  /** Request `k` holds an original of the stem of `key`. */
  predicate HoldsStem(k: Worker, key: string) { HoldsOriginal(k) && Stem(k.pc.parsed.objectKey) == Stem(key) }

  /** Delete under concurrent serving. From its first R2 call on, while image requests and
      everything else go on and no original of the stem comes back: when the delete has done its
      R2 part, every variant of the stem still in R2 is the very object that a put during the
      delete stored, for a request that had read the original before that first call; with no
      such request in flight at that moment, none is left. */
  lemma DeleteUnderServing(t: Transform, now: int, before: seq<Action>, d: nat, attempt: Attempted, after: seq<Action>)
    requires var w0 := Run(t, InitialWorld(now), before);
      && d in w0.deletes && w0.deletes[d].pc == DeleteKeys(0)
      && var w1 := Apply(t, w0, DeleteCallAct(d, attempt));
      && NoOriginalMeanwhile(t, w1, after, w0.deletes[d].key)
      && d in Run(t, w1, after).deletes
      && (Run(t, w1, after).deletes[d].pc.DeleteGcs? || Run(t, w1, after).deletes[d].pc.Finished?)
    ensures var w0 := Run(t, InitialWorld(now), before);
      var w1 := Apply(t, w0, DeleteCallAct(d, attempt));
      var w2 := Run(t, w1, after);
      var key := w0.deletes[d].key;
      && (forall k, v, version | Canonical(k) && Stem(k) == Stem(key) && BuildVariantKey(k, v, version) in w2.r2 ::
            var x := BuildVariantKey(k, v, version); exists i :: PutAt(t, w0, w1, after, i, x, w2.r2[x]))
      && ((forall id | id in w0.workers :: !HoldsStem(w0.workers[id], key)) ==>
            forall k, v, version | Canonical(k) && Stem(k) == Stem(key) :: BuildVariantKey(k, v, version) !in w2.r2)
  {
    hide Inv, Canonical, Clearing, Stem, BuildVariantKey, HoldsStem, PutAt, NoOriginal, Covered, NoOriginalMeanwhile,
      Landed;
    var w0 := Run(t, InitialWorld(now), before);
    var key := w0.deletes[d].key;
    var w1 := Apply(t, w0, DeleteCallAct(d, attempt));
    var w2 := Run(t, w1, after);
    InitialInv(t, now);
    RunKeeps(t, InitialWorld(now), before);
    SomeDelete(t, w0, d);
    FirstCallClears(t, w0, d, attempt);
    ApplyKeeps(t, w0, DeleteCallAct(d, attempt));
    RunClearing(t, w0, w1, after, d, key);
    forall k, v, version | Canonical(k) && Stem(k) == Stem(key) && BuildVariantKey(k, v, version) in w2.r2
      ensures var x := BuildVariantKey(k, v, version); exists i :: PutAt(t, w0, w1, after, i, x, w2.r2[x])
      ensures exists id :: id in w0.workers && HoldsStem(w0.workers[id], key)
    {
      var x := BuildVariantKey(k, v, version);
      LeftoverLanded(w0, w2, d, key, k, v, version, Landed(t, w0, w1, after));
      var i := LandedWasPut(t, w0, w1, after, x);
      var id := PutterHolds(t, w0, w1, after, i, key, k, v, version, w2.r2[x]);
    }
  }

  lemma LeftoverLanded(w0: World, w2: World, d: nat, key: string, k: string, v: WebpVariant, version: Option<string>,
                       landed: R2Map)
    requires Clearing(w0, w2, d, key, landed) && Canonical(key) && Canonical(k) && Stem(k) == Stem(key)
    requires w2.deletes[d].pc.DeleteGcs? || w2.deletes[d].pc.Finished?
    requires BuildVariantKey(k, v, version) in w2.r2
    ensures var x := BuildVariantKey(k, v, version); x in landed && w2.r2[x] == landed[x]
  {
    hide Canonical, VariantCovered, Stem, BuildVariantKey, EarlyReaders;
    DeleteCoversExactlyItsStem(key, k, v, version);
  }

  lemma PutterHolds(t: Transform, w0: World, w: World, actions: seq<Action>, i: nat,
                    key: string, k: string, v: WebpVariant, version: Option<string>, o: R2Object)
    returns (id: nat)
    requires Inv(t, w0) && Canonical(k) && Stem(k) == Stem(key)
    requires PutAt(t, w0, w, actions, i, BuildVariantKey(k, v, version), o)
    ensures id in w0.workers && HoldsStem(w0.workers[id], key)
  {
    hide Inv, Canonical, Stem, BuildVariantKey, PutObject;
    id := actions[i].k;
    HolderCanonical(t, w0, id);
    SamePutSameStem(w0.workers[id], k, v, version);
  }

  lemma HolderCanonical(t: Transform, w: World, k: nat)
    requires Inv(t, w) && k in w.workers && HoldsOriginal(w.workers[k])
    ensures Canonical(w.workers[k].pc.parsed.objectKey)
  {
    hide Inv, Canonical;
    ParsedCanonical(t, w, k);
  }

  lemma SamePutSameStem(k: Worker, key: string, v: WebpVariant, version: Option<string>)
    requires HoldsOriginal(k) && Canonical(k.pc.parsed.objectKey) && Canonical(key)
    requires PutKey(k) == BuildVariantKey(key, v, version)
    ensures Stem(k.pc.parsed.objectKey) == Stem(key)
  {
    hide Canonical, BuildVariantKey, Stem;
    VariantKeysInjective(k.pc.parsed.objectKey, k.pc.parsed.variant.value, k.pc.parsed.version, key, v, version);
  }
}
