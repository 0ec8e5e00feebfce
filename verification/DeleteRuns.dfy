/** Deletes across crashes, retries and reconciliation. */
module DeleteRuns {
  import opened Wrappers
  import opened Errors
  import opened ObjectKeys
  import opened ContentTypes
  import opened Variants
  import opened StorageKeys
  import opened Sessions
  import opened Storage
  import opened Worlds
  import opened Handlers
  import opened Systems
  import opened DeleteTraces
  import opened Frames
  import opened Invariants
  import opened WriteSteps
  import opened DeletePath

  // ---------- what a delete may have done so far, and what it does in the end ----------

  /** Some covered R2 keys are gone, none of them without a tombstone; the GCS object is gone
      only after all of them; nothing else changed. */
  ghost predicate PartialDelete(key: string, gcs: GcsMap, r2: R2Map, gcs': GcsMap, r2': R2Map) {
    && Shrinks(r2, r2') && (forall y | y in r2 && y !in r2' :: Covered(key, y))
    && (r2' != r2 ==> TombstoneKey(key) in gcs')
    && (key in gcs && key !in gcs' ==> forall y | y in r2' :: !Covered(key, y))
    && SameBut(gcs, gcs', key) && (key in gcs' ==> key in gcs && gcs'[key] == gcs[key])
    && (TombstoneKey(key) in gcs ==> TombstoneKey(key) in gcs')
  }

  /** GCS agrees outside the key and its tombstone. */
  ghost predicate SameBut(gcs: GcsMap, gcs': GcsMap, key: string) {
    forall x | x != key && x != TombstoneKey(key) :: (x in gcs' <==> x in gcs) && (x in gcs ==> gcs'[x] == gcs[x])
  }

  /** The tombstone is there, and the object and all its variants are gone from both stores;
      nothing else changed. */
  ghost predicate FullDelete(key: string, gcs: GcsMap, r2: R2Map, gcs': GcsMap, r2': R2Map) {
    && Shrinks(r2, r2') && (forall y | y in r2 :: y in r2' <==> !Covered(key, y))
    && TombstoneKey(key) in gcs' && key !in gcs'
    && SameBut(gcs, gcs', key)
  }

  /** A full delete has one outcome, but for the record in the tombstone. */
  lemma FullDeleteIsUnique(key: string, gcs: GcsMap, r2: R2Map, gcs1: GcsMap, r21: R2Map, gcs2: GcsMap, r22: R2Map)
    requires FullDelete(key, gcs, r2, gcs1, r21) && FullDelete(key, gcs, r2, gcs2, r22)
    ensures r21 == r22 && gcs1.Keys == gcs2.Keys && gcs1 - {TombstoneKey(key)} == gcs2 - {TombstoneKey(key)}
  {
    hide Covered, TombstoneKey;
  }

  /** A second full delete only refreshes the tombstone. */
  lemma FullDeleteIsIdempotent(key: string, gcs: GcsMap, r2: R2Map, gcs1: GcsMap, r21: R2Map, gcs2: GcsMap, r22: R2Map)
    requires FullDelete(key, gcs, r2, gcs1, r21) && FullDelete(key, gcs1, r21, gcs2, r22)
    ensures r21 == r22 && gcs1.Keys == gcs2.Keys && gcs1 - {TombstoneKey(key)} == gcs2 - {TombstoneKey(key)}
  {
    hide Covered, TombstoneKey;
  }

  /** Failed attempts compose. */
  lemma PartialThenPartial(key: string, gcs: GcsMap, r2: R2Map, gcs1: GcsMap, r21: R2Map, gcs2: GcsMap, r22: R2Map)
    requires PartialDelete(key, gcs, r2, gcs1, r21) && PartialDelete(key, gcs1, r21, gcs2, r22)
    ensures PartialDelete(key, gcs, r2, gcs2, r22)
  {
    hide Covered, TombstoneKey;
  }

  /** A full attempt after failed ones ends where a full attempt alone would have. */
  lemma PartialThenFull(key: string, gcs: GcsMap, r2: R2Map, gcs1: GcsMap, r21: R2Map, gcs2: GcsMap, r22: R2Map)
    requires PartialDelete(key, gcs, r2, gcs1, r21) && FullDelete(key, gcs1, r21, gcs2, r22)
    ensures FullDelete(key, gcs, r2, gcs2, r22)
  {
    hide Covered, TombstoneKey;
  }

  // ---------- a delete running alone ----------


  /** The state of a delete that started in `w0` and ran alone since. */
  ghost predicate Alone(w0: World, w: World, d: nat, key: string) {
    && d in w.deletes && w.deletes[d].key == key && Canonical(key)
    && w == w0.(gcs := w.gcs, r2 := w.r2, deletes := w.deletes)
    && PartialDelete(key, w0.gcs, w0.r2, w.gcs, w.r2)
    && AllPending(w.r2, w.deletes[d], {})
    && (PastTombstone(w.deletes[d].pc) ==> TombstoneKey(key) in w.gcs)
    && (w.deletes[d].pc.Finished? ==> key !in w.gcs)
  }

  /** A step of a delete removes covered keys from R2, and the object from GCS only when no
      covered key is pending. */
  lemma StepPartial(t: Transform, w: World, a: Action)
    requires Inv(t, w) && DeleteAction(a) && a.d in w.deletes && AllPending(w.r2, w.deletes[a.d], {})
    requires Canonical(w.deletes[a.d].key)
    ensures var w1 := DeleteStep(w, a); PartialDelete(w.deletes[a.d].key, w.gcs, w.r2, w1.gcs, w1.r2)
  {
    hide Inv, Canonical, AllPending, PartialDelete, DeleteKeyList, BatchUnderPrefix, TombstoneKey, DeletePage, ListPage,
      R2KeyCall, TombstoneCall, GcsCall, SetDelete;
    var x := w.deletes[a.d];
    DeletesOf(t, w, a.d);
    assert map[a.d := x][a.d] == x;
    NothingPartial(w, a.d);
    match a
    case DeleteCallAct(d, attempt) =>
      if x.pc.WriteTombstone? { TombstoneCallPartial(w, d, attempt); }
      if x.pc.DeleteKeys? { KeyCallPartial(w, d, x.pc.i, attempt); }
      if x.pc.DeleteGcs? { GcsCallPartial(w, d, attempt); }
    case DeletePageAct(d, attempt, removed) => PageStepPartial(t, w, d, attempt, removed);
    case ListPageAct(d, page, next) => ListStepPartial(w, d, page, next);
    case _ =>
  }

  lemma NothingPartial(w: World, d: nat)
    requires d in w.deletes
    ensures PartialDelete(w.deletes[d].key, w.gcs, w.r2, w.gcs, w.r2)
    ensures forall pc :: SetDelete(w, d, pc).gcs == w.gcs && SetDelete(w, d, pc).r2 == w.r2
  {
    hide Covered, TombstoneKey;
  }

  lemma TombstoneCallPartial(w: World, d: nat, attempt: Attempted)
    requires d in w.deletes && Canonical(w.deletes[d].key)
    ensures var w1 := TombstoneCall(w, d, attempt); PartialDelete(w.deletes[d].key, w.gcs, w.r2, w1.gcs, w1.r2)
  {
    hide Covered, TombstoneKey, Canonical, AfterAttempt;
    KeyIsNoTombstone(w.deletes[d].key);
  }

  lemma GcsCallPartial(w: World, d: nat, attempt: Attempted)
    requires d in w.deletes && Canonical(w.deletes[d].key) && w.deletes[d].pc.DeleteGcs?
    requires AllPending(w.r2, w.deletes[d], {})
    ensures var w1 := GcsCall(w, d, attempt); PartialDelete(w.deletes[d].key, w.gcs, w.r2, w1.gcs, w1.r2)
  {
    hide Covered, TombstoneKey, Canonical, AfterAttempt, AllPending;
    KeyIsNoTombstone(w.deletes[d].key);
    NonePending(w.r2, w.deletes[d]);
  }

  lemma KeyIsNoTombstone(key: string)
    requires Canonical(key)
    ensures TombstoneKey(key) != key
  {
    hide Canonical, TombstoneKey, NamespaceOf;
    NamespacesDisjoint("", key, Thumb, None);
  }

  lemma NonePending(r2: R2Map, x: Deletion)
    requires AllPending(r2, x, {}) && (x.pc.DeleteGcs? || x.pc.Finished?)
    ensures forall y | y in r2 :: !Covered(x.key, y)
  {
    hide Covered;
  }

  lemma KeyCallPartial(w: World, d: nat, i: nat, attempt: Attempted)
    requires d in w.deletes && i < |DeleteKeyList(w.deletes[d].key)| && TombstoneKey(w.deletes[d].key) in w.gcs
    ensures var w1 := R2KeyCall(w, d, i, attempt); PartialDelete(w.deletes[d].key, w.gcs, w.r2, w1.gcs, w1.r2)
  {
    hide Covered, TombstoneKey, DeleteKeyList;
    var key := w.deletes[d].key;
    CoveredSplits(key, DeleteKeyList(key)[i]);
    assert R2KeyCall(w, d, i, attempt).gcs == w.gcs;
  }

  lemma PageStepPartial(t: Transform, w: World, d: nat, attempt: Attempted, removed: set<string>)
    requires Inv(t, w) && d in w.deletes
    ensures var w1 := DeletePage(w, d, attempt, removed); PartialDelete(w.deletes[d].key, w.gcs, w.r2, w1.gcs, w1.r2)
  {
    hide Inv, Covered, TombstoneKey, Canonical, DeleteKeyList, BuildWebpVariantPrefix;
    var x := w.deletes[d];
    DeletesOf(t, w, d);
    assert map[d := x][d] == x;
    if x.pc.DeletePrefixes? && x.pc.batch.Some? {
      forall y | y in x.pc.batch.value.page ensures Covered(x.key, y) {
        assert UnderPrefixFrom(x.key, 0, y);
        CoveredSplits(x.key, y);
      }
    }
  }

  lemma ListStepPartial(w: World, d: nat, page: seq<string>, next: Option<string>)
    requires d in w.deletes
    ensures var w1 := ListPage(w, d, page, next); PartialDelete(w.deletes[d].key, w.gcs, w.r2, w1.gcs, w1.r2)
  {
    hide Covered, TombstoneKey, IsPage, BuildWebpVariantPrefix;
  }

  lemma StepAlone(t: Transform, w0: World, w: World, a: Action, d: nat, key: string)
    requires Inv(t, w) && Alone(w0, w, d, key) && OfDelete(a, d)
    ensures Alone(w0, Apply(t, w, a), d, key)
  {
    hide Inv, Canonical, AllPending, PartialDelete, TombstoneKey, DeleteCall, DeletePage, ListPage, Shrinks;
    var w1 := DeleteStep(w, a);
    assert Apply(t, w, a) == w1;
    StepPartial(t, w, a);
    PartialThenPartial(key, w0.gcs, w0.r2, w.gcs, w.r2, w1.gcs, w1.r2);
    DeleteStepPending(t, w, a, {});
    DeleteStepFrame(w, a);
    ApplyKeeps(t, w, a);
    DeletesOf(t, w1, d);
    assert map[d := w1.deletes[d]][d] == w1.deletes[d];
    FinishedMeansGone(w, a);
  }

  lemma FinishedMeansGone(w: World, a: Action)
    requires DeleteAction(a) && a.d in w.deletes && (w.deletes[a.d].pc.Finished? ==> w.deletes[a.d].key !in w.gcs)
    requires a.d in DeleteStep(w, a).deletes
    ensures DeleteStep(w, a).deletes[a.d].pc.Finished? ==> w.deletes[a.d].key !in DeleteStep(w, a).gcs
  {
    hide DeleteCall, DeletePage, BuildWebpVariantPrefix, IsPage;
    match a
    case DeleteCallAct(d, attempt) => CallFinished(w, d, attempt);
    case DeletePageAct(d, attempt, removed) => PageNotFinished(w, d, attempt, removed);
    case _ =>
  }

  lemma PageNotFinished(w: World, d: nat, attempt: Attempted, removed: set<string>)
    requires d in w.deletes
    ensures DeletePage(w, d, attempt, removed) == w || !DeletePage(w, d, attempt, removed).deletes[d].pc.Finished?
  {
  }

  lemma TombstoneNotFinished(w: World, d: nat, attempt: Attempted)
    requires d in w.deletes
    ensures d in TombstoneCall(w, d, attempt).deletes && !TombstoneCall(w, d, attempt).deletes[d].pc.Finished?
  {
    hide TombstoneCallGcs;
  }

  lemma KeyNotFinished(w: World, d: nat, i: nat, attempt: Attempted)
    requires d in w.deletes && i < |DeleteKeyList(w.deletes[d].key)|
    ensures d in R2KeyCall(w, d, i, attempt).deletes && !R2KeyCall(w, d, i, attempt).deletes[d].pc.Finished?
  {
    hide DeleteKeyList;
  }

  lemma GcsFinished(w: World, d: nat, attempt: Attempted)
    requires d in w.deletes
    ensures d in GcsCall(w, d, attempt).deletes
    ensures GcsCall(w, d, attempt).deletes[d].pc.Finished? ==> w.deletes[d].key !in GcsCall(w, d, attempt).gcs
  {
  }

  lemma CallFinished(w: World, d: nat, attempt: Attempted)
    requires d in w.deletes && (w.deletes[d].pc.Finished? ==> w.deletes[d].key !in w.gcs)
    ensures d in DeleteCall(w, d, attempt).deletes
    ensures DeleteCall(w, d, attempt).deletes[d].pc.Finished? ==> w.deletes[d].key !in DeleteCall(w, d, attempt).gcs
  {
    hide TombstoneCall, R2KeyCall, GcsCall, DeleteKeyList;
    TombstoneNotFinished(w, d, attempt);
    GcsFinished(w, d, attempt);
    var pc := w.deletes[d].pc;
    if pc.DeleteKeys? && pc.i < |DeleteKeyList(w.deletes[d].key)| { KeyNotFinished(w, d, pc.i, attempt); }
  }

  lemma {:induction false} RunAlone(t: Transform, w0: World, w: World, steps: seq<Action>, d: nat, key: string)
    requires Inv(t, w) && Alone(w0, w, d, key) && forall i | 0 <= i < |steps| :: OfDelete(steps[i], d)
    ensures Alone(w0, Run(t, w, steps), d, key)
    decreases |steps|
  {
    hide Inv, Alone, Apply;
    if steps != [] {
      var front := steps[..|steps| - 1];
      RunAlone(t, w0, w, front, d, key);
      RunKeeps(t, w, front);
      StepAlone(t, w0, Run(t, w, front), steps[|steps| - 1], d, key);
    }
  }

  /** One attempt at a delete: a request that passes the checks, and the calls it gets to make. */
  datatype Attempt = Attempt(d: nat, h: Headers, path: string, steps: seq<Action>)

  ghost predicate ValidAttempt(w: World, a: Attempt, key: string) {
    && a.d !in w.deletes
    && StartDelete(a.h, a.path).key == key && StartDelete(a.h, a.path).pc.WriteTombstone?
    && forall i | 0 <= i < |a.steps| :: OfDelete(a.steps[i], a.d)
  }

  ghost function AttemptRun(t: Transform, w: World, a: Attempt): World {
    Run(t, Apply(t, w, StartDeleteAct(a.d, a.h, a.path)), a.steps)
  }

  ghost predicate Completed(w: World, d: nat) { d in w.deletes && w.deletes[d].pc.Finished? }

  /** Crash ordering: wherever an attempt stops, no R2 object is missing without the tombstone,
      the GCS object is gone only if every covered R2 key is, and nothing else was touched;
      an attempt that completes is a full delete. */
  lemma AttemptIsOrdered(t: Transform, w: World, a: Attempt, key: string)
    requires Inv(t, w) && ValidAttempt(w, a, key)
    ensures var w1 := AttemptRun(t, w, a);
      && Inv(t, w1) && w1 == w.(gcs := w1.gcs, r2 := w1.r2, deletes := w1.deletes)
      && PartialDelete(key, w.gcs, w.r2, w1.gcs, w1.r2)
      && (Completed(w1, a.d) ==> FullDelete(key, w.gcs, w.r2, w1.gcs, w1.r2))
  {
    hide Inv, Canonical, TombstoneKey, Covered, StartDelete, Shrinks;
    var start := StartDeleteAct(a.d, a.h, a.path);
    var w0 := Apply(t, w, start);
    ApplyKeeps(t, w, start);
    DeletesOf(t, w0, a.d);
    assert map[a.d := w0.deletes[a.d]][a.d] == w0.deletes[a.d];
    NothingPartial(w0, a.d);
    assert Alone(w0, w0, a.d, key);
    RunAlone(t, w0, w0, a.steps, a.d, key);
    RunKeeps(t, w0, a.steps);
    var w1 := AttemptRun(t, w, a);
    if Completed(w1, a.d) {
      NonePending(w1.r2, w1.deletes[a.d]);
      CompletedIsFull(key, w.gcs, w.r2, w1.gcs, w1.r2);
    }
  }

  lemma CompletedIsFull(key: string, gcs: GcsMap, r2: R2Map, gcs': GcsMap, r2': R2Map)
    requires PartialDelete(key, gcs, r2, gcs', r2')
    requires (forall y | y in r2' :: !Covered(key, y)) && key !in gcs' && TombstoneKey(key) in gcs'
    ensures FullDelete(key, gcs, r2, gcs', r2')
  {
    hide Covered, TombstoneKey;
  }

  ghost function AttemptsRun(t: Transform, w: World, attempts: seq<Attempt>): World
    decreases |attempts|
  {
    if attempts == [] then w else AttemptsRun(t, AttemptRun(t, w, attempts[0]), attempts[1..])
  }

  ghost predicate ValidAttempts(t: Transform, w: World, attempts: seq<Attempt>, key: string)
    decreases |attempts|
  {
    attempts != [] ==>
      ValidAttempt(w, attempts[0], key) && ValidAttempts(t, AttemptRun(t, w, attempts[0]), attempts[1..], key)
  }

  /** Convergence: any number of attempts that failed anywhere, and then one that completes,
      leave GCS and R2 as that one delete alone would have. */
  lemma {:induction false} AttemptsConverge(t: Transform, w: World, attempts: seq<Attempt>, key: string)
    requires Inv(t, w) && |attempts| >= 1 && ValidAttempts(t, w, attempts, key)
    requires Completed(AttemptsRun(t, w, attempts), attempts[|attempts| - 1].d)
    ensures var w1 := AttemptsRun(t, w, attempts); FullDelete(key, w.gcs, w.r2, w1.gcs, w1.r2)
    decreases |attempts|
  {
    hide Inv, PartialDelete, FullDelete, ValidAttempt, AttemptRun;
    var w1 := AttemptRun(t, w, attempts[0]);
    AttemptIsOrdered(t, w, attempts[0], key);
    if |attempts| > 1 {
      AttemptsConverge(t, w1, attempts[1..], key);
      var w2 := AttemptsRun(t, w, attempts);
      PartialThenFull(key, w.gcs, w.r2, w1.gcs, w1.r2, w2.gcs, w2.r2);
    } else {
      assert attempts[1..] == [];
    }
  }

  // ---------- nothing brings a deleted original back but an upload ----------

  /** The action is an upload to `key`: a finalize of one of its sessions, or an ingest. */
  predicate UploadsTo(w: World, a: Action, key: string) {
    match a
    case FinalizeAct(_, u, _) => u in w.sessions && w.sessions[u].objectKey == key
    case IngestAct(k, _, _, _, _, _) => k == key
    case _ => false
  }

  ghost predicate NoUploadTo(t: Transform, w: World, actions: seq<Action>, key: string) {
    forall i | 0 <= i < |actions| :: !UploadsTo(Run(t, w, actions[..i]), actions[i], key)
  }

  ghost predicate StaysDeleted(w: World, key: string) { TombstoneKey(key) in w.gcs && key !in w.r2 }

  lemma KeyIsNoVariant(key: string, k: string, v: WebpVariant, version: Option<string>)
    requires Canonical(key)
    ensures BuildVariantKey(k, v, version) != key
  {
    hide Canonical, BuildVariantKey, NamespaceOf;
    NamespacesDisjoint("", key, v, version);
    NamespacesDisjoint("", k, v, version);
  }

  lemma WorkerStepStays(t: Transform, w: World, a: Action, key: string)
    requires WorkerAction(a) && Canonical(key) && StaysDeleted(w, key)
    ensures StaysDeleted(WorkerStep(t, w, a), key)
  {
    hide Canonical, BuildVariantKey, TombstoneKey, MatchEdge, FirstRead, SecondRead;
    if a.PutVariantAct? && a.k in w.workers && HoldsOriginal(w.workers[a.k]) {
      var p := w.workers[a.k].pc.parsed;
      KeyIsNoVariant(key, p.objectKey, p.variant.value, p.version);
    }
  }

  // ---------- tombstones are never removed ----------

  lemma KeepsTransitive(a: GcsMap, b: GcsMap, c: GcsMap)
    requires KeepsTombstones(a, b) && KeepsTombstones(b, c)
    ensures KeepsTombstones(a, c)
  {
    hide NamespaceOf;
  }

  lemma DropStagedKeepsTombstones(w: World, s: Session, delete: Outcome)
    requires ValidSession(s)
    ensures KeepsTombstones(w.gcs, DropStaged(w, s, delete).gcs)
  {
    hide NamespaceOf, ValidSession;
    SessionKeysAreNoTombstones(s);
  }

  lemma StoreImageKeepsTombstones(w: World, w1: World, key: string, body: Bytes, ct: ContentType)
    requires KeepsTombstones(w.gcs, w1.gcs)
    ensures KeepsTombstones(w.gcs, StoreImage(w1, key, body, ct).gcs)
  {
    hide NamespaceOf;
  }

  lemma PromoteKeepsTombstones(w: World, s: Session, body: Bytes, f: FinalizeFaults)
    requires ValidSession(s)
    ensures KeepsTombstones(w.gcs, Promote(w, s, body, f).0.gcs)
  {
    hide NamespaceOf, ValidSession, DropStaged, KeepsTombstones, StoreImage;
    assert KeepsTombstones(w.gcs, w.gcs) by { NothingKeeps(w.gcs); }
    StoreImageKeepsTombstones(w, w, s.objectKey, body, s.contentType);
    var w1 := StoreImage(w, s.objectKey, body, s.contentType);
    DropStagedKeepsTombstones(w, s, f.stagingDelete);
    DropStagedKeepsTombstones(w1, s, f.stagingDelete);
    KeepsTransitive(w.gcs, w1.gcs, DropStaged(w1, s, f.stagingDelete).gcs);
  }

  lemma NothingKeeps(gcs: GcsMap)
    ensures KeepsTombstones(gcs, gcs)
  {
  }

  lemma FinalizeStagedKeepsTombstones(w: World, s: Session, f: FinalizeFaults)
    requires ValidSession(s)
    ensures KeepsTombstones(w.gcs, FinalizeStaged(w, s, f).0.gcs)
  {
    hide ValidSession, DropStaged, KeepsTombstones, ContradictsType, Promote;
    NothingKeeps(w.gcs);
    DropStagedKeepsTombstones(w, s, f.rejectDelete);
    if s.stagingObjectKey in w.gcs && w.gcs[s.stagingObjectKey].Image? {
      PromoteKeepsTombstones(w, s, w.gcs[s.stagingObjectKey].body, f);
    }
  }

  lemma FinalizeKeepsTombstones(t: Transform, w: World, h: Headers, u: string, f: FinalizeFaults)
    requires Inv(t, w)
    ensures KeepsTombstones(w.gcs, FinalizeUpload(w, h, u, f).0.gcs)
  {
    hide Inv, ValidSession, FindSession, KeepsTombstones, FinalizeStaged;
    NothingKeeps(w.gcs);
    if FindSession(w, h, u, f.sessionStoreDown).Ok? {
      FoundSession(w, h, u, f.sessionStoreDown);
      SessionOfId(t, w, u);
      FinalizeStagedKeepsTombstones(w, w.sessions[u], f);
    }
  }

  lemma CancelKeepsTombstones(t: Transform, w: World, h: Headers, u: string, f: CancelFaults)
    requires Inv(t, w)
    ensures KeepsTombstones(w.gcs, CancelUpload(w, h, u, f).0.gcs)
  {
    hide Inv, ValidSession, FindSession, KeepsTombstones, DropStaged;
    NothingKeeps(w.gcs);
    if FindSession(w, h, u, f.sessionStoreDown).Ok? {
      FoundSession(w, h, u, f.sessionStoreDown);
      SessionOfId(t, w, u);
      DropStagedKeepsTombstones(w, w.sessions[u], f.stagingDelete);
    }
  }

  lemma IngestKeepsTombstones(w: World, key: string, source: Result<Source, ErrorCode>, rt: Option<string>,
                              write: WriteOutcome, version: string, put: Outcome)
    ensures KeepsTombstones(w.gcs, IngestObject(w, key, source, rt, write, version, put).0.gcs)
  {
    hide KeepsTombstones, StoreImage, ParseAllowedContentType, Canonical;
    NothingKeeps(w.gcs);
    forall bytes, ct ensures KeepsTombstones(w.gcs, StoreImage(w, key, bytes, ct).gcs) {
      StoreImageKeepsTombstones(w, w, key, bytes, ct);
    }
  }

  lemma CallKeepsTombstones(w: World, d: nat, attempt: Attempted)
    requires d in w.deletes && (w.deletes[d].pc.DeleteGcs? ==> Canonical(w.deletes[d].key))
    ensures KeepsTombstones(w.gcs, DeleteCall(w, d, attempt).gcs)
  {
    hide Canonical, KeepsTombstones, DeleteKeyList, TombstoneCall, R2KeyCall, GcsCall;
    NothingKeeps(w.gcs);
    TombstoneCallKeepsTombstones(w, d, attempt);
    var pc := w.deletes[d].pc;
    if pc.DeleteKeys? && pc.i < |DeleteKeyList(w.deletes[d].key)| { R2KeyCallSameGcs(w, d, pc.i, attempt); }
    if pc.DeleteGcs? { GcsCallKeepsTombstones(w, d, attempt); }
  }

  lemma TombstoneCallKeepsTombstones(w: World, d: nat, attempt: Attempted)
    requires d in w.deletes
    ensures KeepsTombstones(w.gcs, TombstoneCall(w, d, attempt).gcs)
  {
    hide TombstoneKey, NamespaceOf, AfterAttempt;
  }

  lemma R2KeyCallSameGcs(w: World, d: nat, i: nat, attempt: Attempted)
    requires d in w.deletes && i < |DeleteKeyList(w.deletes[d].key)|
    ensures R2KeyCall(w, d, i, attempt).gcs == w.gcs
  {
    hide DeleteKeyList, AfterAttempt, AfterKey;
  }

  lemma GcsCallKeepsTombstones(w: World, d: nat, attempt: Attempted)
    requires d in w.deletes && Canonical(w.deletes[d].key)
    ensures KeepsTombstones(w.gcs, GcsCall(w, d, attempt).gcs)
  {
    hide TombstoneKey, Canonical, NamespaceOf, AfterAttempt;
    NamespacesDisjoint("", w.deletes[d].key, Thumb, None);
  }

  lemma DeleteKeepsTombstones(t: Transform, w: World, a: Action)
    requires Inv(t, w) && DeleteAction(a)
    ensures KeepsTombstones(w.gcs, DeleteStep(w, a).gcs)
  {
    hide Inv, Canonical, KeepsTombstones, TombstoneKey, DeleteCall, BatchUnderPrefix, DeleteKeyList, IsPage,
      BuildWebpVariantPrefix, AfterAttempt, AfterPage;
    NothingKeeps(w.gcs);
    if a.d in w.deletes && a.DeleteCallAct? {
      DeletesOf(t, w, a.d);
      assert map[a.d := w.deletes[a.d]][a.d] == w.deletes[a.d];
      CallKeepsTombstones(w, a.d, a.attempt);
    }
  }

  /** No action removes a tombstone. */
  lemma TombstonesStay(t: Transform, w: World, a: Action)
    requires Inv(t, w)
    ensures KeepsTombstones(w.gcs, Apply(t, w, a).gcs)
  {
    hide Inv, KeepsTombstones, Presign, FinalizeUpload, CancelUpload, IngestObject, StartDelete, DeleteStep, WorkerStep,
      ClientPut;
    NothingKeeps(w.gcs);
    if DeleteAction(a) {
      DeleteKeepsTombstones(t, w, a);
    } else if WorkerAction(a) {
      WorkerSameGcs(t, w, a);
    } else {
      match a
      case FinalizeAct(h, u, f) => FinalizeKeepsTombstones(t, w, h, u, f);
      case CancelAct(h, u, f) => CancelKeepsTombstones(t, w, h, u, f);
      case IngestAct(key, source, rt, write, version, put) =>
        IngestKeepsTombstones(w, key, source, rt, write, version, put);
      case PresignAct(h, r, u, ttl, f) => PresignTouches(w, h, r, u, ttl, f);
      case ClientPutAct(u, body, ct) => ClientPutKeepsTombstones(w, u, body, ct);
      case _ =>
    }
  }

  lemma ClientPutKeepsTombstones(w: World, u: string, body: Bytes, ct: Option<string>)
    ensures KeepsTombstones(w.gcs, ClientPut(w, u, body, ct).gcs)
  {
    hide NamespaceOf;
  }

  lemma WorkerSameGcs(t: Transform, w: World, a: Action)
    requires WorkerAction(a)
    ensures WorkerStep(t, w, a).gcs == w.gcs
  {
    hide MatchEdge, FirstRead, SecondRead, BuildVariantKey;
  }

  // ---------- so a deleted original stays deleted ----------

  lemma OtherStays(t: Transform, w: World, a: Action, key: string)
    requires Inv(t, w) && Canonical(key) && key !in w.r2 && TombstoneKey(key) in w.gcs && !UploadsTo(w, a, key)
    ensures key !in Apply(t, w, a).r2
  {
    hide Inv, Canonical, TombstoneKey, WorkerStep, DeleteStep, Shrinks, DeleteFrame;
    if DeleteAction(a) {
      if a.d in w.deletes { DeleteStepFrame(w, a); DeleteFrameShrinks(w, DeleteStep(w, a), a.d); }
      assert a.d !in w.deletes ==> DeleteStep(w, a) == w by { NoDelete(w, a); }
    } else if WorkerAction(a) {
      WorkerStepStays(t, w, a, key);
    } else {
      WriteStays(t, w, a, key);
    }
  }

  lemma NoDelete(w: World, a: Action)
    requires DeleteAction(a)
    ensures a.d !in w.deletes ==> DeleteStep(w, a) == w
  {
  }

  lemma DeleteFrameShrinks(w: World, w1: World, d: nat)
    requires d in w.deletes && DeleteFrame(w, w1, d)
    ensures forall y | y in w1.r2 :: y in w.r2
  {
  }

  lemma WriteStays(t: Transform, w: World, a: Action, key: string)
    requires !DeleteAction(a) && !WorkerAction(a)
    requires key !in w.r2 && TombstoneKey(key) in w.gcs && !UploadsTo(w, a, key)
    ensures key !in Apply(t, w, a).r2
  {
    hide Canonical, TombstoneKey, Presign, FinalizeUpload, CancelUpload, IngestObject, StartDelete;
    match a
    case FinalizeAct(h, u, f) => FinalizeFrame(w, h, u, f);
    case CancelAct(h, u, f) => CancelTouches(w, h, u, f);
    case IngestAct(k, source, rt, write, version, put) => IngestFrame(w, k, source, rt, write, version, put);
    case PresignAct(h, r, u, ttl, f) => PresignTouches(w, h, r, u, ttl, f);
    case _ =>
  }

  lemma ApplyStays(t: Transform, w: World, a: Action, key: string)
    requires Inv(t, w) && Canonical(key) && StaysDeleted(w, key) && !UploadsTo(w, a, key)
    ensures StaysDeleted(Apply(t, w, a), key)
  {
    hide Inv, Canonical, TombstoneKey, NamespaceOf, UploadsTo, Apply;
    OtherStays(t, w, a, key);
    TombstonesStay(t, w, a);
    NamespacesDisjoint("", key, Thumb, None);
  }

  /** Once its tombstone is written and its R2 copy is gone, no image request, no other delete
      and no reconciliation brings the original back to R2; only an upload to the key does. */
  lemma {:induction false} DeletedStaysDeleted(t: Transform, w: World, actions: seq<Action>, key: string)
    requires Inv(t, w) && Canonical(key) && StaysDeleted(w, key) && NoUploadTo(t, w, actions, key)
    ensures StaysDeleted(Run(t, w, actions), key)
    decreases |actions|
  {
    hide Inv, Canonical, StaysDeleted, UploadsTo, Apply;
    if actions != [] {
      var n := |actions| - 1;
      var front := actions[..n];
      assert forall i | 0 <= i < n :: front[..i] == actions[..i] && front[i] == actions[i];
      DeletedStaysDeleted(t, w, front, key);
      RunKeeps(t, w, front);
      assert !UploadsTo(Run(t, w, actions[..n]), actions[n], key);
      ApplyStays(t, Run(t, w, front), actions[n], key);
    }
  }

  // ---------- every removal from R2 is under a tombstone ----------

  /** Whatever step takes a key out of R2, it is a delete whose tombstone is already written
      and which covers that key. */
  lemma RemovalsAreTombstoned(t: Transform, w: World, a: Action, y: string)
    requires Inv(t, w) && y in w.r2 && y !in Apply(t, w, a).r2
    ensures DeleteAction(a) && a.d in w.deletes && Covered(w.deletes[a.d].key, y)
    ensures TombstoneKey(w.deletes[a.d].key) in w.gcs
  {
    hide Inv, Covered, TombstoneKey, WorkerStep, DeleteStep;
    if DeleteAction(a) {
      DeleteRemoves(t, w, a, y);
    } else if WorkerAction(a) {
      WorkerAdds(t, w, a);
    } else {
      WriteAdds(t, w, a, y);
    }
  }

  lemma WriteAdds(t: Transform, w: World, a: Action, y: string)
    requires !DeleteAction(a) && !WorkerAction(a) && y in w.r2
    ensures y in Apply(t, w, a).r2
  {
    hide Canonical, TombstoneKey, Presign, FinalizeUpload, CancelUpload, IngestObject, StartDelete;
    match a
    case FinalizeAct(h, u, f) => FinalizeFrame(w, h, u, f);
    case CancelAct(h, u, f) => CancelTouches(w, h, u, f);
    case IngestAct(k, source, rt, write, version, put) => IngestFrame(w, k, source, rt, write, version, put);
    case PresignAct(h, r, u, ttl, f) => PresignTouches(w, h, r, u, ttl, f);
    case _ =>
  }

  lemma WorkerAdds(t: Transform, w: World, a: Action)
    requires WorkerAction(a)
    ensures forall y | y in w.r2 :: y in WorkerStep(t, w, a).r2
  {
    hide MatchEdge, FirstRead, SecondRead, BuildVariantKey;
  }

  lemma DeleteRemoves(t: Transform, w: World, a: Action, y: string)
    requires Inv(t, w) && DeleteAction(a) && y in w.r2 && y !in DeleteStep(w, a).r2
    ensures a.d in w.deletes && Covered(w.deletes[a.d].key, y) && TombstoneKey(w.deletes[a.d].key) in w.gcs
  {
    hide Inv, Canonical, TombstoneKey, Covered, DeleteKeyList, BuildWebpVariantPrefix, DeletePage, R2KeyCall,
      TombstoneCall, GcsCall, IsPage, SameBut, BatchUnderPrefix;
    var x := w.deletes[a.d];
    DeletesOf(t, w, a.d);
    assert map[a.d := x][a.d] == x;
    match a
    case DeleteCallAct(d, attempt) =>
      if x.pc.DeleteKeys? { KeyCallPartial(w, d, x.pc.i, attempt); } else { OtherCallR2(w, d, attempt); }
    case DeletePageAct(d, attempt, removed) =>
      PageStepPartial(t, w, d, attempt, removed); PageNeedsPrefixes(w, d, attempt, removed);
    case _ =>
  }

  lemma OtherCallR2(w: World, d: nat, attempt: Attempted)
    requires d in w.deletes && !w.deletes[d].pc.DeleteKeys?
    ensures DeleteCall(w, d, attempt).r2 == w.r2
  {
    hide TombstoneCallGcs, AfterAttempt, SetDelete;
    forall gcs, pc ensures SetDelete(w.(gcs := gcs), d, pc).r2 == w.r2 { SetDeleteSameR2(w.(gcs := gcs), d, pc); }
  }

  lemma SetDeleteSameR2(w: World, d: nat, pc: DeletePc)
    requires d in w.deletes
    ensures SetDelete(w, d, pc).r2 == w.r2
  {
  }

  lemma PageNeedsPrefixes(w: World, d: nat, attempt: Attempted, removed: set<string>)
    requires d in w.deletes
    ensures DeletePage(w, d, attempt, removed) == w || w.deletes[d].pc.DeletePrefixes?
  {
  }
}
