/** What the calls of a delete do to the state of the transition system, one after the other. */
module DeleteTraces {
  import opened Wrappers
  import opened Errors
  import opened Variants
  import opened StorageKeys
  import opened Storage
  import opened Retry
  import opened Worlds
  import opened RemoteCalls
  import opened Systems

  /** The world `w` but for the two stores and the point where delete `d` stands. */
  function DeleteAt(w: World, d: nat, gcs: GcsMap, r2: R2Map, pc: DeletePc): World
    requires d in w.deletes
  {
    w.(gcs := gcs, r2 := r2, deletes := w.deletes[d := w.deletes[d].(pc := pc)])
  }

  predicate OfDelete(a: Action, d: nat) { DeleteAction(a) && a.d == d }

  /** The steps are a run of delete `d` alone that leads from `w` to these stores and `pc`. */
  ghost predicate Led(t: Transform, w: World, d: nat, steps: seq<Action>, gcs: GcsMap, r2: R2Map, pc: DeletePc) {
    d in w.deletes && (forall a | a in steps :: OfDelete(a, d)) && Run(t, w, steps) == DeleteAt(w, d, gcs, r2, pc)
  }

  lemma LedStep(t: Transform, w: World, d: nat, steps: seq<Action>, gcs: GcsMap, r2: R2Map, pc: DeletePc,
                a: Action, gcs': GcsMap, r2': R2Map, pc': DeletePc)
    requires Led(t, w, d, steps, gcs, r2, pc)
    requires OfDelete(a, d) && DeleteStep(DeleteAt(w, d, gcs, r2, pc), a) == DeleteAt(w, d, gcs', r2', pc')
    ensures Led(t, w, d, steps + [a], gcs', r2', pc')
  {
    hide DeleteStep, DeleteAt;
    var all := steps + [a];
    assert all[..|all| - 1] == steps;
  }

  // ---------- retried calls ----------

  /** How an attempt looks to the transition system. */
  function AttemptedOf(c: Call, last: bool): Attempted {
    match c
    case Acknowledged => Returns
    case Lost(status, applied) => Fails(applied, !last && Retryable(status))
  }

  /** The stores without and with the effect of a call. */
  datatype Effect = Effect(gcs0: GcsMap, r20: R2Map, gcs1: GcsMap, r21: R2Map)

  function GcsOf(e: Effect, taken: bool): GcsMap { if taken then e.gcs1 else e.gcs0 }
  function R2Of(e: Effect, taken: bool): R2Map { if taken then e.r21 else e.r20 }

  /** At `again`, a call has this effect, leads on to `next`, and gives up with `code`. */
  ghost predicate Behaves(w: World, d: nat, e: Effect, again: DeletePc, next: DeletePc, code: ErrorCode) {
    d in w.deletes && forall attempt: Attempted, taken: bool :: OneCall(w, d, e, again, next, code, attempt, taken)
  }

  ghost predicate OneCall(w: World, d: nat, e: Effect, again: DeletePc, next: DeletePc, code: ErrorCode,
                          attempt: Attempted, taken: bool)
    requires d in w.deletes
  {
    var taken1 := taken || TookEffect(attempt);
    DeleteStep(DeleteAt(w, d, GcsOf(e, taken), R2Of(e, taken), again), DeleteCallAct(d, attempt))
      == DeleteAt(w, d, GcsOf(e, taken1), R2Of(e, taken1), AfterAttempt(attempt, again, next, code))
  }

  /** A retried call is a run, and leads where its outcome says. */
  lemma {:induction false} CallsLead(t: Transform, w: World, d: nat, steps: seq<Action>, e: Effect, again: DeletePc,
                                     next: DeletePc,
                  code: ErrorCode, calls: nat -> Call, maxRetries: nat, attempt: nat, taken: bool)
    returns (more: seq<Action>)
    requires attempt <= maxRetries && Behaves(w, d, e, again, next, code)
    requires Led(t, w, d, steps, GcsOf(e, taken), R2Of(e, taken), again)
    ensures var outcome := OutcomeFrom(calls, maxRetries, attempt, taken);
      Led(t, w, d, more, GcsOf(e, Applied(outcome)), R2Of(e, Applied(outcome)),
        if outcome == Done then next else Aborted(code))
    decreases maxRetries - attempt
  {
    hide Led, DeleteStep, DeleteAt, GcsOf, R2Of;
    var a := AttemptedOf(calls(attempt), attempt >= maxRetries);
    var taken1 := taken || TookEffect(a);
    more := steps + [DeleteCallAct(d, a)];
    assert OneCall(w, d, e, again, next, code, a, taken);
    LedStep(t, w, d, steps, GcsOf(e, taken), R2Of(e, taken), again, DeleteCallAct(d, a),
            GcsOf(e, taken1), R2Of(e, taken1), AfterAttempt(a, again, next, code));
    if a.Fails? && a.retried {
      more := CallsLead(t, w, d, more, e, again, next, code, calls, maxRetries, attempt + 1, taken1);
    }
  }

  lemma TombstoneBehaves(w: World, d: nat, gcs: GcsMap, r2: R2Map)
    requires d in w.deletes
    ensures var x := w.deletes[d];
      var marked := gcs[TombstoneKey(x.key) := Marker(Tombstone(x.key, w.now, x.deletedBy))];
      Behaves(w, d, Effect(gcs, r2, marked, r2), WriteTombstone, DeleteKeys(0), TombstoneWriteFailed)
  {
    hide TombstoneKey, OneCall;
    var x := w.deletes[d];
    var e := Effect(gcs, r2, gcs[TombstoneKey(x.key) := Marker(Tombstone(x.key, w.now, x.deletedBy))], r2);
    forall attempt: Attempted, taken: bool
      ensures OneCall(w, d, e, WriteTombstone, DeleteKeys(0), TombstoneWriteFailed, attempt, taken)
    {
      OneTombstoneCall(w, d, gcs, r2, attempt, taken);
    }
  }

  lemma OneTombstoneCall(w: World, d: nat, gcs: GcsMap, r2: R2Map, attempt: Attempted, taken: bool)
    requires d in w.deletes
    ensures var x := w.deletes[d];
      var marked := gcs[TombstoneKey(x.key) := Marker(Tombstone(x.key, w.now, x.deletedBy))];
      OneCall(w, d, Effect(gcs, r2, marked, r2), WriteTombstone, DeleteKeys(0), TombstoneWriteFailed, attempt, taken)
  {
    hide TombstoneKey, AfterAttempt, TookEffect;
  }

  lemma KeyBehaves(w: World, d: nat, gcs: GcsMap, r2: R2Map, i: nat)
    requires d in w.deletes && i < |DeleteKeyList(w.deletes[d].key)|
    ensures var key := w.deletes[d].key;
      Behaves(w, d, Effect(gcs, r2, gcs, r2 - {DeleteKeyList(key)[i]}), DeleteKeys(i), AfterKey(i, key), R2Unavailable)
  {
    hide DeleteKeyList, AfterKey;
    var key := w.deletes[d].key;
    var e := Effect(gcs, r2, gcs, r2 - {DeleteKeyList(key)[i]});
    forall attempt: Attempted, taken: bool
      ensures OneCall(w, d, e, DeleteKeys(i), AfterKey(i, key), R2Unavailable, attempt, taken)
    {
    }
  }

  lemma GcsBehaves(w: World, d: nat, gcs: GcsMap, r2: R2Map)
    requires d in w.deletes
    ensures Behaves(w, d, Effect(gcs, r2, gcs - {w.deletes[d].key}, r2), DeleteGcs, Finished, StorageUnavailable)
  {
    var e := Effect(gcs, r2, gcs - {w.deletes[d].key}, r2);
    forall attempt: Attempted, taken: bool
      ensures OneCall(w, d, e, DeleteGcs, Finished, StorageUnavailable, attempt, taken)
    {
    }
  }

  // ---------- pages ----------

  /** A delete in the pages of its j-th prefix: the run behind it, and GCS as it stands. */
  datatype Paging = Paging(t: Transform, w: World, d: nat, j: nat, gcs: GcsMap)

  ghost predicate PagingLed(p: Paging, steps: seq<Action>, r2: R2Map, pc: DeletePc) {
    p.j < |WEBP_VARIANTS| && Led(p.t, p.w, p.d, steps, p.gcs, r2, pc)
  }

  /** The prefix being worked through. */
  function PrefixOf(p: Paging): string
    requires p.d in p.w.deletes && p.j < |WEBP_VARIANTS|
  {
    BuildWebpVariantPrefix(p.w.deletes[p.d].key, WEBP_VARIANTS[p.j])
  }

  /** Where a failed page leaves the delete. */
  function AfterFailure(j: nat, retried: bool): DeletePc {
    if retried then DeletePrefixes(j, None, None) else Aborted(R2Unavailable)
  }

  lemma ListFails(p: Paging, steps: seq<Action>, r2: R2Map, token: Option<string>, retried: bool)
    requires PagingLed(p, steps, r2, DeletePrefixes(p.j, token, None))
    ensures PagingLed(p, steps + [ListFailsAct(p.d, retried)], r2, AfterFailure(p.j, retried))
  {
    hide Led;
    var a := ListFailsAct(p.d, retried);
    assert p.d in p.w.deletes by { LedDelete(p, steps, r2, DeletePrefixes(p.j, token, None)); }
    ListFailsStep(p.w, p.d, p.gcs, r2, p.j, token, retried);
    LedStep(p.t, p.w, p.d, steps, p.gcs, r2, DeletePrefixes(p.j, token, None), a, p.gcs, r2,
            AfterFailure(p.j, retried));
  }

  lemma LedDelete(p: Paging, steps: seq<Action>, r2: R2Map, pc: DeletePc)
    requires PagingLed(p, steps, r2, pc)
    ensures p.d in p.w.deletes
  {
    hide DeleteAt, Run;
  }

  lemma ListFailsStep(w: World, d: nat, gcs: GcsMap, r2: R2Map, j: nat, token: Option<string>, retried: bool)
    requires d in w.deletes
    ensures DeleteStep(DeleteAt(w, d, gcs, r2, DeletePrefixes(j, token, None)), ListFailsAct(d, retried))
         == DeleteAt(w, d, gcs, r2, AfterFailure(j, retried))
  {
  }

  lemma Lists(p: Paging, steps: seq<Action>, r2: R2Map, token: Option<string>, page: seq<string>, next: Option<string>)
    requires PagingLed(p, steps, r2, DeletePrefixes(p.j, token, None))
    requires p.d in p.w.deletes && IsPage(r2.Keys, PrefixOf(p), token, page, next)
    ensures PagingLed(p, steps + [ListPageAct(p.d, page, next)], r2,
      DeletePrefixes(p.j, token, Some(Batch(page, next))))
  {
    hide Led, IsPage, BuildWebpVariantPrefix;
    var a := ListPageAct(p.d, page, next);
    ListStep(p.w, p.d, p.gcs, r2, p.j, token, page, next);
    LedStep(p.t, p.w, p.d, steps, p.gcs, r2, DeletePrefixes(p.j, token, None), a,
            p.gcs, r2, DeletePrefixes(p.j, token, Some(Batch(page, next))));
  }

  lemma ListStep(w: World, d: nat, gcs: GcsMap, r2: R2Map, j: nat, token: Option<string>, page: seq<string>,
                 next: Option<string>)
    requires d in w.deletes && j < |WEBP_VARIANTS|
    requires IsPage(r2.Keys, BuildWebpVariantPrefix(w.deletes[d].key, WEBP_VARIANTS[j]), token, page, next)
    ensures DeleteStep(DeleteAt(w, d, gcs, r2, DeletePrefixes(j, token, None)), ListPageAct(d, page, next))
         == DeleteAt(w, d, gcs, r2, DeletePrefixes(j, token, Some(Batch(page, next))))
  {
    hide IsPage, BuildWebpVariantPrefix;
  }

  lemma Deletes(p: Paging, steps: seq<Action>, r2: R2Map, token: Option<string>, page: seq<string>,
                next: Option<string>)
    requires PagingLed(p, steps, r2, DeletePrefixes(p.j, token, Some(Batch(page, next))))
    ensures PagingLed(p, steps + [DeletePageAct(p.d, Returns, {})], r2 - (set k | k in page), AfterPage(p.j, next))
  {
    hide Led;
    var pc := DeletePrefixes(p.j, token, Some(Batch(page, next)));
    LedDelete(p, steps, r2, pc);
    PageStep(p.w, p.d, p.gcs, r2, p.j, token, page, next, Returns, {});
    LedStep(p.t, p.w, p.d, steps, p.gcs, r2, pc, DeletePageAct(p.d, Returns, {}), p.gcs, r2 - (set k | k in page),
            AfterPage(p.j, next));
  }

  /** A failed page lost some of its keys. */
  lemma DeleteFails(p: Paging, steps: seq<Action>, r2: R2Map, token: Option<string>, page: seq<string>,
                    next: Option<string>,
                    r2': R2Map, retried: bool)
    requires PagingLed(p, steps, r2, DeletePrefixes(p.j, token, Some(Batch(page, next))))
    requires r2'.Keys <= r2.Keys && forall k | k in r2' :: r2'[k] == r2[k]
    requires forall k | k in r2 && k !in page :: k in r2'
    ensures PagingLed(p, steps + [DeletePageAct(p.d, Fails(true, retried), r2.Keys - r2'.Keys)], r2',
      AfterFailure(p.j, retried))
  {
    hide Led;
    var pc := DeletePrefixes(p.j, token, Some(Batch(page, next)));
    var a := DeletePageAct(p.d, Fails(true, retried), r2.Keys - r2'.Keys);
    LedDelete(p, steps, r2, pc);
    PageStep(p.w, p.d, p.gcs, r2, p.j, token, page, next, a.pageOutcome, a.removed);
    assert r2 - ((set k | k in page) * a.removed) == r2';
    LedStep(p.t, p.w, p.d, steps, p.gcs, r2, pc, a, p.gcs, r2', AfterFailure(p.j, retried));
  }

  lemma PageStep(w: World, d: nat, gcs: GcsMap, r2: R2Map, j: nat, token: Option<string>, page: seq<string>,
                 next: Option<string>,
                 attempt: Attempted, removed: set<string>)
    requires d in w.deletes
    ensures var pc := DeletePrefixes(j, token, Some(Batch(page, next)));
      DeleteStep(DeleteAt(w, d, gcs, r2, pc), DeletePageAct(d, attempt, removed))
         == DeleteAt(w, d, gcs, r2 - (if attempt.Returns? then set k | k in page else (set k | k in page) * removed),
                     AfterAttempt(attempt, DeletePrefixes(j, None, None), AfterPage(j, next), R2Unavailable))
  {
    hide AfterPage;
  }
}
