/** The R2 adapter: deletes by key and by prefix, with retries
    (upload-function/src/storage/r2-replication-storage.ts). */
module R2Buckets {
  import opened Wrappers
  import opened Errors
  import opened Retry
  import opened Storage
  import opened Worlds
  import opened RemoteCalls
  import opened Systems
  import opened DeleteTraces

  /** Some attempt in range returns, after only failures worth retrying. */
  ghost predicate PrefixDone(ends: nat -> Attempt, maxRetries: nat) {
    exists i: nat :: i <= maxRetries && ends(i).Returned? && AllRetryable(ends, i)
  }

  lemma DoneAtLast(ends: nat -> Attempt, maxRetries: nat)
    ensures PrefixDone(ends, maxRetries) <==> ends(LastTry(ends, maxRetries)).Returned?
  {
    LastTryExact(ends, maxRetries);
  }

  class R2Bucket {
    var objects: R2Map
    /** The milliseconds slept between attempts. */
    var slept: nat
    const pageSize: nat

    constructor (pageSize: nat)
      requires pageSize > 0
      ensures objects == map[] && slept == 0 && this.pageSize == pageSize
    {
      objects, slept := map[], 0;
      this.pageSize := pageSize;
    }

    /** `ListObjectsV2`: at most `pageSize` keys, least first. */
    method List(prefix: string, token: Option<string>) returns (page: seq<string>, next: Option<string>)
      requires pageSize > 0
      ensures IsPage(objects.Keys, prefix, token, page, next)
      ensures |page| <= pageSize
    {
      var rest := Remaining(objects.Keys, prefix, token);
      page, next := [], None;
      while rest != {} && |page| < pageSize
        invariant |page| <= pageSize
        invariant forall k :: k in Remaining(objects.Keys, prefix, token) <==> k in page || k in rest
        invariant page != [] ==> forall k | k in rest :: Less(page[|page| - 1], k)
        decreases |rest|
      {
        ghost var l := LeastExists(rest);
        var least :| IsLeast(least, rest);
        assert IsLeast(least, rest);
        page := page + [least];
        rest := rest - {least};
      }
      if rest != {} {
        next := Some(page[|page| - 1]);
      }
    }

    /** `DeleteObjects`, in an attempt that ends so: the keys reported as errors may or may not be
        gone; a thrown call may have deleted any of the keys. If the attempt is to fail, a call may
        be where it does, and the last one has to be. */
    method DeleteObjects(keys: seq<string>, end: Attempt, last: bool) returns (errors: seq<string>, r: Attempt)
      requires |keys| > 0
      modifies this`objects
      ensures objects.Keys <= old(objects).Keys
      ensures forall k | k in old(objects) && k !in keys :: k in objects
      ensures forall k | k in objects :: objects[k] == old(objects)[k]
      ensures r.Returned? && errors == [] ==> objects == old(objects) - (set k | k in keys)
      ensures if r.Threw? then r == end else errors != [] ==> end == Threw(NoStatus)
      ensures last && end.Threw? ==> r.Threw? || errors != []
    {
      errors, r := [], Returned;
      var kept: set<string> := {};
      var fails: bool := *;
      if end.Threw? && (last || fails) {
        kept := *;
        var reported: bool := *;
        if reported && end.status.NoStatus? {
          errors := *;
          if errors == [] {
            errors := [keys[0]];
          }
          kept := kept * (set k | k in errors);
        } else {
          r := end;
        }
      }
      objects := objects - ((set k | k in keys) - kept);
    }

    /** `deleteAllObjectsByPrefix`, in an attempt that ends so: list a page, delete it, go on after
        its last key. When it returns, exactly the keys under the prefix are gone; when it throws,
        only such keys. For a delete that has come to this prefix, the calls continue its run. */
    method DeleteAllObjectsByPrefix(prefix: string, end: Attempt, ghost p: Paging, ghost steps: seq<Action>,
                                    ghost again: bool)
      returns (r: Attempt, ghost more: seq<Action>)
      requires pageSize > 0
      requires p.d in p.w.deletes && PagingLed(p, steps, objects, DeletePrefixes(p.j, None, None))
      requires prefix == PrefixOf(p)
      modifies this`objects
      ensures r == end
      ensures OnlyPrefixRemoved(old(objects), objects, prefix)
      ensures r.Returned? ==> objects == Without(old(objects), UnderPrefix(old(objects).Keys, prefix))
      ensures PagingLed(p, more, objects,
        if r.Returned? then AfterPage(p.j, None) else AfterFailure(p.j, again && Retryable(r.status)))
    {
      hide PagingLed, AfterPage, AfterFailure, PrefixOf, Retryable, Remaining;
      var continuationToken: Option<string> := None;
      var unfinished := true;
      more := steps;
      AllRemain(objects.Keys, prefix);
      while unfinished
        invariant !unfinished ==> end.Returned?
        invariant PagingLed(p, more, objects,
          if unfinished then DeletePrefixes(p.j, continuationToken, None) else AfterPage(p.j, None))
        invariant OnlyPrefixRemoved(old(objects), objects, prefix)
        invariant UnderPrefix(objects.Keys, prefix) ==
          if unfinished then Remaining(objects.Keys, prefix, continuationToken) else {}
        decreases unfinished, |UnderPrefix(objects.Keys, prefix)|
      {
        r, continuationToken, more := DeleteNextPage(prefix, continuationToken, end, p, more, again);
        if r.Threw? {
          return;
        }
        NextPage(p.j, continuationToken);
        unfinished := continuationToken.Some?;
      }
      AllGone(old(objects), objects, prefix);
      r := Returned;
    }

    /** One turn of the loop: list a page after the token and delete it. If the attempt is to fail,
        the last page cannot succeed. */
    method DeleteNextPage(prefix: string, token: Option<string>, end: Attempt, ghost p: Paging,
                          ghost steps: seq<Action>, ghost again: bool)
      returns (r: Attempt, next: Option<string>, ghost more: seq<Action>)
      requires pageSize > 0 && UnderPrefix(objects.Keys, prefix) == Remaining(objects.Keys, prefix, token)
      requires p.d in p.w.deletes && PagingLed(p, steps, objects, DeletePrefixes(p.j, token, None))
      requires prefix == PrefixOf(p)
      modifies this`objects
      ensures r.Threw? ==> r == end
      ensures r.Returned? && next.None? ==> end.Returned?
      ensures OnlyPrefixRemoved(old(objects), objects, prefix)
      ensures r.Returned? ==>
        && UnderPrefix(objects.Keys, prefix) == (if next.Some? then Remaining(objects.Keys, prefix, next) else {})
        && (next.Some? ==> |UnderPrefix(objects.Keys, prefix)| < |UnderPrefix(old(objects).Keys, prefix)|)
      ensures PagingLed(p, more, objects,
        if r.Returned? then AfterPage(p.j, next) else AfterFailure(p.j, again && Retryable(r.status)))
    {
      hide PagingLed, AfterPage, AfterFailure, PrefixOf, Retryable;
      more := steps;
      ghost var before := objects;
      var keys;
      keys, next := List(prefix, token);
      var unlisted: bool := *;
      if end.Threw? && (unlisted || (|keys| == 0 && next.None?)) {
        ListFails(p, more, objects, token, again && Retryable(end.status));
        more := more + [ListFailsAct(p.d, again && Retryable(end.status))];
        return end, None, more;
      }
      Lists(p, more, objects, token, keys, next);
      more := more + [ListPageAct(p.d, keys, next)];
      r := Returned;
      if |keys| > 0 {
        var errors;
        errors, r := DeleteObjects(keys, end, next.None?);
        if r.Returned? && |errors| > 0 {
          r := Threw(NoStatus);
        }
        if r.Threw? {
          ghost var retried := again && Retryable(r.status);
          DeleteFails(p, more, before, token, keys, next, objects, retried);
          more := more + [DeletePageAct(p.d, Fails(true, retried), before.Keys - objects.Keys)];
          return;
        }
      }
      Deletes(p, more, before, token, keys, next);
      more := more + [DeletePageAct(p.d, Returns, {})];
      PageDone(before, objects, prefix, token, keys, next);
    }

    static lemma AllRemain(keys: set<string>, prefix: string)
      ensures UnderPrefix(keys, prefix) == Remaining(keys, prefix, None)
    {
    }

    static lemma NextPage(j: nat, next: Option<string>)
      ensures AfterPage(j, next) == if next.Some? then DeletePrefixes(j, next, None) else AfterPage(j, None)
    {
    }

    /** After a page was deleted, what is left under the prefix comes after its last key. */
    static lemma PageDone(before: R2Map, after: R2Map, prefix: string, token: Option<string>, keys: seq<string>,
                          next: Option<string>)
      requires IsPage(before.Keys, prefix, token, keys, next)
      requires UnderPrefix(before.Keys, prefix) == Remaining(before.Keys, prefix, token)
      requires after == before - (set k | k in keys)
      ensures UnderPrefix(after.Keys, prefix) == if next.Some? then Remaining(after.Keys, prefix, next) else {}
      ensures next.Some? ==> |UnderPrefix(after.Keys, prefix)| < |UnderPrefix(before.Keys, prefix)|
    {
      var all, left := UnderPrefix(before.Keys, prefix), UnderPrefix(after.Keys, prefix);
      assert forall k | k in all :: k in Remaining(before.Keys, prefix, token);
      if next.Some? {
        assert left <= all - {next.value} && next.value in all;
        Smaller(left, all, next.value);
      }
    }

    static lemma Smaller<T>(a: set<T>, b: set<T>, x: T)
      requires a <= b - {x} && x in b
      ensures |a| < |b|
    {
      var rest := b - {x} - a;
      assert b == a + rest + {x};
    }

    static lemma AllGone(before: R2Map, after: R2Map, prefix: string)
      requires OnlyPrefixRemoved(before, after, prefix)
      requires UnderPrefix(after.Keys, prefix) == {}
      ensures after == Without(before, UnderPrefix(before.Keys, prefix))
    {
      assert forall k | k in after :: !(prefix <= k) by {
        assert forall k | k in after && prefix <= k :: k in UnderPrefix(after.Keys, prefix);
      }
    }

    /** `deleteByPrefix`, whose i-th attempt ends as `ends(i)` says: retried as a whole, whatever the
        failed attempts left behind. */
    method DeleteByPrefix(prefix: string, maxRetries: nat, ends: nat -> Attempt, ghost p: Paging,
                          ghost steps: seq<Action>)
      returns (r: Result<(), ErrorCode>, ghost more: seq<Action>)
      requires pageSize > 0
      requires p.d in p.w.deletes && PagingLed(p, steps, objects, DeletePrefixes(p.j, None, None))
      requires prefix == PrefixOf(p)
      modifies this
      ensures r == if PrefixDone(ends, maxRetries) then Ok(()) else Err(R2Unavailable)
      ensures slept == old(slept) + TotalDelay(LastTry(ends, maxRetries))
      ensures OnlyPrefixRemoved(old(objects), objects, prefix)
      ensures r.Ok? ==> objects == Without(old(objects), UnderPrefix(old(objects).Keys, prefix))
      ensures PagingLed(p, more, objects, if r.Ok? then AfterPage(p.j, None) else Aborted(R2Unavailable))
    {
      hide PagingLed, AfterPage, PrefixOf, PrefixDone;
      DoneAtLast(ends, maxRetries);
      var attempt := 0;
      more := steps;
      while true
        invariant attempt <= maxRetries && slept == old(slept) + TotalDelay(attempt)
        invariant LastTry(ends, maxRetries) == LastTryFrom(ends, maxRetries, attempt)
        invariant OnlyPrefixRemoved(old(objects), objects, prefix)
        invariant PagingLed(p, more, objects, DeletePrefixes(p.j, None, None))
        decreases maxRetries - attempt
      {
        var before := objects;
        var tried;
        tried, more := DeleteAllObjectsByPrefix(prefix, ends(attempt), p, more, attempt < maxRetries);
        if tried.Returned? {
          SameRemainder(old(objects), before, prefix);
          return Ok(()), more;
        }
        if attempt >= maxRetries || !Retryable(tried.status) {
          return Err(R2Unavailable), more;
        }
        slept := slept + RetryDelayForAttempt(attempt);
        attempt := attempt + 1;
      }
    }

    static lemma SameRemainder(first: R2Map, later: R2Map, prefix: string)
      requires OnlyPrefixRemoved(first, later, prefix)
      ensures Without(later, UnderPrefix(later.Keys, prefix)) == Without(first, UnderPrefix(first.Keys, prefix))
    {
    }

    /** `put`: each attempt sends the whole object again. */
    method Put(key: string, replica: R2Object, maxRetries: nat, calls: nat -> Call) returns (r: Result<(), ErrorCode>)
      modifies this
      ensures var outcome := CallOutcome(calls, maxRetries);
        && objects == (if Applied(outcome) then old(objects)[key := replica] else old(objects))
        && r == if outcome == Done then Ok(()) else Err(R2Unavailable)
      ensures slept == old(slept) + TotalDelay(LastAttempt(calls, maxRetries))
    {
      var attempt := 0;
      ghost var taken := false;
      while true
        invariant attempt <= maxRetries
        invariant CallOutcome(calls, maxRetries) == OutcomeFrom(calls, maxRetries, attempt, taken)
        invariant LastAttempt(calls, maxRetries) == LastFrom(calls, maxRetries, attempt)
        invariant slept == old(slept) + TotalDelay(attempt)
        invariant objects == if taken then old(objects)[key := replica] else old(objects)
        decreases maxRetries - attempt
      {
        match calls(attempt) {
          case Acknowledged =>
            objects := objects[key := replica];
            return Ok(());
          case Lost(status, applied) =>
            if applied {
              objects := objects[key := replica];
              taken := true;
            }
            if attempt >= maxRetries || !Retryable(status) {
              return Err(R2Unavailable);
            }
        }
        slept := slept + RetryDelayForAttempt(attempt);
        attempt := attempt + 1;
      }
    }

    /** `delete`: a missing key counts as deleted. */
    method Delete(key: string, maxRetries: nat, calls: nat -> Call) returns (r: Result<(), ErrorCode>)
      modifies this
      ensures var outcome := CallOutcome(calls, maxRetries);
        && objects == (if Applied(outcome) then old(objects) - {key} else old(objects))
        && r == if outcome == Done then Ok(()) else Err(R2Unavailable)
      ensures slept == old(slept) + TotalDelay(LastAttempt(calls, maxRetries))
    {
      var attempt := 0;
      ghost var taken := false;
      while true
        invariant attempt <= maxRetries
        invariant CallOutcome(calls, maxRetries) == OutcomeFrom(calls, maxRetries, attempt, taken)
        invariant LastAttempt(calls, maxRetries) == LastFrom(calls, maxRetries, attempt)
        invariant slept == old(slept) + TotalDelay(attempt)
        invariant objects == if taken then old(objects) - {key} else old(objects)
        decreases maxRetries - attempt
      {
        match calls(attempt) {
          case Acknowledged =>
            // Removed now, or answered with 404.
            objects := objects - {key};
            return Ok(());
          case Lost(status, applied) =>
            if applied {
              objects := objects - {key};
              taken := true;
            }
            if attempt >= maxRetries || !Retryable(status) {
              return Err(R2Unavailable);
            }
        }
        slept := slept + RetryDelayForAttempt(attempt);
        attempt := attempt + 1;
      }
    }
  }
}
