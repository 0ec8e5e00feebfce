/** That the system can do its work: an upload from presign to its public URL, and a delete from
    wherever it stands to its end. */
module Progress {
  import opened Wrappers
  import opened ObjectKeys
  import opened ContentTypes
  import opened Variants
  import opened Requests
  import opened StorageKeys
  import opened Sessions
  import opened Storage
  import opened Worlds
  import opened Handlers
  import opened Systems
  import opened DeleteTraces
  import opened Frames
  import opened Invariants
  import opened WriteSteps
  import opened DeleteRuns
  import opened UploadScope
  import opened UploadOutcomes
  import opened Bystanders
  import opened PublicUrls

  // ---------- an upload ----------

  const NO_FAULTS := FinalizeFaults(false, false, Done, Done, Done, Done)

  /** Presign, other things, the client PUT through the signed URL, and other things again. */
  ghost function PresignAndPut(t: Transform, w: World, h: Headers, r: PresignRequest, u: string, ttl: int,
                               before: seq<Action>,
                               body: Bytes, ct: Option<string>, after: seq<Action>): World {
    var w1 := Apply(t, w, PresignAct(h, r, u, ttl, PresignFaults(None, false)));
    Run(t, Apply(t, Run(t, w1, before), ClientPutAct(u, body, ct)), after)
  }

  /** The whole upload, from any reachable state: when the request is granted and the client
      sends what it announced, finalize answers 200 and replicates, whatever anybody else does
      and however long it takes, if the session has not expired by then; right afterwards the
      public URL reads exactly the client's bytes, unless the requested name gives a key of the
      legacy form. */
  lemma UploadRoundTrip(t: Transform, w: World, h: Headers, r: PresignRequest, u: string, ttl: int, before: seq<Action>,
                        body: Bytes, ct: Option<string>, after: seq<Action>, colo: nat, origin: string, slashes: string)
    requires Inv(t, w) && FreshUlid(w, u) && CheckPresign(h, r).Ok?
    requires AllBystanders(before, u) && AllBystanders(after, u)
    requires PresignAndPut(t, w, h, r, u, ttl, before, body, ct, after).now < w.now + ttl * 1000
    requires |body| == r.contentLength && TypeFits(ct, r.contentType)
    requires IsOrigin(origin) && forall c | c in slashes :: c == '/'
    ensures var (key, contentType) := CheckPresign(h, r).value;
      var (w1, reply) := FinalizeUpload(PresignAndPut(t, w, h, r, u, ttl, before, body, ct, after), h, u, NO_FAULTS);
      && reply == Accepted(key, u, |body|, contentType, true)
      && (Reads(w1.r2, colo, PublicRequest(origin, slashes, u, key), body, r.contentType) <==> !LegacyForm(key))
  {
    hide Inv, FinalizeUpload, CheckPresign, TypeFits, IsOrigin, LegacyForm, Reads, PublicRequest, PresignAndPut,
      IsUlid,
      Canonical, ParseAllowedContentType, AllBystanders;
    var (key, contentType) := CheckPresign(h, r).value;
    var w2 := PresignAndPut(t, w, h, r, u, ttl, before, body, ct, after);
    GrantedKey(h, r);
    PutAfterPresign(t, w, h, r, u, ttl, before, body, ct, after);
    OwnsIts(h, key, r.entity);
    FinalizeAcceptsExactly(t, w2, h, u, NO_FAULTS);
    FinalizeDelivers(t, w2, h, u, NO_FAULTS);
    ReplicationReported(w2, h, u);
    UploadIsPublished(t, w2, h, u, NO_FAULTS, colo, origin, slashes);
  }

  lemma OwnsIts(h: Headers, key: string, e: Entity)
    requires Canonical(key) && EntityOf(key) == e && OwnsEntity(h, e)
    ensures Owns(h, key)
  {
    hide Canonical, Owns, OwnsEntity;
    KeyNamesEntity(key);
  }

  lemma PutAfterPresign(t: Transform, w: World, h: Headers, r: PresignRequest, u: string, ttl: int, before: seq<Action>,
                        body: Bytes, ct: Option<string>, after: seq<Action>)
    requires Inv(t, w) && FreshUlid(w, u) && CheckPresign(h, r).Ok?
    requires AllBystanders(before, u) && AllBystanders(after, u)
    requires PresignAndPut(t, w, h, r, u, ttl, before, body, ct, after).now < w.now + ttl * 1000
    ensures var w2 := PresignAndPut(t, w, h, r, u, ttl, before, body, ct, after);
      && Inv(t, w2) && u in w2.sessions && w2.sessions[u] == SessionFor(w, h, r, u, ttl)
      && StagingKey(u, CheckPresign(h, r).value.0) in w2.gcs
      && w2.gcs[StagingKey(u, CheckPresign(h, r).value.0)] == Image(body, ct)
  {
    hide Inv, CheckPresign, StagingKey, IsUlid, Apply, AllBystanders, SessionFor;
    var presign := PresignAct(h, r, u, ttl, PresignFaults(None, false));
    var w1 := Apply(t, w, presign);
    PresignStands(t, w, h, r, u, ttl);
    ApplyKeeps(t, w, presign);
    var w2 := Run(t, w1, before);
    RunKeeps(t, w1, before);
    var put := ClientPutAct(u, body, ct);
    var w3 := Apply(t, w2, put);
    ApplyKeeps(t, w2, put);
    RunKeeps(t, w3, after);
    RunNow(t, w3, after);
    PutOnlyGcs(t, w2, u, body, ct);
    UploadStands(t, w1, before, u);
    UploadStands(t, w3, after, u);
  }

  /** The session that a granted presign creates. */
  function SessionFor(w: World, h: Headers, r: PresignRequest, u: string, ttl: int): Session
    requires CheckPresign(h, r).Ok?
  {
    var (key, contentType) := CheckPresign(h, r).value;
    Session(u, key, StagingKey(u, key), ProductOf(r.entity), AuctionHouseOf(r.entity), contentType, r.contentLength,
      w.now + ttl * 1000)
  }

  lemma PresignStands(t: Transform, w: World, h: Headers, r: PresignRequest, u: string, ttl: int)
    requires FreshUlid(w, u) && CheckPresign(h, r).Ok?
    ensures var w1 := Apply(t, w, PresignAct(h, r, u, ttl, PresignFaults(None, false)));
      var s := SessionFor(w, h, r, u, ttl);
      && u in w1.sessions && w1.sessions[u] == s && u in w1.signed && w1.signed[u] == s.stagingObjectKey
      && s.stagingObjectKey == StagingKey(u, CheckPresign(h, r).value.0) && s.expiresAt == w.now + ttl * 1000
  {
    hide CheckPresign, StagingKey, IsUlid, ProductOf, AuctionHouseOf;
  }

  lemma PutOnlyGcs(t: Transform, w: World, u: string, body: Bytes, ct: Option<string>)
    ensures var w1 := Apply(t, w, ClientPutAct(u, body, ct));
      && w1.sessions == w.sessions && w1.now == w.now
      && (u in w.signed ==> w.signed[u] in w1.gcs && w1.gcs[w.signed[u]] == Image(body, ct))
  {
  }

  lemma {:induction false} RunNow(t: Transform, w: World, actions: seq<Action>)
    ensures w.now <= Run(t, w, actions).now
    decreases |actions|
  {
    hide Apply;
    if actions != [] {
      var front := actions[..|actions| - 1];
      RunNow(t, w, front);
      NowGrows(t, Run(t, w, front), actions[|actions| - 1]);
    }
  }

  lemma ReplicationReported(w: World, h: Headers, u: string)
    requires FinalizeUpload(w, h, u, NO_FAULTS).1.Accepted?
    ensures FinalizeUpload(w, h, u, NO_FAULTS).1.replicatedToR2
  {
    hide FinalizeUpload, Promote, Replicate;
    AcceptedChecks(w, h, u, NO_FAULTS);
  }

  // ---------- a delete ----------

  predicate Unfinished(pc: DeletePc) { !pc.Finished? && !pc.Aborted? }

  /** How many undisturbed calls a delete still needs, if each listing comes in one page. */
  function CallsLeft(x: Deletion): nat {
    match x.pc
    case WriteTombstone => 100 + |DeleteKeyList(x.key)|
    case DeleteKeys(i) => if i < |DeleteKeyList(x.key)| then 50 + |DeleteKeyList(x.key)| - i else 0
    case DeletePrefixes(j, token, batch) =>
      if j >= |WEBP_VARIANTS| then 0
      else 4 * (|WEBP_VARIANTS| - j) + (if batch.None? then 1 else if batch.value.next.Some? then 2 else 0)
    case DeleteGcs => 1
    case Finished => 0
    case Aborted(_) => 0
  }

  lemma {:induction false} SetToSeq(s: set<string>) returns (q: seq<string>)
    ensures forall x :: x in q <==> x in s
    decreases |s|
  {
    if s == {} {
      q := [];
    } else {
      var x :| x in s;
      q := SetToSeq(s - {x});
      q := q + [x];
    }
  }

  /** The delete went on, and is closer to its end. */
  ghost predicate Closer(w: World, a: Action, d: nat)
    requires d in w.deletes
  {
    && OfDelete(a, d) && d in DeleteStep(w, a).deletes
    && !DeleteStep(w, a).deletes[d].pc.Aborted? && CallsLeft(DeleteStep(w, a).deletes[d]) < CallsLeft(w.deletes[d])
  }

  lemma ListCloser(w: World, d: nat) returns (a: Action)
    requires d in w.deletes && w.deletes[d].pc.DeletePrefixes? && w.deletes[d].pc.batch.None?
    requires w.deletes[d].pc.j < |WEBP_VARIANTS|
    ensures Closer(w, a, d)
  {
    hide BuildWebpVariantPrefix, DeleteCall, DeletePage, IsPage;
    var x := w.deletes[d];
    var page := SetToSeq(Remaining(w.r2.Keys, CurrentPrefix(x), x.pc.token));
    a := ListPageAct(d, page, None);
    assert IsPage(w.r2.Keys, CurrentPrefix(x), x.pc.token, page, None) by {
      WholePage(w.r2.Keys, CurrentPrefix(x), x.pc.token, page);
    }
  }

  lemma WholePage(keys: set<string>, prefix: string, token: Option<string>, page: seq<string>)
    requires forall x :: x in page <==> x in Remaining(keys, prefix, token)
    ensures IsPage(keys, prefix, token, page, None)
  {
    hide Remaining;
  }

  lemma PageCloser(w: World, d: nat)
    requires d in w.deletes && w.deletes[d].pc.DeletePrefixes? && w.deletes[d].pc.batch.Some?
    requires w.deletes[d].pc.j < |WEBP_VARIANTS|
    ensures Closer(w, DeletePageAct(d, Returns, {}), d)
  {
    hide DeleteCall, ListPage;
  }

  lemma CallCloser(w: World, d: nat)
    requires d in w.deletes && Unfinished(w.deletes[d].pc) && !w.deletes[d].pc.DeletePrefixes?
    requires w.deletes[d].pc.DeleteKeys? ==> w.deletes[d].pc.i < |DeleteKeyList(w.deletes[d].key)|
    ensures Closer(w, DeleteCallAct(d, Returns), d)
  {
    hide DeletePage, ListPage, DeleteKeyList, TombstoneCallGcs;
  }

  /** An unfinished delete is never stuck: some call brings it closer to its end. */
  lemma NextCall(t: Transform, w: World, d: nat) returns (a: Action)
    requires Inv(t, w) && d in w.deletes && Unfinished(w.deletes[d].pc)
    ensures Closer(w, a, d)
  {
    hide Inv, Closer, DeleteKeyList, TombstoneKey, Canonical, BatchUnderPrefix;
    var x := w.deletes[d];
    DeletesOf(t, w, d);
    assert map[d := x][d] == x;
    if x.pc.DeletePrefixes? && x.pc.batch.None? {
      a := ListCloser(w, d);
    } else if x.pc.DeletePrefixes? {
      PageCloser(w, d);
      a := DeletePageAct(d, Returns, {});
    } else {
      CallCloser(w, d);
      a := DeleteCallAct(d, Returns);
    }
  }

  /** From wherever an unfinished delete stands, after whatever failures and retries, there is
      a way to complete it. */
  lemma {:induction false} DeleteCanFinish(t: Transform, w: World, d: nat) returns (steps: seq<Action>)
    requires Inv(t, w) && d in w.deletes && Unfinished(w.deletes[d].pc)
    ensures forall i | 0 <= i < |steps| :: OfDelete(steps[i], d)
    ensures Completed(Run(t, w, steps), d)
    decreases CallsLeft(w.deletes[d])
  {
    hide Inv, DeleteStep;
    var a := NextCall(t, w, d);
    var w1 := DeleteStep(w, a);
    assert Apply(t, w, a) == w1;
    RunOne(t, w, a);
    if Unfinished(w1.deletes[d].pc) {
      ApplyKeeps(t, w, a);
      var rest := DeleteCanFinish(t, w1, d);
      steps := [a] + rest;
      RunCons(t, w, a, rest);
    } else {
      steps := [a];
    }
  }
}
