/** What every reachable state of the system satisfies. */
module Invariants {
  import opened Wrappers
  import opened ObjectKeys
  import opened Variants
  import WorkerKeys
  import opened Requests
  import opened StorageKeys
  import opened Sessions
  import opened Storage
  import opened Worlds
  import opened Systems

  // ---------- the read side ----------

  /** Replicated versions were issued, and name keys that were replicated; those are canonical. */
  ghost predicate HistoryInv(minted: map<string, Replica>, replicated: set<string>, issued: set<string>) {
    && (forall v | v in minted :: minted[v].key in replicated && v in issued)
    && (forall k | k in replicated :: Canonical(k))
  }

  ghost predicate IsOriginal(x: string, o: R2Object, minted: map<string, Replica>, replicated: set<string>) {
    && x in replicated
    && (o.cacheVersion.Some? ==>
          o.cacheVersion.value in minted && minted[o.cacheVersion.value] == Replica(x, o.body, o.contentType))
  }

  ghost predicate IsPlainVariant(x: string, replicated: set<string>) {
    exists k, v :: k in replicated && x == BuildVariantKey(k, v, None)
  }

  ghost predicate IsVersionedVariant(t: Transform, x: string, o: R2Object, minted: map<string, Replica>) {
    exists version, v :: version in minted
      && x == BuildVariantKey(minted[version].key, v, Some(version)) && o.body == t(v, minted[version].body)
  }

  /** Every R2 object is an original, an unversioned variant of a replicated stem, or the
      transform of the bytes replicated under its version. */
  ghost predicate R2Inv(t: Transform, r2: R2Map, minted: map<string, Replica>, replicated: set<string>) {
    forall x | x in r2 ::
      IsOriginal(x, r2[x], minted, replicated) || IsPlainVariant(x, replicated)
        || IsVersionedVariant(t, x, r2[x], minted)
  }

  /** The one response a versioned request may get. */
  ghost predicate VersionedResponse(t: Transform, minted: map<string, Replica>, p: ParsedRequest, body: Bytes,
                                    contentType: string) {
    p.version.Some? ==>
      && p.version.value in minted
      && (var replica := minted[p.version.value];
          if p.variant.None? then
            && replica.key == p.objectKey && body == replica.body
            && contentType == OriginalContentType(replica.contentType)
          else
            && Stem(replica.key) == Stem(p.objectKey) && body == t(p.variant.value, replica.body)
            && contentType == WEBP_CONTENT_TYPE)
  }

  ghost predicate ResponseInv(t: Transform, minted: map<string, Replica>, q: ImageRequest, r: Response) {
    r.Served? ==>
      ParseImageRequest(q).Ok? && VersionedResponse(t, minted, ParseImageRequest(q).value, r.body, r.contentType)
  }

  ghost predicate EdgeInv(t: Transform, edge: EdgeMap, minted: map<string, Replica>) {
    forall e | e in edge :: ResponseInv(t, minted, e.1, edge[e])
  }

  ghost predicate WorkerInv(t: Transform, k: Worker, minted: map<string, Replica>, replicated: set<string>) {
    match k.pc
    case VariantMissed(p) => p.variant.Some? && ParseImageRequest(k.request) == Ok(p)
    case OriginalRead(p, o) =>
      && p.variant.Some? && ParseImageRequest(k.request) == Ok(p)
      && IsOriginal(p.objectKey, o, minted, replicated) && VersionMatches(o, p.version)
    case Built(r) => ResponseInv(t, minted, k.request, r)
    case Answered(r, _) => ResponseInv(t, minted, k.request, r)
    case _ => true
  }

  ghost predicate WorkersInv(t: Transform, workers: map<nat, Worker>, minted: map<string, Replica>,
                             replicated: set<string>) {
    forall k | k in workers :: WorkerInv(t, workers[k], minted, replicated)
  }

  ghost predicate ReadInv(t: Transform, w: World) {
    && HistoryInv(w.minted, w.replicated, w.issued)
    && R2Inv(t, w.r2, w.minted, w.replicated)
    && EdgeInv(t, w.edge, w.minted)
    && WorkersInv(t, w.workers, w.minted, w.replicated)
  }

  // ---------- the write side ----------

  ghost predicate SessionsInv(sessions: SessionMap, issued: set<string>, minted: map<string, Replica>) {
    forall u | u in sessions :: sessions[u].uploadId == u && ValidSession(sessions[u]) && u in issued && u !in minted
  }

  /** Signed URLs point at the staging keys of their own uploads. */
  ghost predicate SignedInv(signed: map<string, string>, issued: set<string>) {
    forall u | u in signed ::
      u in issued && IsUlid(u) && exists key :: Canonical(key) && signed[u] == StagingKey(u, key)
  }

  ghost predicate PastTombstone(pc: DeletePc) {
    pc.DeleteKeys? || pc.DeletePrefixes? || pc.DeleteGcs? || pc.Finished?
  }

  /** The prefix that a delete in its paged part is working through. */
  function CurrentPrefix(x: Deletion): string
    requires x.pc.DeletePrefixes? && x.pc.j < |WEBP_VARIANTS|
  {
    BuildWebpVariantPrefix(x.key, WEBP_VARIANTS[x.pc.j])
  }

  predicate BatchUnderPrefix(x: Deletion)
    requires x.pc.DeletePrefixes? && x.pc.j < |WEBP_VARIANTS|
  {
    x.pc.batch.Some? ==> forall k | k in x.pc.batch.value.page :: CurrentPrefix(x) <= k
  }

  /** A delete works on a canonical key, and past its first step the tombstone is there. */
  ghost predicate DeletesInv(deletes: map<nat, Deletion>, gcs: GcsMap) {
    forall d | d in deletes ::
      && (deletes[d].pc.WriteTombstone? || PastTombstone(deletes[d].pc) ==> Canonical(deletes[d].key))
      && (PastTombstone(deletes[d].pc) ==> TombstoneKey(deletes[d].key) in gcs)
      && (deletes[d].pc.DeletePrefixes? ==> deletes[d].pc.j < |WEBP_VARIANTS| && BatchUnderPrefix(deletes[d]))
      && (deletes[d].pc.DeleteKeys? ==> deletes[d].pc.i < |DeleteKeyList(deletes[d].key)|)
  }

  /** An original that was once replicated is missing from R2 only under a tombstone. */
  ghost predicate MissingInv(replicated: set<string>, r2: R2Map, gcs: GcsMap) {
    forall k | k in replicated && k !in r2 :: TombstoneKey(k) in gcs
  }

  ghost predicate WriteInv(w: World) {
    && SessionsInv(w.sessions, w.issued, w.minted)
    && SignedInv(w.signed, w.issued)
    && DeletesInv(w.deletes, w.gcs)
    && MissingInv(w.replicated, w.r2, w.gcs)
  }

  ghost predicate Inv(t: Transform, w: World) { ReadInv(t, w) && WriteInv(w) }

  // ---------- keys of parsed requests ----------

  lemma ParsedKeyCanonical(q: ImageRequest)
    requires ParseImageRequest(q).Ok?
    ensures Canonical(ParseImageRequest(q).value.objectKey)
  {
    WorkerKeys.ParsersAgree(ParseImageRequest(q).value.objectKey);
  }

  /** What a read of a variant key finds is the variant of the requested version and stem. */
  lemma StoredVariantIsExpected(t: Transform, w: World, p: ParsedRequest)
    requires ReadInv(t, w) && Canonical(p.objectKey) && p.variant.Some?
    requires BuildVariantKey(p.objectKey, p.variant.value, p.version) in w.r2
    ensures var x := BuildVariantKey(p.objectKey, p.variant.value, p.version);
      VersionedResponse(t, w.minted, p, w.r2[x].body, WEBP_CONTENT_TYPE)
  {
    hide Canonical, BuildVariantKey, Stem, NamespaceOf;
    var x := BuildVariantKey(p.objectKey, p.variant.value, p.version);
    NamespacesDisjoint("", p.objectKey, p.variant.value, p.version);
    NamespacesDisjoint("", x, p.variant.value, p.version);
    if p.version.Some? {
      assert !IsOriginal(x, w.r2[x], w.minted, w.replicated);
      if IsPlainVariant(x, w.replicated) {
        var k, v :| k in w.replicated && x == BuildVariantKey(k, v, None);
        VariantKeysInjective(k, v, None, p.objectKey, p.variant.value, p.version);
      }
      assert IsVersionedVariant(t, x, w.r2[x], w.minted);
      var version, v :| version in w.minted && x == BuildVariantKey(w.minted[version].key, v, Some(version))
        && w.r2[x].body == t(v, w.minted[version].body);
      VariantKeysInjective(w.minted[version].key, v, Some(version), p.objectKey, p.variant.value, p.version);
    }
  }

  /** What a read of an original under a version finds is what was replicated under it. */
  lemma FetchedIsOriginal(t: Transform, w: World, p: ParsedRequest)
    requires ReadInv(t, w) && Canonical(p.objectKey)
    requires FetchOriginal(w.r2, p).Some?
    ensures IsOriginal(p.objectKey, FetchOriginal(w.r2, p).value, w.minted, w.replicated)
    ensures VersionMatches(FetchOriginal(w.r2, p).value, p.version)
  {
    hide Canonical, BuildVariantKey, Stem, NamespaceOf;
    var x := p.objectKey;
    NamespacesDisjoint("", x, Thumb, None);
    if IsPlainVariant(x, w.replicated) {
      var k, v :| k in w.replicated && x == BuildVariantKey(k, v, None);
      NamespacesDisjoint("", k, v, None);
    }
    if IsVersionedVariant(t, x, w.r2[x], w.minted) {
      var version, v :| version in w.minted && x == BuildVariantKey(w.minted[version].key, v, Some(version));
      NamespacesDisjoint("", w.minted[version].key, v, Some(version));
    }
  }
}
