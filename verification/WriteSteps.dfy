/** Uploads, deletes and the environment keep the invariant. */
module WriteSteps {
  import opened Wrappers
  import opened Errors
  import opened ObjectKeys
  import opened ContentTypes
  import opened Variants
  import opened Requests
  import opened StorageKeys
  import opened Sessions
  import opened Storage
  import opened Worlds
  import opened Handlers
  import opened Systems
  import opened Frames
  import opened Invariants
  import opened ReadSteps

  // ---------- history grows ----------

  ghost predicate Grows(m: map<string, Replica>, m': map<string, Replica>, r: set<string>, r': set<string>) {
    (forall v | v in m :: v in m' && m'[v] == m[v]) && r <= r'
  }

  lemma OriginalGrows(x: string, o: R2Object, m: map<string, Replica>, m': map<string, Replica>, r: set<string>,
                      r': set<string>)
    requires Grows(m, m', r, r') && IsOriginal(x, o, m, r)
    ensures IsOriginal(x, o, m', r')
  {
  }

  lemma VariantGrows(t: Transform, x: string, o: R2Object, m: map<string, Replica>, m': map<string, Replica>,
                     r: set<string>, r': set<string>)
    requires Grows(m, m', r, r')
    ensures IsPlainVariant(x, r) ==> IsPlainVariant(x, r')
    ensures IsVersionedVariant(t, x, o, m) ==> IsVersionedVariant(t, x, o, m')
  {
    hide BuildVariantKey;
  }

  lemma R2Grows(t: Transform, r2: R2Map, m: map<string, Replica>, m': map<string, Replica>, r: set<string>,
                r': set<string>)
    requires Grows(m, m', r, r') && R2Inv(t, r2, m, r)
    ensures R2Inv(t, r2, m', r')
  {
    hide IsOriginal, IsPlainVariant, IsVersionedVariant;
    forall x | x in r2
      ensures IsOriginal(x, r2[x], m', r') || IsPlainVariant(x, r') || IsVersionedVariant(t, x, r2[x], m')
    {
      if IsOriginal(x, r2[x], m, r) { OriginalGrows(x, r2[x], m, m', r, r'); }
      VariantGrows(t, x, r2[x], m, m', r, r');
    }
  }

  lemma ResponseGrows(t: Transform, m: map<string, Replica>, m': map<string, Replica>, q: ImageRequest, a: Response)
    requires Grows(m, m', {}, {}) && ResponseInv(t, m, q, a)
    ensures ResponseInv(t, m', q, a)
  {
    hide ParseImageRequest, Stem;
  }

  lemma ServingGrows(t: Transform, w: World, m': map<string, Replica>, r': set<string>)
    requires EdgeInv(t, w.edge, w.minted) && WorkersInv(t, w.workers, w.minted, w.replicated)
    requires Grows(w.minted, m', w.replicated, r')
    ensures EdgeInv(t, w.edge, m') && WorkersInv(t, w.workers, m', r')
  {
    hide ResponseInv, ParseImageRequest, IsOriginal, VersionMatches;
    forall e | e in w.edge ensures ResponseInv(t, m', e.1, w.edge[e]) {
      ResponseGrows(t, w.minted, m', e.1, w.edge[e]);
    }
    forall k | k in w.workers ensures WorkerInv(t, w.workers[k], m', r') {
      var pc := w.workers[k].pc;
      assert WorkerInv(t, w.workers[k], w.minted, w.replicated);
      match pc
      case OriginalRead(p, o) => OriginalGrows(p.objectKey, o, w.minted, m', w.replicated, r');
      case Built(a) => ResponseGrows(t, w.minted, m', w.workers[k].request, a);
      case Answered(a, _) => ResponseGrows(t, w.minted, m', w.workers[k].request, a);
      case _ =>
    }
  }

  // ---------- originals arrive in R2 ----------

  /** An original put into R2: without a version, or under one that was never used. */
  lemma OriginalPutKeeps(t: Transform, w: World, w1: World, key: string, o: R2Object)
    requires ReadInv(t, w) && Canonical(key)
    requires w1 == w.(r2 := w.r2[key := o], replicated := w.replicated + {key}, minted := w1.minted)
    requires o.cacheVersion.None? ==> w1.minted == w.minted
    requires o.cacheVersion.Some? ==>
      && o.cacheVersion.value !in w.minted && o.cacheVersion.value in w.issued
      && w1.minted == w.minted[o.cacheVersion.value := Replica(key, o.body, o.contentType)]
    ensures ReadInv(t, w1)
  {
    hide Canonical, EdgeInv, WorkersInv, IsPlainVariant, IsVersionedVariant;
    R2Grows(t, w.r2, w.minted, w1.minted, w.replicated, w1.replicated);
    ServingGrows(t, w, w1.minted, w1.replicated);
    assert IsOriginal(key, o, w1.minted, w1.replicated);
  }

  lemma ReplicateKeeps(t: Transform, w: World, key: string, body: Bytes, ct: ContentType, version: string, put: Outcome)
    requires ReadInv(t, w) && Canonical(key) && version in w.issued && version !in w.minted
    requires MissingInv(w.replicated, w.r2, w.gcs)
    ensures var w1 := Replicate(w, key, body, ct, version, put);
      ReadInv(t, w1) && MissingInv(w1.replicated, w1.r2, w1.gcs)
  {
    hide Canonical, ReadInv, TombstoneKey;
    if Applied(put) {
      OriginalPutKeeps(t, w, Replicate(w, key, body, ct, version, put), key,
                       R2Object(body, Some(MimeType(ct)), Some(version)));
    }
  }

  lemma ReconcileKeeps(t: Transform, w: World, key: string)
    requires Inv(t, w)
    ensures Inv(t, Reconcile(w, key))
  {
    hide Canonical, ReadInv, SessionsInv, SignedInv, TombstoneKey;
    var w1 := Reconcile(w, key);
    if w1 != w {
      OriginalPutKeeps(t, w, w1, key, R2Object(w.gcs[key].body, w.gcs[key].contentType, None));
    }
  }

  // ---------- GCS ----------

  predicate KeepsTombstones(gcs: GcsMap, gcs': GcsMap) {
    forall x | x in gcs && NamespaceOf(x) == TombstoneSpace :: x in gcs'
  }

  lemma GcsKeeps(w: World, gcs': GcsMap)
    requires DeletesInv(w.deletes, w.gcs) && MissingInv(w.replicated, w.r2, w.gcs)
    requires KeepsTombstones(w.gcs, gcs')
    ensures DeletesInv(w.deletes, gcs') && MissingInv(w.replicated, w.r2, gcs')
  {
    hide Canonical, TombstoneKey, NamespaceOf, BatchUnderPrefix;
    forall k | TombstoneKey(k) in w.gcs ensures TombstoneKey(k) in gcs' {
      NamespacesDisjoint("", k, Thumb, None);
    }
  }

  /** Staged and canonical objects are not tombstones. */
  lemma SessionKeysAreNoTombstones(s: Session)
    requires ValidSession(s)
    ensures NamespaceOf(s.stagingObjectKey) != TombstoneSpace && NamespaceOf(s.objectKey) != TombstoneSpace
    ensures s.stagingObjectKey != s.objectKey
  {
    hide Canonical, NamespaceOf;
    NamespacesDisjoint(s.uploadId, s.objectKey, Thumb, None);
  }

  // ---------- uploads ----------

  lemma CheckedPresign(h: Headers, r: PresignRequest)
    requires CheckPresign(h, r).Ok?
    ensures var (key, t) := CheckPresign(h, r).value;
      Canonical(key) && EntityOf(key) == r.entity && 0 < r.contentLength <= MAX_UPLOAD_BYTES
  {
    hide BuildObjectKey, Canonical, EnforceContext;
    var t := ParseAllowedContentType(r.contentType).value;
    BuildThenParse(BuildInput(r.entity, r.imageId, r.suffix, t));
    CanonicalFromParse(CheckPresign(h, r).value.0);
  }

  lemma CanonicalFromParse(key: string)
    ensures ParseObjectKeyDetails(key).Ok? <==> Canonical(key)
    ensures Canonical(key) ==> EntityOf(key) == ParseObjectKeyDetails(key).value.entity
  {
  }

  lemma FewerSessionsKeep(t: Transform, w: World, sessions: SessionMap, log: seq<Event>)
    requires Inv(t, w)
    requires forall u | u in sessions :: u in w.sessions && sessions[u] == w.sessions[u]
    ensures Inv(t, w.(sessions := sessions, log := log))
  {
    hide ReadInv, DeletesInv, MissingInv, SignedInv, ValidSession;
    assert ReadInv(t, w.(sessions := sessions, log := log)) by {
      SameReads(t, w, w.(sessions := sessions, log := log));
    }
  }

  /** The read side depends on the history, R2, the edge and the requests only. */
  lemma SameReads(t: Transform, w: World, w1: World)
    requires ReadInv(t, w)
    requires w1.minted == w.minted && w1.replicated == w.replicated && w.issued <= w1.issued
    requires w1.r2 == w.r2 && w1.edge == w.edge && w1.workers == w.workers
    ensures ReadInv(t, w1)
  {
    hide R2Inv, EdgeInv, WorkersInv, Canonical;
  }

  lemma GcsChangeKeeps(t: Transform, w: World, gcs': GcsMap)
    requires Inv(t, w) && KeepsTombstones(w.gcs, gcs')
    ensures Inv(t, w.(gcs := gcs'))
  {
    hide ReadInv, DeletesInv, MissingInv, SignedInv, SessionsInv, KeepsTombstones;
    GcsKeeps(w, gcs');
    SameReads(t, w, w.(gcs := gcs'));
  }

  /** A session with a fresh upload ID, and then a signed URL for its staging key. */
  lemma NewSessionKeeps(t: Transform, w: World, s: Session, log: seq<Event>)
    requires Inv(t, w) && ValidSession(s) && s.uploadId !in w.issued
    ensures var w1 := w.(issued := w.issued + {s.uploadId});
      && Inv(t, w1)
      && Inv(t, w1.(sessions := w.sessions[s.uploadId := s], log := log))
  {
    hide ReadInv, ValidSession, StagingKey, Canonical;
    var w1 := w.(issued := w.issued + {s.uploadId});
    SameReads(t, w, w1);
    SameReads(t, w, w1.(sessions := w.sessions[s.uploadId := s], log := log));
    VersionsAreIssued(t, w);
  }

  lemma SignKeeps(t: Transform, w: World, u: string, key: string)
    requires Inv(t, w) && u in w.issued && IsUlid(u) && Canonical(key)
    ensures Inv(t, w.(signed := w.signed[u := StagingKey(u, key)]))
  {
    hide ReadInv, SessionsInv, DeletesInv, MissingInv, StagingKey, Canonical, IsUlid;
    SameReads(t, w, w.(signed := w.signed[u := StagingKey(u, key)]));
  }

  lemma PresignKeeps(t: Transform, w: World, h: Headers, r: PresignRequest, u: string, ttl: int, f: PresignFaults)
    requires Inv(t, w) && FreshUlid(w, u)
    ensures Inv(t, Presign(w, h, r, u, ttl, f).0)
  {
    hide Canonical, CheckPresign, Inv, StagingKey, IsUlid;
    if CheckPresign(h, r).Ok? {
      CheckedPresign(h, r);
      var (key, ct) := CheckPresign(h, r).value;
      var expiresAt := w.now + ttl * 1000;
      var s := Session(u, key, StagingKey(u, key), ProductOf(r.entity), AuctionHouseOf(r.entity), ct, r.contentLength,
                       expiresAt);
      var log := w.log + [Presigned(u, expiresAt, r.contentLength)];
      NewSessionKeeps(t, w, s, log);
      SignKeeps(t, w.(issued := w.issued + {u}, sessions := w.sessions[u := s], log := log), u, key);
    }
  }

  lemma ClientPutKeeps(t: Transform, w: World, u: string, body: Bytes, ct: Option<string>)
    requires Inv(t, w)
    ensures Inv(t, ClientPut(w, u, body, ct))
  {
    hide Inv, NamespaceOf;
    if u in w.signed {
      GcsChangeKeeps(t, w, w.gcs[w.signed[u] := Image(body, ct)]);
    }
  }

  lemma PromoteKeeps(t: Transform, w: World, s: Session, body: Bytes, f: FinalizeFaults)
    requires Inv(t, w) && ValidSession(s)
    ensures Inv(t, Promote(w, s, body, f).0)
    ensures Promote(w, s, body, f).0 == w.(gcs := Promote(w, s, body, f).0.gcs)
  {
    hide Inv, ValidSession, NamespaceOf;
    SessionKeysAreNoTombstones(s);
    GcsChangeKeeps(t, w, Promote(w, s, body, f).0.gcs);
  }

  lemma PromoteAndReplicateKeeps(t: Transform, w: World, s: Session, body: Bytes, f: FinalizeFaults)
    requires Inv(t, w) && s.uploadId in w.sessions && w.sessions[s.uploadId] == s
    ensures Inv(t, PromoteAndReplicate(w, s, body, f).0)
  {
    hide Canonical, ReadInv, Promote, SignedInv, DeletesInv, MissingInv;
    PromoteKeeps(t, w, s, body, f);
    var (w1, promoted) := Promote(w, s, body, f);
    if promoted {
      ReplicateKeeps(t, w1, s.objectKey, body, s.contentType, s.uploadId, f.put);
      var w2 := Replicate(w1, s.objectKey, body, s.contentType, s.uploadId, f.put);
      SameReads(t, w2, PromoteAndReplicate(w, s, body, f).0);
    }
  }

  lemma FinalizeStagedKeeps(t: Transform, w: World, s: Session, f: FinalizeFaults)
    requires Inv(t, w) && s.uploadId in w.sessions && w.sessions[s.uploadId] == s
    ensures Inv(t, FinalizeStaged(w, s, f).0)
  {
    hide Inv, ValidSession, ContradictsType, NamespaceOf, PromoteAndReplicate;
    SessionOfId(t, w, s.uploadId);
    SessionKeysAreNoTombstones(s);
    GcsChangeKeeps(t, w, w.gcs - {s.stagingObjectKey});
    if s.stagingObjectKey in w.gcs && w.gcs[s.stagingObjectKey].Image? {
      PromoteAndReplicateKeeps(t, w, s, w.gcs[s.stagingObjectKey].body, f);
    }
  }

  lemma FinalizeKeeps(t: Transform, w: World, h: Headers, u: string, f: FinalizeFaults)
    requires Inv(t, w)
    ensures Inv(t, FinalizeUpload(w, h, u, f).0)
  {
    hide Inv, FindSession, FinalizeStaged, ValidSession, EnforceContext;
    FewerSessionsKeep(t, w, w.sessions - {u}, w.log);
    if FindSession(w, h, u, f.sessionStoreDown).Ok? {
      FoundSession(w, h, u, f.sessionStoreDown);
      SessionOfId(t, w, u);
      FinalizeStagedKeeps(t, w, w.sessions[u], f);
    }
  }

  lemma SessionOfId(t: Transform, w: World, u: string)
    requires Inv(t, w) && u in w.sessions
    ensures ValidSession(w.sessions[u]) && w.sessions[u].uploadId == u
  {
  }

  lemma CancelKeeps(t: Transform, w: World, h: Headers, u: string, f: CancelFaults)
    requires Inv(t, w)
    ensures Inv(t, CancelUpload(w, h, u, f).0)
  {
    hide Inv, FindSession, ValidSession, EnforceContext, NamespaceOf, IsUlid;
    FewerSessionsKeep(t, w, w.sessions - {u}, w.log + [Cancelled(u)]);
    if FindSession(w, h, u, f.sessionStoreDown).Ok? {
      FoundSession(w, h, u, f.sessionStoreDown);
      var s := w.sessions[u];
      SessionOfId(t, w, u);
      SessionKeysAreNoTombstones(s);
      var w1 := w.(gcs := w.gcs - {s.stagingObjectKey});
      GcsChangeKeeps(t, w, w1.gcs);
      FewerSessionsKeep(t, w1, w.sessions - {u}, w.log + [Cancelled(u)]);
    }
  }

  lemma IngestBytesKeeps(t: Transform, w: World, key: string, expected: int, ct: ContentType, write: WriteOutcome,
                         version: string, put: Outcome)
    requires Inv(t, w) && FreshUlid(w, version) && Canonical(key)
    ensures Inv(t, IngestBytes(w, key, expected, ct, write, version, put).0)
  {
    hide Canonical, Inv, NamespaceOf, Replicate, IsUlid, MimeType;
    NamespacesDisjoint("", key, Thumb, None);
    var bytes :=
      match write
      case Streamed(bytes) => bytes
      case WriteFailed(Some(bytes), _) => bytes
      case WriteFailed(None, _) => [];
    GcsChangeKeeps(t, w, StoreImage(w, key, bytes, ct).gcs);
    IngestReplicateKeeps(t, StoreImage(w, key, bytes, ct), key, bytes, ct, version, put);
  }

  lemma IngestKeeps(t: Transform, w: World, key: string, source: Result<Source, ErrorCode>, rt: Option<string>,
                    write: WriteOutcome, version: string, put: Outcome)
    requires Inv(t, w) && FreshUlid(w, version)
    ensures Inv(t, IngestObject(w, key, source, rt, write, version, put).0)
  {
    hide Canonical, Inv, IngestBytes, ParseAllowedContentType, FreshUlid;
    forall expected, ct | Canonical(key) ensures Inv(t, IngestBytes(w, key, expected, ct, write, version, put).0) {
      IngestBytesKeeps(t, w, key, expected, ct, write, version, put);
    }
  }

  lemma IngestReplicateKeeps(t: Transform, w: World, key: string, bytes: Bytes, ct: ContentType, version: string,
                             put: Outcome)
    requires Inv(t, w) && FreshUlid(w, version) && Canonical(key)
    ensures Inv(t, Replicate(w.(issued := w.issued + {version}), key, bytes, ct, version, put))
  {
    hide Canonical, ReadInv, MissingInv, DeletesInv, ValidSession;
    var w1 := w.(issued := w.issued + {version});
    SameReads(t, w, w1);
    assert version !in w.minted by { VersionsAreIssued(t, w); }
    ReplicateKeeps(t, w1, key, bytes, ct, version, put);
  }

  lemma VersionsAreIssued(t: Transform, w: World)
    requires ReadInv(t, w)
    ensures forall v | v in w.minted :: v in w.issued
  {
  }

  // ---------- deletes ----------

  /** Variant keys, and only they, live under the delete prefixes. */
  lemma UnderPrefixIsVariant(key: string, v: WebpVariant, x: string)
    requires BuildWebpVariantPrefix(key, v) <= x
    ensures NamespaceOf(x) == VariantSpace
  {
    assert x[0] == 'v';
  }

  /** Removing R2 objects keeps the invariant as long as missing originals have a tombstone. */
  lemma R2ShrinksKeeps(t: Transform, w: World, gone: set<string>)
    requires Inv(t, w)
    requires forall k | k in gone && Canonical(k) :: TombstoneKey(k) in w.gcs
    ensures Inv(t, w.(r2 := w.r2 - gone))
  {
    hide Canonical, SessionsInv, SignedInv, DeletesInv, EdgeInv, WorkersInv, IsOriginal, IsPlainVariant,
      IsVersionedVariant, TombstoneKey;
  }

  lemma SetDeleteKeeps(t: Transform, w: World, d: nat, pc: DeletePc)
    requires Inv(t, w) && d in w.deletes
    requires DeletesInv(map[d := w.deletes[d].(pc := pc)], w.gcs)
    ensures Inv(t, SetDelete(w, d, pc))
  {
    hide Canonical, ReadInv, SessionsInv, SignedInv, MissingInv, TombstoneKey, BatchUnderPrefix, DeleteKeyList;
    SameReads(t, w, SetDelete(w, d, pc));
    var x := w.deletes[d].(pc := pc);
    assert map[d := x][d] == x;
  }

  lemma DeleteListed(key: string, i: nat)
    requires i < |DeleteKeyList(key)|
    ensures DeleteKeyList(key)[i] == key || NamespaceOf(DeleteKeyList(key)[i]) == VariantSpace
  {
    if i > 0 {
      NamespacesDisjoint("", key, WEBP_VARIANTS[i - 1], None);
      SameUnversionedKey(key, WEBP_VARIANTS[i - 1]);
    }
  }

  lemma WriteTombstoneKeeps(t: Transform, w: World, d: nat, a: Attempted)
    requires Inv(t, w) && d in w.deletes && w.deletes[d].pc.WriteTombstone?
    ensures Inv(t, DeleteCall(w, d, a))
  {
    hide Canonical, Inv, TombstoneKey, NamespaceOf;
    var x := w.deletes[d];
    DeletesOf(t, w, d);
    assert map[d := x][d] == x;
    var gcs' :=
      if TookEffect(a) then w.gcs[TombstoneKey(x.key) := Marker(Tombstone(x.key, w.now, x.deletedBy))]
      else w.gcs;
    GcsChangeKeeps(t, w, gcs');
    SetDeleteKeeps(t, w.(gcs := gcs'), d, AfterAttempt(a, WriteTombstone, DeleteKeys(0), TombstoneWriteFailed));
  }

  lemma DeletesOf(t: Transform, w: World, d: nat)
    requires Inv(t, w) && d in w.deletes
    ensures DeletesInv(map[d := w.deletes[d]], w.gcs)
  {
  }

  /** A key on the delete list is either no canonical key or the one with the tombstone. */
  lemma ListedHasTombstone(t: Transform, w: World, d: nat)
    requires Inv(t, w) && d in w.deletes && w.deletes[d].pc.DeleteKeys?
    ensures w.deletes[d].pc.i < |DeleteKeyList(w.deletes[d].key)|
    ensures var y := DeleteKeyList(w.deletes[d].key)[w.deletes[d].pc.i]; Canonical(y) ==> TombstoneKey(y) in w.gcs
  {
    hide Canonical, Inv, TombstoneKey, NamespaceOf, DeleteKeyList;
    var x := w.deletes[d];
    DeletesOf(t, w, d);
    assert map[d := x][d] == x;
    DeleteListed(x.key, x.pc.i);
    NamespacesDisjoint("", DeleteKeyList(x.key)[x.pc.i], Thumb, None);
  }

  lemma DeleteKeyKeeps(t: Transform, w: World, d: nat, a: Attempted)
    requires Inv(t, w) && d in w.deletes && w.deletes[d].pc.DeleteKeys?
    ensures Inv(t, DeleteCall(w, d, a))
  {
    hide Canonical, Inv, TombstoneKey, BuildAllWebpVariantKeys;
    var x := w.deletes[d];
    var i := x.pc.i;
    ListedHasTombstone(t, w, d);
    DeletesOf(t, w, d);
    assert map[d := x][d] == x;
    var y := DeleteKeyList(x.key)[i];
    var w1 := if TookEffect(a) then w.(r2 := w.r2 - {y}) else w;
    R2ShrinksKeeps(t, w, {y});
    SetDeleteKeeps(t, w1, d, AfterAttempt(a, DeleteKeys(i), AfterKey(i, x.key), R2Unavailable));
  }

  lemma DeleteGcsKeeps(t: Transform, w: World, d: nat, a: Attempted)
    requires Inv(t, w) && d in w.deletes && w.deletes[d].pc.DeleteGcs?
    ensures Inv(t, DeleteCall(w, d, a))
  {
    hide Canonical, Inv, TombstoneKey, NamespaceOf;
    var x := w.deletes[d];
    DeletesOf(t, w, d);
    assert map[d := x][d] == x;
    NamespacesDisjoint("", x.key, Thumb, None);
    var gcs' := if TookEffect(a) then w.gcs - {x.key} else w.gcs;
    GcsChangeKeeps(t, w, gcs');
    SetDeleteKeeps(t, w.(gcs := gcs'), d, AfterAttempt(a, DeleteGcs, Finished, StorageUnavailable));
  }

  lemma ListPageKeeps(t: Transform, w: World, d: nat, page: seq<string>, next: Option<string>)
    requires Inv(t, w) && d in w.deletes
    ensures Inv(t, ListPage(w, d, page, next))
  {
    hide Canonical, Inv, TombstoneKey;
    if ListPage(w, d, page, next) != w {
      var x := w.deletes[d];
      DeletesOf(t, w, d);
      assert map[d := x][d] == x;
      SetDeleteKeeps(t, w, d, DeletePrefixes(x.pc.j, x.pc.token, Some(Batch(page, next))));
    }
  }

  lemma DeletePageKeeps(t: Transform, w: World, d: nat, a: Attempted, removed: set<string>)
    requires Inv(t, w) && d in w.deletes
    ensures Inv(t, DeletePage(w, d, a, removed))
  {
    hide Canonical, Inv, TombstoneKey, NamespaceOf, BuildWebpVariantPrefix, SetDelete, DeleteKeyList;
    var x := w.deletes[d];
    if x.pc.DeletePrefixes? && x.pc.batch.Some? {
      DeletesOf(t, w, d);
      assert map[d := x][d] == x;
      var page := set k | k in x.pc.batch.value.page;
      var gone := if a.Returns? then page else page * removed;
      forall k | k in gone ensures !Canonical(k) {
        UnderPrefixIsVariant(x.key, WEBP_VARIANTS[x.pc.j], k);
        NamespacesDisjoint("", k, Thumb, None);
      }
      R2ShrinksKeeps(t, w, gone);
      SetDeleteKeeps(t, w.(r2 := w.r2 - gone), d,
        AfterAttempt(a, DeletePrefixes(x.pc.j, None, None), AfterPage(x.pc.j, x.pc.batch.value.next), R2Unavailable));
    }
  }

  /** No step of any delete breaks the invariant. */
  lemma DeleteStepKeeps(t: Transform, w: World, a: Action)
    requires Inv(t, w)
    requires DeleteAction(a)
    ensures Inv(t, DeleteStep(w, a))
  {
    hide Inv, Canonical, DeletePage, ListPage, TombstoneKey;
    if a.d in w.deletes {
      var x := w.deletes[a.d];
      DeletesOf(t, w, a.d);
      assert map[a.d := x][a.d] == x;
      match a
      case DeleteCallAct(d, attempt) =>
        if x.pc.WriteTombstone? { WriteTombstoneKeeps(t, w, d, attempt); }
        if x.pc.DeleteKeys? { DeleteKeyKeeps(t, w, d, attempt); }
        if x.pc.DeleteGcs? { DeleteGcsKeeps(t, w, d, attempt); }
      case ListPageAct(d, page, next) => ListPageKeeps(t, w, d, page, next);
      case ListFailsAct(d, retried) =>
        if x.pc.DeletePrefixes? && x.pc.batch.None? {
          SetDeleteKeeps(t, w, d, if retried then DeletePrefixes(x.pc.j, None, None) else Aborted(R2Unavailable));
        }
      case DeletePageAct(d, attempt, removed) => DeletePageKeeps(t, w, d, attempt, removed);
      case CrashDeleteAct(d) => SetDeleteKeeps(t, w, d, Aborted(InternalError));
    }
  }

  lemma StartDeleteKeeps(t: Transform, w: World, d: nat, h: Headers, path: string)
    requires Inv(t, w) && d !in w.deletes
    ensures Inv(t, w.(deletes := w.deletes[d := StartDelete(h, path)]))
  {
    hide Canonical, ReadInv, SessionsInv, SignedInv, MissingInv, TombstoneKey, BatchUnderPrefix, DeleteKeyList,
      EnforceContext, ExtractObjectKeyFromPath;
    SameReads(t, w, w.(deletes := w.deletes[d := StartDelete(h, path)]));
  }

  lemma TickKeeps(t: Transform, w: World, elapsed: nat)
    requires Inv(t, w)
    ensures Inv(t, w.(now := w.now + elapsed))
  {
    hide ReadInv, SessionsInv, SignedInv, MissingInv, DeletesInv;
    SameReads(t, w, w.(now := w.now + elapsed));
  }

  // ---------- every run ----------

  lemma ApplyKeeps(t: Transform, w: World, a: Action)
    requires Inv(t, w)
    ensures Inv(t, Apply(t, w, a))
  {
    hide Inv, Presign, ClientPut, FinalizeUpload, CancelUpload, IngestObject, DeleteStep, WorkerStep, StartDelete,
      Reconcile;
    match a
    case PresignAct(h, r, u, ttl, f) => if FreshUlid(w, u) { PresignKeeps(t, w, h, r, u, ttl, f); }
    case ClientPutAct(u, body, ct) => ClientPutKeeps(t, w, u, body, ct);
    case FinalizeAct(h, u, f) => FinalizeKeeps(t, w, h, u, f);
    case CancelAct(h, u, f) => CancelKeeps(t, w, h, u, f);
    case IngestAct(key, source, rt, write, version, put) =>
      if FreshUlid(w, version) { IngestKeeps(t, w, key, source, rt, write, version, put); }
    case StartDeleteAct(d, h, path) => if d !in w.deletes { StartDeleteKeeps(t, w, d, h, path); }
    case DeleteCallAct(_, _) => DeleteStepKeeps(t, w, a);
    case ListPageAct(_, _, _) => DeleteStepKeeps(t, w, a);
    case ListFailsAct(_, _) => DeleteStepKeeps(t, w, a);
    case DeletePageAct(_, _, _) => DeleteStepKeeps(t, w, a);
    case CrashDeleteAct(_) => DeleteStepKeeps(t, w, a);
    case ArriveAct(k, colo, r) => if k !in w.workers { ArriveKeeps(t, w, k, colo, r); }
    case EvictAct(colo, r) => EvictKeeps(t, w, (colo, r));
    case PruneAct(ids) => FewerSessionsKeep(t, w, Apply(t, w, a).sessions, w.log);
    case ReconcileAct(key) => ReconcileKeeps(t, w, key);
    case TickAct(elapsed) => TickKeeps(t, w, elapsed);
    case _ => WorkerStepKeeps(t, w, a);
  }

  lemma InitialInv(t: Transform, now: int)
    ensures Inv(t, InitialWorld(now))
  {
  }

  /** The invariant holds in every state of every run. */
  lemma {:induction false} RunKeeps(t: Transform, w: World, actions: seq<Action>)
    requires Inv(t, w)
    ensures Inv(t, Run(t, w, actions))
    decreases |actions|
  {
    hide Inv, Apply;
    if actions != [] {
      RunKeeps(t, w, actions[..|actions| - 1]);
      ApplyKeeps(t, Run(t, w, actions[..|actions| - 1]), actions[|actions| - 1]);
    }
  }
}
