/** What the read path promises over whole runs. */
module ReadPath {
  import opened Wrappers
  import opened Errors
  import opened ObjectKeys
  import opened Variants
  import opened Requests
  import opened RequestTexts
  import opened StorageKeys
  import opened Sessions
  import opened Storage
  import opened Worlds
  import opened Handlers
  import opened Systems
  import opened Frames
  import opened Invariants
  import opened WriteSteps

  // ---------- history is permanent ----------

  /** `w1` keeps every answer given and every version replicated in `w`. */
  ghost predicate Remembers(w: World, w1: World) {
    && (forall v | v in w.minted :: v in w1.minted && w1.minted[v] == w.minted[v])
    && (forall k | k in w.workers :: k in w1.workers && w1.workers[k].request == w.workers[k].request
          && (w.workers[k].pc.Answered? ==>
                w1.workers[k].pc.Answered? && w1.workers[k].pc.response == w.workers[k].pc.response))
  }

  lemma FrameRemembers(w: World, w1: World, key: string, version: string)
    requires UploadFrame(w, w1, key, version) && version !in w.minted
    ensures Remembers(w, w1)
  {
  }

  lemma UntouchedRemembers(w: World, w1: World)
    requires w1.minted == w.minted && w1.workers == w.workers
    ensures Remembers(w, w1)
  {
  }

  lemma FinalizeRemembers(t: Transform, w: World, h: Headers, u: string, f: FinalizeFaults)
    requires Inv(t, w)
    ensures Remembers(w, FinalizeUpload(w, h, u, f).0)
  {
    hide Remembers, FinalizeUpload, SameExcept, ReadInv, DeletesInv, MissingInv, SignedInv, ValidSession;
    FinalizeFrame(w, h, u, f);
    if u in w.sessions {
      FrameRemembers(w, FinalizeUpload(w, h, u, f).0, w.sessions[u].objectKey, u);
    } else {
      UntouchedRemembers(w, FinalizeUpload(w, h, u, f).0);
    }
  }

  lemma IngestRemembers(t: Transform, w: World, key: string, source: Result<Source, ErrorCode>, rt: Option<string>,
                        write: WriteOutcome, version: string, put: Outcome)
    requires Inv(t, w) && FreshUlid(w, version)
    ensures Remembers(w, IngestObject(w, key, source, rt, write, version, put).0)
  {
    hide Inv, Remembers, IngestObject, UploadFrame, IsUlid;
    IngestFrame(w, key, source, rt, write, version, put);
    ReadPart(t, w);
    VersionsAreIssued(t, w);
    FrameRemembers(w, IngestObject(w, key, source, rt, write, version, put).0, key, version);
  }

  lemma SetWorkerRemembers(w: World, w1: World, k: nat, pc: WorkerPc)
    requires w1.minted == w.minted && w1.workers == w.workers && k in w.workers
    requires w.workers[k].pc.Answered? ==> pc.Answered? && pc.response == w.workers[k].pc.response
    ensures Remembers(w, SetWorker(w1, k, pc))
  {
  }

  lemma WorkerRemembers(t: Transform, w: World, a: Action)
    requires WorkerAction(a)
    ensures Remembers(w, WorkerStep(t, w, a))
  {
    hide Remembers, MatchEdge, FirstRead, SecondRead, BuildVariantKey;
    UntouchedRemembers(w, w);
    if a.k in w.workers {
      var k := w.workers[a.k];
      var w1 := w.(r2 := WorkerStep(t, w, a).r2, edge := WorkerStep(t, w, a).edge);
      if WorkerStep(t, w, a) != w {
        assert WorkerStep(t, w, a) == SetWorker(w1, a.k, WorkerStep(t, w, a).workers[a.k].pc);
        SetWorkerRemembers(w, w1, a.k, WorkerStep(t, w, a).workers[a.k].pc);
      }
    }
  }

  lemma ArriveRemembers(w: World, k: nat, colo: nat, r: ImageRequest)
    requires k !in w.workers
    ensures Remembers(w, w.(workers := w.workers[k := Worker(colo, r, Arrived)]))
  {
  }

  lemma ApplyRemembers(t: Transform, w: World, a: Action)
    requires Inv(t, w)
    ensures Remembers(w, Apply(t, w, a))
  {
    hide Inv, Remembers, FinalizeUpload, IngestObject, WorkerStep, DeleteCall, DeletePage, ListPage, Presign,
      CancelUpload, StartDelete, Reconcile, IsUlid, Shrinks;
    UntouchedRemembers(w, w);
    if a.FinalizeAct? {
      FinalizeRemembers(t, w, a.h, a.uploadId, a.finalizeFaults);
    } else if a.IngestAct? {
      if FreshUlid(w, a.version) { IngestRemembers(t, w, a.key, a.source, a.requestedType, a.write, a.version, a.put); }
    } else if DeleteAction(a) {
      if a.d in w.deletes { DeleteStepFrame(w, a); }
      UntouchedRemembers(w, DeleteStep(w, a));
    } else if WorkerAction(a) {
      WorkerRemembers(t, w, a);
    } else if a.ArriveAct? {
      if a.k !in w.workers { ArriveRemembers(w, a.k, a.colo, a.imageRequest); }
    } else {
      OtherTouches(t, w, a);
      UntouchedRemembers(w, Apply(t, w, a));
    }
  }

  /** Neither an answer nor the content of a version ever changes again. */
  lemma {:induction false} RunRemembers(t: Transform, w: World, actions: seq<Action>)
    requires Inv(t, w)
    ensures Remembers(w, Run(t, w, actions))
    decreases |actions|
  {
    hide Inv, Apply;
    if actions != [] {
      var front := actions[..|actions| - 1];
      RunRemembers(t, w, front);
      RunKeeps(t, w, front);
      ApplyRemembers(t, Run(t, w, front), actions[|actions| - 1]);
    }
  }

  // ---------- immutability ----------

  /** Request `k` was answered 200 with this body and content type. */
  ghost predicate AnsweredOk(w: World, k: nat, q: ImageRequest, body: Bytes, contentType: string) {
    && k in w.workers && w.workers[k].request == q && w.workers[k].pc.Answered?
    && w.workers[k].pc.response.Served? && w.workers[k].pc.response.body == body
    && w.workers[k].pc.response.contentType == contentType
  }

  predicate IsAnswer(r: Response, body: Bytes, contentType: string) {
    r.Served? && r.body == body && r.contentType == contentType
  }

  /** A 200 shows the replica that the URL asks for, or the variant of it, with its type. */
  ghost predicate Shows(t: Transform, replica: Replica, q: ImageRequest, version: string, body: Bytes,
                        contentType: string) {
    exists p :: AsksFor(q, p) && p.version == Some(version) &&
      if p.variant.None? then
        && replica.key == p.objectKey && body == replica.body
        && contentType == if replica.contentType.Some? then replica.contentType.value else "application/octet-stream"
      else
        && Stem(replica.key) == Stem(p.objectKey) && body == t(p.variant.value, replica.body)
        && contentType == "image/webp"
  }

  /** Over every run, with requests interleaved at each remote call with uploads, re-uploads,
      ingests, deletes and each other: two 200 responses to the same versioned URL, at any two
      moments, from any data centre and any cache level, have the same body and content type;
      they show what was replicated under the version in the URL, or its transform. */
  lemma VersionedUrlsAreImmutable(t: Transform, now: int, first: seq<Action>, more: seq<Action>, q: ImageRequest,
                                  version: string,
                                  k1: nat, body1: Bytes, type1: string, k2: nat, body2: Bytes, type2: string)
    requires InVersion(q, version)
    requires var w1 := Run(t, InitialWorld(now), first);
      AnsweredOk(w1, k1, q, body1, type1) && AnsweredOk(Run(t, w1, more), k2, q, body2, type2)
    ensures body1 == body2 && type1 == type2
    ensures var w2 := Run(t, Run(t, InitialWorld(now), first), more);
      version in w2.minted && Shows(t, w2.minted[version], q, version, body2, type2)
  {
    hide Inv, ParseImageRequest, Stem, Shows, InVersion, Run, AnsweredOk, Remembers;
    var w0 := InitialWorld(now);
    var w1 := Run(t, w0, first);
    var w2 := Run(t, w1, more);
    InitialInv(t, now);
    RunKeeps(t, w0, first);
    RunKeeps(t, w1, more);
    RunRemembers(t, w1, more);
    StaysAnswered(w1, w2, k1, q, body1, type1);
    AnswerIsVersioned(t, w2, k1, q, body1, type1);
    AnswerIsVersioned(t, w2, k2, q, body2, type2);
    VersionIsInPath(q, version);
    ResponseShows(t, w2.minted, q, version, body2, type2);
  }

  lemma StaysAnswered(w: World, w1: World, k: nat, q: ImageRequest, body: Bytes, contentType: string)
    requires Remembers(w, w1) && AnsweredOk(w, k, q, body, contentType)
    ensures AnsweredOk(w1, k, q, body, contentType)
  {
  }

  lemma ResponseShows(t: Transform, minted: map<string, Replica>, q: ImageRequest, version: string, body: Bytes,
                      contentType: string)
    requires ParseImageRequest(q).Ok? && ParseImageRequest(q).value.version == Some(version)
    requires VersionedResponse(t, minted, ParseImageRequest(q).value, body, contentType)
    ensures version in minted && Shows(t, minted[version], q, version, body, contentType)
  {
    hide ParseImageRequest, Stem, AsksFor;
    ParseExactly(q, ParseImageRequest(q).value);
  }

  /** The same with the URL spelled out, without a query and with a variant parameter. */
  lemma PublicPathsAreImmutable(t: Transform, now: int, first: seq<Action>, more: seq<Action>, q: ImageRequest,
                                version: string, rest: string,
                                k1: nat, body1: Bytes, type1: string, k2: nat, body2: Bytes, type2: string)
    requires IsUlid(version) && '%' !in rest && q.verb == Method.Get && q.pathname == "/_v/" + version + "/" + rest
    requires var w1 := Run(t, InitialWorld(now), first);
      AnsweredOk(w1, k1, q, body1, type1) && AnsweredOk(Run(t, w1, more), k2, q, body2, type2)
    ensures body1 == body2 && type1 == type2
    ensures var w2 := Run(t, Run(t, InitialWorld(now), first), more);
      && version in w2.minted
      && var replica := w2.minted[version];
      && (q.query == [] && Canonical(rest) && !LegacyForm(rest) ==> replica.key == rest && body2 == replica.body)
      && forall v | q.query == [("variant", Name(v))] && Canonical(rest) && !LegacyForm(rest) ::
           Stem(replica.key) == Stem(rest) && body2 == t(v, replica.body) && type2 == "image/webp"
  {
    hide Stem, InVersion, Run, AnsweredOk, Canonical, LegacyForm, AsksFor, IsUlid, ParseImageRequest;
    PlainPathInVersion(q, version, rest);
    VersionedUrlsAreImmutable(t, now, first, more, q, version, k1, body1, type1, k2, body2, type2);
    var w2 := Run(t, Run(t, InitialWorld(now), first), more);
    forall p | AsksFor(q, p) ensures ParseImageRequest(q) == Ok(p) { ParseExactly(q, p); }
    if q.query == [] && Canonical(rest) && !LegacyForm(rest) {
      PlainPathAsks(version, rest, Thumb);
    }
    forall v | q.query == [("variant", Name(v))] && Canonical(rest) && !LegacyForm(rest)
      ensures Stem(w2.minted[version].key) == Stem(rest) && body2 == t(v, w2.minted[version].body)
      ensures type2 == "image/webp"
    {
      PlainPathAsks(version, rest, v);
      assert q == ImageRequest(Method.Get, q.pathname, [("variant", Name(v))]);
    }
  }

  lemma AnswerIsVersioned(t: Transform, w: World, k: nat, q: ImageRequest, body: Bytes, contentType: string)
    requires Inv(t, w) && AnsweredOk(w, k, q, body, contentType)
    ensures ParseImageRequest(q).Ok? && VersionedResponse(t, w.minted, ParseImageRequest(q).value, body, contentType)
  {
    hide R2Inv, EdgeInv, WriteInv, ParseImageRequest, VersionedResponse;
    assert WorkerInv(t, w.workers[k], w.minted, w.replicated);
  }

  // ---------- persisted variants are bounded ----------

  /** The R2 keys that have the form of a versioned, or of an unversioned, variant. */
  ghost predicate IsVersionedKey(x: string) {
    exists k, v, version :: Canonical(k) && x == BuildVariantKey(k, v, Some(version))
  }
  ghost predicate IsUnversionedKey(x: string) { exists k, v :: Canonical(k) && x == BuildVariantKey(k, v, None) }

  function KeysFor<T>(ts: set<T>, f: (T, WebpVariant) -> string): set<string> {
    set x, v | x in ts && v in WEBP_VARIANTS :: f(x, v)
  }

  lemma {:induction false} SixEach<T>(ts: set<T>, f: (T, WebpVariant) -> string)
    ensures |KeysFor(ts, f)| <= 6 * |ts|
    decreases |ts|
  {
    if ts == {} {
      assert KeysFor(ts, f) == {};
    } else {
      var x :| x in ts;
      var rest := ts - {x};
      SixEach(rest, f);
      var six := [f(x, Thumb), f(x, W320), f(x, W640), f(x, W960), f(x, W1280), f(x, W1600)];
      var sixKeys := set y | y in six;
      assert KeysFor(ts, f) <= KeysFor(rest, f) + sixKeys by {
        forall y | y in KeysFor(ts, f) ensures y in KeysFor(rest, f) + sixKeys {
          var x', v :| x' in ts && v in WEBP_VARIANTS && y == f(x', v);
          if x' == x { assert f(x, v) in six; } else { assert x' in rest; }
        }
      }
      SequenceSetSize(six);
      SubsetSize(KeysFor(ts, f), KeysFor(rest, f) + sixKeys);
    }
  }

  lemma {:induction false} SequenceSetSize(s: seq<string>)
    ensures |set y | y in s| <= |s|
  {
    if s != [] {
      SequenceSetSize(s[1..]);
      assert (set y | y in s) == {s[0]} + set y | y in s[1..];
    }
  }

  lemma SubsetSize<T>(a: set<T>, b: set<T>)
    requires a <= b
    ensures |a| <= |b|
  {
    var rest := b - a;
    assert b == a + rest;
  }

  function VersionedKeyOf(minted: map<string, Replica>): (string, WebpVariant) -> string {
    (version: string, v: WebpVariant) =>
      if version in minted then BuildVariantKey(minted[version].key, v, Some(version)) else ""
  }

  function UnversionedKeyOf(stem: string, v: WebpVariant): string {
    "variants/webp/" + (Name(v) + "/" + (stem + ".webp"))
  }

  ghost function VersionedKeys(r2: R2Map): set<string> { set x | x in r2 && IsVersionedKey(x) }
  ghost function UnversionedKeys(r2: R2Map): set<string> { set x | x in r2 && IsUnversionedKey(x) }
  function Stems(keys: set<string>): set<string> { set k | k in keys :: Stem(k) }

  /** A persisted versioned variant belongs to a version minted for that very stem. */
  lemma VersionedKeyIsMinted(t: Transform, w: World, k: string, v: WebpVariant, version: string)
    requires ReadInv(t, w) && Canonical(k) && BuildVariantKey(k, v, Some(version)) in w.r2
    ensures version in w.minted && Stem(w.minted[version].key) == Stem(k)
  {
    hide Canonical, BuildVariantKey, Stem, NamespaceOf;
    StoredVariantIsExpected(t, w, ParsedRequest(k, Some(version), Some(v)));
  }

  lemma VersionedKeysAreKnown(t: Transform, w: World)
    requires ReadInv(t, w)
    ensures VersionedKeys(w.r2) <= KeysFor(w.minted.Keys, VersionedKeyOf(w.minted))
  {
    hide Canonical, BuildVariantKey, Stem, R2Inv, EdgeInv, WorkersInv;
    forall x | x in VersionedKeys(w.r2) ensures x in KeysFor(w.minted.Keys, VersionedKeyOf(w.minted)) {
      var k, v, version :| Canonical(k) && x == BuildVariantKey(k, v, Some(version));
      VersionedKeyIsMinted(t, w, k, v, version);
      VariantKeysInjective(k, v, Some(version), w.minted[version].key, v, Some(version));
      var i := VariantIndex(v);
      assert x == VersionedKeyOf(w.minted)(version, v);
    }
  }

  lemma UnversionedKeyFromStem(k: string, v: WebpVariant)
    requires Canonical(k)
    ensures BuildVariantKey(k, v, None) == UnversionedKeyOf(Stem(k), v)
  {
    hide Canonical;
    WithWebpIsStem(k);
  }

  lemma UnversionedKeysAreKnown(t: Transform, w: World)
    requires ReadInv(t, w)
    ensures UnversionedKeys(w.r2) <= KeysFor(Stems(w.replicated), UnversionedKeyOf)
  {
    hide Canonical, BuildVariantKey, Stem, NamespaceOf, EdgeInv, WorkersInv, UnversionedKeyOf;
    forall x | x in UnversionedKeys(w.r2) ensures x in KeysFor(Stems(w.replicated), UnversionedKeyOf) {
      var k, v :| Canonical(k) && x == BuildVariantKey(k, v, None);
      var k0 := UnversionedIsPlain(t, w, k, v);
      UnversionedKeyFromStem(k0, v);
      var i := VariantIndex(v);
      assert Stem(k0) in Stems(w.replicated);
    }
  }

  lemma UnversionedIsPlain(t: Transform, w: World, k: string, v: WebpVariant) returns (k0: string)
    requires ReadInv(t, w) && Canonical(k) && BuildVariantKey(k, v, None) in w.r2
    ensures k0 in w.replicated && Canonical(k0) && BuildVariantKey(k, v, None) == BuildVariantKey(k0, v, None)
  {
    hide Canonical, BuildVariantKey, Stem, NamespaceOf, EdgeInv, WorkersInv;
    var x := BuildVariantKey(k, v, None);
    NamespacesDisjoint("", k, v, None);
    NamespacesDisjoint("", x, v, None);
    if IsVersionedVariant(t, x, w.r2[x], w.minted) {
      var version, v' :| version in w.minted && x == BuildVariantKey(w.minted[version].key, v', Some(version));
      VariantKeysInjective(w.minted[version].key, v', Some(version), k, v, None);
    }
    var k1, v1 :| k1 in w.replicated && x == BuildVariantKey(k1, v1, None);
    VariantKeysInjective(k1, v1, None, k, v, None);
    k0 := k1;
  }

  /** However many requests arrive, with whatever made-up versions: R2 holds at most six
      versioned variants per version ever replicated, and at most six unversioned ones per
      stem ever replicated. */
  lemma PersistedVariantsAreBounded(t: Transform, now: int, actions: seq<Action>)
    ensures var w := Run(t, InitialWorld(now), actions);
      && |VersionedKeys(w.r2)| <= 6 * |w.minted|
      && |UnversionedKeys(w.r2)| <= 6 * |Stems(w.replicated)|
      && forall k, v, version | Canonical(k) && BuildVariantKey(k, v, Some(version)) in w.r2 ::
           version in w.minted && Stem(w.minted[version].key) == Stem(k)
  {
    hide Inv, Canonical, BuildVariantKey, Stem, VersionedKeys, UnversionedKeys, KeysFor;
    var w := Run(t, InitialWorld(now), actions);
    InitialInv(t, now);
    RunKeeps(t, InitialWorld(now), actions);
    assert ReadInv(t, w) by { ReadPart(t, w); }
    VersionedKeysAreKnown(t, w);
    SixEach(w.minted.Keys, VersionedKeyOf(w.minted));
    SubsetSize(VersionedKeys(w.r2), KeysFor(w.minted.Keys, VersionedKeyOf(w.minted)));
    UnversionedKeysAreKnown(t, w);
    SixEach(Stems(w.replicated), UnversionedKeyOf);
    SubsetSize(UnversionedKeys(w.r2), KeysFor(Stems(w.replicated), UnversionedKeyOf));
    forall k, v, version | Canonical(k) && BuildVariantKey(k, v, Some(version)) in w.r2
      ensures version in w.minted && Stem(w.minted[version].key) == Stem(k)
    {
      VersionedKeyIsMinted(t, w, k, v, version);
    }
  }

  lemma ReadPart(t: Transform, w: World)
    requires Inv(t, w)
    ensures ReadInv(t, w)
  {
  }
}
