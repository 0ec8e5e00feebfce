/** Upload sessions and the expiring map that every session store implements. */
module Sessions {
  import opened Wrappers
  import opened ObjectKeys
  import opened ContentTypes
  import opened Requests
  import opened StorageKeys

  /** An upload session; times are milliseconds. */
  datatype Session = Session(
    uploadId: string,
    objectKey: string,
    stagingObjectKey: string,
    productId: ProductId,
    auctionHouseId: Option<string>,
    contentType: ContentType,
    contentLength: int,
    expiresAt: int)

  type SessionMap = map<string, Session>

  /** The sessions of `m` that have not expired at `now`. */
  function Live(m: SessionMap, now: int): SessionMap {
    map id | id in m && now < m[id].expiresAt :: m[id]
  }

  function Lookup(m: SessionMap, id: string, now: int): Option<Session> {
    if id in m && now < m[id].expiresAt then Some(m[id]) else None
  }

  // ---------- lazy and eager expiry ----------

  datatype Op = Create(input: Session) | Get(id: string) | Delete(id: string)
  datatype Timed = Timed(op: Op, now: int)
  datatype Answer = Created(session: Session) | Rejected | Found(session: Session) | NotFound | Deleted

  /** One operation of the in-memory store: expired sessions go when they are read, or when
      `create` finds the store full. */
  function LazyStep(m: SessionMap, maxSessions: nat, t: Timed): (SessionMap, Answer) {
    match t.op
    case Create(s) =>
      var m1 := if |m| >= maxSessions then Live(m, t.now) else m;
      if |m1| >= maxSessions then (m1, Rejected) else (m1[s.uploadId := s], Created(s))
    case Get(id) =>
      if id !in m then (m, NotFound)
      else if m[id].expiresAt <= t.now then (m - {id}, NotFound)
      else (m, Found(m[id]))
    case Delete(id) => (m - {id}, Deleted)
  }

  /** The same store if every session vanished at its expiry. */
  function EagerStep(m: SessionMap, maxSessions: nat, t: Timed): (SessionMap, Answer) {
    var live := Live(m, t.now);
    match t.op
    case Create(s) => if |live| >= maxSessions then (live, Rejected) else (live[s.uploadId := s], Created(s))
    case Get(id) => (live, if id in live then Found(live[id]) else NotFound)
    case Delete(id) => (live - {id}, Deleted)
  }

  function LazyRun(m: SessionMap, maxSessions: nat, ops: seq<Timed>): (r: (SessionMap, seq<Answer>))
    decreases |ops|
  {
    if ops == [] then (m, []) else
    var (m1, a) := LazyStep(m, maxSessions, ops[0]);
    var (m2, rest) := LazyRun(m1, maxSessions, ops[1..]);
    (m2, [a] + rest)
  }

  function EagerRun(m: SessionMap, maxSessions: nat, ops: seq<Timed>): (r: (SessionMap, seq<Answer>))
    decreases |ops|
  {
    if ops == [] then (m, []) else
    var (m1, a) := EagerStep(m, maxSessions, ops[0]);
    var (m2, rest) := EagerRun(m1, maxSessions, ops[1..]);
    (m2, [a] + rest)
  }

  predicate ClockNeverGoesBack(from: int, ops: seq<Timed>)
    decreases |ops|
  {
    ops == [] || (from <= ops[0].now && ClockNeverGoesBack(ops[0].now, ops[1..]))
  }

  /** The two maps hold the same sessions alive at `now`. */
  predicate SameLive(a: SessionMap, b: SessionMap, now: int) { Live(a, now) == Live(b, now) }

  lemma SubmapSize<K, V>(a: map<K, V>, b: map<K, V>)
    requires a.Keys <= b.Keys
    ensures |a| <= |b|
  {
    assert |a| == |a.Keys| && |b| == |b.Keys|;
    var rest := b.Keys - a.Keys;
    assert b.Keys == a.Keys + rest;
  }

  lemma LiveLater(m: SessionMap, from: int, now: int)
    requires from <= now
    ensures Live(Live(m, from), now) == Live(m, now)
  {
  }

  lemma LiveInsert(lz: SessionMap, eager: SessionMap, s: Session, now: int)
    requires Live(lz, now) == Live(eager, now)
    ensures Live(lz[s.uploadId := s], now) == Live(Live(eager, now)[s.uploadId := s], now)
    ensures Live(Live(lz, now)[s.uploadId := s], now) == Live(Live(eager, now)[s.uploadId := s], now)
    ensures Live(Live(lz, now), now) == Live(lz, now)
  {
    assert forall id :: id in Live(lz, now) <==> id in Live(eager, now);
    assert forall id | id in Live(lz, now) :: lz[id] == Live(lz, now)[id] == Live(eager, now)[id];
  }

  lemma LiveRemove(lz: SessionMap, eager: SessionMap, id: string, now: int)
    requires Live(lz, now) == Live(eager, now)
    ensures Live(lz - {id}, now) == Live(Live(eager, now) - {id}, now)
  {
    assert forall x :: x in Live(lz, now) <==> x in Live(eager, now);
    assert forall x | x in Live(lz, now) :: lz[x] == Live(lz, now)[x] == Live(eager, now)[x];
  }

  lemma LiveRemoveExpired(m: SessionMap, id: string, now: int)
    ensures id in m && m[id].expiresAt <= now ==> Live(m - {id}, now) == Live(m, now)
    ensures Live(Live(m, now), now) == Live(m, now)
    ensures id in Live(m, now) <==> id in m && now < m[id].expiresAt
    ensures id in Live(m, now) ==> Live(m, now)[id] == m[id]
  {
  }

  /** One step from maps with the same live sessions: the same answer, and the same live
      sessions afterwards. */
  lemma StepRefines(lz: SessionMap, eager: SessionMap, from: int, maxSessions: nat, t: Timed)
    requires SameLive(lz, eager, from) && from <= t.now
    ensures LazyStep(lz, maxSessions, t).1 == EagerStep(eager, maxSessions, t).1
    ensures SameLive(LazyStep(lz, maxSessions, t).0, EagerStep(eager, maxSessions, t).0, t.now)
  {
    LiveLater(lz, from, t.now);
    LiveLater(eager, from, t.now);
    SubmapSize(Live(lz, t.now), lz);
    match t.op
    case Create(s) => LiveInsert(lz, eager, s, t.now);
    case Get(id) => LiveRemoveExpired(lz, id, t.now);
    case Delete(id) => LiveRemove(lz, eager, id, t.now);
  }

  /** Under a clock that never goes back, a store that expires lazily answers every sequence
      of operations as one that drops each session the moment it expires. */
  lemma {:induction false} LazyRefinesEager(lz: SessionMap, eager: SessionMap, from: int, maxSessions: nat,
                                            ops: seq<Timed>)
    requires SameLive(lz, eager, from) && ClockNeverGoesBack(from, ops)
    ensures LazyRun(lz, maxSessions, ops).1 == EagerRun(eager, maxSessions, ops).1
    decreases |ops|
  {
    if ops != [] {
      StepRefines(lz, eager, from, maxSessions, ops[0]);
      LazyRefinesEager(LazyStep(lz, maxSessions, ops[0]).0, EagerStep(eager, maxSessions, ops[0]).0,
                       ops[0].now, maxSessions, ops[1..]);
    }
  }

  /** The bound on stored sessions, expired ones included, holds after every sequence. */
  lemma {:induction false} LazyBounded(m: SessionMap, maxSessions: nat, ops: seq<Timed>)
    requires |m| <= maxSessions
    ensures |LazyRun(m, maxSessions, ops).0| <= maxSessions
    decreases |ops|
  {
    if ops != [] {
      var t := ops[0];
      SubmapSize(LazyStep(m, maxSessions, t).0 - (if t.op.Create? then {t.op.input.uploadId} else {}), m);
      SubmapSize(Live(m, t.now), m);
      LazyBounded(LazyStep(m, maxSessions, t).0, maxSessions, ops[1..]);
    }
  }

  // ---------- what presign stores ----------

  /** A session that belongs to the key it was created for. */
  predicate ValidSession(s: Session) {
    && IsUlid(s.uploadId)
    && Canonical(s.objectKey)
    && s.stagingObjectKey == StagingKey(s.uploadId, s.objectKey)
    && s.productId == ProductOf(EntityOf(s.objectKey))
    && s.auctionHouseId == AuctionHouseOf(EntityOf(s.objectKey))
    && 0 < s.contentLength <= MAX_UPLOAD_BYTES
  }
}
