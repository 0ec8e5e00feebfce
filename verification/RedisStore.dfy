/** The Redis session store (upload-function/src/upload-session-store-redis.ts), at the level
    of decoded records. */
module RedisStore {
  import opened Wrappers
  import opened Errors
  import opened Text
  import opened ObjectKeys
  import opened ContentTypes
  import opened Requests
  import opened Variants
  import WorkerKeys
  import opened Sessions

  /** A stored record after `JSON.parse`; the brands of a session are plain strings here. */
  datatype SessionRecord = SessionRecord(
    uploadId: string,
    objectKey: string,
    stagingObjectKey: Option<string>,
    productId: string,
    auctionHouseId: Option<string>,
    contentType: string,
    contentLength: int,
    expiresAt: int)

  function ProductName(p: ProductId): string {
    match p
    case Galleries => "galleries"
    case ArtnetAuctions => "artnet-auctions"
    case Pdb => "pdb"
  }

  function ParseProductName(s: string): Option<ProductId> {
    if s == "galleries" then Some(Galleries)
    else if s == "artnet-auctions" then Some(ArtnetAuctions)
    else if s == "pdb" then Some(Pdb)
    else None
  }

  /** `serializeSession`. */
  function SerializeSession(s: Session): SessionRecord {
    SessionRecord(s.uploadId, s.objectKey, Some(s.stagingObjectKey), ProductName(s.productId),
                  s.auctionHouseId, MimeType(s.contentType), s.contentLength, s.expiresAt)
  }

  predicate MatchesSchema(r: SessionRecord) {
    && r.uploadId != "" && r.objectKey != "" && r.stagingObjectKey != Some("")
    && r.productId != "" && r.auctionHouseId != Some("")
    && ParseAllowedContentType(r.contentType).Ok? && r.contentLength > 0
  }

  /** `parseStoredSession` on a decoded record. */
  function ParseStoredSession(r: SessionRecord): Result<Session, ErrorCode> {
    if !MatchesSchema(r) then Err(SessionStoreUnavailable)
    else if !IsUlid(r.uploadId) then Err(ErrorCode.InvalidRequest)
    else if !Canonical(r.objectKey) then Err(ErrorCode.InvalidRequest)
    else if r.stagingObjectKey.Some? && !("staging/uploads/" <= r.stagingObjectKey.value) then
      Err(SessionStoreUnavailable)
    else if ParseProductName(r.productId).None? then Err(SessionStoreUnavailable)
    else Ok(Session(r.uploadId, r.objectKey,
                    if r.stagingObjectKey.Some? then r.stagingObjectKey.value else r.objectKey,
                    ParseProductName(r.productId).value, r.auctionHouseId,
                    ParseAllowedContentType(r.contentType).value, r.contentLength, r.expiresAt))
  }

  /** The sessions that survive storage. */
  predicate Storable(s: Session) {
    && IsUlid(s.uploadId) && Canonical(s.objectKey) && "staging/uploads/" <= s.stagingObjectKey
    && s.auctionHouseId != Some("") && s.contentLength > 0
  }

  /** A session comes back from storage unchanged exactly when its fields meet the schema. */
  lemma RecordRoundTrip(s: Session)
    ensures ParseStoredSession(SerializeSession(s)) == Ok(s) <==> Storable(s)
  {
    if Canonical(s.objectKey) { CanonicalNonEmpty(s.objectKey); }
    assert ParseProductName(ProductName(s.productId)) == Some(s.productId);
    assert ParseAllowedContentType(MimeType(s.contentType)) == Ok(s.contentType);
  }

  /** Storing back what a record with a staging key parsed to gives the same record. */
  lemma RecordReserializes(r: SessionRecord)
    requires ParseStoredSession(r).Ok?
    ensures SerializeSession(ParseStoredSession(r).value) == r <==> r.stagingObjectKey.Some?
  {
  }

  /** A record without a staging key parses as one with any does, but for the key it stages at. */
  lemma OldRecordParses(r: SessionRecord)
    requires r.stagingObjectKey.None?
    ensures var with := ParseStoredSession(r.(stagingObjectKey := Some("staging/uploads/")));
      ParseStoredSession(r) == if with.Err? then with else Ok(with.value.(stagingObjectKey := r.objectKey))
  {
    hide Canonical;
  }

  /** Every session that presign creates is storable, with or without an auction house. */
  lemma ValidSessionStorable(s: Session)
    requires ValidSession(s)
    ensures Storable(s)
  {
    hide Canonical;
    var e := EntityOf(s.objectKey);
    if e.AuctionLot? { AuctionHouseIsSegment(s.objectKey); }
  }

  lemma AuctionHouseIsSegment(key: string)
    requires Canonical(key) && EntityOf(key).AuctionLot?
    ensures IsValidPathSegment(EntityOf(key).auctionHouseId)
  {
    WorkerKeys.CanonicalShape(key);
    WorkerKeys.LegacyShape(key);
  }

  /** `Math.max(1, Math.ceil((expiresAt - now) / 1000))`. */
  function SecondsUntil(expiresAt: int, now: int): (n: int)
    ensures n >= 1
    ensures now + 1000 * n >= expiresAt
    ensures expiresAt > now ==> now + 1000 * n < expiresAt + 1000
  {
    var seconds := -((now - expiresAt) / 1000);
    if seconds > 1 then seconds else 1
  }

  /** A Redis value with the time at which the server drops it. */
  datatype Entry = Entry(record: SessionRecord, dropAt: int)

  class RedisUploadSessionStore {
    var data: map<string, Entry>
    const keyPrefix: string
    /** The sessions created and not deleted, expired or not. */
    ghost var created: SessionMap
    ghost var clock: int

    function Key(uploadId: string): string { keyPrefix + uploadId }

    /** A key that Redis would still return at `now`. */
    predicate Visible(key: string, now: int)
      reads this`data
    {
      key in data && now < data[key].dropAt
    }

    ghost predicate Valid()
      reads this
    {
      && (forall id | id in created ::
            && Storable(created[id]) && created[id].uploadId == id
            && (Key(id) in data || created[id].expiresAt <= clock)
            && (Key(id) in data ==> data[Key(id)].record == SerializeSession(created[id])
                                    && created[id].expiresAt <= data[Key(id)].dropAt))
      && (forall id | Key(id) in data :: id in created)
    }

    constructor (keyPrefix: string)
      ensures Valid() && created == map[] && this.keyPrefix == keyPrefix
    {
      this.keyPrefix := keyPrefix;
      data, created, clock := map[], map[], 0;
    }

    lemma KeyInjective(a: string, b: string)
      ensures Key(a) == Key(b) ==> a == b
    {
      if Key(a) == Key(b) { CancelPrefix(keyPrefix, a, b); }
    }

    /** `SET key value EX seconds NX`: an unexpired key makes it fail. */
    method Create(input: Session, now: int) returns (r: Result<Session, ErrorCode>)
      requires Valid() && clock <= now && Storable(input)
      modifies this
      ensures Valid() && clock == now
      ensures r.Ok? ==> r.value == input && created == old(created)[input.uploadId := input]
      ensures r.Err? ==> r.error == SessionStoreUnavailable && created == old(created) && input.uploadId in created
      ensures Lookup(old(created), input.uploadId, now).Some? ==> r.Err?
    {
      hide Canonical, Storable, SerializeSession;
      var expiresInSeconds := SecondsUntil(input.expiresAt, now);
      clock := now;
      forall id { KeyInjective(id, input.uploadId); }
      if Visible(Key(input.uploadId), now) {
        return Err(SessionStoreUnavailable);
      }
      data := data[Key(input.uploadId) := Entry(SerializeSession(input), now + 1000 * expiresInSeconds)];
      created := created[input.uploadId := input];
      return Ok(input);
    }

    method Delete(uploadId: string)
      requires Valid()
      modifies this
      ensures Valid() && clock == old(clock) && created == old(created) - {uploadId}
    {
      forall id { KeyInjective(id, uploadId); }
      data := data - {Key(uploadId)};
      created := created - {uploadId};
    }

    /** `get`: a session comes back exactly when it was created, not deleted, and is unexpired. */
    method Get(uploadId: string, now: int) returns (r: Result<Option<Session>, ErrorCode>)
      requires Valid() && clock <= now
      modifies this
      ensures Valid() && clock == now
      ensures r == Ok(Lookup(old(created), uploadId, now))
      ensures Live(created, now) == Live(old(created), now)
    {
      hide Canonical, Storable, SerializeSession, ParseStoredSession;
      clock := now;
      if !Visible(Key(uploadId), now) {
        return Ok(None);
      }
      RecordRoundTrip(created[uploadId]);
      var parsed := ParseStoredSession(data[Key(uploadId)].record);
      var session := parsed.value;
      if session.expiresAt <= now {
        Delete(uploadId);
        return Ok(None);
      }
      return Ok(Some(session));
    }
  }
}
