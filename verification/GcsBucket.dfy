/** The GCS adapter: retried deletes, the two-phase promotion and the streaming write
    (upload-function/src/storage/gcs-storage.ts). */
module GcsBuckets {
  import opened Wrappers
  import opened Errors
  import opened ObjectKeys
  import opened ContentTypes
  import opened Storage
  import opened Worlds
  import opened Handlers
  import opened Retry
  import opened RemoteCalls

  const MAX_TRANSIENT_RETRIES := 3

  /** No status, 408 Request Timeout, 429 Too Many Requests, or a server error. */
  predicate IsTransient(s: StatusCode) { s == NoStatus || s.code in [408, 429] || 500 <= s.code }

  /** A call that is lost three times to transient errors is made a fourth time, after 2.1 seconds of
      sleep in all, and succeeds exactly if that is acknowledged; a fifth is not made. */
  lemma ThreeRetries(calls: nat -> Call)
    requires forall i | 0 <= i < 3 :: calls(i).Lost? && IsTransient(calls(i).status)
    ensures CallOutcome(calls, MAX_TRANSIENT_RETRIES) == Done <==> calls(3).Acknowledged?
    ensures LastAttempt(calls, MAX_TRANSIENT_RETRIES) == 3 && TotalDelay(3) == 2100
  {
    assert Made(calls, MAX_TRANSIENT_RETRIES, 3);
    assert !Made(calls, MAX_TRANSIENT_RETRIES, 4);
    CallOutcomeExact(calls, MAX_TRANSIENT_RETRIES);
    LastAttemptExact(calls, MAX_TRANSIENT_RETRIES, 4);
    TotalDelayClosedForm(3);
    forall i: nat | Made(calls, MAX_TRANSIENT_RETRIES, i) && calls(i).Acknowledged? ensures i == 3 {}
  }

  /** An error that is not transient ends a call at once. */
  lemma PermanentEndsIt(calls: nat -> Call, maxRetries: nat)
    requires calls(0).Lost? && !IsTransient(calls(0).status)
    ensures CallOutcome(calls, maxRetries) != Done && LastAttempt(calls, maxRetries) == 0
  {
  }

  /** A source stream: the chunks it delivers, and whether it breaks afterwards. */
  datatype Stream = Stream(chunks: seq<Bytes>, breaks: bool)

  function Concat(chunks: seq<Bytes>): Bytes {
    if chunks == [] then [] else Concat(chunks[..|chunks| - 1]) + chunks[|chunks| - 1]
  }

  /** `m` after a write that ended so. */
  function AfterWrite(m: GcsMap, key: string, contentType: ContentType, write: WriteOutcome): GcsMap {
    match write
    case WriteFailed(None, _) => m
    case WriteFailed(Some(bytes), _) => m[key := Image(bytes, Some(MimeType(contentType)))]
    case Streamed(bytes) => m[key := Image(bytes, Some(MimeType(contentType)))]
  }

  /** How a streaming write ends, from some attempt on, when earlier attempts left `stored`. */
  function WriteFrom(open: nat -> Result<Stream, ErrorCode>, upload: nat -> Call, attempt: nat, stored: Option<Bytes>)
    : WriteOutcome
    decreases MAX_TRANSIENT_RETRIES - attempt
  {
    match open(attempt)
    case Err(code) => WriteFailed(stored, code)
    case Ok(stream) =>
      var bytes := Concat(stream.chunks);
      var call := if stream.breaks then Lost(NoStatus, false) else upload(attempt);
      match call
      case Acknowledged => Streamed(bytes)
      case Lost(status, applied) =>
        var stored1 := if applied then Some(bytes) else stored;
        if attempt >= MAX_TRANSIENT_RETRIES || !Retryable(status) then WriteFailed(stored1, StorageUnavailable)
        else WriteFrom(open, upload, attempt + 1, stored1)
  }

  function WriteOutcomeOf(open: nat -> Result<Stream, ErrorCode>, upload: nat -> Call): WriteOutcome {
    WriteFrom(open, upload, 0, None)
  }

  /** The i-th attempt read the whole source, and these are the bytes. */
  predicate ReadBy(bytes: Bytes, source: Result<Stream, ErrorCode>) {
    source.Ok? && !source.value.breaks && bytes == Concat(source.value.chunks)
  }

  /** How the transfer of the i-th attempt ends, where the source could be opened. */
  function Transfer(open: nat -> Result<Stream, ErrorCode>, upload: nat -> Call, i: nat): Call {
    if open(i).Ok? && open(i).value.breaks then Lost(NoStatus, false) else upload(i)
  }

  /** The i-th attempt is made: all before it opened the source and were lost to retryable errors. */
  predicate WriteMade(open: nat -> Result<Stream, ErrorCode>, upload: nat -> Call, i: nat) {
    i <= MAX_TRANSIENT_RETRIES &&
    forall j | 0 <= j < i ::
      open(j).Ok? && Transfer(open, upload, j).Lost? && Retryable(Transfer(open, upload, j).status)
  }

  /** An attempt that is made reads the whole source, and these bytes are stored although its
      answer is lost. */
  predicate LeftBy(open: nat -> Result<Stream, ErrorCode>, upload: nat -> Call, i: nat, bytes: Bytes) {
    WriteMade(open, upload, i) && ReadBy(bytes, open(i)) && upload(i).Lost? && upload(i).applied
  }

  /** An attempt that is made reads the whole source, and is acknowledged. */
  predicate StreamedBy(open: nat -> Result<Stream, ErrorCode>, upload: nat -> Call, i: nat, bytes: Bytes) {
    WriteMade(open, upload, i) && ReadBy(bytes, open(i)) && upload(i).Acknowledged?
  }

  /** Exactly when a write streams, what it then stores, what a failed one leaves, and which
      failures come from the source: always whole contents of one attempt that was made, never a
      part or a mixture. */
  ghost predicate Explains(open: nat -> Result<Stream, ErrorCode>, upload: nat -> Call, write: WriteOutcome) {
    && (write.Streamed? <==> exists i: nat, bytes :: StreamedBy(open, upload, i, bytes))
    && (write.Streamed? ==> exists i: nat :: StreamedBy(open, upload, i, write.bytes))
    && (write.WriteFailed? ==>
          && (write.stored.Some? <==> exists i: nat, bytes :: LeftBy(open, upload, i, bytes))
          && (write.stored.Some? ==> exists i: nat :: LeftBy(open, upload, i, write.stored.value))
          && (if exists i: nat :: WriteMade(open, upload, i) && open(i).Err? then
                exists i: nat :: WriteMade(open, upload, i) && open(i) == Err(write.code)
              else write.code == StorageUnavailable))
  }

  lemma WriteOutcomeIsWhole(open: nat -> Result<Stream, ErrorCode>, upload: nat -> Call)
    ensures Explains(open, upload, WriteOutcomeOf(open, upload))
  {
    WriteFromIsWhole(open, upload, 0, None);
  }

  /** The last attempt at a write that is made, counted from 0, from some attempt on. */
  function LastWrite(open: nat -> Result<Stream, ErrorCode>, upload: nat -> Call, attempt: nat): (last: nat)
    ensures attempt <= MAX_TRANSIENT_RETRIES ==> last <= MAX_TRANSIENT_RETRIES
    decreases MAX_TRANSIENT_RETRIES - attempt
  {
    var call := Transfer(open, upload, attempt);
    if open(attempt).Err? || call.Acknowledged? then attempt
    else if attempt >= MAX_TRANSIENT_RETRIES || !Retryable(call.status) then attempt
    else LastWrite(open, upload, attempt + 1)
  }

  /** The attempts at a write that are made are those up to the last one. */
  lemma LastWriteExact(open: nat -> Result<Stream, ErrorCode>, upload: nat -> Call)
    ensures forall i: nat :: WriteMade(open, upload, i) <==> i <= LastWrite(open, upload, 0)
  {
    LastWriteFrom(open, upload, 0);
  }

  lemma {:induction false} LastWriteFrom(open: nat -> Result<Stream, ErrorCode>, upload: nat -> Call, attempt: nat)
    requires WriteMade(open, upload, attempt)
    ensures forall i: nat :: WriteMade(open, upload, i) <==> i <= LastWrite(open, upload, attempt)
    decreases MAX_TRANSIENT_RETRIES - attempt
  {
    var call := Transfer(open, upload, attempt);
    if open(attempt).Ok? && call.Lost? && attempt < MAX_TRANSIENT_RETRIES && Retryable(call.status) {
      LastWriteFrom(open, upload, attempt + 1);
    } else {
      forall i: nat | WriteMade(open, upload, i) ensures i <= attempt {}
    }
  }

  /** Each stored attempt replaces what was there. */
  lemma WrittenOver(m: GcsMap, key: string, contentType: ContentType, stored: Option<Bytes>, bytes: Bytes)
    ensures AfterWrite(m, key, contentType, WriteFailed(None, StorageUnavailable)) == m
    ensures var before := AfterWrite(m, key, contentType, WriteFailed(stored, StorageUnavailable));
      var after := before[key := Image(bytes, Some(MimeType(contentType)))];
      && after == AfterWrite(m, key, contentType, Streamed(bytes))
      && after == AfterWrite(m, key, contentType, WriteFailed(Some(bytes), StorageUnavailable))
      && forall code :: AfterWrite(m, key, contentType, WriteFailed(stored, code)) == before
  {
    hide MimeType;
  }

  /** The write has come to this attempt, and earlier ones left `stored`. */
  ghost predicate AtAttempt(open: nat -> Result<Stream, ErrorCode>, upload: nat -> Call, attempt: nat,
                            stored: Option<Bytes>) {
    && WriteOutcomeOf(open, upload) == WriteFrom(open, upload, attempt, stored)
    && LastWrite(open, upload, 0) == LastWrite(open, upload, attempt)
  }

  lemma StartsAtFirst(open: nat -> Result<Stream, ErrorCode>, upload: nat -> Call)
    ensures AtAttempt(open, upload, 0, None)
  {
  }

  /** How an attempt ends the write, or hands over to the next. */
  lemma WriteAttempt(open: nat -> Result<Stream, ErrorCode>, upload: nat -> Call, attempt: nat, stored: Option<Bytes>)
    requires AtAttempt(open, upload, attempt, stored)
    ensures open(attempt).Err? ==>
      WriteOutcomeOf(open, upload) == WriteFailed(stored, open(attempt).error) && LastWrite(open, upload, 0) == attempt
    ensures open(attempt).Ok? ==>
      var call := Transfer(open, upload, attempt);
      var bytes := Concat(open(attempt).value.chunks);
      if call.Acknowledged? then
        WriteOutcomeOf(open, upload) == Streamed(bytes) && LastWrite(open, upload, 0) == attempt
      else
        var stored1 := if call.applied then Some(bytes) else stored;
        if attempt < MAX_TRANSIENT_RETRIES && Retryable(call.status) then
          AtAttempt(open, upload, attempt + 1, stored1)
        else
          && WriteOutcomeOf(open, upload) == WriteFailed(stored1, StorageUnavailable)
          && LastWrite(open, upload, 0) == attempt
  {
    hide WriteOutcomeOf, Concat, Retryable;
  }

  /** What the attempts before the given one left. */
  ghost predicate LeftBefore(open: nat -> Result<Stream, ErrorCode>, upload: nat -> Call, attempt: nat,
                             stored: Option<Bytes>) {
    && (forall i: nat, bytes | i < attempt && LeftBy(open, upload, i, bytes) :: stored.Some?)
    && (stored.Some? ==> exists i: nat :: i < attempt && LeftBy(open, upload, i, stored.value))
  }

  lemma {:induction false} WriteFromIsWhole(open: nat -> Result<Stream, ErrorCode>, upload: nat -> Call, attempt: nat,
                                            stored: Option<Bytes>)
    requires WriteMade(open, upload, attempt) && LeftBefore(open, upload, attempt, stored)
    ensures Explains(open, upload, WriteFrom(open, upload, attempt, stored))
    decreases MAX_TRANSIENT_RETRIES - attempt
  {
    hide Explains, LeftBefore;
    var call := Transfer(open, upload, attempt);
    if open(attempt).Ok? && call.Lost? && attempt < MAX_TRANSIENT_RETRIES && Retryable(call.status) {
      var stored1 := if call.applied then Some(Concat(open(attempt).value.chunks)) else stored;
      LeftGrows(open, upload, attempt, stored);
      WriteFromIsWhole(open, upload, attempt + 1, stored1);
    } else {
      LastAttemptExplains(open, upload, attempt, stored);
    }
  }

  lemma LeftGrows(open: nat -> Result<Stream, ErrorCode>, upload: nat -> Call, attempt: nat, stored: Option<Bytes>)
    requires WriteMade(open, upload, attempt) && LeftBefore(open, upload, attempt, stored)
    requires open(attempt).Ok? && Transfer(open, upload, attempt).Lost?
    ensures LeftBefore(open, upload, attempt + 1,
      if Transfer(open, upload, attempt).applied then Some(Concat(open(attempt).value.chunks)) else stored)
  {
    hide WriteMade;
    if Transfer(open, upload, attempt).applied {
      assert LeftBy(open, upload, attempt, Concat(open(attempt).value.chunks));
    } else if stored.Some? {
      var i: nat :| i < attempt && LeftBy(open, upload, i, stored.value);
      assert i < attempt + 1;
    }
  }

  /** No attempt after this one is made. */
  lemma LastAttemptExplains(open: nat -> Result<Stream, ErrorCode>, upload: nat -> Call, attempt: nat,
                            stored: Option<Bytes>)
    requires WriteMade(open, upload, attempt) && LeftBefore(open, upload, attempt, stored)
    requires var call := Transfer(open, upload, attempt);
      open(attempt).Err? || call.Acknowledged? || attempt >= MAX_TRANSIENT_RETRIES || !Retryable(call.status)
    ensures Explains(open, upload, WriteFrom(open, upload, attempt, stored))
  {
    forall i: nat | WriteMade(open, upload, i) ensures i <= attempt {}
    forall i: nat | i < attempt ensures open(i).Ok? && Transfer(open, upload, i).Lost? {}
    if open(attempt).Ok? {
      var bytes := Concat(open(attempt).value.chunks);
      if Transfer(open, upload, attempt).Lost? {
        LeftGrows(open, upload, attempt, stored);
      } else {
        assert StreamedBy(open, upload, attempt, bytes);
      }
    }
  }

  /** What a copy of an object looks like; an image gets the new content type. */
  function CopyOf(o: GcsObject, contentType: ContentType): GcsObject {
    match o
    case Image(body, _) => Image(body, Some(MimeType(contentType)))
    case Marker(_) => o
  }

  datatype WriteResult = WriteResult(size: nat, sha256: string)

  class GcsBucket {
    var objects: GcsMap
    /** The milliseconds slept between attempts. */
    var slept: nat

    constructor ()
      ensures objects == map[] && slept == 0
    {
      objects, slept := map[], 0;
    }

    /** `deleteObject`: a missing object counts as deleted. */
    method DeleteObject(key: string, calls: nat -> Call) returns (r: Result<(), ErrorCode>)
      modifies this
      ensures var outcome := CallOutcome(calls, MAX_TRANSIENT_RETRIES);
        && objects == (if Applied(outcome) then old(objects) - {key} else old(objects))
        && r == if outcome == Done then Ok(()) else Err(StorageUnavailable)
      ensures slept == old(slept) + TotalDelay(LastAttempt(calls, MAX_TRANSIENT_RETRIES))
    {
      var attempt := 0;
      ghost var taken := false;
      while true
        invariant attempt <= MAX_TRANSIENT_RETRIES
        invariant CallOutcome(calls, MAX_TRANSIENT_RETRIES) == OutcomeFrom(calls, MAX_TRANSIENT_RETRIES, attempt, taken)
        invariant LastAttempt(calls, MAX_TRANSIENT_RETRIES) == LastFrom(calls, MAX_TRANSIENT_RETRIES, attempt)
        invariant slept == old(slept) + TotalDelay(attempt)
        invariant objects == if taken then old(objects) - {key} else old(objects)
        decreases MAX_TRANSIENT_RETRIES - attempt
      {
        match calls(attempt) {
          case Acknowledged =>
            // Removed now, or answered with 404.
            objects := objects - {key};
            return Ok(());
          case Lost(status, applied) =>
            if applied {
              objects := objects - {key};
              taken := true;
            }
            if attempt >= MAX_TRANSIENT_RETRIES || !Retryable(status) {
              return Err(StorageUnavailable);
            }
        }
        slept := slept + RetryDelayForAttempt(attempt);
        attempt := attempt + 1;
      }
    }

    /** `writeTombstone`. */
    method WriteTombstone(path: string, tombstone: Tombstone, calls: nat -> Call) returns (r: Result<(), ErrorCode>)
      modifies this
      ensures var outcome := CallOutcome(calls, MAX_TRANSIENT_RETRIES);
        && objects == (if Applied(outcome) then old(objects)[path := Marker(tombstone)] else old(objects))
        && r == if outcome == Done then Ok(()) else Err(TombstoneWriteFailed)
      ensures slept == old(slept) + TotalDelay(LastAttempt(calls, MAX_TRANSIENT_RETRIES))
    {
      var attempt := 0;
      ghost var taken := false;
      while true
        invariant attempt <= MAX_TRANSIENT_RETRIES
        invariant CallOutcome(calls, MAX_TRANSIENT_RETRIES) == OutcomeFrom(calls, MAX_TRANSIENT_RETRIES, attempt, taken)
        invariant LastAttempt(calls, MAX_TRANSIENT_RETRIES) == LastFrom(calls, MAX_TRANSIENT_RETRIES, attempt)
        invariant slept == old(slept) + TotalDelay(attempt)
        invariant objects == if taken then old(objects)[path := Marker(tombstone)] else old(objects)
        decreases MAX_TRANSIENT_RETRIES - attempt
      {
        match calls(attempt) {
          case Acknowledged =>
            objects := objects[path := Marker(tombstone)];
            return Ok(());
          case Lost(status, applied) =>
            if applied {
              objects := objects[path := Marker(tombstone)];
              taken := true;
            }
            if attempt >= MAX_TRANSIENT_RETRIES || !Retryable(status) {
              return Err(TombstoneWriteFailed);
            }
        }
        slept := slept + RetryDelayForAttempt(attempt);
        attempt := attempt + 1;
      }
    }

    /** `promoteObject`: copy, then delete the source. The bytes are never lost: until the copy
        is there the source stays, and a failure after that leaves the copy. In the second phase
        a retry that finds the source missing fails, even if an earlier attempt removed it. */
    method PromoteObject(source: string, destination: string, contentType: ContentType, copies: nat -> Call,
                         deletes: nat -> Call)
      returns (r: Result<(), ErrorCode>)
      requires source != destination
      modifies this
      ensures source !in old(objects) ==> objects == old(objects) && r == Err(StorageUnavailable)
      ensures source in old(objects) ==>
        var copied := old(objects)[destination := CopyOf(old(objects)[source], contentType)];
        var copy := CallOutcome(copies, MAX_TRANSIENT_RETRIES);
        var delete := RemovalOutcome(deletes, MAX_TRANSIENT_RETRIES);
        && (copy != Done ==> objects == if Applied(copy) then copied else old(objects))
        && (copy == Done ==> objects == if Applied(delete) then copied - {source} else copied)
        && r == if copy == Done && delete == Done then Ok(()) else Err(StorageUnavailable)
      ensures source in old(objects) ==>
        || (source in objects && objects[source] == old(objects)[source])
        || (destination in objects && objects[destination] == CopyOf(old(objects)[source], contentType))
    {
      r := CopyObject(source, destination, contentType, copies);
      if r.Ok? {
        r := RemoveSource(source, deletes);
      }
    }

    /** The first phase: a source that is missing fails it. */
    method CopyObject(source: string, destination: string, contentType: ContentType, calls: nat -> Call)
      returns (r: Result<(), ErrorCode>)
      requires source != destination
      modifies this
      ensures source !in old(objects) ==> objects == old(objects) && r == Err(StorageUnavailable)
      ensures source in old(objects) ==>
        var outcome := CallOutcome(calls, MAX_TRANSIENT_RETRIES);
        var copied := old(objects)[destination := CopyOf(old(objects)[source], contentType)];
        && objects == (if Applied(outcome) then copied else old(objects))
        && r == if outcome == Done then Ok(()) else Err(StorageUnavailable)
      ensures slept == old(slept) + TotalDelay(LastAttempt(calls, MAX_TRANSIENT_RETRIES))
    {
      var attempt := 0;
      ghost var taken := false;
      ghost var copied :=
        if source in objects then objects[destination := CopyOf(objects[source], contentType)]
        else objects;
      while true
        invariant attempt <= MAX_TRANSIENT_RETRIES
        invariant CallOutcome(calls, MAX_TRANSIENT_RETRIES) == OutcomeFrom(calls, MAX_TRANSIENT_RETRIES, attempt, taken)
        invariant LastAttempt(calls, MAX_TRANSIENT_RETRIES) == LastFrom(calls, MAX_TRANSIENT_RETRIES, attempt)
        invariant slept == old(slept) + TotalDelay(attempt)
        invariant objects == if taken then copied else old(objects)
        decreases MAX_TRANSIENT_RETRIES - attempt
      {
        match calls(attempt) {
          case Acknowledged =>
            if source !in objects {
              // 404, which is not retried.
              return Err(StorageUnavailable);
            }
            objects := objects[destination := CopyOf(objects[source], contentType)];
            return Ok(());
          case Lost(status, applied) =>
            if applied && source in objects {
              objects := objects[destination := CopyOf(objects[source], contentType)];
            }
            taken := taken || applied;
            if attempt >= MAX_TRANSIENT_RETRIES || !Retryable(status) {
              return Err(StorageUnavailable);
            }
        }
        slept := slept + RetryDelayForAttempt(attempt);
        attempt := attempt + 1;
      }
    }

    /** The second phase: so does a source that is, or meanwhile went, missing. */
    method RemoveSource(source: string, calls: nat -> Call) returns (r: Result<(), ErrorCode>)
      modifies this
      ensures source !in old(objects) ==> objects == old(objects) && r == Err(StorageUnavailable)
      ensures source in old(objects) ==>
        var outcome := RemovalOutcome(calls, MAX_TRANSIENT_RETRIES);
        && objects == (if Applied(outcome) then old(objects) - {source} else old(objects))
        && r == if outcome == Done then Ok(()) else Err(StorageUnavailable)
      ensures slept == old(slept) + TotalDelay(LastAttempt(calls, MAX_TRANSIENT_RETRIES))
    {
      var attempt := 0;
      while true
        invariant attempt <= MAX_TRANSIENT_RETRIES
        invariant LastAttempt(calls, MAX_TRANSIENT_RETRIES) == LastFrom(calls, MAX_TRANSIENT_RETRIES, attempt)
        invariant slept == old(slept) + TotalDelay(attempt)
        invariant objects == if source in objects then old(objects) else old(objects) - {source}
        invariant source in objects ==>
          RemovalOutcome(calls, MAX_TRANSIENT_RETRIES) == RemovalFrom(calls, MAX_TRANSIENT_RETRIES, attempt)
        invariant source in old(objects) && source !in objects ==>
          RemovalOutcome(calls, MAX_TRANSIENT_RETRIES) == FailedAfter
        decreases MAX_TRANSIENT_RETRIES - attempt
      {
        match calls(attempt) {
          case Acknowledged =>
            if source !in objects {
              // 404, which is not retried.
              return Err(StorageUnavailable);
            }
            objects := objects - {source};
            return Ok(());
          case Lost(status, applied) =>
            if applied {
              objects := objects - {source};
            }
            if attempt >= MAX_TRANSIENT_RETRIES || !Retryable(status) {
              return Err(StorageUnavailable);
            }
        }
        slept := slept + RetryDelayForAttempt(attempt);
        attempt := attempt + 1;
      }
    }

    /** `writeObject`: each attempt opens the source again and counts and hashes what passes
        through. Success means that one attempt delivered exactly the declared number of bytes,
        that they are stored, and that size and hash are theirs. A short or long stream is found
        out only after it was stored; a source that cannot be opened is not tried again. */
    method WriteObject(key: string, contentType: ContentType, contentLength: int, open: nat -> Result<Stream,
                       ErrorCode>,
                       upload: nat -> Call, sha256: Bytes -> string)
      returns (r: Result<WriteResult, ErrorCode>)
      modifies this
      ensures var write := WriteOutcomeOf(open, upload);
        && objects == AfterWrite(old(objects), key, contentType, write)
        && r == if write.WriteFailed? then Err(write.code)
                else if |write.bytes| != contentLength then Err(SourceUnavailable)
                else Ok(WriteResult(|write.bytes|, sha256(write.bytes)))
      ensures slept == old(slept) + TotalDelay(LastWrite(open, upload, 0))
    {
      hide MimeType, AtAttempt, AfterWrite, WriteOutcomeOf, LastWrite, Concat;
      WrittenOver(objects, key, contentType, None, []);
      StartsAtFirst(open, upload);
      var attempt := 0;
      ghost var stored: Option<Bytes> := None;
      while true
        invariant attempt <= MAX_TRANSIENT_RETRIES
        invariant AtAttempt(open, upload, attempt, stored) && slept == old(slept) + TotalDelay(attempt)
        invariant objects == AfterWrite(old(objects), key, contentType, WriteFailed(stored, StorageUnavailable))
        decreases MAX_TRANSIENT_RETRIES - attempt
      {
        WriteAttempt(open, upload, attempt, stored);
        var source := open(attempt);
        WrittenOver(old(objects), key, contentType, stored, []);
        if source.Err? {
          return Err(source.error);
        }
        var stream := source.value;
        var bytesWritten, hashed := Consume(stream.chunks);
        WrittenOver(old(objects), key, contentType, stored, hashed);
        var call := if stream.breaks then Lost(NoStatus, false) else upload(attempt);
        match call {
          case Acknowledged =>
            objects := objects[key := Image(hashed, Some(MimeType(contentType)))];
            if bytesWritten != contentLength {
              return Err(SourceUnavailable);
            }
            return Ok(WriteResult(bytesWritten, sha256(hashed)));
          case Lost(status, applied) =>
            if applied {
              objects := objects[key := Image(hashed, Some(MimeType(contentType)))];
              stored := Some(hashed);
            }
            if attempt >= MAX_TRANSIENT_RETRIES || !Retryable(status) {
              return Err(StorageUnavailable);
            }
        }
        slept := slept + RetryDelayForAttempt(attempt);
        attempt := attempt + 1;
      }
    }
  }

  /** The running count and the running hash input over the chunks of one stream. */
  method Consume(chunks: seq<Bytes>) returns (bytesWritten: nat, hashed: Bytes)
    ensures hashed == Concat(chunks) && bytesWritten == |hashed|
  {
    bytesWritten, hashed := 0, [];
    for n := 0 to |chunks|
      invariant hashed == Concat(chunks[..n]) && bytesWritten == |hashed|
    {
      bytesWritten := bytesWritten + |chunks[n]|;
      hashed := hashed + chunks[n];
      assert chunks[..n + 1][..n] == chunks[..n];
    }
    assert chunks[..|chunks|] == chunks;
  }
}
