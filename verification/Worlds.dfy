/** The shared state of the system: the two object stores, the session store, the edge cache,
    the requests in flight, and the history the theorems speak about. */
module Worlds {
  import opened Wrappers
  import opened Errors
  import opened Requests
  import opened Sessions
  import opened Storage

  /** How one call to a remote store ended, and whether it took effect when it failed. */
  datatype Outcome = Done | FailedBefore | FailedAfter

  predicate Applied(o: Outcome) { o != FailedBefore }

  datatype Tombstone = Tombstone(objectKey: string, deletedAt: int, deletedBy: string)

  datatype GcsObject = Image(body: Bytes, contentType: Option<string>) | Marker(tombstone: Tombstone)

  type GcsMap = map<string, GcsObject>

  // ---------- the read side ----------

  datatype CacheStatus = Hit | Miss
  datatype CacheSource = Edge | R2 | Images

  /** A 200 with its headers, or an error response. */
  datatype Response =
    | Served(body: Bytes, contentType: string, cacheStatus: CacheStatus, source: CacheSource)
    | Failed(status: nat)

  /** Where a worker request stands between two remote calls. */
  datatype WorkerPc =
    | Arrived
    | EdgeMissed
    | VariantMissed(parsed: ParsedRequest)
    | OriginalRead(parsed: ParsedRequest, original: R2Object)
    | Built(response: Response)
    | Answered(response: Response, edgePutPending: bool)

  datatype Worker = Worker(colo: nat, request: ImageRequest, pc: WorkerPc)

  type EdgeMap = map<(nat, ImageRequest), Response>

  // ---------- deletes in flight ----------

  /** Where a delete stands: before the tombstone, at the i-th R2 key, in the pages of the
      j-th R2 prefix, before the GCS delete, or at an end. */
  datatype DeletePc =
    | WriteTombstone
    | DeleteKeys(i: nat)
    | DeletePrefixes(j: nat, token: Option<string>, batch: Option<Batch>)
    | DeleteGcs
    | Finished
    | Aborted(code: ErrorCode)

  datatype Batch = Batch(page: seq<string>, next: Option<string>)

  datatype Deletion = Deletion(key: string, deletedBy: string, pc: DeletePc)

  // ---------- history ----------

  /** What was written to R2 under a cache version. */
  datatype Replica = Replica(key: string, body: Bytes, contentType: Option<string>)

  datatype Event =
    | Presigned(uploadId: string, expiresAt: int, contentLength: int)
    | Finalized(uploadId: string, at: int, size: int)
    | Cancelled(uploadId: string)

  datatype World = World(
    now: int,
    gcs: GcsMap,
    sessions: SessionMap,
    r2: R2Map,
    edge: EdgeMap,
    workers: map<nat, Worker>,
    deletes: map<nat, Deletion>,
    issued: set<string>,          // ULIDs handed out so far
    signed: map<string, string>,  // upload ID to the staging key its signed URL writes
    minted: map<string, Replica>, // cache version to what was replicated under it
    replicated: set<string>,      // keys ever written to R2 as originals
    log: seq<Event>)

  function InitialWorld(now: int): World {
    World(now, map[], map[], map[], map[], map[], map[], {}, map[], map[], {}, [])
  }
}
