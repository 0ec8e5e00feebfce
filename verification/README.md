# Image upload, delete and read: a verified model

The repository has two programs that never call each other. The Upload Function takes images in
(presign, client PUT to a staging key, finalize, cancel, ingest from S3) and takes them out again
(delete). The Variant Worker serves originals and WebP variants from an edge cache, from R2, or by
transforming the R2 original. They share two object stores and a set of string contracts: object
keys, staging keys, tombstone keys, variant keys, delete prefixes and versioned public URLs.

The model is one labelled transition system over GCS, R2, the session store, the edge cache, the
requests in flight and the deletes in flight. It rests on a verified algebra of keys. Worker
requests and deletes are split at every remote call; each call may fail, with or without its
effect; an action carries everything the environment decides. `Systems.Run` is a run,
`Invariants.Inv` what every reachable state satisfies, and the theorems are about all runs.

| file | content |
|---|---|
| `Text`, `Regex`, `ObjectKeys`, `WorkerKeys` | `split`/`join`, regular expressions as a syntax tree, the two parsers of the object-key language |
| `Variants`, `Requests`, `RequestTexts`, `StorageKeys`, `ContentTypes` | variant keys and delete prefixes, image requests and what their URLs say, public URLs, staging and tombstone keys, stored content types |
| `Retry`, `Calls`, `R2Bucket`, `GcsBucket` | retry loops and how a retried call ends, paginated prefix delete, promotion and streaming write, as classes over a mutable bucket |
| `Sessions`, `MemoryStore`, `RedisStore` | the expiring session map and its two implementations |
| `Storage`, `Worlds`, `Handlers`, `Systems` | the state, the handlers as functions of the state and of how calls end, and the actions |
| `Invariants`, `Frames`, `ReadSteps`, `WriteSteps` | the invariant, and that every action keeps it |
| `ReadPath`, `PublicUrls`, `UrlLives` | immutability of versioned URLs, the bound on persisted variants, from an upload to its URL, and which returned URLs are ever answered |
| `DeletePath`, `AfterDelete`, `DeleteRuns`, `DeleteTraces` | delete under concurrent serving and what is served afterwards, crash order, convergence, tombstones, the calls of a delete as a run |
| `UploadPath`, `UploadScope`, `UploadOutcomes`, `Refusals`, `Bystanders` | the life of an upload, ownership and isolation, exact success conditions and refusals, and that nobody else disturbs an upload |
| `ImageAnswers` | the exact answer to every undisturbed image request |
| `Progress` | a whole upload up to its public URL, and that no delete gets stuck |
| `Staleness`, `Repairs`, `StuckUploads`, `Counterexamples` | where the served images fall behind the uploads, when reconciliation makes up for a lost put, uploads that stay refused, and concrete inputs |
| `UploadApp`, `VariantWorkerApp` | the handlers as imperative code over the adapters: equal to their transitions, or, for delete and for image requests, proved to be runs of their steps |

The object keys, parsers and URL functions are pure in the source and are functions here. The
adapters, the session stores and the handlers update state in the source; they are classes whose
methods are proved against the functions that the theorems speak about.

## What the code does not do

Some properties one would expect are false of the code. The model keeps the code as it is; for each
there is a concrete input, and a theorem that says for all inputs when the property holds.

- **Dead public URLs.** Finalize and ingest answer 200 with a public URL whether or not the put to R2
  took effect, and whatever the key. Right afterwards the URL reads the uploaded bytes, and in some
  continuation a request for it is answered 200, exactly if the put took effect and the key does not
  have the legacy form `<n>i.jpg` or `<n>o.jpg` (`PublicUrls.UploadIsPublished`,
  `PublicUrls.IngestIsPublished`, `UrlLives.FinalizedUrlLives`, `UrlLives.IngestedUrlLives`). Later
  repairs of R2 do not help, because they carry no version. A key has the legacy form exactly when
  presign was asked for a JPEG of an auction lot whose image ID and suffix spell a number and a size
  letter (`Requests.BuiltLegacyForm`). Both cases as runs from the empty system:
  `Counterexamples.LegacyUrlIsDeadForGood`, `Counterexamples.LostPutUrlIsDead`.
- **Finalize that cannot be retried.** When an attempt to delete the staged object takes effect and
  its answer is lost, the retry finds nothing and fails (`RemoteCalls.RemovalOutcomeExact`). A failed
  finalize of a fitting upload can be tried again at once except in this case
  (`UploadOutcomes.FailedFinalizeCanBeRetried`). Then no finalize of the upload succeeds, whatever
  else happens, until the client writes to its signed URL again (`StuckUploads.StuckUntilPut`);
  when it does, with fitting bytes, the next one does (`StuckUploads.SecondPutRescues`). As a run:
  `Counterexamples.StuckFinalize`.
- **Colliding names.** `imageId` and `imageVariantSuffix` are only concatenated, so two different
  requests can name one key (`ObjectKeys.BuildCollisions`, for example
  `Counterexamples.TwoInputsOneKey`). Two built keys share their variants, and so lose them to one
  delete, exactly when they differ in their content type at most (`Variants.BuiltStemCollisions`,
  for example `Counterexamples.TwoKeysOneStem`).
- **Refused ingests that overwrite.** A refused ingest changes nothing if one of its first checks
  failed or no attempt to write stored anything; in all other cases it overwrites the canonical
  object with what some attempt stored, whole (`UploadOutcomes.RefusedIngestLeaves`). That can be too short a
  stream (`Counterexamples.ShortIngestIsStored`), too long a one (`LongIngestIsStored`), or just the
  declared bytes with the answer lost (`UnansweredIngestIsStored`).
- **Stale unversioned images.** An unversioned variant request sees the present original exactly
  when the edge cache has that answer, or has none and R2 holds no variant at the unversioned key or
  the right one (`Staleness.UnversionedIsFresh`; for any state and answer
  `Staleness.UnversionedAnswer`, for originals `Staleness.UnversionedOriginalAnswer`). Whether an
  upload will be seen is decided before it (`Staleness.UploadSeenUnversioned`). After upload, read
  and upload, the next reader gets the first image: a variant from R2
  (`Staleness.SecondReaderIsStale`, `Counterexamples.StaleThumbnail`), an original from the edge
  cache (`Staleness.SecondReaderIsStaleAtEdge`, `Counterexamples.StaleOriginal`).
- **Uploads that are never repaired.** When a put to R2 fails, R2 comes to hold the uploaded bytes in
  some continuation without another upload to the key exactly if it held them before, or the key had
  no tombstone and what R2 held there, if anything, had another length; then one reconciliation is
  enough (`Repairs.RepairedExactly`, `Repairs.LostUploadIsRepaired`, `Repairs.LostIngestIsRepaired`).
  No code removes a tombstone (`DeleteRuns.TombstonesStay`), so a key that was deleted is never
  repaired (`Staleness.LostReuploadIsForGood`, `Counterexamples.LostReupload`), nor is one whose
  replica has the same length (`Counterexamples.SameLengthIsNotRepaired`).

## Model

| member | source | states |
|---|---|---|
| Regexes.PathIsSplit | variant-worker/src/object-key.ts:5-12 | A slash-anchored pattern of slash-free segments matches exactly the strings whose split on `/` matches segment by segment; the bridge between the two ways of parsing |
| WorkerKeys.ParsersAgree | variant-worker/src/object-key.ts:5-31 | The worker's four patterns accept a string if and only if the Upload Function's segment splitter does |
| WorkerKeys.CanonicalShape | upload-function/src/object-key.ts:106-232 | The strings `parseObjectKeyDetails` accepts are exactly four fixed segment layouts |
| ObjectKeys.OptionalGroupAddsNothing | upload-function/src/object-key.ts:6-8 | The optional `_[1-9][0-9]*` group accepts no filename that the word before it does not |
| ObjectKeys.FilenameLanguage | upload-function/src/object-key.ts:258-259 | A filename is valid if and only if it is a non-empty word and one of the three extensions |
| ObjectKeys.BuildThenParse | upload-function/src/object-key.ts:83-93 | Building fails only on an invalid field, and a built key parses back to the entity it was built from |
| ObjectKeys.BuildCollisions | upload-function/src/object-key.ts:83-93 | Two inputs give the same key if and only if entity, content type and the concatenation of image ID and suffix agree |
| Variants.NoStemExtendsAnother | variant-worker/src/variants.ts:72-84 | No stem of a canonical key is another one followed by a slash: the segment count is fixed, so `_v` as an ID cannot confuse versioned and unversioned keys |
| Variants.VariantKeyTexts | variant-worker/src/variants.ts:72-84 | The variant keys and the delete prefixes spelled out, for every original: directory, variant name, stem, version if any, extension |
| Variants.VariantKeysInjective | variant-worker/src/variants.ts:72-84 | Two variant keys are equal if and only if stem, variant and version (or its absence) are |
| Variants.PrefixCovers | upload-function/src/variant-keys.ts:21-27 | A delete prefix is a prefix of a variant key if and only if the variant is the same, a version is present and the stems agree |
| Variants.SameUnversionedKey | upload-function/src/variant-keys.ts:10-19 | The key that delete removes for a variant is the key under which the worker stores it unversioned |
| Variants.DeleteCoversExactlyItsStem | upload-function/src/variant-keys.ts:10-27 | Any variant key of k2, versioned or not, is listed in or prefixed by what delete(k1) removes if and only if k1 and k2 have the same stem |
| Variants.BuiltStemCollisions | upload-function/src/object-key.ts:83-93 | Two built keys share their stem if and only if entity and image name agree, whatever their content types |
| Requests.LegacyRewrite | variant-worker/src/request.ts:83-131 | A legacy path is canonical; the rewritten key lacks just its size letter (`i` thumbnail, `o` largest), is canonical, names the same auction house, date and lot, and is no legacy path again |
| Requests.BuiltLegacyForm | upload-function/src/object-key.ts:83-93 | A built key has the legacy form if and only if it is an auction-lot JPEG whose image ID and suffix spell an image number and a size letter |
| Requests.PublicUrlRoundTrip | upload-function/src/app.ts:453-459 | On a base URL without a path, the worker parses the public URL back to exactly that key and version if and only if the key is not of the legacy form; otherwise to the same lot, version and the rewritten key |
| Requests.UnversionedRequestParses | variant-worker/src/request.ts:11-81 | A plain path with a variant parameter asks for exactly that variant of that key, without a version, for every canonical key not of the legacy form |
| RequestTexts.ParseExactly | variant-worker/src/request.ts:11-131 | A request is taken for a key, version and variant if and only if its path decodes to the version prefix and the key and its query names the variant or one of the two aliases, or the path has the key with a size letter and there is no query; every other request is refused |
| RequestTexts.VersionIsInPath | variant-worker/src/request.ts:62-103 | A request that is taken has a version if and only if its path goes on behind `_v/`, that ULID and a slash |
| RequestTexts.PublicUrlText | upload-function/src/app.ts:453-459 | The public URL spelled out, however many slashes end the base URL |
| RequestTexts.PublicVariantParses | variant-worker/src/request.ts:11-81 | The public URL of a key not of the legacy form, with a variant parameter, asks for exactly that key, version and variant |
| RequestTexts.LegacyLanguage | variant-worker/src/request.ts:83-86 | The legacy form in full: the segments of an old or new lot path, digits, perhaps an underscore and a numeral without leading zero, `i` or `o`, `.jpg` |
| RequestTexts.WordsAndUlids | variant-worker/src/request.ts:87 | Path segments are exactly the non-empty words, and version IDs exactly the 26-character words of the ULID alphabet |
| RequestTexts.ClassIsAlphabet | upload-function/src/object-key.ts:6-8 | Each character class of the patterns is the alphabet it stands for, character by character |
| RequestTexts.EscapedDecodes | variant-worker/src/request.ts:70-81 | Percent escapes of any ASCII text decode to it, with upper-case or lower-case digits |
| RequestTexts.MalformedIsRefused | variant-worker/src/request.ts:70-81 | A percent sign without two hex digits behind it, for an ASCII character, makes the path malformed |
| StorageKeys.NamespacesDisjoint | upload-function/src/storage/upload-storage.ts:70 | Canonical, staging, tombstone and variant keys lie in four disjoint namespaces |
| StorageKeys.StagingInjective | upload-function/src/upload-session-store.ts:127-144 | A staging key determines its upload ID and its object key |
| StorageKeys.TombstoneInjective | upload-function/src/storage/upload-storage.ts:70 | A tombstone belongs to one key only |
| StorageKeys.DeletePathRoundTrip | upload-function/src/app.ts:461-487 | The delete route gives back the key whether or not the client escaped its slashes |
| ContentTypes.ContradictsExactly | upload-function/src/content-type.ts:36-43 | A stored content type contradicts the session's if and only if it names something and is not that type up to letter case, white space around it and parameters behind a `;` |
| ContentTypes.EachTypeFitsItself | upload-function/src/content-type.ts:36-43 | Of the three types each fits itself alone |
| Retry.RetryTransient | upload-function/src/storage/r2-replication-storage.ts:171-189 | At most `maxRetries + 1` attempts (one when negative), up to the last one that is to be made; success if and only if some attempt in range succeeds after only retryable failures; the failure returned is final or the last allowed |
| Retry.TotalDelayClosedForm | upload-function/src/storage/r2-replication-storage.ts:171-199 | The delays before n retries add up to 0, 100, then 500 + 1600(n - 2) ms |
| Retry.LastTryExact | upload-function/src/storage/r2-replication-storage.ts:171-189 | The last attempt comes after only retryable failures and returns, or nothing may follow it; an attempt in range that returns after only retryable failures is the last one |
| RemoteCalls.CallOutcomeExact | upload-function/src/storage/gcs-storage.ts:269-285 | A retried call succeeds if and only if an attempt that is made is acknowledged, and takes effect if and only if one is acknowledged or applied |
| RemoteCalls.RemovalOutcomeExact | upload-function/src/storage/gcs-storage.ts:151-165 | Where not found is a failure, a retried removal succeeds if and only if moreover no earlier attempt was applied |
| RemoteCalls.LastAttemptExact | upload-function/src/storage/gcs-storage.ts:272-315 | The adapters make exactly the attempts up to the last one, at most `maxRetries + 1`, and these are the attempts and sleeps of `RetryTransient` |
| GcsBuckets.ThreeRetries | upload-function/src/storage/gcs-storage.ts:269-325 | A call lost three times to errors without a status, to 408, 429 or server errors is made a fourth time, after 2.1 s of sleep, and no fifth time |
| GcsBuckets.PermanentEndsIt | upload-function/src/storage/gcs-storage.ts:312-325 | Any other error ends a call at once |
| R2Buckets.R2Bucket.DeleteAllObjectsByPrefix | upload-function/src/storage/r2-replication-storage.ts:129-169 | The page loop terminates; when it returns exactly the keys under the prefix are gone, when it throws only such keys are, and it throws exactly if the attempt is one that fails, at whichever call; its calls are steps of the delete |
| R2Buckets.R2Bucket.DeleteByPrefix | upload-function/src/storage/r2-replication-storage.ts:95-109 | Given how each attempt ends, after any partial page failures: it succeeds if and only if some attempt up to `maxRetries` returns after only retryable failures; success is exact against the state before the first attempt; the time slept is that of the attempts made |
| R2Buckets.R2Bucket.DeleteNextPage | upload-function/src/storage/r2-replication-storage.ts:135-168 | One turn of the loop: the listed page is gone, less is left, and what is left comes after the token; a failure removed only keys of the page |
| R2Buckets.R2Bucket.Delete | upload-function/src/storage/r2-replication-storage.ts:70-93 | Given how each attempt ends: whether the key, and nothing else, is removed, and whether success is reported; 404 is success |
| R2Buckets.R2Bucket.Put | upload-function/src/storage/r2-replication-storage.ts:42-68 | Given how each attempt ends: whether the object is stored, and whether success is reported |
| R2Buckets.R2Bucket.PageDone | upload-function/src/storage/r2-replication-storage.ts:129-169 | After a page was deleted, what is left under the prefix is what a listing resumed after its last key returns, and it is strictly less |
| GcsBuckets.GcsBucket.DeleteObject | upload-function/src/storage/gcs-storage.ts:62-80 | Given how each attempt ends: whether the object, and nothing else, is removed, and whether success is reported; 404 is success |
| GcsBuckets.GcsBucket.PromoteObject | upload-function/src/storage/gcs-storage.ts:151-174 | Given how the attempts of both phases end: the state and the reply, for a source that is there and for one that is not; the bytes are never at neither key |
| GcsBuckets.GcsBucket.WriteObject | upload-function/src/storage/gcs-storage.ts:191-246 | Success means the bytes streamed have exactly the declared length, are stored, and size and hash are theirs; a wrong length is reported after it was stored; a source that cannot be opened is not retried |
| GcsBuckets.WriteOutcomeIsWhole | upload-function/src/storage/gcs-storage.ts:191-305 | A write streams if and only if an attempt that is made opens the source, reads it whole and is acknowledged; a failed one leaves bytes if and only if such an attempt was applied; both are whole contents of one attempt; it reports a source error if and only if opening failed |
| GcsBuckets.LastWriteExact | upload-function/src/storage/gcs-storage.ts:191-305 | The attempts at a write that are made, and slept between, are exactly those up to the last one |
| GcsBuckets.GcsBucket.CopyObject | upload-function/src/storage/gcs-storage.ts:153-160 | The first phase of a promotion, for a source that is there and for one that is not |
| GcsBuckets.GcsBucket.RemoveSource | upload-function/src/storage/gcs-storage.ts:162-164 | The second phase of a promotion: a source that is missing, or that a retry finds missing, fails it |
| GcsBuckets.GcsBucket.WriteTombstone | upload-function/src/storage/gcs-storage.ts:248-263 | Given how each attempt ends: whether the marker, and nothing else, is written, and whether success is reported |
| GcsBuckets.Consume | upload-function/src/storage/gcs-storage.ts:191-213 | Counting and hashing chunk by chunk sees exactly the concatenation of the stream |
| Sessions.StepRefines | upload-function/src/upload-session-store.ts:69-125 | One operation of the lazily pruned store answers as the store that drops sessions at expiry, and keeps the same live sessions |
| Sessions.LazyRefinesEager | upload-function/src/upload-session-store.ts:60-125 | Under a clock that never goes back, the lazily pruned store answers every sequence of operations as the eager one |
| Sessions.LazyBounded | upload-function/src/upload-session-store.ts:69-88 | Expired sessions included, the store never holds more than `maxSessions` |
| MemoryStore.InMemoryUploadSessionStore.Create | upload-function/src/upload-session-store.ts:69-88 | Rejects if and only if at least `maxSessions` unexpired sessions exist; otherwise stores the session; the bound is kept |
| MemoryStore.InMemoryUploadSessionStore.Get | upload-function/src/upload-session-store.ts:95-108 | Returns exactly the stored unexpired session and forgets an expired one |
| MemoryStore.InMemoryUploadSessionStore.Delete | upload-function/src/upload-session-store.ts:90-93 | Removes that session only |
| MemoryStore.InMemoryUploadSessionStore.PruneExpired | upload-function/src/upload-session-store.ts:114-120 | Leaves exactly the unexpired sessions |
| RedisStore.RecordRoundTrip | upload-function/src/upload-session-store-redis.ts:171-250 | `parseStoredSession(serializeSession(s))` equals s if and only if s meets the stored-record schema |
| RedisStore.ValidSessionStorable | upload-function/src/app.ts:147-165 | Every session that presign makes meets it, with or without an auction house |
| RedisStore.RecordReserializes | upload-function/src/upload-session-store-redis.ts:183-226 | A parsed record writes back to itself if and only if it carries a staging key |
| RedisStore.OldRecordParses | upload-function/src/upload-session-store-redis.ts:183-226 | A record without a staging key is accepted or refused as one with a staging key is, and stages at its object key |
| RedisStore.SecondsUntil | upload-function/src/upload-session-store-redis.ts:252-255 | The rounded TTL never ends before `expiresAt`, and exceeds it by less than a second when `expiresAt` is in the future |
| RedisStore.RedisUploadSessionStore.Create | upload-function/src/upload-session-store-redis.ts:81-105 | Stores the session, or refuses an ID that is still taken; an unexpired session is never overwritten |
| RedisStore.RedisUploadSessionStore.Delete | upload-function/src/upload-session-store-redis.ts:107-110 | Removes that session only |
| RedisStore.RedisUploadSessionStore.Get | upload-function/src/upload-session-store-redis.ts:112-129 | Returns a session if and only if it was created, not deleted, and now is before `expiresAt`: the same expiring map |
| WriteSteps.ApplyKeeps | upload-function/src/app.ts:129-418 | Every action of either program keeps the invariant |
| WriteSteps.RunKeeps | upload-function/src/app.ts:129-418 | So does every run |
| WriteSteps.SessionKeysAreNoTombstones | upload-function/src/upload-session-store.ts:127-128 | The two keys of a session differ and are no tombstones |
| WriteSteps.CheckedPresign | upload-function/src/app.ts:129-152 | A request that passes the checks leads to a canonical key of its own entity, with a length of 1 byte to 50 MB |
| ReadSteps.WorkerStepKeeps | variant-worker/src/worker.ts:25-191 | Every step of an image request keeps the invariant: what R2, the edge and the answers hold under a version is what was replicated under it, or its transform |
| Invariants.StoredVariantIsExpected | variant-worker/src/worker.ts:85-95 | What is found under the key of a versioned variant is the transform of the bytes replicated under that version, for that stem |
| Invariants.FetchedIsOriginal | variant-worker/src/worker.ts:62-83 | What is read as an original under a version is an original that was replicated under it, never a variant |
| ReadPath.RunRemembers | variant-worker/src/worker.ts:25-191 | No action changes an answer already given or the bytes recorded for a version |
| ReadPath.VersionedUrlsAreImmutable | variant-worker/src/worker.ts:25-191 | Over every interleaved run, two 200 answers to one URL whose path names a version, at any moments and from any cache level, have the same body and type: those replicated under that version for the key in the URL, or the WebP transform that the URL asks for |
| ReadPath.PublicPathsAreImmutable | variant-worker/src/worker.ts:25-191 | The same for a path spelled `/_v/`, version, `/`, key: without a query it shows the replica of that very key, with a variant parameter the transform of it |
| ReadPath.PersistedVariantsAreBounded | variant-worker/src/worker.ts:98-129 | In every reachable state, versioned variants in R2 number at most 6 times the versions ever replicated, unversioned ones 6 times the stems, and each versioned one names a version of its own stem |
| PublicUrls.PublishedIsServed | variant-worker/src/worker.ts:62-83 | While R2 holds a replica, its public URL reads exactly its bytes and content type, unless the key has the legacy form |
| PublicUrls.VariantIsServed | variant-worker/src/worker.ts:85-135 | While R2 holds a replica, a request whose URL asks for a variant of it under its version is answered with the WebP transform of its bytes, from R2 if it is stored and else freshly made, and the next one reads the same from R2 |
| PublicUrls.PublicVariantIsServed | variant-worker/src/worker.ts:85-135 | The same for the public URL of the replica with a variant parameter, if the key is not of the legacy form |
| ImageAnswers.UndisturbedAnswer | variant-worker/src/worker.ts:25-191 | The exact answer, with its cache headers, to every request none of whose calls fails: 405 if it is no GET, else what the edge cache has, else 400 if its URL asks for nothing, else the stored or freshly made variant or the original, or 404; and R2 afterwards |
| ImageAnswers.FailedPutAnswer | variant-worker/src/worker.ts:98-135 | A variant whose put fails is answered 500, whether or not it was stored |
| PublicUrls.UploadIsPublished | upload-function/src/app.ts:254-281 | After every finalize that is answered 200, the returned public URL reads the staged bytes if and only if the put to R2 took effect and the key does not have the legacy form |
| PublicUrls.IngestIsPublished | upload-function/src/app.ts:323-343 | The same after every ingest that is answered 200 |
| PublicUrls.UnmintedIsNotRead | variant-worker/src/worker.ts:174-191 | A request whose path names a version under which nothing was replicated reads neither an original nor a stored variant |
| UrlLives.SpentIsDead | variant-worker/src/worker.ts:174-191 | A ULID that was handed out, has no session and was never replicated: over every continuation, repairs and other uploads included, no request whose path names it is answered 200 |
| UrlLives.FinalizedUrlLives | upload-function/src/app.ts:254-281 | Over all continuations: the URL that a finalize returns with its 200 is ever answered 200 if and only if the put took effect and the key does not have the legacy form |
| UrlLives.IngestedUrlLives | upload-function/src/app.ts:323-343 | The same of the URL that an ingest returns |
| UrlLives.UploadedUrlLives | upload-function/src/app.ts:129-297 | The same of a whole upload, from any reachable state |
| PublicUrls.LegacyPublicUrlIsDead | variant-worker/src/request.ts:109-131 | Over every run, no request for the public URL of a legacy-form key is answered 200 |
| PublicUrls.LegacyKeysAreBuilt | upload-function/src/object-key.ts:83-93 | A concrete presign input whose key has the legacy form |
| VariantWorkers.VariantWorker.HandleRequest | variant-worker/src/worker.ts:25-60 | In whatever world a request arrives, the handler's effects and answer are those of a run that takes only steps of this request, none of which fails unless a call to R2, the transform or the edge cache does, be it with or without having stored the response; a 200 says hit and edge exactly if the edge cache had it, and else miss and R2 or transform |
| VariantWorkers.VariantWorker.ServeOriginal | variant-worker/src/worker.ts:62-83 | The original is served if and only if it exists and carries the requested version; otherwise 404 |
| VariantWorkers.VariantWorker.TransformAndStore | variant-worker/src/worker.ts:98-135 | Reading, transforming and persisting are steps of the same run, whichever call fails |
| DeletePath.CoveredSplits | upload-function/src/app.ts:384-392 | What delete covers is exactly its key list together with its prefixes |
| DeletePath.DeleteStepPending | upload-function/src/app.ts:384-396 | A delete never moves past a key it has not removed: whatever a step leaves of the covered keys is still to be removed |
| DeletePath.StepKeepsPending | upload-function/src/app.ts:384-396 | For one key: still in R2 after a step of the delete, it is still among what the delete has to remove |
| DeletePath.DeleteUnderServing | upload-function/src/app.ts:384-396 | With no other original of the stem, every variant left after delete's R2 part is the very object that a put during the delete stored, for a request that held the original before delete's first R2 call; with no such request in flight, none is left |
| AfterDelete.DeletedIsOnlyRepeated | variant-worker/src/worker.ts:25-191 | Every 200 that a request for the stem ever gets after delete's R2 part repeats an answer to the same request that was in an edge cache, built or given by then, or is the variant asked for, made from an original that some request held before delete's first R2 call; with no such request, the former |
| DeleteRuns.AttemptIsOrdered | upload-function/src/app.ts:376-396 | Wherever an attempt stops: no R2 object is missing without the tombstone, the GCS object is gone only after every R2 key and prefix, nothing else changed; a completed one is a full delete |
| DeleteRuns.AttemptsConverge | upload-function/src/app.ts:376-396 | Any failed attempts and then one that completes leave both stores as that one alone would have |
| DeleteRuns.FullDeleteIsUnique | upload-function/src/app.ts:376-396 | A full delete has one outcome, but for the record in the tombstone |
| DeleteRuns.FullDeleteIsIdempotent | upload-function/src/app.ts:376-399 | A repeated delete only refreshes the tombstone |
| DeleteRuns.PartialThenFull | upload-function/src/app.ts:376-396 | A full attempt after a partial one is a full delete of the state before both |
| DeleteRuns.RemovalsAreTombstoned | upload-function/src/app.ts:376-396 | Whatever step takes a key out of R2 belongs to a delete that covers the key and whose tombstone is written |
| DeleteRuns.TombstonesStay | upload-function/src/storage/gcs-storage.ts:248-263 | No action removes a tombstone |
| DeleteRuns.DeletedStaysDeleted | upload-function/src/storage/gcs-storage.ts:176-189 | Once tombstoned and gone from R2, an original comes back by no image request, no delete and no reconciliation, only by an upload to its key |
| UploadPath.UploadsFinalizeOnce | upload-function/src/app.ts:195-297 | In every run each upload ID has at most one finalize, none after its cancel, each before expiry and with the announced size of at most 50 MB |
| UploadPath.NoFinalizeAfterTheEnd | upload-function/src/app.ts:195-297 | In terms of replies: after a 200 to finalize, or a 204 to the cancel of a presigned upload, every later finalize of that upload is refused |
| UploadScope.FinalizeDelivers | upload-function/src/app.ts:195-297 | A 200 moved the staged bytes, of the declared size, to the canonical key; the staged object and the session are gone; R2 holds the same bytes under version uploadId if and only if the put took effect, which `replicatedToR2` implies |
| UploadScope.ContextIsOwnership | upload-function/src/app.ts:558-635 | The context checks pass if and only if the product header is `galleries`, `artnet-auctions` or `pdb`, as the kind of entity wants, and for a lot the house header names its auction house; any other caller gets a 403, or a 400 for a header that cannot be one |
| UploadScope.KeyNamesEntity | upload-function/src/object-key.ts:106-232 | A canonical key parses to the entity that its segments spell, to the product in its second segment, or to the auctions for the old layout, and to the auction house in its own segment |
| UploadScope.SessionsBelongToTheirKeys | upload-function/src/app.ts:154-164 | In every reachable state a session carries the product and auction house that its own key names in its segments |
| UploadScope.FinalizeStaysInScope | upload-function/src/app.ts:210-214 | A finalize changes a canonical object in either store only if its trusted headers are the product and auction house that the key names in its segments |
| UploadScope.DeleteNeedsOwnership | upload-function/src/app.ts:358-372 | The delete route starts a delete if and only if the path names a canonical key whose product and auction house the trusted headers name; the tombstone will name that house, or else that product; any other request is refused, with the reason |
| UploadScope.DeleteOfKeyNeedsOwnership | upload-function/src/app.ts:461-487 | The same for the path of a canonical key, with or without escaped slashes |
| UploadScope.DeleteStaysInScope | upload-function/src/app.ts:358-396 | A delete changes no canonical object but its own |
| UploadScope.PresignIsIsolated | upload-function/src/app.ts:129-193 | Presign changes no stored object |
| UploadScope.ClientPutIsIsolated | upload-function/src/upload-session-store.ts:127-128 | A client PUT changes no canonical object and no staged object of another upload |
| UploadScope.CancelIsIsolated | upload-function/src/app.ts:402-418 | Nor does a cancel, however it ends |
| UploadScope.RefusedFinalizeIsIsolated | upload-function/src/app.ts:195-252 | Nor does a finalize refused with 400, 403, 404 or 409 |
| UploadOutcomes.PresignGrantsExactly | upload-function/src/app.ts:129-152 | The checks pass if and only if all names are words of at most 64 characters and the suffix one of at most 16, the type is one of the three, the length 1 byte to 50 MB, and the caller owns the entity; the key has exactly the segments of the layout and the extension of the type, and parses back to the entity; otherwise 400 or 403 |
| UploadOutcomes.FinalizeAcceptsExactly | upload-function/src/app.ts:195-297 | A finalize is answered 200 if and only if the caller owns a live session whose staged bytes have its length and a content type that is absent, blank, or its type up to letter case, white space and parameters, and no call but replication fails |
| Refusals.SessionChecks | upload-function/src/app.ts:195-214 | The checks before a finalize or a cancel lead to the session exactly for the owner of its key, and else to the first of these refusals: product header, upload ID, session store, no live session, not the owner |
| Refusals.FinalizeAnswers | upload-function/src/app.ts:195-297 | The answer to every finalize: the refusal of the session checks, 503 if the metadata cannot be read, 409 if nothing was staged, 400 for the length or the type, 503 if a storage call failed, and else the key, version, size and type of the upload |
| Refusals.FinalizeRejects | upload-function/src/app.ts:216-252 | The owner's finalize of a live upload whose staged object does not fit is answered 409 if nothing was staged, else 400 for the length or for the type, with the staged object gone, or 503 if it could not be deleted; nothing else changes |
| Refusals.CancelExactly | upload-function/src/app.ts:402-418 | A cancel of a live upload is done if and only if the caller owns its key and the staged object could be deleted; then that and the session are gone; after a failed delete the session stays; a caller who does not own it changes nothing; without a live session it is done and the stores stay |
| Refusals.PresignRefusesWith | upload-function/src/app.ts:129-152 | The code of a refused presign: the first check that fails |
| Refusals.PresignExactly | upload-function/src/app.ts:154-193 | What presign leaves: nothing if refused; no session if the store refuses it; else the session, for the given time and under its staging key, and the signed URL if it could be signed |
| Refusals.IngestRefusesWith | upload-function/src/app.ts:299-356 | The code of a refused ingest: the first check or call that fails |
| UploadOutcomes.FailedFinalizeCanBeRetried | upload-function/src/storage/gcs-storage.ts:151-174 | After a failed finalize an undisturbed retry succeeds if and only if the failed one had not deleted the staged object; otherwise it is answered 409 |
| UploadOutcomes.IngestDelivers | upload-function/src/app.ts:299-356 | A successful ingest stored exactly the declared bytes, with the requested or else the source's type, and `replicatedToR2` means R2 holds them under the new version |
| UploadOutcomes.IngestAcceptsExactly | upload-function/src/app.ts:299-356 | An ingest is answered 200 if and only if the key is canonical and short enough, the source is there and small enough, the requested or else the source's type is allowed, and exactly the declared number of bytes was streamed |
| UploadOutcomes.RefusedIngestLeaves | upload-function/src/storage/gcs-storage.ts:191-246 | A refused ingest changes nothing if a check failed or no attempt stored anything; otherwise the canonical object is the whole content that some attempt stored, with the declared type, and nothing else changed |
| StuckUploads.StuckUntilPut | upload-function/src/app.ts:216-224 | After a finalize failed with its staged object gone, over every continuation without another client PUT: no finalize of the upload succeeds, and one that finds the session is answered 409 |
| StuckUploads.SecondPutRescues | upload-function/src/app.ts:216-252 | After a client PUT of fitting bytes, the next undisturbed finalize by the owner before expiry is answered 200 |
| Bystanders.UploadStands | upload-function/src/app.ts:129-418 | Whatever others do, in any order, the session, the signed URL and the staged object of an upload stay as they are until its own requests, or its expiry |
| Progress.UploadRoundTrip | upload-function/src/app.ts:129-297 | From any reachable state, with anything others do in between and any time short of expiry: a granted presign, a client PUT of what was announced and an undisturbed finalize end in a 200 with replication, and the worker then reads exactly the client's bytes under the public URL, if and only if the key does not have the legacy form |
| Progress.NextCall | upload-function/src/app.ts:376-396 | An unfinished delete is never stuck: some call brings it strictly closer to its end |
| Progress.DeleteCanFinish | upload-function/src/app.ts:376-396 | From wherever a delete stands, after whatever failures and retries, there is a way to complete it |
| Staleness.UnversionedAnswer | variant-worker/src/worker.ts:25-135 | An undisturbed unversioned variant request is answered 200 with given bytes if and only if the edge cache has that answer, or has none and R2 gives it: the stored variant, else the transform of the original |
| Staleness.UnversionedIsFresh | variant-worker/src/worker.ts:25-135 | While R2 holds an original, it is answered with the variant of that original if and only if the edge cache has that answer, or has none and no other variant is stored |
| Staleness.UnversionedOriginalAnswer | variant-worker/src/worker.ts:25-83 | An undisturbed request for an unversioned original is answered with given bytes and type if and only if the edge cache has that answer, or has none and R2 does |
| Staleness.UploadSeenUnversioned | upload-function/src/app.ts:254-281 | After every finalize answered 200, whether an unversioned variant request gets the variant of the new bytes, in terms of the edge cache and R2 before it and of whether the put took effect |
| Staleness.SecondReaderIsStale | variant-worker/src/worker.ts:85-135 | Over the run upload, read, upload, read, from any reachable state without a stored variant, the second reader gets the variant of the first upload |
| Staleness.SecondReaderIsStaleAtEdge | variant-worker/src/worker.ts:32-53 | Over the run upload, read into the edge cache, upload, read, from any reachable state, the second reader in that data centre gets the first original |
| Repairs.RepairedExactly | upload-function/src/storage/gcs-storage.ts:176-189 | From any reachable state in which GCS holds an image: R2 holds it in some continuation without another upload to its key if and only if R2 holds it now, or there is no tombstone and what R2 holds, if anything, has another length |
| Repairs.LostUploadIsRepaired | upload-function/src/app.ts:262-273 | The same after every finalize answered 200 whose put failed, in terms of the tombstone and the replica before it, and one reconciliation decides it |
| Repairs.LostIngestIsRepaired | upload-function/src/app.ts:324-333 | The same after every ingest answered 200 whose put failed |
| Staleness.LostReuploadIsForGood | upload-function/src/app.ts:376-396 | A deleted key that is uploaded again and loses its put is in GCS, and no run without another upload to it brings it to R2 |
| Staleness.ReuploadCanBeLost | upload-function/src/app.ts:376-396 | From every reachable state there is such a run: upload, delete, upload again |
| Counterexamples.TwoInputsOneKey | upload-function/src/object-key.ts:83-93 | Image `a` with suffix `_1` and image `a_1` get one key |
| Counterexamples.TwoKeysOneStem | upload-function/src/variant-keys.ts:10-27 | `195.jpg` and `195.png` are two keys, and a delete of the first covers every variant of the second |
| Counterexamples.LostAnswerFailsRemoval | upload-function/src/storage/gcs-storage.ts:162-164 | A removal whose first answer, a 500, is lost fails although the retry is acknowledged |
| Counterexamples.ShortIngestIsStored | upload-function/src/storage/gcs-storage.ts:219-226 | An ingest one byte short is answered 502 and its byte is at the canonical key |
| Counterexamples.LongIngestIsStored | upload-function/src/storage/gcs-storage.ts:219-226 | An ingest one byte too long is answered 502 and its bytes are at the canonical key |
| Counterexamples.UnansweredIngestIsStored | upload-function/src/storage/gcs-storage.ts:287-305 | An ingest of the declared length whose write is answered with an error after taking effect is answered 503 and its byte is at the canonical key |
| Counterexamples.StaleThumbnail | variant-worker/src/worker.ts:85-95 | A concrete run from the empty system after which R2 holds the image 2 and a thumbnail request got 1 |
| Counterexamples.StaleOriginal | variant-worker/src/worker.ts:32-53 | A concrete run from the empty system after which R2 holds the image 2 and a request for the original got 1 from the edge cache |
| Counterexamples.LegacyUrlIsDeadForGood | variant-worker/src/request.ts:109-131 | A concrete run from the empty system: an upload answered 200 and replicated whose URL is never answered 200 |
| Counterexamples.LostPutUrlIsDead | upload-function/src/app.ts:505-533 | The same for a plain key whose put failed |
| Counterexamples.StuckFinalize | upload-function/src/storage/gcs-storage.ts:162-164 | A concrete run from the empty system whose finalize is answered 503 and the next one, undisturbed, 409 |
| Counterexamples.SameLengthIsNotRepaired | upload-function/src/app.ts:262-273 | A concrete run from the empty system after which GCS and R2 differ for good, without a tombstone |
| Counterexamples.LostReupload | upload-function/src/storage/gcs-storage.ts:176-189 | A concrete run from the empty system after which GCS holds an image that never gets to R2 |
| UploadApps.UploadApp.PresignUpload | upload-function/src/app.ts:129-193 | The handler does what the presign transition does, after at most dropping expired sessions; the session bound is kept, and so is the validity of all stored sessions |
| UploadApps.UploadApp.Finalize | upload-function/src/app.ts:195-297 | Given how each attempt of each remote call ends, the handler's reply and its effect on both stores and the sessions are exactly those of the finalize transition |
| UploadApps.UploadApp.Cancel | upload-function/src/app.ts:402-418 | Likewise for cancel |
| UploadApps.UploadApp.Ingest | upload-function/src/app.ts:299-356 | Likewise for ingest |
| UploadApps.UploadApp.DeleteObject | upload-function/src/app.ts:358-399 | From whatever world it starts in, the handler is a run that takes only steps of this delete and ends with it finished or given up; a refused request changes nothing, a failed call leaves a partial delete, a 204 is a full delete; given how each attempt of each call ends, the answer is exactly 204 or the code of the first call that fails; the tombstone has key, time and author; without it nothing is removed |
| DeleteTraces.CallsLead | upload-function/src/storage/gcs-storage.ts:272-285 | The attempts of a retried call are steps of the delete, and lead where the call's outcome says |
| UploadApps.UploadApp.DeleteR2Keys | upload-function/src/app.ts:384-388 | The key loop is a run of steps of the delete that removes only covered keys; it returns if and only if every call succeeds, and then all listed keys are gone |
| UploadApps.UploadApp.DeleteR2Prefixes | upload-function/src/app.ts:389-392 | The prefix loop is a run of steps of the delete that removes only covered keys; it returns if and only if every prefix delete does, and then leaves none under any prefix |

## Left out

- Atomicity of finalize and ingest: each is one action, so the canonical object is not replaced between its promotion and the read that replicates it.
- Dropping the session after a promotion is taken to succeed, as it always does in the in-memory store.
- Upload IDs and cache versions are fresh ULIDs; how they are made is not modelled.
- Sessions without a staging key exist only in the Redis record parser; the transition system has the sessions that presign makes.
- UploadScope.ClientPutIsIsolated: a client may write any bytes of any length at any time once a URL was signed; the length and type conditions of signed URLs, and their expiry, would only restrict it.
- One clock is shared by all programs and the stores; it does not go back.
- The image transform and SHA-256 are function parameters; `writeObject` hashes what it concatenates.
- Bodies are byte sequences; a replicated body is read once per put, and the streams behind it are not modelled, nor is the case that R2 stores only part of a body.
- Requests.PublicUrlRoundTrip: the decoding of paths knows ASCII escapes only; a path with other escapes is refused here as malformed, while the source refuses it as no valid key, or as a bad query.
- Variant names inherited from `Object.prototype`, such as `constructor`, pass the alias lookup of the source and end in an error without effects; here they are refused with 400.
- R2Buckets.R2Bucket.DeleteAllObjectsByPrefix: listings are key-ordered and a truncated page carries a token that resumes after its last key; a truncated page without a token would end the source's loop early.
- GcsBuckets.GcsBucket.PromoteObject: error codes are numbers or missing; the textual codes that the source also reads are not modelled.
- RedisStore.RedisUploadSessionStore.Get: connection failures and unreadable records appear as a refused session store in the handlers, not in the class; the store holds what it serialized itself.
- Tombstones carry no request ID, and the sleeps between attempts appear only as a sum.
- Reconciliation is not implemented in the repository; it is one environment step that copies an untombstoned GCS object whose R2 copy is missing or of another size, and writes no cache version.
- GCS lifecycle expiry of staged objects and tombstones is configured outside the code.
- Routing, CORS, logging, health checks, schemas of responses, configuration, the S3 source's allow-list and its single retry: plumbing around the calls modelled here.
- JSON text, ISO dates and zod: records with optional fields, and times in milliseconds.
- Fairness: nothing says that a client retries, or that a call eventually succeeds; the results say what finished calls mean, and that finishing is always possible.
