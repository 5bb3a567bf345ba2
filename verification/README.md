# Audio cache, rate limiter and speech orchestrator — a Dafny model

This project models the three pieces of stateful logic in the translation
service (translagent): the per-client fixed-window rate limiter, the two-tier
(memory + disk) cache of synthesised MP3 audio, and the `speak` orchestrator
that validates a request, picks a voice, serves a cache hit or calls the
text-to-speech service, stores the result and frames the response headers.

State is explicit and immutable. The rate limiter's process-wide map is a
`map<string, RateLimitInfo>` threaded through `IsRateLimited`. The cache is
a `Cache` value with a memory tier (hash to bytes) and a disk tier (file name
`hash + ".mp3"` to bytes and modification time). Collaborators that the
program cannot see are parameters:

- the clock (`Date.now()`) is `now`, and the timestamp the filesystem gives a
  written cache file is a separate parameter (`mtime` in `SaveToCache`, `fileTime` in `Speak`);
- the 1% clean-up coin-flip of the rate limiter (`Math.random() < 0.01`) is `sweep`;
- MD5 is an arbitrary `digest: string -> string`; only the string it hashes is modelled;
- the OpenAI speech client is `tts: TtsRequest -> Result<Bytes, string>`,
  and every call `Speak` makes is recorded in the outcome's `ttsCalls`.

Files: `common.dfy` (Option, Result, Bytes), `rate_limiter.dfy` (module
`RateLimiter`), `cache.dfy` (module `AudioCache`), `speech.dfy` (module `Speech`).

Behaviour of the code worth knowing, which the model follows as written:

- the rate-limit window is fixed: it restarts on the first call after expiry and does not slide;
- any language string is accepted; every language other than `"ar"` gets the voice `"nova"`;
- the cache key joins text, voice and language with an unescaped `-`, so distinct
  requests can share a key (`AudioCache.SeparatorIsAmbiguous`,
  `Speech.SeparatorCollisionServesOtherText`);
- an empty audio payload from the service is cached and returned like any other;
- a failed synthesis is not cached, so repeating the request calls the service again
  (`Speech.FailedSpeakIsNotCached`);
- a failing cache write is not caught by `speak`, and one unreadable file aborts
  the rest of a clean-up (neither failure is modelled, see below).

## Model

| member | source | states |
|---|---|---|
| RateLimiter.Sweep | src/utils/rate-limiter.ts:15-21 | the clean-up removes exactly the entries with `now > resetTime` and leaves every other entry unchanged |
| RateLimiter.IsRateLimited | src/utils/rate-limiter.ts:11-48 | a missing or expired window (strict `>`) is restarted as `{1, now + 300000}` and the call is allowed; a live window's count grows by one and the call is limited iff the new count exceeds 10; other clients keep their entries except expired ones the sweep drops; every stored count stays at least 1 |
| RateLimiter.SweepIsInvisible | src/utils/rate-limiter.ts:15-42 | whether the sweep ran does not change the answer or the client's window, and sweeping before the call equals sweeping after it |
| RateLimiter.LiveWindowRun | src/utils/rate-limiter.ts:44-48 | inside a live window every call adds exactly one to the count, with no cap, and the i-th call is limited iff count + i + 1 > 10 |
| RateLimiter.WindowBurst | src/utils/rate-limiter.ts:8-48 | a burst inside one window from a client without a live window: calls 1 to 10 are allowed, every later call is limited, and the count equals the number of calls |
| RateLimiter.WindowBoundary | src/utils/rate-limiter.ts:37-42 | a call exactly 300000 ms after the window opened is still counted; one millisecond later the window restarts |
| AudioCache.FileNameInjective | src/speak/cache.ts:26 | distinct hashes are stored in distinct `.mp3` files (for hashes without a `/`, where the model's naming is the source's) |
| AudioCache.FileName | src/speak/cache.ts:26 | the file for a hash is named the hash followed by `.mp3` and nothing else, which is the source's file for every hash without a `/` (all hex digests) |
| AudioCache.GenerateHash | src/speak/cache.ts:18-20 | the key is the digest applied to `JoinKey(text, voice, language)` |
| AudioCache.JoinKey | src/speak/cache.ts:18-20 | the hashed string is text, a dash, voice, a dash, language, in that order and nothing else |
| AudioCache.HashDependsOnlyOnJoin | src/speak/cache.ts:18-20 | the key is a function of the joined string only, for every digest |
| AudioCache.SeparatorIsAmbiguous | src/speak/cache.ts:18-20 | the distinct triples ("a-b","c","d") and ("a","b-c","d") get the same key under every digest |
| AudioCache.GetFromCache | src/speak/cache.ts:25-47 | a memory hit returns the memory bytes and changes nothing, whatever the disk holds; otherwise a file `hash.mp3` is returned and copied into memory with other memory keys kept; a full miss returns nothing and changes nothing; the disk never changes |
| AudioCache.SaveToCache | src/speak/cache.ts:52-60 | both tiers map the hash to the buffer, the file carries the filesystem's timestamp for the write, and every other memory key and file is unchanged |
| AudioCache.SaveThenGet | src/speak/cache.ts:25-60 | a lookup right after a save of the same hash returns the saved bytes from memory |
| AudioCache.SaveKeepsOtherLookups | src/speak/cache.ts:25-60 | saving one hash does not change what a lookup of any other hash returns |
| AudioCache.Promotion | src/speak/cache.ts:34-43 | after a disk hit, the next lookup of the same hash is served from memory with the same bytes and changes nothing |
| AudioCache.Evicted | src/speak/cache.ts:76 | a file is evicted iff it is in the directory and `now - mtime > maxAgeMs` |
| AudioCache.AfterCleanup | src/speak/cache.ts:65-86 | the clean-up keeps exactly the non-stale files, unchanged, and leaves the memory tier alone |
| AudioCache.SweepDisk | src/speak/cache.ts:68-80 | visiting every file once, deleting the stale ones and counting them yields `AfterCleanup` and a `deletedCount` equal to the number of evicted files |
| AudioCache.CleanupCache | src/speak/cache.ts:65-86 | the clean-up with an omitted `maxAgeMs` keeps exactly the files at most 604800000 ms (seven days) old |
| AudioCache.EvictedCount | src/speak/cache.ts:72-80 | the number of deletions equals the number of files the directory lost |
| AudioCache.CleanupBoundary | src/speak/cache.ts:76-79 | a file aged exactly `maxAgeMs` is kept, one aged `maxAgeMs + 1` is deleted |
| AudioCache.CleanupKeepsMemoryHits | src/speak/cache.ts:65-86 | a hash in memory is still served from memory with the same bytes after a clean-up, even if its file was deleted |
| AudioCache.SavedFileCleanupAge | src/speak/cache.ts:52-86 | a saved file survives a later clean-up at `now` iff `now - mtime <= maxAgeMs`, and then still holds the saved bytes |
| Speech.ResolveLanguage | src/speak/speak.ts:12 | a missing language means `"ar"`; a given one is used as is |
| Speech.VoiceFor | src/speak/speak.ts:19 | the voice is `"onyx"` iff the language is `"ar"`, and `"nova"` otherwise |
| Speech.FrameHeaders | src/speak/speak.ts:53-60 | the response headers are the caller's plus `Content-Type: audio/mpeg` and `Cache-Control: max-age=31536000`, which override the caller's values; all other caller headers are preserved |
| Speech.CacheKey | src/speak/speak.ts:12-22 | the key is `generateHash` of the text, the voice chosen for the language and the language, with a missing language hashed as `"ar"` with voice `"onyx"` |
| Speech.Respond | src/speak/speak.ts:27-34 | the returned object carries the given audio unchanged; its header keys are exactly the caller's (none when omitted) plus the two fixed ones, which take the fixed values, and every other caller header keeps its value |
| Speech.RequestFor | src/speak/speak.ts:40-44 | the service is asked with model `"tts-1"`, the resolved voice and the text |
| Speech.Speak | src/speak/speak.ts:8-61 | empty text fails before any lookup or service call; a hit returns the cached bytes with no service call; a miss calls the service exactly once and, on success, saves its bytes under the key built with the resolved voice and returns them, and on failure passes the error on with the cache unchanged; every success carries the two fixed headers and leaves the key cached |
| Speech.SameKeyServedFromCache | src/speak/speak.ts:22-36 | after a successful `speak`, any request with the same key is served the same bytes without a service call |
| Speech.RepeatedSpeakCallsServiceOnce | src/speak/speak.ts:22-50 | after a successful first call, a second call with the same text and language makes no service call (at most one in total) and returns the same bytes |
| Speech.FailedSpeakIsNotCached | src/speak/speak.ts:38-50 | when the service fails on an uncached request, the error is passed on and nothing is stored, so repeating the request sends the same service request again, whatever the service answers the second time |
| Speech.DashFreeLanguagesGiveDistinctKeys | src/speak/speak.ts:19-22 | for languages without a dash, equal joined key strings mean equal text and equal language, so a key shared through `speak` needs a dash in a language string or a digest collision |
| Speech.CollidingRequestsShareKey | src/speak/speak.ts:19-22 | text "a-nova-zh" in "zh" and text "a" in "zh-nova-zh" are different requests with the same key |
| Speech.SeparatorCollisionServesOtherText | src/speak/speak.ts:19-36 | after the first of those requests succeeds, the second gets the first one's audio and no service call |
| Speech.MemoryHitNeedsNoService | src/speak/speak.ts:25-36 | a request whose key is in memory makes no service call, leaves the cache unchanged and returns the memory bytes |

## Left out

- Concurrency: racing `speak` calls, the non-atomic `writeFileSync`, single-flight de-duplication and interleaved rate-limiter updates; the model is sequential.
- I/O failures: a throwing `writeFileSync` in `saveToCache` (not caught by `speak`), and a failing `statSync`/`unlinkSync` that aborts the rest of `cleanupCache` through its outer `catch`; the model assumes file operations succeed.
- Cache directory creation (src/speak/cache.ts:11-13) and the `Buffer`/`ArrayBuffer` slicing on read (src/speak/cache.ts:36-39): the disk is a map and the bytes are returned as stored.
- Logging (`console.log`/`console.error`), which has no effect on state.
- MD5 internals: the digest is an arbitrary function parameter.
- `handleSpeakError` (src/speak/speak.ts:66-76): it only builds an HTTP error response.
- The HTTP server, CORS, static files, translation and transliteration calls, and the browser UI, which contain no cache or rate-limit logic; `src/speak/index.ts` and `src/speak/types.ts` only re-export and declare types (`SpeakOptions` is mirrored as `Speech.SpeakOptions`).
- The 24-hour clean-up timer and the shutdown-time clean-up: they are scheduling around `cleanupCache`, which is modelled.
- A request body whose `text` is absent rather than empty: `SpeakOptions.text` is a string, and the empty string stands for every falsy value.
- AudioCache.SaveToCache: the file timestamp is an integer number of milliseconds, while `stats.mtimeMs` is a fractional double from the filesystem's clock, so a file aged `maxAgeMs + 0.5` (deleted by the code) cannot be expressed; the timestamp is an unconstrained parameter rather than tied to `Date.now()`.
- AudioCache.SaveToCache: the memory tier stores, and `getFromCache` and `speak` hand out, the very same `ArrayBuffer` object, so a caller that mutated it would change the cached audio; the model treats bytes as immutable values.
- AudioCache.FileName: the normalisation `path.join` applies to `${hash}.mp3` is not modelled; a hash containing `/` (such as `a/../b`, which names the same file as `b`, or `x/y`, which names a file in a subdirectory) gets a file of its own in the model. For hashes without `/`, which includes every hex digest that `speak` passes, the naming agrees with the source.
- Speech.Speak: within one call the speech service is a function of the request; across calls it may behave differently, which the lemmas express by passing each call its own service function.
- RateLimiter.IsRateLimited: JavaScript numbers are doubles, so a count or time beyond 2^53 would lose precision; the model uses unbounded integers.
- AudioCache.SweepDisk: the order in which `readdirSync` lists files is not modelled; the sweep visits files in an arbitrary order, which does not change its result.
