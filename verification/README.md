# DataForge MCP gateway: a verified model

The gateway sits between an agent and the DataForge API. It caches what it reads in a
directory tree, drops parts of that cache when it writes, retries API calls where a repeat
cannot duplicate work, rebuilds long listings page by page, and repairs tool arguments
before using them. This project models those parts and proves what they keep, over every
input, every run and every interleaving.

| file | what it models |
|---|---|
| `Text.dfy` | decimal rendering, integer parsing, stripping, splitting, substrings |
| `CacheKeys.dfy` | the key of every cacheable read and the prefixes every write scope drops |
| `KeyCollisions.dfy`, `ReceivableKeys.dfy` | exactly which reads share their key with another, and which of those the tools let through |
| `FileStore.dfy` | the file cache as a class over a tree of files and directories |
| `StoredKeys.dfy` | which reads end up in the same file, and which a write's drops reach |
| `Service.dfy` | cache-first reads, scope-dropping writes, the refresh, on any tree and for any key |
| `Sequential.dfy` | whole calls one at a time: exactly which reads are always served what the API holds |
| `Coherence.dfy` | any number of reads, writes and refreshes interleaved at every await |
| `CoherenceHistory.dfy` | what the phases of readers, the entries and the drops of such a run say of its steps |
| `Transport.dfy` | the retry loop over every stream of outcomes |
| `Api.dfy` | the API with its idempotency records, an adversarial network, and the sending client |
| `Endpoints.dfy` | the POST paths and which of them keep an idempotency key |
| `Errors.dfy` | how an error answer gets its code |
| `Paging.dfy` | the paging loops |
| `Values.dfy` | JSON values as Python holds them, and Python's `==` |
| `Coercion.dfy`, `CoercionLaws.dfy` | the schema-directed coercion of one argument, and its laws |
| `CoercionMeaning.dfy` | what coercion accepts, what it makes of a value and what it says of one it refuses |
| `SchemaStability.dfy` | for which whole schemas coercion is idempotent |
| `Arguments.dfy` | the preparation of a whole tool call |

`dafny verify dfyconfig.toml` checks everything.

## What the proofs found

- **Cache promise.** The documentation says that a read right after a write always hits the
  API (`README.md:355-356`, `docs/api/tools-write.md:127-129`). That is false for two kinds of
  reason.
  - *Files.* Even with one call at a time, a search that starts with a slash leaves the cache
    directory: no write ever drops it, and all projects share it
    (`Sequential.EscapingSearchGoesStale`). The searches `a/b` and `a:b` share one file, so one is
    answered with the rows of the other (`Sequential.SlashSearchMisleads`).
    `Sequential.PromiseExactlyWhen` gives the exact condition on the reads that are made: files of
    their own, which the drops of their scopes reach. `Sequential.ReadsAreCurrentExactlyWhen` says
    it of the key's text, `StoredKeys.PlainReadsKeptApart` that reads with plain texts meet it.
  - *Races.* For reads that meet it, `Coherence.KeptReadsGoStaleOnlyByRaces` leaves four causes, and
    `Coherence.RacingRead`, `Coherence.AbortedWrite`, `Coherence.LateDuplicate` and
    `Coherence.TornRead` are runs that show them. For any reads,
    `Coherence.StaleEntriesHaveACause` adds the two above, `Coherence.OutOfDateExactlyWhen` says
    exactly from which states a read can go out of date, and `Coherence.QuietDropKeepsPromise`
    gives the condition under which a drop keeps the promise. What a reader was answered is what its
    file held (`CoherenceHistory.AnswerWasHeld`), so for reads that are kept apart it too differs
    from the API only by these causes (`CoherenceHistory.AnswersDifferOnlyByRaces`).
- **Refresh.** With scope `global` the RMD entry is not dropped first, so a failing API is still
  reported as refreshed over the old snapshot (`Service.RefreshServes`). With the other scopes a
  read that was in flight can still put one back in between; it was then stored after the drop
  (`Coherence.DroppedBeforeStored`).
- **Retry loop.** With at most two attempts, all answered "in progress", the loop raises `None`
  (`Transport.EndsWithoutError`). The in-progress waits use up ordinary attempts; they are not
  extra ones, as `docs/api/schemas.md:317` has it.
- **Possibly applied.** `docs/api/schemas.md:319` says that a 5xx on an unkeyed POST carries
  `possibly_applied`. Only transport errors do; the model follows the code. An applied POST raises
  without the mark if and only if a gateway's error replaced the API's answer
  (`Api.UnmarkedExactlyWhen`).
- **Keys.** A search text `"None"` shares its entry with no search text
  (`CacheKeys.AbsentTextSharesKey`). Colons shift the arguments after them: only the data-mart and
  connection listings can collide (`CacheKeys.OnlyListingsCollide`),
  `KeyCollisions.SharesKeyExactlyWhen` says exactly which do, and
  `ReceivableKeys.ReceivableDoubleExactlyWhen` which do with a double that the tools let through;
  `ReceivableKeys.ColonSharesKey` is such a pair.
- **Files.** Slashes, empty and "." pieces are lost on the way to the file, and a text followed by
  `.json:` makes one search's file another's directory (`StoredKeys.SlashSharesFile`,
  `StoredKeys.AbsoluteSearch`, `StoredKeys.EmptyTextSharesFile`, `StoredKeys.FileAsDirectory`).
  `StoredKeys.SharesFileExactlyWhen` and `StoredKeys.ObstructsExactlyWhen` say, for all reads,
  exactly when two share a file and when one is in the other's way.
- **Unions.** A `type` list with "boolean" before an unshielded "integer" is what breaks idempotence
  of coercion: exactly so for one type (`CoercionLaws.UnionIdempotentExactlyWhen`), and for a whole
  schema without enums where such a type is one that matters (`SchemaStability.IdempotentExactlyWhen`).
- **Error codes.** The substring scan mistakes a key for an earlier one exactly when it contains
  one (`Errors.ScanAgreesExactlyWhen`); in the shipped catalogue this happens to
  `DF_API.INVALID_PARAMETER_TYPE` (`Errors.ParameterTypeShadowed`).

## Assumptions

- A write changes only resources covered by the scope it declares (`Confined`, `Honest`).
- The API behaves as `docs/api/tools-write.md:31-43` says: an answered keyed POST is replayed, a
  running one is answered with 409. In `Api.dfy` a request is applied before the next one of its
  call is handled or is lost; `Coherence.dfy` also lets the API apply a copy late.
- PATCH assigns the listed fields. Section 9.2.2 of RFC 9110 does not list PATCH as idempotent.
- Clocks are integers. Floats are finite dyadic rationals without NaN, infinities and negative
  zero; how they are read and printed is a parameter, constrained where needed by
  `CoercionLaws.Faithful`.
- Integer texts are ASCII, lower-casing is ASCII.
- The file system executes what it is asked: no partial writes, no failing `rmtree`. An absolute
  text does not name the cache directory itself.

## Model

| member | source | states |
|---|---|---|
| CacheKeys.PrefixesCoverScope | src/dataforge_mcp/application/invalidation.py:51-70 | For all ids and every cacheable read, a scope's prefixes cover the read's key if and only if the read is in the scope: VERSION covers every version-scoped key of that pair and of no other, PROJECT all versions of the project with its listings and access, GLOBAL the project listing, GIT the connections. |
| CacheKeys.ScopePrefixesIndependent | src/dataforge_mcp/application/invalidation.py:16-34 | No prefix of a scope is a segment prefix of another of the same scope. |
| CacheKeys.KeysIdentifyRequests | src/dataforge_mcp/cache/store.py:51-206 | Two reads share a key exactly when they are the same read, an optional text spelled "None" counting as absent; colons may stand in the one free text of a key, or in the last of several. |
| CacheKeys.OneTextIdentifiable | src/dataforge_mcp/cache/store.py:51-206 | Every read but the data-mart and connection listings meets that condition, whatever its text. |
| CacheKeys.OnlyListingsCollide | src/dataforge_mcp/cache/store.py:87-122 | Different reads that share a key are two data-mart listings or two connection listings, one of them with a colon before its last text. |
| CacheKeys.ColonFreeUnique | src/dataforge_mcp/cache/store.py:51-206 | A read without any colon shares its key with no other read, whatever texts that one has. |
| KeyCollisions.SharesKeyExactlyWhen | src/dataforge_mcp/cache/store.py:87-122 | A read shares its key with some different read if and only if it is a data-mart or connection listing, and a filter of it holds a colon or its language, cut at its colons, has a numeral after its first piece that is the last piece or has a numeral next to it. |
| ReceivableKeys.ReceivableDoubleExactlyWhen | src/dataforge_mcp/cache/store.py:87-122 | A read that the tools let through shares its key with a different such read if and only if it is a data-mart listing whose pieces can be cut elsewhere: two numerals, then a mart type and a merge type or "None" for each. |
| ReceivableKeys.ConnectionsIdentified | src/dataforge_mcp/cache/store.py:111-122 | Connection listings that the tools let through never share a key unless they are the same. |
| ReceivableKeys.ColonSharesKey | src/dataforge_mcp/cache/store.py:87-100 | Witness: for all ids, pages and searches, the language `l:a:b:None:None` and the language `l` with the rest as its search share one key, and both pass the tool's schema. |
| CacheKeys.ReadBack | src/dataforge_mcp/cache/store.py:51-206 | The read can be rebuilt from the parts of its key: the inverse of the key builders. |
| CacheKeys.AbsentTextSharesKey | src/dataforge_mcp/cache/store.py:87-100 | Witness: a search for "None" and no search share one key. |
| FileStore.FilePath | src/dataforge_mcp/cache/file_store.py:23-25 | On plain segments the path is one directory per segment and one file for the last. |
| FileStore.FilesKeptApart | src/dataforge_mcp/cache/file_store.py:23-25 | On storable segments the path is injective, and no key's file lies on another key's directory path. |
| FileStore.PathOfKey | src/dataforge_mcp/cache/file_store.py:23-25 | Where any key's file is: whether the path is absolute, its pieces between colons and slashes, and the last piece with ".json". |
| FileStore.PieceSkipped | src/dataforge_mcp/cache/file_store.py:23-25 | Empty and "." pieces vanish from a path wherever they stand; any other stays. |
| FileStore.FilesAgreeExactlyWhen | src/dataforge_mcp/cache/file_store.py:23-25 | Any two keys share a file if and only if both or neither are absolute, their pieces before the last agree but for empty and "." ones, and the last pieces are equal. |
| FileStore.FileBelowExactlyWhen | src/dataforge_mcp/cache/file_store.py:23-25 | Any key's file is a directory on another's path if and only if both or neither are absolute and the other goes on below the same pieces with the first's last piece and ".json". |
| FileStore.PrefixAsPath | src/dataforge_mcp/cache/file_store.py:67-87 | A stored key has an addressable prefix exactly when its file is the prefix's own or lies below the prefix's directory: by segments, not by characters. |
| FileStore.FileCacheStore.Get | src/dataforge_mcp/cache/file_store.py:41-49 | For every key: the payload of its file's entry if and only if there is one and `now - fetched_at <= ttl_seconds`. |
| FileStore.FileCacheStore.GetLastKnownGood | src/dataforge_mcp/cache/file_store.py:51-56 | For every key: the payload of its file's entry whatever its age, if and only if there is one. |
| FileStore.FileCacheStore.ReadEntry | src/dataforge_mcp/cache/file_store.py:27-32 | The entry of a file, and nothing for a missing or unusable one. |
| FileStore.KeyRead | src/dataforge_mcp/cache/file_store.py:41-56 | On any tree, reading a storable key's file is looking the key up in the map of storable keys to entries. |
| FileStore.FileCacheStore.Set | src/dataforge_mcp/cache/file_store.py:58-65 | For every key, states exactly when it succeeds and the whole tree after it. |
| FileStore.PathWritten | src/dataforge_mcp/cache/file_store.py:58-65 | On any tree, writing a file updates the map at the key whose file it is, and nowhere if it is no storable key's. |
| FileStore.KeyWritten | src/dataforge_mcp/cache/file_store.py:58-65 | For a storable key that is the key itself. |
| FileStore.CleanWritten | src/dataforge_mcp/cache/file_store.py:34-39 | Where only storable keys were written, a storable key can always be written. |
| FileStore.FileCacheStore.WriteEntry | src/dataforge_mcp/cache/file_store.py:34-39 | For every path: fails exactly when a directory stands at the file's place or a file on its directory path, and else changes that one file and adds its directories. |
| FileStore.FileCacheStore.InvalidatePrefix | src/dataforge_mcp/cache/file_store.py:67-87 | For every prefix, states the whole tree after the drop and the count of ".json" names. |
| FileStore.PrefixDropped | src/dataforge_mcp/cache/file_store.py:67-87 | On any tree, dropping an addressable prefix drops from the map exactly the keys that have it, by segments and not by characters. |
| FileStore.DropCounts | src/dataforge_mcp/cache/file_store.py:77-85 | On any tree the count is that of all files and directories below the prefix's directory whose name ends in `.json`, and one for the prefix's own file unless it is among them. |
| FileStore.CleanCount | src/dataforge_mcp/cache/file_store.py:67-87 | Where only storable keys were written, the count is the number of entries lost, corrupt ones included. |
| FileStore.FileCacheStore.Delete | src/dataforge_mcp/cache/file_store.py:77-85 | Removes a directory with what is below it and then the leaf, nothing else, counting as the source does. |
| FileStore.FileCacheStore.Invalidate | src/dataforge_mcp/cache/file_store.py:89-96 | For every key, removes its file unless a directory stands there. |
| FileStore.KeyErased | src/dataforge_mcp/cache/file_store.py:89-96 | For a storable key that removes exactly this key from the map. |
| FileStore.ScopePrefixesAddressable | src/dataforge_mcp/application/invalidation.py:51-70 | Every prefix a write drops is one directory per segment, whatever the ids, so a drop never leaves its family. |
| FileStore.ReachesKey | src/dataforge_mcp/cache/file_store.py:67-87 | A prefix of family and ids reaches a key's file if and only if it is a prefix of the key's segments and the key's path is not absolute, whatever its texts hold. |
| StoredKeys.StorableExactlyWhen | src/dataforge_mcp/cache/store.py:51-206 | A read has a storable key if and only if its texts, cut at their colons, are directory names, the last piece of a last text excepted, which need only hold no slash. |
| StoredKeys.FilesIdentifyRequests | src/dataforge_mcp/cache/file_store.py:23-25 | Reads with storable keys share a file exactly when they share a key, which identifiable ones do exactly when they are the same read, and no read's file stands in another's way: a cached read never answers for another. |
| StoredKeys.SharesFileExactlyWhen | src/dataforge_mcp/cache/file_store.py:23-25 | Any two reads share a file if and only if both or neither escape the cache directory, the pieces of their keys agree but for empty and "." ones before the last, and the last are equal. |
| StoredKeys.ObstructsExactlyWhen | src/dataforge_mcp/cache/file_store.py:34-39 | Any read's file stands where another needs a directory if and only if both or neither escape and the other goes on below the same pieces with the first's last piece and ".json". |
| StoredKeys.ReachedExactlyWhen | src/dataforge_mcp/application/invalidation.py:51-70 | The drops of a scope reach a read's file if and only if the read is in the scope and its last segment does not start with a slash. |
| StoredKeys.KeptApartExactlyWhen | src/dataforge_mcp/cache/file_store.py:67-87 | A set of reads has files of its own, reached by the drops of all their scopes, if and only if none escapes and no two share a file. |
| StoredKeys.PlainReadsKeptApart | src/dataforge_mcp/cache/file_store.py:23-25 | The reads with plain texts are such a set. |
| StoredKeys.SlashSharesFile | src/dataforge_mcp/cache/file_store.py:23-25 | Witness: for all texts, the searches `x/y` and `x:y` have different keys and one file. |
| StoredKeys.AbsoluteSearch | src/dataforge_mcp/cache/file_store.py:23-25 | Witness: a search that starts with a slash has one file for all projects and versions, which no prefix reaches. |
| StoredKeys.EmptyTextSharesFile | src/dataforge_mcp/cache/file_store.py:23-25 | Witness: a language and the same with a colon after it give two keys and one file. |
| StoredKeys.FileAsDirectory | src/dataforge_mcp/cache/file_store.py:23-25 | Witness: for every text, the data-mart search for it has its file where the search for that text with ".json:" and more after it needs a directory. |
| Service.SemanticService.CachedFetch | src/dataforge_mcp/application/use_cases.py:110-149 | On any tree and for any key: serves an unexpired entry if asked to, else the fetched answer, which it stores or fails to, else the last known good one, and fails only without any; states the whole tree left in each case. |
| Service.ReadTakes | src/dataforge_mcp/application/use_cases.py:110-149 | Which of the five ways a read takes and what it serves, in terms of the file, the clock and the answer: cached, from the API, refused by the file system, last known good, or failed. |
| Service.StoredThenRead | src/dataforge_mcp/cache/file_store.py:41-65 | An entry stored at t with time to live k is served from the cache at u if and only if the cache is asked and u - t <= k; otherwise the API answers, or the old entry if it fails. |
| Service.SemanticService.WriteOp | src/dataforge_mcp/application/write_use_cases.py:105-147 | On any tree: a failed call leaves it alone; a completed one removes exactly what the prefixes reach, and `cache_invalidated` lists, in order, the prefixes that held something before. 201 is reported as created, 204 as deleted, 207 as partial, all else as ok; a caller's non-empty key is the one reported, else the fresh one; a 207 with a body carries that body's failed and succeeded lists. |
| Service.SemanticService.DropScope | src/dataforge_mcp/application/write_use_cases.py:119-123 | On any tree, dropping the prefixes one by one removes what any of them reaches; list and count are those of each prefix on the tree before. |
| Service.SemanticService.RefreshCache | src/dataforge_mcp/application/use_cases.py:413-438 | On any tree: drops the scope, reads the RMD past the cache, and reports the scope its name stands for, the RMD key and the sum of the counts; any other name than global, project, version and git raises before anything changes. |
| Service.RefreshServes | src/dataforge_mcp/application/use_cases.py:413-438 | With nothing in between, a refresh succeeds if and only if the API answered and the answer can be stored, or the API failed, the scope drops no RMD entry and an old one is readable. |
| Service.RefreshStores | src/dataforge_mcp/application/use_cases.py:413-438 | After a refresh that fetched and stored the RMD entry is that answer; else it is gone (version, project) or as before (global, git). |
| Service.EntryAfterDrop | src/dataforge_mcp/application/write_use_cases.py:119-123 | A drop leaves no entry at a read's file if the read is in the scope and does not escape, and otherwise the one that was there. |
| Service.ReadAfterWrite | README.md:355-356 | With nothing in between, a read in the scope of a write that returned asks the API and has no old entry to fall back on, unless it escapes: then it is served as before, like every other read. |
| Service.CountStill | src/dataforge_mcp/application/write_use_cases.py:120-123 | Dropping the other prefixes of a scope first leaves what a prefix counts as it was. |
| Service.CleanTotal | src/dataforge_mcp/application/use_cases.py:423-426 | Where only storable keys were written, the counts of a scope sum to the number of entries lost. |
| Service.HeldExactlyWhen | src/dataforge_mcp/application/write_use_cases.py:120-123 | Where only storable keys were written, a prefix is listed as invalidated if and only if some entry's key has it. |
| Sequential.CallKeepsCoherence | src/dataforge_mcp/application/use_cases.py:110-149 | With reads kept apart, no call run to its end leaves a readable entry that differs from what the API holds for its read. |
| Sequential.CallChanges | src/dataforge_mcp/application/write_use_cases.py:115-123 | A rejected write changes nothing, a read only its own file; a write or a drop takes the entries of the reads in its scope that do not escape and no other read's. |
| Sequential.RunKeepsCoherence | src/dataforge_mcp/application/write_use_cases.py:105-123 | Nor does any sequence of such calls. |
| Sequential.PromiseExactlyWhen | docs/api/tools-write.md:125-129 | For any placement of entries, and any set of reads: in every sequential run what is served for one of them is what the API holds if and only if they have files of their own that the drops of their scopes reach. |
| Sequential.ReadsAreCurrentExactlyWhen | docs/api/tools-write.md:125-129 | On the file cache that is so if and only if none of the reads escapes and no two share a file. |
| Sequential.SequentialReadsAreCurrent | docs/api/tools-write.md:125-129 | In every sequential run of plain reads, a read by cache hit, fetch or fallback answers what the API holds at that moment, fails exactly when it can neither reach the resource nor fall back, and never fails to store. |
| Sequential.EscapingSearchGoesStale | src/dataforge_mcp/application/use_cases.py:110-149 | Witness run: a search starting with a slash is read, changed by a write that returns, and read again with the old rows. |
| Sequential.SlashSearchMisleads | src/dataforge_mcp/application/use_cases.py:110-149 | Witness run: after the search `x/y`, the search `x:y` is answered with its rows. |
| Coherence.StepKeepsInv | src/dataforge_mcp/application/use_cases.py:120-141 | Each step of each read, write and refresh, between any two awaits and wherever entries are placed, keeps the invariant: an entry is at its read's file and current for that read or overtaken by a touching application after its fetch began, and entries that a dropped prefix reaches were stored after the drop. |
| Coherence.RunKeepsInv | src/dataforge_mcp/application/use_cases.py:120-141 | Every run keeps it. |
| Coherence.EveryReachingWriteHasACause | src/dataforge_mcp/application/write_use_cases.py:117-123 | In every run, each application since an entry's fetch began, of a write with a prefix that reaches the entry's file, is of a write that raised, has not yet dropped that prefix, dropped it before the entry was stored, or was applied again after the drop. |
| Coherence.StaleEntriesHaveACause | src/dataforge_mcp/application/write_use_cases.py:117-123 | For any reads: what a read's file holds differs from the API only if another read stored it there, or a touching write was applied since the fetch and no prefix of it reaches the file, or it has one of the four causes. |
| Coherence.KeptReadsGoStaleOnlyByRaces | src/dataforge_mcp/application/write_use_cases.py:117-123 | For reads that are kept apart, only the four causes are left. |
| Coherence.DroppedBeforeStored | src/dataforge_mcp/application/use_cases.py:423-432 | Whatever is at a file that a write or a refresh has dropped was stored after the drop, also what a refresh falls back on. |
| Coherence.ReturnedWriteDropped | src/dataforge_mcp/application/write_use_cases.py:117-123 | Once a write has returned, everything at a file that its prefixes reach was stored after the drop. |
| Coherence.OutOfDateExactlyWhen | src/dataforge_mcp/application/use_cases.py:120-141 | With no further write applied, what a read's file holds can be or go out of date if and only if it is so already, a read in flight will store something else there, or another read with the same file has another answer. |
| Coherence.OnlyReadsStore | src/dataforge_mcp/application/use_cases.py:141-141 | A file comes into the cache only by the store step of a read whose file it is. |
| Coherence.QuietDropKeepsPromise | docs/api/tools-write.md:125-129 | If, when a write drops a prefix that reaches a read's file, no read with that file is between fetch and store and none has another answer, the file is gone and what it next holds stays current until a further write is applied. |
| Coherence.RacingRead | src/dataforge_mcp/application/use_cases.py:130-141 | Witness run: a read that fetched before the write stores after the write has dropped and returned. |
| Coherence.AbortedWrite | src/dataforge_mcp/application/write_use_cases.py:117-123 | Witness run: a write that raised after it was applied drops nothing and leaves the old entry. |
| Coherence.LateDuplicate | src/dataforge_mcp/dataforge/client.py:110-193 | Witness run: two writes return in turn and a read stores what the second left; then a late copy of the first, with its first effect, is applied, and no write is left to drop the entry. |
| Coherence.TornRead | src/dataforge_mcp/application/use_cases.py:225-249 | Witness run, for any two pages before and two others after: a read that pages across a write stores a mixture the API never held. |
| CoherenceHistory.ReaderHistory | src/dataforge_mcp/application/use_cases.py:120-141 | In every run each reader's phase is what its own steps make it: answered by a hit or fallback with what its file held just before, or by a store with all that its fetch got page by page; failed, raised or still fetching likewise. |
| CoherenceHistory.RaisedExactlyWhen | src/dataforge_mcp/application/use_cases.py:132-141 | A reader raises if and only if its fetch failed and its file held nothing, or its complete answer could not be stored. |
| CoherenceHistory.AnswerWasHeld | src/dataforge_mcp/application/use_cases.py:120-141 | What a reader was answered is what its file held at the end of the step that answered it. |
| CoherenceHistory.AnswersDifferOnlyByRaces | src/dataforge_mcp/application/use_cases.py:120-141 | For reads kept apart, an answer differs from what the API held at that step only by one of the four causes. |
| CoherenceHistory.EntriesWereStored | src/dataforge_mcp/application/use_cases.py:141-141 | Every entry is all that some read's fetch got, stored at its file at that step, with the number of writes applied when the fetch began. |
| CoherenceHistory.EntriesStay | src/dataforge_mcp/cache/file_store.py:67-87 | What a file holds changes only by a step that stores there or drops a prefix reaching it. |
| CoherenceHistory.LogWasApplied | src/dataforge_mcp/application/write_use_cases.py:117-118 | Application number j in the log is the step that applied it, at its time. |
| CoherenceHistory.DropsWereMade | src/dataforge_mcp/application/write_use_cases.py:120-123 | A writer's drop number q is the step that made it, at its time. |
| CoherenceHistory.WriterHistory | src/dataforge_mcp/application/write_use_cases.py:115-123 | In every run a write waits until the API answers or it gives up, and drops only when answered; a refresh drops from the start and never gives up; each drops the prefixes of its scope, and has returned exactly when it finished. |
| Transport.CallsMean | src/dataforge_mcp/dataforge/client.py:121-193 | For every number of attempts and every stream of outcomes, the first outcome that settles the call decides it; if none does, the latest failure is raised after all sends. |
| Transport.EndsWithoutError | src/dataforge_mcp/dataforge/client.py:193-193 | `raise last_exc` meets None if and only if there are at most two attempts and all are answered in progress. |
| Transport.FallThroughRaisesLatestFailure | src/dataforge_mcp/dataforge/client.py:121-193 | On any other fall-through the error raised is the latest 5xx or transport failure, not the final 409. |
| Transport.InProgressRaisedAfterTwoWaits | src/dataforge_mcp/dataforge/client.py:155-163 | An in-progress error leaves the loop as itself only after exactly two waits. |
| Transport.CallsAreBounded | src/dataforge_mcp/dataforge/client.py:121-188 | At most n sends, and at most 2^(n-1)+1 seconds of sleep, one second when n is 1. |
| Transport.BoundAttained | src/dataforge_mcp/dataforge/client.py:121-188 | A stream of outcomes that attains the bound, for each n. |
| Transport.SleepsExactly | src/dataforge_mcp/dataforge/client.py:121-188 | The call sleeps exactly 2^t seconds after a failure at attempt t, one second after the first in-progress answer and two after the second, except after the outcome that settles it. |
| Transport.CallsTry | src/dataforge_mcp/dataforge/client.py:121-193 | n attempts succeed if and only if one outcome is below 400 and all before it are failures or the first two in-progress answers, with no further send; failures only give n sends and the last failure. |
| Api.CallApi | src/dataforge_mcp/dataforge/client.py:94-193 | A malformed key is refused before anything is sent. A call that is no POST or has a key tries up to the configured number of times, an unkeyed POST once, and an explicit word overrides this both ways; result, sends, sleeps and the server's state are those of the loop. |
| Api.RetryLoop | src/dataforge_mcp/dataforge/client.py:121-193 | The imperative loop, with its two counters and carried error, refines the specification on every network. |
| Api.SendRepeatedly | src/dataforge_mcp/dataforge/client.py:121-193 | The same, with the servers and outcomes those of sending one request again and again. |
| Api.SendKeepsSlot | docs/api/tools-write.md:33-39 | Any send by anyone keeps, for each key, that it was applied once if its record is a success and else not at all. |
| Api.KeyedPostExactlyOnce | docs/api/tools-write.md:33-43 | Over any history of sends by any callers a key is applied at most once, and exactly once as soon as a send of it was answered with success. |
| Api.KeyedCallExactlyOnce | src/dataforge_mcp/dataforge/client.py:94-193 | A keyed call after any such history: at most once over all of it, exactly once if the call returns. |
| Api.UnkeyedPostSentOnce | src/dataforge_mcp/dataforge/client.py:110-120 | An unkeyed POST is sent once, applied at most once, and its transport errors are marked possibly applied. |
| Api.UnmarkedExactlyWhen | src/dataforge_mcp/dataforge/client.py:195-212 | An unkeyed POST raises "possibly applied" if and only if its send got no response, and was applied yet raises without the mark if and only if the API accepted it and a gateway's error replaced the answer. |
| Api.GatewayErrorIsUnmarked | src/dataforge_mcp/dataforge/client.py:195-212 | Witness: a 502 in front of an applied unkeyed POST carries no such mark. |
| Api.EffectTwice | src/dataforge_mcp/dataforge/client.py:106-108 | Applying a PUT, PATCH or DELETE twice is applying it once. |
| Api.EffectMeans | src/dataforge_mcp/dataforge/client.py:106-108 | PUT leaves exactly the body, PATCH assigns the body's fields and keeps the others, DELETE leaves nothing; nothing else changes. |
| Api.ReplayVerbatim | docs/api/tools-write.md:37-37 | A keyed POST whose answer is on record is answered with it and changes nothing. |
| Api.SlowPostReplayed | docs/api/tools-write.md:37-38 | A keyed POST whose answer was given up is refused as in progress while it executes; then it was applied if accepted, once, and is answered with its own answer, whatever the repeat would have got. |
| Api.SlotsApart | docs/api/tools-write.md:33-35 | A keyed POST leaves the record and the count of every other path or key alone. |
| Api.RepeatsLikeOnce | src/dataforge_mcp/dataforge/client.py:106-108 | Any number of sends of one leaves the entities untouched or as after one application, and the latter once any send succeeded. |
| Api.RetriedUpdateLikeOnce | src/dataforge_mcp/dataforge/client.py:94-193 | The same of a whole call. |
| Endpoints.MarkerInPath | src/dataforge_mcp/dataforge/client.py:35-49 | A marker is a substring of a path exactly when it occurs among the path's segments, the last word as a beginning. |
| Endpoints.KeyByOccurrence | src/dataforge_mcp/dataforge/client.py:48-49 | A path keeps its key exactly when no marker occurs among its segments. |
| Endpoints.KeysKept | src/dataforge_mcp/dataforge/write_client.py:89-785 | For all ids, every POST path keeps its idempotency key, except the file export, the two import dry runs, the connection test and the SQL generation. |
| Endpoints.PathsAsWritten | src/dataforge_mcp/dataforge/write_client.py:89-785 | For all ids, every endpoint's segments make the path its method writes. |
| Errors.SpellingsAgree | src/dataforge_mcp/errors.py:324-355 | A catalogued failure gets one code however the answer spells it: as v2 code, as legacy key, or as legacy key in the compatibility member, over any text and status. |
| Errors.GuardKeysFirst | src/dataforge_mcp/errors.py:343-346 | A text that is a guard-level key gets that key's code whatever the legacy table says; any other is known if and only if it is a legacy key. |
| Errors.UnrecognisedDegrades | src/dataforge_mcp/errors.py:364-370 | In any catalogue, an answer of 500 or more without any catalogued spelling is a server error; below, with the shipped table, the seven statuses get their codes and all others are a server error. |
| Errors.ReportedSpelling | src/dataforge_mcp/errors.py:324-370 | The answer's own code member is always reported, its own message where it has one, and else a spelling that is in the answer. |
| Errors.ScanAgreesExactlyWhen | src/dataforge_mcp/errors.py:359-362 | The substring scan recognises a key in its own text if and only if the key contains none listed before it. |
| Errors.PrefixShadows | src/dataforge_mcp/errors.py:226-228 | In any catalogue where one code is a prefix of a later one, an envelope with the later legacy key gets the later code; a bare body gets that of an entry up to the earlier: the earlier code if nothing before it occurs in the key, and never the later one if no entry so far has that code. |
| Errors.ParameterTypeShadowed | src/dataforge_mcp/errors.py:359-362 | In every catalogue that begins as the shipped one, a bare DF_API.INVALID_PARAMETER_TYPE gets the code of invalid_parameter, and an envelope with it its own. |
| Paging.FetchAll | src/dataforge_mcp/application/use_cases.py:225-249 | The loop stops at the first page that ends the listing or at the hundredth, gathers all rows up to there in order, and returns nothing if a page raises. |
| Paging.FetchedPrefix | src/dataforge_mcp/application/use_cases.py:268-287 | Whatever a server says about its pages, the rows are a prefix of its list; they are the first min(N, 10000) if and only if no answer before the last needed page claims to be the end. |
| Paging.WholeListExactlyWhen | src/dataforge_mcp/application/use_cases.py:49-50 | The listing is complete if and only if the list has at most 10000 rows and no answer ends it early. |
| Paging.RequestsBounded | src/dataforge_mcp/application/use_cases.py:986-995 | At most one request past the list's end, and never more than 100. Where no answer claims the end early, one past the end is made if and only if the last page does not say it is last, by its count or, without one, by being short. |
| Paging.CountedPages | src/dataforge_mcp/application/use_cases.py:986-995 | With `total_pages` given, the first min(N, 10000) rows in min(max(1, ceil(N/100)), 100) requests. |
| Paging.ShortPageRule | src/dataforge_mcp/application/use_cases.py:986-995 | Without it, the same rows in min(N/100 + 1, 100) requests. |
| Paging.NoPagingInformation | src/dataforge_mcp/application/use_cases.py:986-995 | A first answer without paging information ends the listing after one request: complete exactly for at most 100 rows. |
| Paging.SkippedRowExactlyWhen | src/dataforge_mcp/application/use_cases.py:225-249 | If row d is deleted after page c was read, a row still on the server is missing from the complete listing if and only if d was on a page already read and a further page had to be. |
| Coercion.AsObject | src/dataforge_mcp/mcp/arguments.py:181-196 | The copy-and-rewrite loop computes the member-wise coercion of the specification. |
| Coercion.AsArray | src/dataforge_mcp/mcp/arguments.py:199-211 | The loop computes the item-wise coercion of the specification. |
| Coercion.FirstCandidateDecides | src/dataforge_mcp/mcp/arguments.py:98-120 | However unions are nested, the result is that of the first named candidate that accepts the value. |
| CoercionLaws.Idempotent | src/dataforge_mcp/mcp/arguments.py:87-211 | Coercing a coerced value returns it unchanged, through nested objects, arrays, enums and swallowed failures, for every union-free schema, and for schemas with stable unions under faithful float text. |
| CoercionLaws.UnionIdempotentExactlyWhen | src/dataforge_mcp/mcp/arguments.py:98-107 | A type is idempotent on all values if and only if it has no "boolean" before an "integer" that no earlier candidate shields from numbers. |
| CoercionLaws.UnstableOnOne | src/dataforge_mcp/mcp/arguments.py:98-107 | For every other type 1.0 becomes 1, and then true. |
| CoercionLaws.BooleanOrInteger | src/dataforge_mcp/mcp/arguments.py:98-107 | The smallest such union. |
| CoercionLaws.LaterRefused | src/dataforge_mcp/mcp/arguments.py:123-178 | A candidate that refused a value also refuses what a later candidate made of it, boolean before integer excepted. |
| SchemaStability.IdempotentExactlyWhen | src/dataforge_mcp/mcp/arguments.py:87-211 | A schema without enums is idempotent on all values if and only if no type that matters, at any depth, is unstable; one with enums is if none is. |
| SchemaStability.WobblyWitness | src/dataforge_mcp/mcp/arguments.py:98-211 | For every other such schema, a value that a second coercion changes. |
| CoercionLaws.ConformingKept | src/dataforge_mcp/mcp/arguments.py:87-211 | For union-free schemas a deeply conforming value is accepted and comes back equal, and unchanged if no integer is written as a float. |
| CoercionLaws.UnionChangesConforming | src/dataforge_mcp/mcp/arguments.py:98-107 | Witness: under a string-or-integer union the integer 1 comes back as "1". |
| CoercionLaws.Sound | src/dataforge_mcp/mcp/arguments.py:87-120 | A result strictly has a declared type and lies in the enum. |
| CoercionMeaning.KindMakes | src/dataforge_mcp/mcp/arguments.py:123-211 | What each type makes of a value, both ways: an integer equal to the number or the one the stripped text reads as; a number as it is or the float its text reads as; the truth value of a boolean, 0, 1 or one of eight words in any case; the text of a scalar; objects and arrays member by member; anything under another name. |
| CoercionMeaning.KindTakes | src/dataforge_mcp/mcp/arguments.py:123-211 | Exactly which values each type accepts: no boolean as integer or number, no fraction as integer, no other integer as boolean, no null, list or object as string. |
| CoercionMeaning.NamedTypeMeans | src/dataforge_mcp/mcp/arguments.py:98-120 | The same by the type's name in the schema, with the kind that a refusal names. |
| CoercionMeaning.UntypedMeans | src/dataforge_mcp/mcp/arguments.py:87-95 | A schema without a type, or with an empty one, takes every value as it is, subject to its enum. |
| CoercionMeaning.RejectedExactlyWhen | src/dataforge_mcp/mcp/arguments.py:87-107 | A value is rejected if and only if no candidate takes it, or the enum excludes what the first that does makes of it. |
| CoercionMeaning.RefusalTells | src/dataforge_mcp/mcp/arguments.py:87-107 | A refusal names the enum's values, the union's types, or the one type. |
| Values.EqualNumbers | src/dataforge_mcp/mcp/arguments.py:91-93 | Booleans, integers and floats are equal exactly when they are the same number, and to nothing else. |
| Values.ListsEqualExactlyWhen | src/dataforge_mcp/mcp/arguments.py:91-93 | Lists are equal exactly when they are item by item. |
| Values.ObjectsEqualExactlyWhen | src/dataforge_mcp/mcp/arguments.py:91-93 | Objects are equal exactly when they have the same names with equal values. |
| Values.WholeMeans | src/dataforge_mcp/mcp/arguments.py:128-141 | A float is whole exactly when the number it is is an integer, and then that is its integer. |
| Text.LowerMeans | src/dataforge_mcp/mcp/arguments.py:161-161 | Lower-casing gives a word exactly when each letter is that of the word in either case. |
| Text.StripMeans | src/dataforge_mcp/mcp/arguments.py:131-161 | Stripping removes blank text at both ends and leaves none there. |
| Text.SignedAndGrouped | src/dataforge_mcp/mcp/arguments.py:131-134 | In an integer text a plus sign and an underscore between digits change nothing. |
| CoercionLaws.NestedSettled | src/dataforge_mcp/mcp/arguments.py:181-211 | Objects keep their names and order and arrays their length; an acceptable nested value gets its declared type, any other is kept as it was. |
| CoercionLaws.IntegerRoundTrip | src/dataforge_mcp/mcp/arguments.py:123-178 | An integer printed as a string, with whitespace around it, reads back. |
| CoercionLaws.BooleanRoundTrip | src/dataforge_mcp/mcp/arguments.py:157-178 | So does a boolean. |
| CoercionLaws.FloatRoundTrip | src/dataforge_mcp/mcp/arguments.py:123-154 | A printed float reads back as a number, and as an integer exactly as the float itself would. |
| CoercionLaws.FaithfulExists | src/dataforge_mcp/mcp/arguments.py:123-178 | The properties required of float text can be met. |
| Text.DecRoundTrip | src/dataforge_mcp/mcp/arguments.py:131-178 | `int(str(n)) == n` for every integer. |
| Arguments.PrepareArguments | src/dataforge_mcp/mcp/arguments.py:40-84 | The two loops compute the specified outcome. |
| Arguments.OffendersNamedOnce | src/dataforge_mcp/mcp/arguments.py:46-84 | When `required` is duplicate-free and declared, a call is refused if and only if an argument is missing, undeclared or uncoercible, and each offender is named exactly once. |
| Arguments.OffendsExactlyWhen | src/dataforge_mcp/mcp/arguments.py:56-72 | An argument offends if and only if it is undeclared, or not null and refused by its schema. |
| Arguments.ReportOrder | src/dataforge_mcp/mcp/arguments.py:52-72 | Missing arguments are named first in schema order, then the other offenders in argument order. |
| Arguments.UndeclaredRequired | src/dataforge_mcp/mcp/arguments.py:52-60 | Witness: a required but undeclared name can be named twice. |
| Arguments.ReportsExplained | src/dataforge_mcp/mcp/arguments.py:52-72 | Each report's code, expected and received say what is wrong with the argument it names. |
| Arguments.PreparedSound | src/dataforge_mcp/mcp/arguments.py:56-84 | An accepted call keeps its arguments, their order and its nulls, and every other value has its declared type and lies in its enum. |
| Arguments.PrepareIdempotent | src/dataforge_mcp/mcp/arguments.py:40-84 | Preparing prepared arguments returns them unchanged. |
| Arguments.ConformingCall | src/dataforge_mcp/mcp/arguments.py:40-84 | A conforming call is accepted with equal arguments, unchanged if it conforms strictly. |

## Left out

- StoredKeys.ReachedExactlyWhen: a ".." piece is kept as a name, and reads with one are excluded here and in what builds on it, because the operating system resolves it.
- FileStore.FileCacheStore.ReadEntry: a file that is not a valid entry is one case, Corrupt, whatever is wrong with it.
- Service.SemanticService.WriteOp: a body is its text and the two row lists, the rows being opaque.
- Service.SemanticService.RefreshCache: the awaits inside it are interleaved in Coherence, not here.
- Coherence.StepKeepsInv: one page of a listing is one step; the cap of 100 pages, the expiry of entries and when the file system refuses one are modelled in Paging and Service instead.
- SchemaStability.IdempotentExactlyWhen: whether an enum keeps an unstable type from showing is not decided.
- Api.KeyedPostExactlyOnce: records are kept for ever (24 hours in the documentation), and one API key is assumed, to which keys are scoped.
- Api.CallApi: UUID syntax is a parameter; the request's body, parameters, files and timeouts do not influence the loop.
- Endpoints.KeysKept: ids are integers; `_write`'s assembly of the request around the key is plain copying.
- Errors.SpellingsAgree: the catalogue is a parameter, required to have distinct snake-case codes; messages, hints, field errors and `Retry-After` are not modelled.
- Paging.FetchAll: the normalisation of rows and the paging members other than `total_pages` are not modelled; `fetched` is.
- CoercionLaws.FloatRoundTrip: float text is a parameter with the properties of `Faithful`; rounding, NaN, infinities and Python's digit limit are not modelled.
- Coercion.AsObject: a schema is what the coercer reads of it; members of other types than the source expects there are not modelled.
- `consolidated_rmd_key` is an alias of `rmd_key` and is not a read of its own; the family name is among the dropped prefixes.
- The normaliser and the request and response models: field-by-field copies.
- Tool tables, handlers and argument copying in the MCP layer; the transports, authentication, logging, command line, packaging and health probes.
