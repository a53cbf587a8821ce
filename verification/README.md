# Verified models of the media service

hubflora-media stores uploaded files in an S3 bucket, keeps their rows in PostgreSQL, makes image variants at once
or in a queue worker, and is called through a Go HTTP API and a JavaScript SDK. This project models the parts of it
whose correctness spans several calls, and proves what they keep.

| files | what they model |
|---|---|
| `RateLimiter.dfy` | the per-visitor limiter with its background cleanup |
| `JwksCache.dfy` | the JWKS cache whose fetch runs outside the lock, any number of calls interleaved, and the key loop of JWT validation |
| `UploadMany.dfy` | the SDK's scheduler: workers that claim files from a shared counter |
| `Like.dfy`, `MediaQueries.dfy` | LIKE patterns, the list and update statements as a small compiler with a table semantics, reading a listing by pages |
| `FitInside.dfy`, `FitInsideNearest.dfy` | resizing with the rounding errors of float64, measured against exact arithmetic, and under round-to-nearest |
| `Folder.dfy` | the filename sanitiser, timestamped folders, object keys |
| `MediaWorld.dfy`, `Lifecycle.dfy` | rows, objects and queue under interleaved and crashing uploads, crops, workers and deletes |
| `Handlers.dfy` | the same handlers as sequential code with every failure of a call as a parameter |

`Options.dfy` holds the optional value. `dafny verify dfyconfig.toml` checks everything.

## How the parts are put together

Code that changes state is a class or a method with a loop; each such method is tied to a function of the old state,
and the promises are lemmas about that function. Concurrency is a state machine over atomic steps: `JwksRuns`
interleaves the locked sections of cache calls, `UploadMany.Run` the stretches between two awaits, `Lifecycle.Run`
the single database, bucket and queue calls. The handlers meet the machine twice: `Handlers.MediaService` proves that
every upload, crop and worker task is a run of its program (`Reaches`), and so is every delete but one whose lookup by
key or row statement fails; `HandlerSafety.ProgramIsSafe` proves that every such run keeps the invariant of
`Lifecycle.EveryRunIsSafe`. What the two failing deletes leave behind is `DeleteLaw`.

Clocks, random identifiers, failures of calls, the outcome of image work, the order in which a map is visited, the
order of tied rows and the responses of the JWKS endpoint are parameters or free choices.

## Where the code does less than it says

- The limiter's comment promises `limit` requests per window. Rejected requests also move `lastSeen`, so for every
  limit from 2 on there is a client that has at most two requests in any window (`RateLimiting.SteadyInWindow`) and is
  rejected for ever after its first `limit` ones (`RateLimiting.SteadyClientIsRejected`). The promise holds if and only if the limit is at most 1
  or the window is negative (`RateLimiting.PromiseKeptIff`); a request is accepted if and only if its burst has at
  most max(1, limit) requests (`RateLimiting.DecisionsAreBursts`).
- `RefreshForKID` never looks at the age of the cache. The staleness bound of `GetKeys` holds for a cache hit of
  `RefreshForKID` at a given age, in every run, if and only if that age is at most the ttl
  (`JwksRuns.RefreshBoundedIff`), and there are hits of every age (`JwksRuns.RefreshIgnoresAge`).
- A delete by a key that names no row of the caller still removes the whole folder, and so does a delete whose row
  statement fails. `DeleteLaw.DeleteIsSafeIff` gives the exact condition for the rows to stay safe;
  `DeleteLaw.DeleteByVariantKeyIsUnsafe` and `DeleteLaw.DeleteByForeignKeyIsUnsafe` are the two kinds of requests
  that break it with every statement succeeding.
- The list filters mean "contains" and "starts with" if and only if the text has no `%`, `_` or backslash
  (`LikePatterns.SearchMeansSubstring`, `LikePatterns.TypeMeansPrefix`).
- The order of a listing has no tie-breaker: if a tie straddles a page boundary, two lawful answers show one row
  twice and another never (`ListPaging.TiedListingsLoseARow`); otherwise the pages are complete
  (`ListPaging.ListingsAreComplete`).
- A limit above 100 silently becomes 50, so a client that steps by its own limit reads everything if and only if that
  limit is at most 100 or 50 rows are all there is (`ListPaging.OwnLimitReadsAllIff`).
- The upload handler accepts slugs with slashes. Such keys parse as legacy ones (`ObjectKeys.OriginalKeyParses`), and
  one folder's prefix takes another folder's keys if and only if the first folder is a part of the second slug
  (`ObjectKeys.FoldersMixIff`).
- `uploadMany` with concurrency below 1 uploads nothing and reports no error (`UploadMany.Confluence`); a throwing
  `onFileComplete` leaves a file with both a result and an error (`UploadMany.ExactlyOne`).
- `fitInside` returns a zero side for very long images. `FitInside.SideVanishes` says for all sizes when a side is
  zero, and when it is not, whatever the rounding; in between float64 decides by whether n times the rounded 1/n falls
  short of 1, which `NearestRounding.HeightIsZeroIff` and `WidthIsZeroIff` state exactly. 29400 x 49 into 600 x 600 is
  such an image: exact arithmetic gives 600 x 1 and float64 600 x 0 (`NearestRounding.LongImageInFloat64`).
- The aspect ratio is kept less strictly than in exact arithmetic (`FitInside.ExactAspectRatio`): the strict bound
  holds under every rounding if and only if the two sides are not both whole before truncation
  (`FitInside.StrictAspectIff`).
- The service's own documentation (README.md:106) shows object keys such as `my-org/20240101-120000/photo.jpg`; the code builds
  `slug/name-millis/original.ext`, and the model follows the code.

## Model

| member | source | states |
|---|---|---|
| `RateLimiting.TableRemembers` | internal/middleware/ratelimit.go:31-68 | after any events, an entry holds the length and end of the visitor's current burst, and a missing entry means the next request starts a new burst |
| `RateLimiting.TableHolds` | internal/middleware/ratelimit.go:31-61 | after any events, the table holds exactly the visitors that have sent a request and that no cleanup pass has since found unseen for more than two windows |
| `RateLimiting.DecisionsAreBursts` | internal/middleware/ratelimit.go:31-70 | every answer to a visitor is determined by that visitor's own requests: accepted if and only if the burst is at most max(1, limit) |
| `RateLimiting.CleanupIsInvisible` | internal/middleware/ratelimit.go:31-42 | with a monotone clock, a limiter that cleans up at arbitrary moments answers every request like one that never does |
| `RateLimiting.VisitorsAreIsolated` | internal/middleware/ratelimit.go:50-70 | the answers to one visitor are those of a limiter fed only its requests |
| `RateLimiting.SlidingWindow` | internal/middleware/ratelimit.go:22-72 | for any arrivals, visitors and cleanups, any stretch of one visitor's requests no longer than the window holds at most max(1, limit) accepted ones |
| `RateLimiting.SteadyClientIsRejected` | internal/middleware/ratelimit.go:22-66 | of a client whose requests come one window after the previous one was stamped, the first `limit` ones are accepted and all later ones rejected |
| `RateLimiting.PromiseKeptIff` | internal/middleware/ratelimit.go:22-66 | every request among a visitor's first `limit` ones of a window is accepted, in all runs, if and only if limit <= 1 or the window is negative |
| `RateLimiting.RateLimiter.Serve` | internal/middleware/ratelimit.go:50-70 | the locked section moves the table, and answers, as the specification of one request says; no two addresses share a visitor |
| `RateLimiting.RateLimiter.Sweep` | internal/middleware/ratelimit.go:31-42 | a cleanup pass in any order removes exactly the entries older than two windows when examined |
| `JwksCaching.JWKSCache.LookForKeys` | internal/middleware/auth.go:55-64 | the read section of GetKeys: a hit exactly when keys are cached and younger than the ttl, else the stale copy |
| `JwksCaching.JWKSCache.LookForKid` | internal/middleware/auth.go:86-96 | the read section of RefreshForKID: a hit exactly when the cached set has the kid, at any age |
| `JwksCaching.JWKSCache.Finish` | internal/middleware/auth.go:66-80 | after the fetch: a fetched set is stored with its time and returned; a failure leaves the cache and returns the stale copy or an error |
| `JwksCaching.VerifyWith` | internal/middleware/auth.go:238-263 | the key loop passes if and only if some key of the set with the token's kid, or any key for an empty kid, verifies the token, and it stops at the first such key |
| `JwksRuns.RunKeepsInv` | internal/middleware/auth.go:55-115 | in every state of every run: cached keys were published within the fetch delay before they were stored, calls in flight saw the cache as it was, and every answer given was right when it was given |
| `JwksRuns.CallsGoOutIff` | internal/middleware/auth.go:55-98 | in every run: GetKeys goes to the network if and only if nothing is cached or it was stored at least `ttl` ago, RefreshForKID if and only if no cached key has the kid; every other call is answered at once with the cached set |
| `JwksRuns.FetchesAnswer` | internal/middleware/auth.go:66-80 | in every run: a successful fetch is stored with its time and returned; a failed one leaves the cache and returns the set seen at the start of the call, or an error if there was none |
| `JwksRuns.BoundedStaleness` | internal/middleware/auth.go:55-81 | a set that GetKeys serves from the cache was served by the endpoint within the last ttl + T, T bounding fetch start to store, even if an older fetch was stored after a newer one |
| `JwksRuns.AvailabilityAndProvenance` | internal/middleware/auth.go:55-115 | the cache is never emptied; a call errors if and only if its fetch failed and nothing had been stored when it looked; every returned set was published before |
| `JwksRuns.RotationIsFollowed` | internal/middleware/auth.go:83-115 | RefreshForKID returns a set with the kid whenever its fetch does not fail and the endpoint publishes the kid throughout the call |
| `JwksRuns.IdentitiesAreSigned` | internal/middleware/auth.go:228-263 | a token that passes the key loop over any returned set was verified by a key, with its kid, of a published set |
| `JwksRuns.RefreshBoundedIff` | internal/middleware/auth.go:86-112 | for every age: the bound of GetKeys holds for all cache hits of RefreshForKID at that age, in all runs, if and only if the age is at most the ttl |
| `JwksRuns.RefreshIgnoresAge` | internal/middleware/auth.go:86-94 | for every age and ttl there is a run in which RefreshForKID hits a cache of that age and returns a set last served when the fetch that filled the cache began |
| `UploadMany.RunInv` | sdk/js/src/client.ts:190-230 | in every state of every run: claimed indices are a prefix, each in flight in exactly one worker or settled, results are recorded for settled files only, and no worker is idle while files are unclaimed and nothing is aborted |
| `UploadMany.EachFileOnce` | sdk/js/src/client.ts:200-204 | two settlements of a run are never those of the same file |
| `UploadMany.ConcurrencyBound` | sdk/js/src/client.ts:200-225 | at most `concurrency` and at most n uploads are in flight (none if concurrency is negative), and exactly min(concurrency, n) while files are unclaimed and nothing is aborted |
| `UploadMany.Termination` | sdk/js/src/client.ts:200-227 | a run has at most n settlements; without an abort all workers have returned exactly when all n files have settled |
| `UploadMany.Confluence` | sdk/js/src/client.ts:190-229 | for any completion order without an abort, the final arrays equal those of a sequential pass if and only if concurrency is at least 1 or there are no files |
| `UploadMany.ExactlyOne` | sdk/js/src/client.ts:212-217 | after a whole run without an abort every file has a result or an error, and both if and only if its completion callback throws |
| `UploadMany.AbortStopsClaims` | sdk/js/src/client.ts:200-203 | after an abort no file is claimed, and every file outside the attempted prefix keeps neither result nor error |
| `UploadMany.Uploads.RunNext` | sdk/js/src/client.ts:199-204 | a worker's loop up to its next await claims the next index or ends |
| `UploadMany.Uploads.Settle` | sdk/js/src/client.ts:206-219 | a settling upload records its outcome at its own index in place and its worker goes on |
| `UploadMany.UploadAll` | sdk/js/src/client.ts:190-230 | the whole call returns the arrays of a sequential pass, whichever upload settles next; with concurrency below 1 it returns nothing but nulls |
| `LikePatterns.SearchMeansSubstring` | internal/repository/media.go:102-107 | `%s%` under ILIKE means "s occurs, letter by letter up to ASCII case" if and only if s has no metacharacter |
| `LikePatterns.TypeMeansPrefix` | internal/repository/media.go:109-113 | `p%` under LIKE means "starts with p" if and only if p has no metacharacter |
| `MediaList.PlainTextsMeanSubstringAndPrefix` | internal/handler/media_queries.go:52-70 | for plain texts the wanted rows are those of the organisation in which filename, original_filename, alt or caption contains the search text up to case and whose type starts with the prefix |
| `MediaList.WantedMeans` | internal/repository/media.go:97-113 | the rows of a listing: those of the organisation in which filename, original_filename, alt or caption is a text that ILIKEs the search pattern, if there is one, and mime_type a text that LIKEs the type pattern, if there is one |
| `MediaList.Build` | internal/repository/media.go:92-143 | for all options: placeholders are exactly 1..n for n arguments, both WHERE clauses keep exactly the wanted rows, and limit, offset, column and direction are the requested ones |
| `MediaList.List` | internal/repository/media.go:92-153 | for every table and every option: `total` counts the wanted rows and the items are the limit/offset slice of the sorted wanted rows, themselves sorted when the database sorts as ORDER BY says; an error exactly on a failed query or a negative offset |
| `MediaList.ListedMeans` | internal/repository/media.go:92-153 | for a lawful database: the total is the number of wanted rows of the table; a page has the requested size, or 50 outside 1..100, as far as rows are left; it is the slice of a sorted arrangement of exactly the wanted rows, by file_size, filename or else created_at, in the requested direction |
| `MediaList.AscendingMeans` | internal/repository/media.go:128-131 | the sort orders that are read as ascending: "asc" in any case, and with the long s that case folding identifies with s |
| `ListPaging.ListingsConcatenate` | internal/repository/media.go:92-153 | listings stepped by the effective limit, from a database that always sorts the same way, concatenate to the sorted wanted rows |
| `ListPaging.ListingsAreComplete` | internal/repository/media.go:134-152 | if no tie straddles a page boundary, the listings hold every wanted row exactly once however ties are broken each time |
| `ListPaging.TiedListingsLoseARow` | internal/repository/media.go:140-141 | if a tie straddles a page boundary, another lawful database makes two consecutive listings repeat one row and drop the other |
| `ListPaging.OwnLimitReadsAllIff` | internal/repository/media.go:93-95 | a client that steps by the limit it asks for reads all wanted rows if and only if that limit is at most 100 or there are at most 50 rows |
| `MediaUpdate.Builder.AddField` | internal/repository/media.go:175-179 | appends one assignment and its argument and keeps argIdx = len(args) + 1 |
| `MediaUpdate.AddFields` | internal/repository/media.go:181-210 | after the ten tests, each column is assigned exactly what was supplied for it, and no other column is |
| `MediaUpdate.Build` | internal/repository/media.go:170-220 | for every subset of the fields: no statement if and only if nothing is supplied, else a well-numbered one that selects exactly the row with the id and organisation and assigns exactly the supplied columns and `updated_at` |
| `MediaUpdate.Update` | internal/repository/media.go:170-224 | exactly the supplied columns and `updated_at` change, exactly on the matching rows; the identity when nothing is supplied |
| `FitInside.RoundedFits` | internal/processing/processor.go:206-217 | with any relative error up to 2^-53 on each operation and sizes below 2^31: within bounds and source, within a pixel of the exact size, and one side within a pixel of its bound when scaled |
| `FitInside.Idempotent` | internal/processing/processor.go:206-217 | fitting the result again changes nothing under any rounding |
| `FitInside.RoundingShowsIff` | internal/processing/processor.go:206-217 | with products below 2^51, a computed side is the integer division of source times bound under every rounding if and only if it is not whole before truncation; otherwise it can be one less |
| `FitInside.SideVanishes` | internal/processing/processor.go:216 | for each side, here the height: it is positive under every rounding if and only if srcH * maxW > srcW and maxH >= 2, and zero under every rounding if and only if srcH * maxW < srcW |
| `NearestRounding.HeightIsZeroIff` | internal/processing/processor.go:210-216 | under round-to-nearest the height is 0 if and only if srcH * maxW < srcW, or srcH * maxW == srcW or maxH == 1 and srcH times the rounded 1/srcH falls short of 1 by more than 2^-54 |
| `NearestRounding.WidthIsZeroIff` | internal/processing/processor.go:210-216 | under round-to-nearest the width is 0 if and only if srcW * maxH < srcH, or srcW * maxH == srcH or maxW == 1 and srcW times the rounded 1/srcW falls short of 1 by more than 2^-54 |
| `NearestRounding.LongImageInFloat64` | internal/processing/processor.go:210-216 | under round-to-nearest, 29400 x 49 into 600 x 600 has height 0 |
| `FitInside.LongImageVanishes` | internal/processing/processor.go:210-216 | 29400 x 49 into 600 x 600 with the errors of float64 gives 600 x 0, where exact arithmetic gives 600 x 1 |
| `FitInside.StrictAspectIff` | internal/processing/processor.go:206-217 | for products below 2^51, so for every source at the variant bounds: the cross products of source and result differ by at most a source side, and by less under every rounding if and only if the two sides are not both whole before truncation |
| `FitInside.ExactAspectRatio` | internal/processing/processor.go:206-217 | in exact arithmetic the cross products of source and result differ by less than the larger source side |
| `FitInside.AspectRatioKept` | internal/processing/processor.go:206-217 | for all sizes and any rounding the cross products of source and result differ by at most two millionths more than a source side |
| `FitInside.MonotoneInSquareBounds` | internal/processing/processor.go:206-217 | under any monotone rounding function a larger square bound never gives a smaller side |
| `FitInside.ComputedIsRounded` | internal/processing/processor.go:206-217 | what a monotone rounding function with relative error up to 2^-53 computes is one of the results that the rows on rounding speak about |
| `FitInside.VariantLadder` | internal/processing/variants.go:61-67 | the computed sizes for 600, 1024, 1440 and 2048 (small, medium, large, original_webp) are a non-decreasing ladder up to the source, however each was rounded |
| `FolderNames.GenerateFileFolderName` | internal/storage/folder.go:18-47 | the loop over the characters, the collapse and the trim compute the specified name |
| `FolderNames.StemMeans` | internal/storage/folder.go:19-21 | the extension that is cut off goes from the last dot on |
| `FolderNames.NoExtension` | internal/storage/folder.go:19-21 | a name without a dot after its last slash loses nothing |
| `FolderNames.CleanMeans` | internal/storage/folder.go:23-34 | A to Z become a to z, a to z, 0 to 9, hyphen and underscore stay, U+0130 and U+212A become i and k, and every other character becomes a hyphen |
| `FolderNames.NameIsNormal` | internal/storage/folder.go:14-47 | every name is the joined fields of the cleaned stem or "file": non-empty, over [a-z0-9_-], no double, leading or trailing hyphen |
| `FolderNames.MyPhoto` | internal/storage/folder.go:17 | the example in the source: "My Photo (2).jpg" gives "my-photo-2" |
| `FolderNames.FixedPoints` | internal/storage/folder.go:14-47 | the sanitiser leaves a name alone if and only if it is non-empty, over [a-z0-9_-], without double, leading or trailing hyphens; so it is idempotent |
| `FolderNames.TimestampedInjective` | internal/storage/folder.go:53-57 | two folder names are equal if and only if sanitised name and milliseconds are |
| `FolderNames.ProfileImage` | internal/storage/folder.go:52 | the example in the source: "profile-image" at 1708967531234 gives "profile-image-1708967531234" |
| `ObjectKeys.ParseIsLossless` | internal/storage/folder.go:120-150 | every key can be rebuilt from its parsed structure |
| `ObjectKeys.ParseMeans` | internal/storage/folder.go:101-150 | organisation, folder, filename and legacy flag of every key, by its slashes: new-style exactly with two slashes and a filename with a dot that starts with "original." or has no hyphen |
| `ObjectKeys.ParseAgreesWithExtract` | internal/storage/folder.go:91-150 | for every key, the parsed folder and the last-slash folder agree |
| `ObjectKeys.VariantKeyParses` | internal/storage/folder.go:83-86 | the key of every default variant parses back to slug, folder and filename if and only if the slug has no slash |
| `ObjectKeys.VariantKeysAre` | internal/processing/variants.go:61-67 | the five keys: thumbnail, small, medium, large and original_webp, each with .webp, in the folder |
| `ObjectKeys.OriginalKeyParses` | internal/handler/upload.go:97-106 | the key of every upload parses back to slug, folder and filename if and only if the slug has no slash, and as a legacy key otherwise |
| `ObjectKeys.ExtensionMeans` | internal/handler/upload.go:99-102 | the extension of an uploaded object is what follows the last dot of the filename, or the fallback if that is empty or there is no dot |
| `ObjectKeys.FoldersMixIff` | internal/handler/delete.go:64-66 | for all slugs, one folder's prefix takes a key of another folder if and only if the folders are equal or the first folder is a part of the second slug |
| `ObjectKeys.SlashesNest` | internal/handler/upload.go:105 | a slug that is another upload's folder, or continues it, puts one folder inside the other |
| `ObjectKeys.PrefixIsolation` | internal/handler/delete.go:64-66 | among folders of the shape slug/name, one folder's prefix takes a key of another folder if and only if the folders are equal |
| `ObjectKeys.PublicURLInjective` | internal/storage/s3.go:131-142 | public URLs of different keys differ |
| `Lifecycle.StepKeeps` | internal/handler/upload.go:111-221 | every step of every upload, crop, worker or delete keeps the invariant and what the other programs rely on |
| `Lifecycle.NextKeeps` | internal/handler/upload.go:111-221 | a new request, a crash and a step of any program keep the invariant of the whole system |
| `Lifecycle.EveryRunIsSafe` | internal/handler/delete.go:37-73 | in every interleaving of uploads, crops, workers and deletes with crashes between any two calls: each row has its original in the bucket, a thumbnail URL is that of a stored thumbnail in the row's folder, and variant rows name stored objects of that folder |
| `Handlers.MediaService.DeletePrefix` | internal/storage/s3.go:113-129 | removes exactly the listed keys whose removal succeeds; everything under the prefix and nothing else when nothing fails |
| `Handlers.MediaService.ProcessVariants` | internal/queue/worker.go:114-177 | under any pattern of failures, the result lists the stored variants in the order of the defaults, and exactly their objects are written |
| `Handlers.MediaService.Persist` | internal/queue/worker.go:91-106 | rows and URL after the variants; old variant rows are replaced on the sync crop path only |
| `Handlers.MadeFiles` | internal/queue/worker.go:98-105 | after variants are made and saved, whatever failed: a row that is there carries the public URL of the folder's thumbnail.webp exactly if the thumbnail was stored and the update went through, else what it carried before; nothing else about the rows changes |
| `Handlers.MadeObjects` | internal/queue/worker.go:117-129 | after variants are made, whatever failed: each stored variant's object holds its own image, and no other object is touched |
| `Handlers.MadeVariants` | internal/queue/worker.go:91-96 | after variants are saved, whatever failed: one row for each stored variant, with its name and key, and the rows from before except those that a crop at once replaces |
| `Handlers.MediaService.ProcessTask` | internal/queue/worker.go:61-110 | an error, with nothing changed, exactly when the original cannot be read; else the exact objects, variant rows and thumbnail URL for every pattern of failures; the row gets the URL exactly if the thumbnail was stored and the update went through; a run of its program |
| `Handlers.MediaService.Upload` | internal/handler/upload.go:97-271 | the exact status, rows, thumbnail URL, task and original for every pattern of failures; a run of its program |
| `Handlers.MediaService.Crop` | internal/handler/crop.go:59-184 | the exact status, row (type, size, thumbnail URL), task and objects for every pattern of failures; no object and no row is lost; a run of its program |
| `Handlers.MediaService.Delete` | internal/handler/delete.go:17-77 | the exact status, rows and objects for every pattern of failures, also when removals fail or the listing breaks off; a run of its program unless the lookup by key or the deletion of the row fails |
| `Handlers.VariantsFrame` | internal/queue/worker.go:114-145 | making variants never writes an original or another folder's object, whatever fails |
| `Handlers.VariantKeysDiffer` | internal/queue/worker.go:124 | the variants of a folder have pairwise different keys |
| `HandlerSafety.ProgramIsSafe` | internal/handler/upload.go:111-221 | from a good world, an admitted handler leaves a good and safe world wherever it stops |
| `HandlerSafety.UploadIsAdmitted` | internal/handler/upload.go:97-106 | every upload under a slash-free slug into an unused folder is admitted |
| `DeleteLaw.DeleteIsSafeIff` | internal/handler/delete.go:49-73 | a delete whose removals succeed leaves the world safe if and only if every row stored under the removed folder is the row that the lookup found and its deletion succeeds |
| `DeleteLaw.DeleteByVariantKeyIsUnsafe` | internal/handler/delete.go:49-73 | a delete by the key of a variant that names no row takes the live row's original |
| `DeleteLaw.DeleteByForeignKeyIsUnsafe` | internal/handler/delete.go:49-73 | a delete by the key of another organisation's file finds no row and takes the live row's original |
| `DeleteLaw.FoundDeleteIsSafe` | internal/handler/delete.go:37-73 | a delete that finds its row, and whose statements succeed, is always safe |
| `DeleteLaw.DeleteUndoesUpload` | internal/handler/delete.go:37-73 | a delete of a new upload in which nothing fails brings back the rows, variant rows and objects from before, whatever failed while its variants were made |

## Left out

- HTTP plumbing: routing, JSON and multipart decoding, CORS, configuration, health, download, presigning, showcase; the handlers start after their input is read.
- Image and video work (libvips, ffprobe, ffmpeg, the crop itself, metadata): a free success or failure with a free result; MIME tables and extension lookups are the parameters `Mime` and `fallback`.
- Buckets: there is one, the one the rows name; a request that names another bucket is not modelled.
- `VariantRegenerate` (with its placeholder media id), job status and `waitForJob`: they tie variants to no real row or depend on queue internals.
- The queue's own bookkeeping: a task may be taken any number of times at any time, which covers retries; payloads without a MIME type are not modelled.
- One row per variant name: the worker only inserts, so it does not hold after an asynchronous crop and is not claimed.
- The columns of a row that the lifecycle neither reads nor writes (alt, caption, dimensions, timestamps) in `MediaWorld.File`; `MediaUpdate` has them.
- `CreateBatch` is one atomic insert that succeeds or fails as a whole; its identifiers and times are left out, so its ON CONFLICT clause never applies.
- A failed lookup in a delete by key and a failed deletion of the row are excluded from `Lifecycle.Run`, as is a delete by a key that the caller's organisation never had, and an upload folder that was used before or has another shape than slug/name: `DeleteLaw.DeleteIsSafeIff`, `ObjectKeys.FoldersMixIff` and `FolderNames.TimestampedInjective` say what happens otherwise.
- SQL text: statements are their clauses; PostgreSQL's parser, types and locale rules are not modelled, and the collation and the choice among ties are parameters. The count and the page query see one and the same table.
- LikePatterns.SearchMeansSubstring: case folding is that of ASCII letters, because the database's folding depends on its locale.
- FitInside.RoundedFits: rounding is a relative error per operation, or a monotone function with that error, not the bits of float64; sizes are positive and below 2^31, which bounds the rounding error; a zero or negative source side divides by zero in floating point and is not modelled.
- JwksCaching.VerifyWith: whether a key verifies a token is an oracle; parsing, the allowed algorithms and the issuer, audience and time checks come before or after the loop and are not modelled.
- RateLimiting.RateLimiter.Sweep: one pass of the loop; the minute's pause between passes and the wrap-around of counters and durations are not modelled.
- UploadMany.Confluence: a throwing `onFileError`, which rejects the whole call, and a concurrency that is not a whole number are not modelled; the requests themselves settle once, with any outcome.
- The React hooks and components of the SDK: user interface state.
