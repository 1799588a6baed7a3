# e621-downloader in Dafny

A model of the core of e621-downloader. The program takes a list of
references to posts on the e621 image board and fetches the matching post
records. A reference is a direct image link carrying an MD5 hash, a post
page link, a pool link (older revision only) or a plain tag query. It then
downloads each post's file into a directory.

The model covers both revisions of the program:

- The current `src/index.js` with its array helpers and `RequestPromise.fetch`.
- The older top-level `index.js`.

The modules follow the program's layers:

| module | file | what it holds |
|---|---|---|
| `Promises` | promises.dfy | `undefined` as `Option`, failure reasons, settled promises, and a call that throws before returning a promise (`Call.Threw`) |
| `Text` | text.dfy | `split` on one character, `join`, ASCII `toLowerCase`, decimal rendering of numbers |
| `Request` | request.dfy | `RequestPromise.fetch`: URL and query assembly, the `json` flag, how the transport's answer settles the promise |
| `ArrayUtils` | arrays.dfy | `forEachAsync`, `mapAsync`, `flatten`, `unique` |
| `Patterns` | patterns.dfy | the regular expressions used to classify references, as predicates over positions, and the extraction of a hash or an id |
| `Catalog` | catalog.dfy | post records, the remote endpoints as oracles keyed by URL, paginated search, lookup by MD5 and by id, the blacklist filter |
| `Fetch` | fetch.dfy | `E621.fetch` of `src/index.js` |
| `Legacy` | legacy.dfy | `getPost`, `getPool` and `fetch` of the older `index.js`, as written and as evidently intended |
| `Download` | download.dfy | `E621.download` (same logic in both revisions) |
| `Corrections` | corrections.dfy | corrected helpers: an empty array handled, uniqueness by post id, and `fetch`/`download` built on them |

How the runtime is modelled:

- An asynchronous chain becomes the final state of its promise (`Settled`).
- A callback that throws synchronously at index 0 of `mapAsync`/`forEachAsync` is a throw from the whole call (`Call.Threw`). The same failure at a later index is a rejection.
- The network is a pair of functions from request URL to the transport's reply, so the URL each request sends is part of the model.
- The file system is a set of existing paths.
- Whether each file transfer succeeds is a function of the post's index.
- A JavaScript object's identity is the `ref` field of `Post`, and `unique` compares by identity. The model assumes that every lookup parses fresh objects, so two lookups of one catalog entry give two distinct `ref`s. The network functions do not enforce this; `Fetch.SameIdKeptTwice` states it as a requirement (`a.ref != b.ref`).
- `existsSync` finds the directory once it exists, and also the names inside it that mean the directory or its parent (`d/`, `d/.`, `d/..`); `Download.DirPaths` adds these to the existing paths.

The older revision's `search`, `searchByMD5` and `searchAll` (index.js:21-25 and 46-61) and its `download` (index.js:144-194) match the current ones apart from logging. They are modelled once, by `Catalog` and `Download`. The older aggregation (index.js:134-142) reuses `Fetch.Aggregate`.

Pagination (`searchAll`, `getPool`) recurses until a page comes back empty or rejects. The model takes the catalog to be finite: the requirement `Exhausts(net, bound)` states that page `bound` ends every search, and `PoolsExhaust` states the same for pools. `Catalog.PaginateBoundIrrelevant` shows that the result does not depend on which such bound is chosen.

## Model

| member | source | states |
|---|---|---|
| Text.LowerAscii | src/index.js:97 | `toLowerCase` keeps the length; each upper-case ASCII letter becomes the letter 32 code points on, every other character is kept, and no upper-case letter remains |
| Text.Split | src/index.js:97 | `split(' ')` always yields at least one piece, no piece holds the separator, and joining the pieces back gives the input |
| Text.SplitJoin | src/index.js:97 | splitting a join recovers the pieces when none holds the separator |
| Text.NatToString | src/RequestPromise.js:22 | the decimal rendering of a number is non-empty, all digits, without a leading zero, and spells the number back |
| Request.Prepare | src/RequestPromise.js:15-28 | the URL is `options.url` when non-empty, else `url`, followed by `?` and the query when there are parameters; the user agent and `qs.limit` 100 are fixed |
| Request.QueryRoundTrip | src/RequestPromise.js:16-25 | splitting the query on `&`, and each piece at its first `=`, recovers every key and rendered value when keys hold no `&`/`=` and values no `&` |
| Request.ListRoundTrip | src/RequestPromise.js:19-20 | an array parameter splits back on `+` into its elements when no element holds `+` |
| Request.PlusIsAmbiguous | src/RequestPromise.js:19-20 | without encoding, `["a+b"]` and `["a","b"]` give the same query text |
| Request.JsonFlagIgnoresOptions | src/RequestPromise.js:26 | the `json` flag depends only on the `url` argument ending in `json`, case-insensitively |
| Request.Settle | src/RequestPromise.js:29-41 | a transport error rejects with it; a status other than 200 rejects with `Status Code: N` whose digits spell N; only a 200 resolves, with the body |
| ArrayUtils.Calls | src/index.js:11 | the helpers make at least one call, and at least as many calls as there are elements |
| ArrayUtils.MapAsync | src/index.js:18-33 | throws exactly when the call at index 0 throws; on success every call resolved and at most one value per call is kept |
| ArrayUtils.MapAsyncCollects | src/index.js:18-33 | when every call resolves, the result is the defined call results in call order |
| ArrayUtils.MapAsyncStopsAtFailure | src/index.js:21-30 | the first failing call decides the outcome: a throw at index 0 throws, any other failure rejects with its reason |
| ArrayUtils.FlattenDefinedFrom | src/index.js:18-36 | the leaves of the collected results are exactly the leaves of some call's defined result |
| ArrayUtils.ForEachAsync | src/index.js:6-17 | throws exactly when the callback throws at index 0, with its reason |
| ArrayUtils.ForEachAsyncFolds | src/index.js:6-17 | on a non-empty array whose callback always resolves, the chain is the left fold of the callback over the elements |
| ArrayUtils.EmptyArrayCallsOnce | src/index.js:6-33 | on an empty array both helpers still call the callback once, with `undefined` and index 0 |
| ArrayUtils.Flatten | src/index.js:34-36 | the result holds no arrays |
| ArrayUtils.FlattenAppend | src/index.js:35 | `flatten` distributes over concatenation |
| ArrayUtils.FlattenFlat | src/index.js:34-36 | a flat array is unchanged, so `flatten` is idempotent |
| ArrayUtils.FlattenMembers | src/index.js:34-36 | a value is in the result exactly when it is a non-array found at some depth in the input |
| ArrayUtils.Unique | src/index.js:37-42 | the result has no duplicates, the same members as the input, and equals the first-occurrence reference `KeepFirst` |
| ArrayUtils.KeepFirstMembers | src/index.js:37-42 | keeping first occurrences keeps every member |
| ArrayUtils.KeepFirstOfDistinct | src/index.js:37-42 | a duplicate-free array is its own first-occurrence list |
| ArrayUtils.UniqueIdempotent | src/index.js:37-42 | `unique` applied twice is `unique` once |
| Patterns.FirstHash | src/index.js:71 | the extracted hash is 32 lower-case hex digits at the leftmost such run; none only when no run exists |
| Patterns.ShowId | src/index.js:84 | the extracted id is the maximal digit run after the leftmost `show/` followed by a digit; none only when there is no such place |
| Patterns.DirectHasHash | src/index.js:70-71 | whenever the direct-link pattern matches, a hash can be extracted |
| Patterns.PostLinkHasId | src/index.js:83-84 | whenever the post-link pattern matches, `match(...)[1]` finds an id |
| Patterns.SchemeLinkHasId | index.js:12-16 | whenever the older post or pool pattern matches, the id pattern finds an id |
| Patterns.NoSlashMatchesNothing | index.js:12-16 | a reference without `/` (a plain tag query) matches no link pattern and yields no id |
| Catalog.EndpointsAreJson | index.js:8-10 | all three endpoints end in `json`, so bodies arrive parsed |
| Catalog.Paginate | src/index.js:54-66 | a resolved result extends the accumulated posts; a rejection is the rejection of some requested page |
| Catalog.PaginateConcatenates | src/index.js:54-66 | for non-empty pages followed by an empty page, the result is their concatenation in page order |
| Catalog.PaginateRejects | src/index.js:57-64 | the first rejected page, after only non-empty ones, rejects the whole search with its reason |
| Catalog.PaginateBoundIrrelevant | src/index.js:54-66 | the result does not depend on the stopping bound chosen |
| Catalog.SearchUrl | src/index.js:45-47 | `search(tags, page)` requests the index endpoint with `tags` joined by `+`, then `limit=100`, then the page number, in that order |
| Catalog.SearchAllPages | src/index.js:54-66 | `searchAll` from page 1 yields the concatenation of every page up to the first empty one, with the total count |
| Catalog.ConcatLength | src/index.js:62 | the number of posts gathered is the sum of the page sizes |
| Catalog.SearchByMD5Asks | src/index.js:51-53 | `searchByMD5(h)` requests page 1 of the search `md5:h` with page size 100; it resolves exactly when that answer has status 200, then with the first post of the body or `undefined` for an empty one; a transport error rejects with it |
| Catalog.SearchByIDAsks | src/index.js:48-50 | `searchByID(n)` requests page 1 of the search `id:n` with page size 100; it resolves exactly when that answer has status 200, then with the first post of the body or `undefined` for an empty one; a transport error rejects with it |
| Catalog.FilterBlacklist | src/index.js:108 | keeps exactly the posts none of whose tags is blacklisted; every dropped post had a blacklisted tag |
| Catalog.FilterBlacklistInOrder | src/index.js:108 | the filter works post by post: filtering a concatenation concatenates the filtered parts, and one post is kept exactly when it is not blacklisted, so the kept posts stay in input order |
| Catalog.FilterConcat | src/index.js:108 | filtering all pages at once is filtering each page and concatenating, in page order |
| Catalog.FilterBlacklistIdempotent | src/index.js:108 | filtering twice is filtering once |
| Catalog.ResolveTags | src/index.js:100-115 | a tag query's contribution: nothing when the search rejects, else exactly the search results that are not blacklisted |
| Catalog.ResolveTagsPages | src/index.js:100-115 | for pages ending in an empty one, a tag query contributes the non-blacklisted posts of each page, page by page in order |
| Catalog.Objs | src/index.js:119 | posts as non-array values, one per post at the same position |
| Fetch.Classify | src/index.js:70-97 | a reference is a hash link exactly when the direct pattern matches, else a post link exactly when that pattern matches, else a tag query split from its lowered text |
| Fetch.PlainQueryIsTagSearch | src/index.js:96-97 | a reference without `/` is a tag search over its lowered words |
| Fetch.TagWordsRoundTrip | src/index.js:96-97 | lower-case tag words without space or `/`, joined with spaces, classify back to exactly those words |
| Fetch.Step | src/index.js:69-117 | the callback throws exactly on `undefined` (TypeError); a tag query never rejects, because its search failures are caught and every listed post carries string tags for the filter |
| Fetch.NonNull | src/index.js:119 | `filter(p => p != null)` keeps exactly the objects, without adding duplicates |
| Fetch.NonNullAppend | src/index.js:119 | the `null` filter works element by element: it distributes over concatenation, so order is kept |
| Fetch.NonNullKeepFirst | src/index.js:119 | `unique` followed by the `null` filter keeps the first occurrence of each object among the non-null values, in order |
| Fetch.Aggregate | src/index.js:118-122 | the aggregated posts are exactly the objects among the flattened results, each object at its first appearance, in the order of the leaves |
| Fetch.Fetch | src/index.js:67-127 | throws a TypeError exactly for an empty list; otherwise resolves, without duplicate objects |
| Fetch.StepContributes | src/index.js:69-117 | one reference's call resolves exactly when its contribution does, and its leaves are exactly the contributed posts |
| Fetch.FetchCollects | src/index.js:67-122 | when every contribution resolves, a post is fetched exactly when some reference contributed it |
| Fetch.StepFlattens | src/index.js:69-117 | the leaves one resolved call adds, with `null` dropped, are the reference's contribution in order |
| Fetch.GatheredFrom | src/index.js:18-33 | what `mapAsync` collects from an index on, flattened and without `null`, is the contributions of those references one after another |
| Fetch.FetchInOrder | src/index.js:67-122 | when every contribution resolves, `fetch` resolves with the contributions concatenated in reference order, each object kept at its first appearance |
| Fetch.FetchCollapses | src/index.js:123-126 | one rejected lookup makes the whole fetch resolve to `[]` |
| Fetch.FetchKeeps | src/index.js:118-122 | every contributed post survives aggregation |
| Fetch.SameIdKeptTwice | src/index.js:119 | two objects for one catalog entry both survive `unique`, so the result repeats an id |
| Legacy.PostRequestUrl | index.js:26-30 | `getPost` requests `post/show.json?id=ID` |
| Legacy.PoolRequestUrl | index.js:35-37 | a pool page request is `pool/show.json?id=ID&page=N` |
| Legacy.GetPoolAsWritten | index.js:31-45 | the pool lookup resolves exactly when page 1 is empty, and then to `[]`; a rejected page 1 rejects with its reason; a non-empty page 1 rejects with a ReferenceError for `_getPoolpage` |
| Legacy.GetPoolConcatenatesPages | index.js:31-45 | with the name corrected, the pool lookup is the concatenation of its pages, where the code as written rejects |
| Legacy.ClassifyAsWritten | index.js:65-96 | a direct link is a hash, a post link is a post, anything else with a `show/N` is a pool; with no id the classification fails; a tag search is never reached |
| Legacy.Classify | index.js:65-111 | with the pool guard testing the pool pattern, every reference is exactly one of hash, post, pool or tag query |
| Legacy.ClassifiersAgreeOnLinks | index.js:65-96 | on links both classifications agree |
| Legacy.PlainTagQueryUnclassified | index.js:95-111 | a plain tag query fails under the code as written but is a tag search once corrected |
| Legacy.FoundOrNull | index.js:84-94 | a single-post lookup yields the found post, or `null` when the body is `null` |
| Legacy.FoundOrNullFiltered | index.js:84-94 | after the final `null` filter a single-post lookup contributes the post it found, or nothing |
| Legacy.StepAsWritten | index.js:64-132 | the callback throws a TypeError exactly on `undefined` or on a reference that is neither a direct link nor a post link and has no `show/N` |
| Legacy.FetchAsWritten | index.js:62-143 | throws exactly for an empty list or when the first reference is neither a direct link nor a post link and has no `show/N`; otherwise resolves, without duplicates |
| Legacy.PlainTagQueryCrashes | index.js:95-96 | any plain tag query in the list makes the fetch throw a TypeError when the first reference cannot be classified, and resolve to `[]` otherwise |
| Legacy.PoolLinkYieldsNothing | index.js:95-142 | a pool link to a non-empty pool contributes nothing: the fetch resolves to `[]` |
| Legacy.Step | index.js:64-132 | corrected callback: throws only on `undefined`; a tag query never rejects, because its search failures are caught and every listed post carries string tags for the filter |
| Legacy.FetchCorrected | index.js:62-143 | corrected fetch: throws exactly for an empty list; otherwise resolves, without duplicates |
| Legacy.SingleFetch | index.js:134-138 | a single reference's fetch returns exactly the objects among its callback's result |
| Legacy.PoolLinkFetchesPool | index.js:95-109 | corrected, a pool link fetches exactly the posts of the pool's pages |
| Legacy.TagQueryFetchesTags | index.js:110-131 | corrected, a plain tag query fetches exactly its non-blacklisted search results, where the code as written throws |
| Download.FirstInvalid | src/index.js:137-142 | none exactly when every post has a truthy id, size and URL; otherwise the first post that does not |
| Download.FileName | src/index.js:146 | `split('/').pop()` is the text after the last `/`, or the whole URL when it holds none |
| Download.DownloadAll | src/index.js:128-171 | the directory is made exactly when missing; the call throws for an empty list or the first invalid post; otherwise it is the run over all posts, starting from the existing paths plus the directory's own names |
| Download.RunIsForEach | src/index.js:145-164 | on valid non-empty input, `forEachAsync` with the visit callback is the run over all posts |
| Download.DownloadedPathsStep | src/index.js:155-158 | one more downloaded verdict adds exactly its path |
| Download.RunCounts | src/index.js:136-162 | each counter equals the number of verdicts of its kind; the three sum to the posts visited; one transfer per non-skipped post |
| Download.RunProgresses | src/index.js:148 | progress is the sum of the sizes of the posts visited |
| Download.RunJudges | src/index.js:146-162 | every verdict names its post's target path and is a download exactly when the transfer succeeds, unless skipped |
| Download.RunFiles | src/index.js:150-158 | a post is skipped exactly when its file existed or an earlier post downloaded to the same path; only new paths are transferred to |
| Download.RunAccounts | src/index.js:145-164 | the four accounts above hold together after any number of visits |
| Download.DownloadAccounts | src/index.js:128-171 | a completed download's progress equals its total, the counters sum to the post count, each post is skipped exactly when its target existed (the directory's own names included) or an earlier post downloaded it, and the files present are the old ones plus those downloaded |
| Download.DirectoryNameSkipped | src/index.js:146-152 | a post whose file name is empty, `.` or `..` targets the directory or its parent: it is skipped and nothing is transferred to that path |
| Download.SecondRunSkipsAll | src/index.js:150-152 | after a download in which every transfer succeeded, repeating it skips every post and transfers nothing |
| Download.CompletedRunLeavesFiles | src/index.js:155-158 | when every transfer succeeds, every post's target exists afterwards |
| Download.AllPresentSkipped | src/index.js:150-152 | when every target exists, every visit skips and nothing is transferred |
| Corrections.MapAsyncChecked | src/index.js:18-33 | an empty array resolves to `[]` without calling back; otherwise behaves as `mapAsync` |
| Corrections.ForEachAsyncChecked | src/index.js:6-17 | an empty array resolves without calling back; otherwise behaves as `forEachAsync` |
| Corrections.ForEachAsyncCheckedFolds | src/index.js:6-17 | with a callback that always resolves, the result is the fold, including on an empty array |
| Corrections.UniqueById | src/index.js:37-42 | keeps one post per id: ids distinct, only input posts, every input id present, never longer |
| Corrections.FirstByIdIds | src/index.js:37-42 | the first-by-id reference keeps every id exactly once |
| Corrections.UniqueByIdIsFirstById | src/index.js:37-42 | the correction keeps the first post of each id, in input order |
| Corrections.FirstByIdKeepFirst | src/index.js:37-42 | dropping repeated objects before keeping the first post of each id changes nothing |
| Corrections.UniqueByIdKeepsDistinct | src/index.js:37-42 | input whose ids are already distinct passes through unchanged |
| Corrections.IdsCount | src/index.js:37-42 | posts with distinct ids have as many ids as posts |
| Corrections.UniqueByIdIdempotent | src/index.js:37-42 | deduplicating by id twice is doing it once |
| Corrections.FetchFixed | src/index.js:67-127 | the corrected fetch, built on the checked `mapAsync`, always resolves, with distinct ids; an empty list gives `[]`, any other list the original's result with repeated ids removed |
| Corrections.FetchFixedInOrder | src/index.js:67-122 | when every contribution resolves, the corrected fetch gives the first post of each catalog entry, in the order the references contribute them |
| Corrections.FetchFixedCollects | src/index.js:67-122 | every fetched post was contributed by some reference, and every contributed post's id is fetched |
| Corrections.SameIdKeptOnce | src/index.js:119 | when all contributions are one catalog entry, the corrected fetch keeps exactly one post |
| Corrections.OneEntry | src/index.js:119 | objects sharing one id deduplicate to a single post with that id |
| Corrections.DownloadFixed | src/index.js:128-171 | built on the checked `forEachAsync`: throws only for an invalid post; on a completed run progress equals total and the counters sum to the post count; on a non-empty batch it is the original |
| Corrections.EmptyBatchCountsNothing | src/index.js:128-171 | the corrected download of `[]` resolves with all counters zero where the source throws |

## Left out

- HTTP transport, streaming of file bodies and `RequestPromise.download`, including the deletion of a partial file on failure. A transfer is an oracle outcome per post index, and a failed transfer is taken to leave no file.
- Path resolution (`FilePromise.resolve`, `RequestPromise.resolve`) against the application directory. The directory is taken as already resolved.
- Logging, `Format.bytes`, and the floating-point percentage in the progress line. They only produce text.
- `FileExplorer.goto` and the final `.then`/`.catch` of `download`, which only log. The model stops at the result of `forEachAsync`.
- `fetchAndDownload`, a composition of `Fetch.Fetch` and `Download.DownloadAll`.
- The program's entry point and `test.js`, outside the core.
- The `qs: {limit: 100}` option is recorded (`Prepared.qsLimit`) but not merged into the URL. The `request` library's merging and percent-encoding are not part of this model.
- `JSON.parse` of a string body and bodies that are not arrays. Every endpoint ends in `json`, so bodies arrive parsed (`Catalog.EndpointsAreJson`). A list endpoint is taken to answer with an array and the post endpoint with an object or `null`.
- `RequestPromise.get` and the array helpers of the older revision (`utils/Array`, `utils/RequestPromise`) are not part of this model. They are taken to behave as the current revision's `fetch`, `mapAsync` and `forEachAsync`.
- Text.LowerAscii: lowers ASCII letters only, not the full Unicode case mapping of `toLowerCase`.
- Patterns.FirstHash, Patterns.ShowId: the regular expressions are stated as position predicates for the shapes the source uses, not through a general regular-expression engine.
- Catalog.SearchAll: the pagination recursion is bounded by the finiteness assumption `Exhausts`. An endless catalog, where every page is non-empty, is not modelled.
- Legacy.GetPool: same for pools, bounded by `PoolsExhaust`.
- Download.DownloadAll: the size and counter additions use unbounded integers, while JavaScript numbers lose precision above 2^53.
- Fetch.Fetch: its ensures states only the shape of the result; what the result contains, and in which order, is in `Fetch.FetchCollects`, `Fetch.FetchInOrder` and `Fetch.FetchCollapses`.
- Fetch.Step: every listed post is taken to carry a string `tags`. In the source the blacklist filter (src/index.js:108) runs after the search's `catch` (src/index.js:101), so a post whose `tags` is not a string would make the tag branch reject and the whole fetch resolve to `[]`; the model cannot express that post.
- Legacy.Step: the same assumption; the older filter (index.js:123) also runs after its `catch` (index.js:115).

## Findings

| source | as written | input that shows it | evidently intended | confidence | as-written member | corrected member |
|---|---|---|---|---|---|---|
| index.js:95 | `else if (POOL_REGEX)` tests a regular-expression object, which is always truthy, so the tag-search branch at line 110 is unreachable and `item.match(ID_REGEX)[1]` reads index 1 of `null` | the todo list `["cat"]`: fetch throws a TypeError synchronously | `else if (POOL_REGEX.test(item))`, so plain tag queries run a tag search | high (not executed) | Legacy.ClassifyAsWritten, Legacy.PlainTagQueryCrashes | Legacy.Classify, Legacy.TagQueryFetchesTags |
| index.js:42 | the recursion calls `_getPoolpage`, while the function is named `_getPoolPage`, so a non-empty first pool page raises a ReferenceError, and the fetch's catch turns it into `[]` | a pool link whose page 1 holds one post: fetch resolves to `[]` | `_getPoolPage(page + 1)`, so all pages are gathered | high (not executed) | Legacy.GetPoolAsWritten, Legacy.PoolLinkYieldsNothing | Legacy.GetPool, Legacy.GetPoolConcatenatesPages, Legacy.PoolLinkFetchesPool |
| src/index.js:6-33 | `_next(0)` calls the callback on `iterable[0]` even for an empty array, so `fetch([])` and `download([])` call it on `undefined` and throw a TypeError synchronously, past their `.catch` | `E621.fetch([])`, `E621.download([])` | an empty array resolves at once without calling back (`[]` for `mapAsync`) | high (not executed) | ArrayUtils.EmptyArrayCallsOnce, Fetch.Fetch, Download.DownloadAll | Corrections.MapAsyncChecked, Corrections.ForEachAsyncCheckedFolds, Corrections.FetchFixed, Corrections.DownloadFixed, Corrections.EmptyBatchCountsNothing |
| src/index.js:119 | `unique` compares by object identity, and each lookup parses a fresh object, so a post reached by two references (a hash link and a tag query) is kept twice | the todo list `[<direct link to post 5>, "tag_of_post_5"]` with post 5 in the tag's results: the fetched list holds post 5 twice | one entry per post id | medium (not executed) | Fetch.SameIdKeptTwice | Corrections.UniqueByIdIsFirstById, Corrections.SameIdKeptOnce, Corrections.FetchFixedInOrder |
