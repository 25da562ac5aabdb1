# Project Station core, in Dafny

Project Station is a dashboard where founders record project ideas, check them against community discussion, and follow trend feeds. This project models the core of that application as immutable datatypes and pure functions, and proves what the code promises about them.

- **Trend ingestion** (`Rss`). The hot score, the Hacker News points parser, and the two RSS item parsers. The feed loop that collects up to `limit` parsed items. The Hacker News top-story filter. The dispatch by source type.
- **Community search** (`Reddit`). The post mapping. The fan-out over subreddits, where a failing subreddit is skipped. The merge through an id-keyed `Map`, which keeps the first position and the last value. A stable descending sort by score and the cut to `2 * limit`.
- **The AI collaborator's deterministic parts** (`OpenAi`). The 8-keyword cap, the quoted-string extraction, and the fallback keywords. The 10-post analysis sample, the score clamp, and the neutral default result. The chat completion and `JSON.parse` are parameters.
- **Authorisation** (`Admin`). The comma-separated allow-list. The fail-closed administrator lookup.
- **The trend endpoints** (`TrendStore`, `TrendsRoute`, `TrendSourcesRoute`). The refresh is one transition over an abstract store of sources and trends: guard, get-or-create the Hacker News source, prune, fetch, replace today's batch, stamp `refreshedAt`. The same modules hold the listing of active sources with their top 50 trends, and the guarded creation and listing of sources.
- **Input schemas** (`Schema`, `ProjectSchema`, `KeywordSchema`). Length, range and enumeration checks with defaults. Update schemas are optional and apply no defaults.
- **Client-side list edits** (`ValidationDialog`, `KeywordDialog`). The duplicate-free keyword list and the empty guard before validation. Long-tail append and removal by index. Project toggling. The form reset on open.
- **Bookmarks** (`BookmarksRoute`). The nine default bookmarks and their idempotent seeding. The guarded creation of a user's own bookmark.

The ECMAScript behaviour the code relies on is modelled once in shared modules:
- `JsText`: `trim`, `split` and `join`.
- `JsArray`: `slice(0, end)` with a negative `end`, and `filter`.
- `StableSort`: the stable `Array.prototype.sort`.
- `KeyedMap`: a `Map` built from entries.

Effects become inputs:
- the clock (`Clock`: now, start of today, start of yesterday);
- the network (`Rss.Network`, a search oracle per request);
- the identity provider (an optional session id);
- the user table (a map, or a store error);
- `new URL(url).origin`, as a function parameter.

## Model

| member | source | states |
|---|---|---|
| Rss.HotScore | lib/rss.ts:31-35 | The hot score weighs score 3 to comments 2: five times the score equals 3·score + 2·comments. |
| Rss.HotScoreMonotone | lib/rss.ts:31-35 | The hot score is 0 at (0,0). It does not decrease when either input grows, and it strictly increases when one grows. |
| Rss.ExtractHNPoints | lib/rss.ts:49-53 | Missing, empty or digit-free text gives 0. Otherwise the result is the decimal value of the first maximal run of ASCII digits. |
| Rss.FirstDigitRunUnique | lib/rss.ts:51 | The first maximal digit run that the regular expression matches is unique. |
| Rss.ExtractHNPointsOfText | lib/rss.ts:49-53 | Text of the form "123 points" yields exactly the number written at its start. |
| Rss.DecimalValueOfText | lib/rss.ts:52 | `parseInt(_, 10)` of the decimal text of n is n. |
| Rss.PublishedText | lib/rss.ts:71 | The date is `pubDate` when that is truthy, else `isoDate`, and it is absent only when both are falsy. |
| Rss.RequiredFields | lib/rss.ts:69-75 | The trimmed title, trimmed link and date are returned exactly when none is missing or blank. |
| Rss.ParseItem | lib/rss.ts:60-93 | An item is rejected exactly when its trimmed title, its trimmed link, or both dates are missing. An accepted item carries the trimmed title and url. Hacker News items score 1 with 1 comment when a comments link exists, else 0. Reddit Insights items score 10 with 0 comments. |
| Rss.ParsedAllFromItems | lib/rss.ts:105-110 | Every collected item is the parse of some raw feed item. |
| Rss.ParsedAllAppend | lib/rss.ts:105-110 | Collecting the parseable items of a concatenation concatenates the collections. |
| Rss.Collect | lib/rss.ts:103-117 | The feed loop yields the first `limit` items of the parseable items, in feed order. Unparseable items are skipped and never fatal. |
| Rss.CollectStep | lib/rss.ts:105-114 | One pass of the loop preserves what the remaining pass must produce, and stopping at the limit loses nothing needed. |
| Rss.PushThenStop | lib/rss.ts:107-113 | Pushing at most one item and then stopping at the limit leaves exactly the prefix the slice would keep. |
| Rss.FetchRssFeed | lib/rss.ts:97-122 | A feed failure becomes a fetch error. A limit of at least 1 gives the first min(limit, #parseable) parsed items in order. A limit below 1 stops after the first item. |
| Rss.StoryItem | lib/rss.ts:149-155 | A story maps to its title and url, with its time in Unix seconds. A present score or descendant count is copied, and a missing one becomes 0. |
| Rss.StoryItems | lib/rss.ts:147-155 | At most one item per id, and every item has a non-empty url. |
| Rss.StoryItemsSound | lib/rss.ts:147-148 | Every item comes from a fetched detail that is a story with a truthy url. |
| Rss.StoryItemsComplete | lib/rss.ts:147-148 | Every such kept story among the ids contributes its item. |
| Rss.StoryItemsOrdered | lib/rss.ts:147-155 | Items keep the order of their ids: of two items, the earlier comes from a kept story at an earlier position. |
| Rss.FetchHackerNewsTop | lib/rss.ts:125-162 | Failing to read the top-story list is an error. Otherwise only the first `limit` ids are considered, so at most `limit` items result. Every kept story among them contributes its item, and every item is the item of a kept story among them. |
| Rss.FetchHackerNewsTopOrdered | lib/rss.ts:132-155 | The fetched items keep the order of the top-story list among its first `limit` ids. |
| Rss.RedditFeedUrl | lib/rss.ts:211-214 | A truthy `rssUrl` overrides the Reddit Insights feed url. Otherwise the configured url is used. |
| Rss.FetchTrendData | lib/rss.ts:199-226 | HACKER_NEWS goes to the API path and REDDIT to the RSS path with the optional override. PRODUCT_HUNT, GITHUB and OTHER always fail as not implemented. |
| Reddit.ToSearchResult | lib/reddit.ts:111-122 | Fields are copied. `selftext` defaults to the empty string, and the url is the Reddit origin followed by the permalink. |
| Reddit.Mapped | lib/reddit.ts:111 | The mapping preserves length and order, one result per post. |
| Reddit.QuerySplitsBack | lib/reddit.ts:98 | The query is the keywords joined by single spaces, since splitting it on spaces recovers space-free keywords. |
| Reddit.SearchReddit | lib/reddit.ts:32-77 | Missing credentials are an error. Otherwise there is one site-wide request with the defaults limit 20, relevance and month. Its posts are mapped in order, and a failed request is an error. |
| Reddit.Dedup | lib/reddit.ts:131-133 | The merged posts have pairwise distinct ids, the same id set as the input, and are input posts. Positions and values are stated by `DedupProperties` and `DedupKeepsLaterValue`. |
| Reddit.DedupProperties | lib/reddit.ts:131-133 | The merged posts have pairwise distinct ids and cover every input id. Each one is an input post with the position of the id's first occurrence and the value of its last occurrence. |
| Reddit.DedupKeepsLaterValue | lib/reddit.ts:132 | Of two posts sharing an id, the later one survives, so the merge is not first-wins. |
| Reddit.Gathered | lib/reddit.ts:102-128 | Every gathered post is a mapped post of a subreddit whose search succeeded. `OneTargetSucceeds`, `NoneSucceeds` and `GatherAll` state what failures contribute and tie it to the loop. |
| Reddit.GatheredSound | lib/reddit.ts:102-128 | Every gathered post comes from a subreddit whose search succeeded. |
| Reddit.OneTargetSucceeds | lib/reddit.ts:102-128 | When only one subreddit's search succeeds, the gathered posts are exactly that subreddit's posts, so failures contribute nothing and do not abort. |
| Reddit.NoneSucceeds | lib/reddit.ts:102-128 | When every search fails, nothing is gathered and the call still succeeds. |
| Reddit.GatherAll | lib/reddit.ts:99-128 | The loop over subreddits gathers, in order, the mapped posts of every search that succeeds and skips every search that throws. |
| Reddit.SearchSubreddits | lib/reddit.ts:80-140 | Missing credentials are an error. Otherwise the result is the ranked merge of the gathered posts, with distinct ids, scores that do not increase, and at most 2·limit posts (default limit 10). |
| Reddit.RankedFromTargets | lib/reddit.ts:124-135 | Every returned post comes from a subreddit whose search succeeded, so nothing is invented. |
| Reddit.Ranked | lib/reddit.ts:131-135 | At most `2 * limit` posts are kept. Distinct ids, order and provenance are stated by `RankedProperties`. |
| Reddit.RankedProperties | lib/reddit.ts:131-135 | Merge, stable sort and cut give distinct ids in descending score order, at most 2·limit of them, all drawn from the input. |
| Reddit.SortedPrefix | lib/reddit.ts:135 | A prefix of a sorted, id-distinct sequence is still sorted and id-distinct. |
| KeyedMap.MapValuesFirstPositionLastValue | lib/reddit.ts:131-133 | A Map built from entries lists one value per key in first-occurrence order, and the value is that key's last entry. |
| KeyedMap.MapValuesProperties | lib/reddit.ts:131-133 | The Map's values have distinct keys, the same key set as the input, and are all input elements. |
| KeyedMap.SetEntryNew | lib/reddit.ts:132 | `map.set` with a new key appends the entry. |
| KeyedMap.SetEntryExisting | lib/reddit.ts:132 | `map.set` with an existing key overwrites that entry in place. |
| KeyedMap.FirstKeysDistinct | lib/reddit.ts:132 | The first-occurrence key list holds every key exactly once. |
| KeyedMap.DistinctKeysPermuted | lib/reddit.ts:135 | Sorting, or any reordering, keeps keys distinct. |
| StableSort.SortDesc | lib/reddit.ts:135 | The sort is descending by key and is a permutation of its input. It is stable: the elements sharing a key keep their relative order. |
| StableSort.InsertSorted | lib/reddit.ts:135 | Insertion keeps a descending sequence descending. |
| StableSort.InsertWithKey | lib/reddit.ts:135 | Inserting an element puts it ahead of the elements with its key and leaves the order within every other key unchanged, which is what makes the sort stable. |
| StableSort.SortDescSameElements | lib/reddit.ts:135 | Sorting neither adds nor loses elements. |
| JsText.Trim | lib/rss.ts:69-70 | The trimmed text is an infix of the input with no white space at either end. |
| JsText.TrimEmptyIffAllSpace | components/projects/validation-dialog.tsx:65 | Text trims to empty exactly when it is all white space. |
| JsText.TrimIdempotent | lib/admin.ts:5 | Trimming twice is trimming once. |
| JsText.Split | lib/admin.ts:5 | Splitting on one character gives at least one piece, and no piece contains the separator. |
| JsText.JoinSplit | lib/admin.ts:5 | Joining the pieces of a split with the same separator gives back the text. |
| JsText.SplitJoin | lib/reddit.ts:98 | Splitting a join of separator-free parts gives back the parts. |
| JsArray.SlicePrefix | lib/openai.ts:68 | `slice(0, end)` is a prefix. Its length is min(end, length) for non-negative end, and counts back from the end for negative end. |
| JsArray.Filter | components/projects/validation-dialog.tsx:72 | The result holds only elements that satisfy the predicate, and every element that satisfies it appears. When every element satisfies it, the array comes back unchanged; with `FilterAppend` this fixes the order of what is kept. |
| JsArray.FilterAppend | components/projects/validation-dialog.tsx:72 | Filtering distributes over concatenation. |
| JsArray.FilterMultiset | app/api/bookmarks/route.ts:132-137 | Filtering keeps every copy of a satisfying element and no copy of any other. |
| JsArray.FilterAbsent | components/keywords/keyword-dialog.tsx:131 | Filtering out a value that is absent changes nothing. |
| OpenAi.ResponseText | lib/openai.ts:59-62 | The response text is the trimmed content, and it is absent exactly when the call failed or the content is missing or blank. |
| OpenAi.QuotedStrings | lib/openai.ts:72-74 | Every match of the quoted-string pattern yields a non-empty text with no quote character. |
| OpenAi.QuotedStringsHead | lib/openai.ts:72 | A quoted non-empty word is matched, and scanning resumes after it. |
| OpenAi.QuotedListRecovered | lib/openai.ts:72-74 | Quote-free keywords written as a quoted list inside quote-free text are recovered exactly. |
| OpenAi.QuotedListThen | lib/openai.ts:72-74 | A quoted list followed by quote-free text yields exactly its keywords, in order. |
| OpenAi.FallbackKeywords | lib/openai.ts:82-87 | The fallback has at most 5 keywords, each longer than 3 characters. Each is the project name or one of the first four space-separated words of the idea. |
| OpenAi.FallbackKeepsAll | lib/openai.ts:82-87 | The cut to five never removes anything, and the name leads when it is long enough. Every long word among the first four appears. |
| OpenAi.ExtractKeywords | lib/openai.ts:13-89 | A missing API key is an error. A JSON array response gives its first 8 elements. A non-JSON response with quoted strings gives the first 8 of those. Any other outcome, including a blank or failed completion, gives the fallback keywords. |
| OpenAi.ExtractFromQuotedText | lib/openai.ts:70-75 | A non-JSON response that quotes its keywords yields the first 8 of them. |
| OpenAi.Clamp | lib/openai.ts:163 | The committed score lies in [0,100]. It equals the model's score when that is in range and saturates outside it. |
| OpenAi.ClampIdempotentMonotone | lib/openai.ts:163 | Clamping twice is clamping once, and clamping preserves the order of scores. |
| OpenAi.Sample | lib/openai.ts:108-111 | Only the first 10 posts enter the prompt, numbered from 1, each with its content cut to 300 characters. |
| OpenAi.SampleIgnoresTail | lib/openai.ts:108 | Posts beyond the tenth do not influence the prompt. |
| OpenAi.AnalyzeRedditData | lib/openai.ts:92-173 | A missing API key is an error. A usable response gives the model's summary and its score clamped to [0, 100] (`Clamp`): kept when in range, 0 below and 100 above. Any failure gives score 50 and the fixed fallback summary. |
| Admin.AllowList | lib/admin.ts:5 | An unset variable gives no entries. A set one gives at least one entry: the trims of comma-free pieces that join back to the variable. No entry holds a comma or starts or ends with white space. |
| Admin.AllowListOfPieces | lib/admin.ts:5 | The cut at commas is unique: any comma-free pieces joining to the variable, trimmed, are the allow-list. |
| Admin.IsAdmin | lib/admin.ts:4-7 | Nobody is an administrator when the variable is unset, and an admitted e-mail holds no comma and has no white space at either end. Exact membership is stated by `JoinedListMembership`, `PaddedEntry`, `PaddedEmail` and `EmptyVariable`. |
| Admin.UnsetAllowsNobody | lib/admin.ts:5 | An unset allow-list makes nobody an administrator. |
| Admin.JoinedListMembership | lib/admin.ts:5-6 | For a comma-joined list of trimmed addresses, an e-mail is admitted if and only if it is one of them, compared exactly. |
| Admin.AllowListOfJoin | lib/admin.ts:5 | Splitting a comma-joined list of trimmed, comma-free addresses gives back exactly that list. |
| Admin.PaddedEntry | lib/admin.ts:5 | White space around an allow-list entry does not matter. |
| Admin.PaddedEmail | lib/admin.ts:6 | White space in the user's e-mail does matter, because it is not trimmed. |
| Admin.EmptyVariable | lib/admin.ts:5-6 | A variable set to the empty string admits exactly the empty e-mail. |
| Admin.CheckAdminByClerkId | lib/admin.ts:10-26 | The caller is an administrator if and only if the lookup succeeds, finds the id, and the e-mail is on the allow-list. |
| Admin.CheckAdminFailsClosed | lib/admin.ts:17-25 | A store error or an unknown id is never an administrator. |
| TrendStore.Select | app/api/trends/route.ts:86-93 | `findMany` and `deleteMany` keep exactly the matching, respectively non-matching, trends, in store order. |
| TrendStore.SelectPartition | app/api/trends/sources/route.ts:17-19 | What `findMany` and `deleteMany` select partitions the trends: nothing is counted twice or lost. |
| TrendStore.SelectAppend | app/api/trends/route.ts:113-125 | Selection distributes over appending a batch. |
| TrendStore.DeleteKeepsOthers | app/api/trends/route.ts:86-93 | A delete scoped to one source leaves every other source's trends unchanged. |
| TrendStore.FirstOfType | app/api/trends/route.ts:65-67 | `findFirst` by type returns the first source of that type, or none when no source has it. |
| TrendStore.CreateSource | app/api/trends/sources/route.ts:68-78 | `create` appends a row with a fresh id, no `refreshedAt`, and trends unchanged, keeping ids unique. |
| TrendStore.TopTrends | app/api/trends/route.ts:19-23 | A source's listed trends are at most 50 of its own, in descending hot-score order (`TopTrendsAreTop` states the rest). |
| TrendStore.SortedPrefixTop | app/api/trends/route.ts:21-22 | Taking a prefix of a list sorted by descending hot score draws from it, and nothing left out scores above anything kept. |
| TrendStore.TopTrendsAreTop | app/api/trends/route.ts:19-23 | The listed trends are a prefix of the source's trends sorted by descending hot score, drawn without repeats (a sub-multiset), `min(n, 50)` of the `n`, and exactly all of them when `n <= 50`. Every trend left out scores no higher than each one listed. |
| TrendStore.ByCreatedAt | app/api/trends/sources/route.ts:21 | Ordering by creation time is an ascending permutation of the sources. |
| TrendsRoute.EnsureHackerNews | app/api/trends/route.ts:64-79 | Afterwards a Hacker News source exists and is the first of its type. An existing one is reused unchanged. Otherwise an active one named "Hacker News" with the feed and API urls is created, and trends are untouched. |
| TrendsRoute.NewRecord | app/api/trends/route.ts:99-107 | Each inserted record copies the item, carries the source id, and has the hot score of its score and comments. |
| TrendsRoute.NewRecords | app/api/trends/route.ts:99-107 | One record per fetched item, in order. |
| TrendsRoute.Refresh | app/api/trends/route.ts:47-156 | No session gives 401 and a non-administrator gives 403, both leaving the store untouched. An administrator gets the refresh with the top 50 Hacker News items. |
| TrendsRoute.RefreshAsAdmin | app/api/trends/route.ts:64-148 | The refresh fails exactly when the fetch fails. On success the response's source is the Hacker News row as stored after the refresh. Its trends are the top trends of that source in the stored state, and the count equals the number of fetched items. |
| TrendsRoute.ApplyFetch | app/api/trends/route.ts:86-147 | The fetch fails exactly when the response is a failure. On success the response carries the stored row at the given position, the top trends of its id in the resulting store, and the number of fetched items. |
| TrendsRoute.ApplyFetchSources | app/api/trends/route.ts:127-131 | Applying a fetch changes only the Hacker News source, and of it only `refreshedAt`. |
| TrendsRoute.ApplyFetchTrends | app/api/trends/route.ts:86-125 | The trends left are the pruned ones, and after a successful fetch those not created today followed by the new batch. |
| TrendsRoute.RefreshKeepsSource | app/api/trends/route.ts:65-131 | The refresh keeps the Hacker News source in place and changes only its `refreshedAt`. |
| TrendsRoute.Prune | app/api/trends/route.ts:80-92 | Pruning keeps only stored trends, none of the source's from before the start of yesterday, and keeps every other trend. `PruneBound` and `PruneTwice` build on it. |
| TrendsRoute.ReplaceToday | app/api/trends/route.ts:108-124 | The batch ends the result. Before it come only stored trends that are not the source's from today, and every such trend is kept. `TodayIsBatch` and `ReplaceTodayTwice` build on it. |
| TrendsRoute.PruneBound | app/api/trends/route.ts:80-92 | After pruning, no trend of the source was created before the start of yesterday. |
| TrendsRoute.ReplaceTodayBound | app/api/trends/route.ts:108-124 | Replacing today's trends by a batch created now keeps that bound. |
| TrendsRoute.RefreshEnsuresSourceAndPrunes | app/api/trends/route.ts:65-93 | Afterwards a Hacker News source exists and has no trend created before the start of yesterday, whatever the fetch did. |
| TrendsRoute.RefreshFailureOnlyPrunes | app/api/trends/route.ts:96-131 | A failed fetch leaves only the prune: no today-delete, no insert, no stamp. |
| TrendsRoute.TodayIsBatch | app/api/trends/route.ts:108-124 | After today's trends are replaced by a batch created now, the source's trends from the start of today are exactly that batch. |
| TrendsRoute.RefreshReplacesToday | app/api/trends/route.ts:110-125 | After success, the source's trends created from the start of today are exactly the new batch, and `refreshedAt` is now. |
| TrendsRoute.RefreshKeepsOtherTrends | app/api/trends/route.ts:86-120 | Other sources' trends are unchanged. |
| TrendsRoute.PruneTwice | app/api/trends/route.ts:80-92 | Pruning twice is pruning once. |
| TrendsRoute.ReplaceTodayTwice | app/api/trends/route.ts:86-125 | Pruning and replacing today's trends again with the same batch changes nothing. |
| TrendsRoute.ApplyFetchTwice | app/api/trends/route.ts:86-131 | Applying the same fetch outcome twice at the same clock leaves the store as applying it once. |
| TrendsRoute.RefreshIdempotent | app/api/trends/route.ts:110-125 | Refreshing again with the same clock and fetch outcome leaves the store as after the first, so batches do not accumulate. This relies on `FirstOfType` finding the same row again (see Left out). |
| TrendsRoute.RefreshTwice | app/api/trends/route.ts:47-156 | Two requests in a row with the same clock and network end in the same store as one, with the Hacker News row chosen as `FirstOfType` chooses it. |
| TrendsRoute.ActiveSources | app/api/trends/route.ts:17-25 | Exactly the active sources are listed, ordered by ascending creation time. |
| TrendsRoute.ActiveSourcesExactly | app/api/trends/route.ts:18 | A source is listed if and only if it is in the store and active. |
| TrendsRoute.ListTrends | app/api/trends/route.ts:8-44 | No session gives 401. Otherwise each active source is listed in creation order with its id, name, type and `refreshedAt`. Its trends are its top 50 (`TopTrends`), its own only, drawn without repeats, in descending hot score, and exactly all of them (as a multiset) when it has at most 50. |
| TrendSourcesRoute.ParseSourceType | app/api/trends/sources/route.ts:68-73 | Only the five type names are accepted, each as the type it names. |
| TrendSourcesRoute.ParseTypeName | app/api/trends/sources/route.ts:68-73 | Every source type is accepted under its own name. |
| TrendSourcesRoute.CreateTrendSource | app/api/trends/sources/route.ts:40-88 | The order is 401, then 403, then 500 for an unreadable body, then 400 for a missing or empty name or type. An unknown type name is the store's rejection, a 500. Only a created source changes the store. The created source is exactly the body's name, parsed type, `rssUrl`, `apiUrl`, `icon` and `description`, with a fresh id, `isActive` defaulting to true, no `refreshedAt`, and creation time now. |
| TrendSourcesRoute.CreatedActiveFlag | app/api/trends/sources/route.ts:76 | An absent `isActive` gives an active source, and an explicit false is kept. |
| TrendSourcesRoute.ListSources | app/api/trends/sources/route.ts:7-37 | No session gives 401. Otherwise every source is listed by ascending creation time, with a count equal to the number of its trends. |
| TrendSourcesRoute.ListSourcesComplete | app/api/trends/sources/route.ts:15-28 | Every source appears, and its count is the number of trends that deleting the source's trends would remove. |
| Schema.BoundedString | lib/validations/project.ts:4 | A string field passes if and only if it is present with length in the bounds, and it passes unchanged. |
| Schema.OptionalString | lib/validations/project.ts:7 | A missing optional field passes as absent, with no default. A present one passes exactly when the inner check does. |
| Schema.ArrayOrEmpty | lib/validations/project.ts:12 | A missing array defaults to empty, a present one is kept, and a value of the wrong type fails. |
| Schema.BoundedNumber | lib/validations/keyword.ts:5 | A number passes if and only if it lies in the bounds and, when required, is an integer. |
| ProjectSchema.EnumNamesRoundTrip | lib/validations/project.ts:9-16 | Each revenue model and status is accepted under its own name. A text is accepted only if it is one of the six, respectively seven, names. |
| ProjectSchema.EnumField | lib/validations/project.ts:9 | A missing enumeration field passes as absent. A present one passes exactly when it names a value. |
| ProjectSchema.ParseNewProject | lib/validations/project.ts:3-13 | A project parses if and only if the name has 1..100 characters, the idea 10..5000, and the type is non-empty. The optional strings must be strings and the revenue model a listed value. Tags default to empty, and a failure names at least one field. |
| ProjectSchema.NewProjectRoundTrip | lib/validations/project.ts:3-13 | A project within the bounds survives sending and parsing unchanged, and parsing only yields projects within the bounds. |
| ProjectSchema.TagsDefault | lib/validations/project.ts:12 | Missing tags become the empty list. |
| ProjectSchema.ParsePartialProject | lib/validations/project.ts:15 | Every creation field may be missing. A present one obeys the creation check, and a missing one stays missing. |
| ProjectSchema.ParseProjectUpdate | lib/validations/project.ts:15-20 | The update is valid if and only if the partial fields are. Also, a present status must be a listed one, and a present validation score must lie in [0,100]. |
| ProjectSchema.EmptyUpdate | lib/validations/project.ts:15-20 | An empty update is valid and fills in nothing. |
| ProjectSchema.CreateIsValidUpdate | lib/validations/project.ts:15 | A valid creation input is a valid update with the same values. |
| KeywordSchema.PopularityCheck | lib/validations/keyword.ts:5 | Popularity is an integer in [0,100] and is 0 when missing. |
| KeywordSchema.ParseNewKeyword | lib/validations/keyword.ts:3-9 | A keyword parses if and only if the name has 1..100 characters, popularity is a missing or integral value in [0,100], and the description is missing or at most 1000 characters. The arrays default to empty. |
| KeywordSchema.ParseKeywordUpdate | lib/validations/keyword.ts:11 | Every field may be missing, and a present one obeys the creation constraint. Missing fields stay missing, so no default is applied. |
| KeywordSchema.NewKeywordRoundTrip | lib/validations/keyword.ts:3-9 | A keyword within the bounds survives sending and parsing unchanged, and parsing only yields keywords within the bounds. |
| KeywordSchema.FractionalPopularityRejected | lib/validations/keyword.ts:5 | A fractional popularity is rejected by both schemas even within range. |
| KeywordSchema.UpdatePopularityOnly | lib/validations/keyword.ts:11 | An update naming only the popularity leaves every other field missing. |
| ValidationDialog.AddKeyword | components/projects/validation-dialog.tsx:64-69 | The trimmed input is appended exactly when it is non-blank and not yet listed, and otherwise the list is unchanged. The input is cleared only on a successful add. |
| ValidationDialog.RemoveKeyword | components/projects/validation-dialog.tsx:71-73 | Every copy of the keyword goes and all other keywords stay. In a duplicate-free list, the result is the list with the keyword's slot cut out, so the others keep their order. |
| ValidationDialog.AddKeepsDistinctAndOrder | components/projects/validation-dialog.tsx:65-66 | Adding keeps a duplicate-free list duplicate-free and the existing keywords in place. |
| ValidationDialog.AddThenRemove | components/projects/validation-dialog.tsx:64-73 | Adding a fresh keyword and removing it again restores the list. |
| ValidationDialog.RemoveFromDistinct | components/projects/validation-dialog.tsx:72 | From a duplicate-free list, removal takes out exactly one keyword when it is listed and none otherwise. |
| ValidationDialog.RemoveAt | components/projects/validation-dialog.tsx:72 | In a duplicate-free list, removing the keyword at position `i` gives the keywords before `i` followed by those after it. |
| ValidationDialog.Validate | components/projects/validation-dialog.tsx:75-90 | An empty list sets the error and sends nothing. Otherwise the whole list is sent and the error cleared. |
| KeywordDialog.OnOpen | components/keywords/keyword-dialog.tsx:45-66 | Opening for a new keyword resets the defaults. Opening for an existing one copies its fields, with a missing description shown as empty, and its projects' ids in order. A closed dialog keeps its form. |
| KeywordDialog.AddLongTail | components/keywords/keyword-dialog.tsx:110-118 | A non-blank input is appended trimmed, duplicates allowed, and the input is cleared. Blank input changes nothing. |
| KeywordDialog.WithoutIndexSlices | components/keywords/keyword-dialog.tsx:123 | Filtering by position removes exactly the element at that index, and nothing when the index is out of range. |
| KeywordDialog.RemoveLongTail | components/keywords/keyword-dialog.tsx:120-125 | The long tail at the index is removed, an out-of-range index changes nothing, and the other fields stay. |
| KeywordDialog.ToggleProject | components/keywords/keyword-dialog.tsx:127-134 | Membership of the project flips, every other project's membership stays, and so do the other fields. |
| KeywordDialog.ToggleTwice | components/keywords/keyword-dialog.tsx:127-134 | Toggling an unlinked project twice restores the exact list. |
| BookmarksRoute.DefaultsFor | app/api/bookmarks/route.ts:101-106 | Each user gets the nine defaults in list order, all marked default and owned by that user. |
| BookmarksRoute.DefaultsShape | app/api/bookmarks/route.ts:7-89 | There are 9 defaults, numbered 1 to 9 in order, so their orders are distinct. Each is a default with a favicon. |
| BookmarksRoute.Seed | app/api/bookmarks/route.ts:92-108 | Seeding adds the defaults exactly when the user has no default bookmark, and afterwards the user has one. |
| BookmarksRoute.SeedIdempotent | app/api/bookmarks/route.ts:92-108 | A second seeding adds nothing. |
| BookmarksRoute.SeedKeepsOthers | app/api/bookmarks/route.ts:101-106 | Seeding one user leaves every other user's bookmarks unchanged. |
| BookmarksRoute.ListBookmarks | app/api/bookmarks/route.ts:111-147 | No session gives 401 and an unknown user gives 404, both without a write. A known user is always listed after seeding. The listing holds every copy of each of the user's bookmarks in the seeded store, and nothing else, including a default. |
| BookmarksRoute.CreateBookmark | app/api/bookmarks/route.ts:150-205 | The order is 401, then 404, then 500 for an unreadable body, then 400 for a missing name, url or category. Otherwise the bookmark is created. Only a created bookmark changes the store. It is the caller's, is not a default, and keeps a non-empty description, storing an empty one as null. Its favicon is the url's origin followed by `/favicon.ico`, and is present exactly when the url parses. |
| BookmarksRoute.CreateKeepsSeeding | app/api/bookmarks/route.ts:100-195 | Creating a bookmark never changes whether a user has defaults, so seeding still happens for a user without any. |

## Left out

- Network, feed-parser, Reddit-client, chat-completion and database calls. Their results are inputs: a network record, a search oracle, a completion, a user map, and the store as sequences.
- `JSON.parse`, `new URL(...).origin`, `new Date(...)` and `Date.now()`. They are oracles or given values. Dates are integers, and "start of today/yesterday" are given instants.
- `Promise.all` in the Hacker News path is modelled as an order-preserving map. Concurrency is not modelled.
- Floating point. The hot score and the analysis score are `real`, so IEEE rounding and `NaN` passing through the clamp are not modelled.
- OpenAi.AnalyzeRedditData: a non-numeric `score` or missing `summary` in the parsed response is outside the model. The parser oracle returns numeric fields or nothing.
- String lengths are counted in code points, whereas JavaScript counts UTF-16 code units. This affects the schema length bounds, the 300-character cut and the length-greater-than-3 filter for text outside the Basic Multilingual Plane.
- JSON fields of the wrong type in route bodies, such as a number for `name`, are outside the route models. Bodies hold optional strings and booleans. The schema modules do model wrong types.
- Database exceptions other than the modelled ones are not modelled. For example, an invalid bookmark category enum becomes a 500. The bookmark category enumeration is not part of this model, so any non-empty category is accepted.
- The order of the bookmark listing (category, order, createdAt) is not modelled, because the category enumeration's declared order is not available.
- Database ids are a counter and creation times are the given `now`. Ties in `orderBy` keep store order, which the database does not guarantee.
- The prompt texts and the `targetMarket` line are carried through as values. Their wording is not modelled.
- The validation run itself, the extract-keywords request, and the dialogs' rendering and loading flags are not modelled.
- TrendStore.FirstOfType: `findFirst` has no `orderBy`, so when several Hacker News sources exist the database may return any of them. The seed script, the auto-create path and the unguarded `POST` can all create such sources. The model always takes the first one in store order. TrendsRoute.RefreshIdempotent and TrendsRoute.RefreshTwice rely on this choice, because they need the second refresh to find the same row as the first.
- ProjectSchema.ParsePartialProject and KeywordSchema.ParseKeywordUpdate: these follow zod 3, where `.partial()` leaves a missing field missing. Under zod 4 a missing field would take its inner default (`tags` and `longTails` `[]`, `popularity` 0, `projectIds` `[]`). That behaviour is not modelled.
- `app/api/trends/check-admin/route.ts` is not modelled. It is a thin wrapper over `checkAdminByClerkId`, which is modelled.
