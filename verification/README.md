# Tech-conference ChatGPT app and Gutendex example, modelled in Dafny

This project models the logic of two MCP servers and their widgets.

The first is a conference-schedule app:
- the server loads the talk schedule, categorises each talk by keywords, and filters and groups the talks;
- it builds the replies of the `search_talks` and `get_talk_details` tools;
- it renders the HTML template that embeds the React widget, and resolves the widget's bundle, the public server URL and the content-hashed template URI;
- a build script names each widget template after a SHA-256 hash of its content;
- the widget orders the track rows, picks each track's colours, shows a card's first tags and toggles favourites.

The second is the Gutendex book-search example:
- an on-disk FIFO response cache `FileFifoCache`: one JSON file per key, named by the key's SHA-1 digest, plus an `index.json` that lists the keys in order of first write;
- the cache-aside `gutendexFetch`, which builds the `https://gutendex.com/books` query or follows a page URL;
- the shaping of each book in the tool result, log truncation and the pick of the widget template;
- the widget helpers: best download format, cover URL, tag chips and the pager guard.

Modules, one per source file (plus shared helpers):

| module | models |
|---|---|
| `Cache`, `Disk` | `cache.ts`: the class `FileFifoCache`. `Disk` stands for the file system it changes; every fault is an explicit flag. |
| `GutendexServer` | the Gutendex `server.ts` |
| `GutendexSearch` | `gutendex-search/index.jsx` |
| `Schedule` | `schedule.ts` |
| `Categorize` | `categorize.ts` |
| `ScheduleServer` | the schedule `server.ts` |
| `WidgetTemplate` | `widget-template.ts` |
| `WidgetHashes` | `generate-widget-template-hashes.mjs` |
| `ScheduleApp` | `web/src/app.tsx` |
| `Json`, `Strings`, `Sequences`, `Ordering`, `Wrappers` | JSON values with JavaScript truthiness; string search, ASCII lower-casing and decimal text; de-duplication and subsequences; code-point string order and insertion sort; `Option`/`Result` |

## Model

| member | source | states |
|---|---|---|
| Cache.FileFifoCache.constructor | docs/chatgpt-apps-sdk-gutendex-example/gutendex_server_node/src/cache.ts:20-24 | the cache keeps its directory, its capacity and `index.json` inside the directory; constructing it touches no file |
| Cache.FileFifoCache.EntryPath | docs/chatgpt-apps-sdk-gutendex-example/gutendex_server_node/src/cache.ts:58 | the entry file of a key is `<dir>/<sha1 hex of key>.json`, a file other than the index |
| Cache.DecodeIndex | docs/chatgpt-apps-sdk-gutendex-example/gutendex_server_node/src/cache.ts:36-46 | an index file holding an object with an `order` array is returned as parsed; anything else (missing, unreadable, corrupt, not an object, no `order` array) reads as `{ order: [] }` |
| Cache.ReadRaw | docs/chatgpt-apps-sdk-gutendex-example/gutendex_server_node/src/cache.ts:39-40 | a file is delivered exactly when it exists and its read does not fail, and then exactly as stored |
| Cache.FileFifoCache.ReadIndex | docs/chatgpt-apps-sdk-gutendex-example/gutendex_server_node/src/cache.ts:36-46 | `readIndex` never fails and returns `DecodeIndex` of the index file |
| Cache.FileFifoCache.WriteIndex | docs/chatgpt-apps-sdk-gutendex-example/gutendex_server_node/src/cache.ts:48-53 | the index goes to `index.json.tmp` and is then renamed over `index.json`; either step may fail, leaving the files it reached |
| Cache.FileFifoCache.Read | docs/chatgpt-apps-sdk-gutendex-example/gutendex_server_node/src/cache.ts:55-68 | `read` returns the parsed entry file of the key; every fault and a missing or corrupt file give `null` |
| Cache.FileFifoCache.ReadValue | docs/chatgpt-apps-sdk-gutendex-example/gutendex_server_node/src/cache.ts:55-68 | a non-null result of `read` comes from a fault-free read of the key's parsed entry file; `Read` is proved to return it |
| Cache.Appended | docs/chatgpt-apps-sdk-gutendex-example/gutendex_server_node/src/cache.ts:79-81 | the key ends up in the order; a key already present keeps its place (FIFO by first write), a new one is appended; no duplicates are introduced |
| Cache.EvictCount | docs/chatgpt-apps-sdk-gutendex-example/gutendex_server_node/src/cache.ts:82-83 | the loop removes just enough keys to bring the order down to `capacity` and none when it is within it |
| Cache.Kept | docs/chatgpt-apps-sdk-gutendex-example/gutendex_server_node/src/cache.ts:79-93 | the persisted order is the appended order less its oldest keys, exactly as many as exceed `capacity` (all of it when within `capacity`); no duplicates are introduced; a new key survives when `capacity >= 1` |
| Cache.Unlinked | docs/chatgpt-apps-sdk-gutendex-example/gutendex_server_node/src/cache.ts:85-91 | `unlink` removes its own path when that exists and the unlink does not fail; every other file stays as it was |
| Cache.FileFifoCache.EvictOldest | docs/chatgpt-apps-sdk-gutendex-example/gutendex_server_node/src/cache.ts:82-93 | the `while`/`shift` loop keeps the last `capacity` keys and unlinks the entry of each truthy evicted key; a truthy non-string key makes `hashKey` throw and ends the write |
| Cache.FileFifoCache.EvictStops | docs/chatgpt-apps-sdk-gutendex-example/gutendex_server_node/src/cache.ts:82-93 | once a key has made the loop throw, the keys after it change nothing |
| Cache.FileFifoCache.Write | docs/chatgpt-apps-sdk-gutendex-example/gutendex_server_node/src/cache.ts:70-99 | `write` does the five steps in order (entry through a temporary file, append, evict, persist the index) and returns normally whatever fails; the new files are `WriteResult` |
| Cache.PathsDistinct | docs/chatgpt-apps-sdk-gutendex-example/gutendex_server_node/src/cache.ts:22 | entry files, their temporary files and the index files have pairwise distinct paths |
| Cache.EntryPathInjective | docs/chatgpt-apps-sdk-gutendex-example/gutendex_server_node/src/cache.ts:32-34 | two keys share an entry file exactly when their digests are equal |
| Cache.EvictPreserves | docs/chatgpt-apps-sdk-gutendex-example/gutendex_server_node/src/cache.ts:82-93 | eviction leaves a file alone unless an evicted key names it and its unlink succeeds |
| Cache.EvictCompletes | docs/chatgpt-apps-sdk-gutendex-example/gutendex_server_node/src/cache.ts:82-93 | the loop runs to its end when every truthy key is a string |
| Cache.EvictSkipsFalsy | docs/chatgpt-apps-sdk-gutendex-example/gutendex_server_node/src/cache.ts:84 | a falsy key such as `""` is shifted off without any unlink |
| Cache.EvictedLeaveIndex | docs/chatgpt-apps-sdk-gutendex-example/gutendex_server_node/src/cache.ts:82-94 | an evicted key is absent from the persisted order even when its unlink fails |
| Cache.ReadAfterWrite | docs/chatgpt-apps-sdk-gutendex-example/gutendex_server_node/src/cache.ts:55-81 | round trip: once the entry is in place, `read(key)` returns the written data, provided the key survives eviction and no other indexed key shares its digest |
| Cache.IndexAfterWrite | docs/chatgpt-apps-sdk-gutendex-example/gutendex_server_node/src/cache.ts:74-94 | after a write without faults (unlinks may fail) the index holds exactly `Kept` of the old order |
| Cache.StaleEntryAfterFailedUnlink | docs/chatgpt-apps-sdk-gutendex-example/gutendex_server_node/src/cache.ts:57-61 | an evicted key whose unlink fails is gone from the index but `read` still returns its value |
| Cache.OtherEntryKept | docs/chatgpt-apps-sdk-gutendex-example/gutendex_server_node/src/cache.ts:70-99 | a write leaves another key's entry alone unless that key is evicted or shares a digest |
| Cache.WriteElsewhere | docs/chatgpt-apps-sdk-gutendex-example/gutendex_server_node/src/cache.ts:70-99 | a write changes no file other than its own entry, the index files and what the eviction loop unlinks |
| Cache.FailedEntryWriteKeepsIndex | docs/chatgpt-apps-sdk-gutendex-example/gutendex_server_node/src/cache.ts:74-77 | if the entry cannot be written or renamed into place, the index file is untouched |
| Cache.ReadIgnoresIndex | docs/chatgpt-apps-sdk-gutendex-example/gutendex_server_node/src/cache.ts:55-68 | rewriting `index.json` never changes what `read` returns |
| Cache.EvictRemoves | docs/chatgpt-apps-sdk-gutendex-example/gutendex_server_node/src/cache.ts:82-93 | after a completed loop, the entry of every non-empty evicted key whose unlink succeeds is gone |
| Cache.EvictedEntryRemoved | docs/chatgpt-apps-sdk-gutendex-example/gutendex_server_node/src/cache.ts:82-93 | an evicted key whose unlink succeeds can no longer be read |
| Cache.FaultFreeWrite | docs/chatgpt-apps-sdk-gutendex-example/gutendex_server_node/src/cache.ts:70-94 | a fault-free write of a surviving key: the index holds the key and the entry reads back |
| Cache.SurvivorNotEvicted | docs/chatgpt-apps-sdk-gutendex-example/gutendex_server_node/src/cache.ts:79-93 | in an order without duplicates a key that survives eviction is not among the evicted ones |
| Cache.SurvivorReadable | docs/chatgpt-apps-sdk-gutendex-example/gutendex_server_node/src/cache.ts:70-94 | after a write without faults (unlinks may fail) every key of the new index has a readable entry, given a consistent cache and distinct digests |
| Cache.WriteKeepsConsistent | docs/chatgpt-apps-sdk-gutendex-example/gutendex_server_node/src/cache.ts:70-94 | the cache invariant (at most `capacity` distinct string keys in the index, each with a readable entry file) is preserved by a write without faults (unlinks may fail), given pairwise distinct digests of the indexed and written keys |
| Cache.WriteBelowCapacity | docs/chatgpt-apps-sdk-gutendex-example/gutendex_server_node/src/cache.ts:79-83 | below capacity nothing is evicted and a new key is simply appended |
| Cache.FullOrderEvictsOldest | docs/chatgpt-apps-sdk-gutendex-example/gutendex_server_node/src/cache.ts:79-93 | a new key appended to a full order evicts exactly the oldest key, and the order becomes the rest followed by the new key |
| Cache.WriteAtCapacityIndex | docs/chatgpt-apps-sdk-gutendex-example/gutendex_server_node/src/cache.ts:74-94 | writing a new key into a full index drops the oldest key from the index, appends the new one, and the new entry reads back |
| Cache.WriteAtCapacityEntries | docs/chatgpt-apps-sdk-gutendex-example/gutendex_server_node/src/cache.ts:82-93 | writing a new key into a full index leaves the oldest (non-empty) key unreadable and the other indexed keys' entries untouched |
| Cache.WriteAtCapacityEvictsOldest | docs/chatgpt-apps-sdk-gutendex-example/gutendex_server_node/src/cache.ts:70-94 | FIFO eviction: with the index full, a fault-free write of a new key pushes out the oldest key (index and entry), keeps the others and makes the new key readable |
| Disk.Disk.ReadFile | docs/chatgpt-apps-sdk-gutendex-example/gutendex_server_node/src/cache.ts:60 | `readFile` yields the stored text or rejects; nothing changes |
| Disk.Disk.WriteFile | docs/chatgpt-apps-sdk-gutendex-example/gutendex_server_node/src/cache.ts:76 | `writeFile` creates or replaces exactly one file, or rejects and changes nothing |
| Disk.Disk.Rename | docs/chatgpt-apps-sdk-gutendex-example/gutendex_server_node/src/cache.ts:77 | `rename` moves a file over the target, or rejects (also when the source is missing) and changes nothing |
| Disk.Disk.Unlink | docs/chatgpt-apps-sdk-gutendex-example/gutendex_server_node/src/cache.ts:87 | `unlink` removes exactly one existing file, or rejects and changes nothing |
| GutendexServer.Truncate | docs/chatgpt-apps-sdk-gutendex-example/gutendex_server_node/src/server.ts:59-63 | a string of at most `max` characters is unchanged; a longer one keeps its first `max` characters followed by `... [truncated N chars]` with N the number dropped |
| GutendexServer.TruncationKeepsLength | docs/chatgpt-apps-sdk-gutendex-example/gutendex_server_node/src/server.ts:62 | two long strings with the same truncation have the same length and the same first `max` characters |
| GutendexServer.Candidates | docs/chatgpt-apps-sdk-gutendex-example/gutendex_server_node/src/server.ts:100-102 | the filter keeps exactly the files `<name>-*.html` |
| GutendexServer.ResolveWidgetTemplateUri | docs/chatgpt-apps-sdk-gutendex-example/gutendex_server_node/src/server.ts:98-108 | the URI names the greatest candidate in string order; with no candidate, or when the directory cannot be read, it names `<name>.html` |
| GutendexServer.NumText | docs/chatgpt-apps-sdk-gutendex-example/gutendex_server_node/src/server.ts:223 | `String(v)` of a given number is never empty, so a given number is always set |
| GutendexServer.ParamNamesDistinct | docs/chatgpt-apps-sdk-gutendex-example/gutendex_server_node/src/server.ts:225-234 | the ten query names are distinct |
| GutendexServer.ParamValue | docs/chatgpt-apps-sdk-gutendex-example/gutendex_server_node/src/server.ts:223 | `searchParams.get`: absent exactly when no pair has the name, otherwise a value paired with it |
| GutendexServer.ParamSet | docs/chatgpt-apps-sdk-gutendex-example/gutendex_server_node/src/server.ts:223 | after `searchParams.set(k, v)` the name `k` reads `v`, every other name reads as before, and a new name is appended |
| GutendexServer.WithoutName | docs/chatgpt-apps-sdk-gutendex-example/gutendex_server_node/src/server.ts:223 | `set` drops the later pairs of the name it sets and keeps every other name's value |
| GutendexServer.SetIfGiven | docs/chatgpt-apps-sdk-gutendex-example/gutendex_server_node/src/server.ts:221-224 | an absent or empty value leaves the query alone; any other value is set under its name and changes no other name |
| GutendexServer.Names | docs/chatgpt-apps-sdk-gutendex-example/gutendex_server_node/src/server.ts:225-234 | the names of the `set` calls, in call order |
| GutendexServer.BuildQueryStep | docs/chatgpt-apps-sdk-gutendex-example/gutendex_server_node/src/server.ts:225-234 | each further `set` call extends the query built by the calls before it |
| GutendexServer.BuildQuery | docs/chatgpt-apps-sdk-gutendex-example/gutendex_server_node/src/server.ts:221-234 | the query built by the `set` calls, one after the other, only holds names the calls set |
| GutendexServer.BuildQueryUnique | docs/chatgpt-apps-sdk-gutendex-example/gutendex_server_node/src/server.ts:221-234 | with distinct call names no name occurs twice in the query |
| GutendexServer.BuildQueryValues | docs/chatgpt-apps-sdk-gutendex-example/gutendex_server_node/src/server.ts:221-234 | each name carries its call's value when that value is given and not empty |
| GutendexServer.Query | docs/chatgpt-apps-sdk-gutendex-example/gutendex_server_node/src/server.ts:220-235 | the query holds exactly the given arguments, once each: text arguments when not empty, numbers (`page` included) whenever given, no other name |
| GutendexServer.QueryParams | docs/chatgpt-apps-sdk-gutendex-example/gutendex_server_node/src/server.ts:225-234 | the ten `set` calls, written out in their order, build the same query as the fold of `set` over the list of argument names and values, so `Query`'s contents hold for it |
| GutendexServer.Serialize | docs/chatgpt-apps-sdk-gutendex-example/gutendex_server_node/src/server.ts:235 | `URLSearchParams.toString()` is empty for no pairs and a single `name=value` text for one pair |
| GutendexServer.SerializeSnoc | docs/chatgpt-apps-sdk-gutendex-example/gutendex_server_node/src/server.ts:235 | every pair is written encoded and in query order: one more pair adds `&` and its `name=value` at the end |
| GutendexServer.Href | docs/chatgpt-apps-sdk-gutendex-example/gutendex_server_node/src/server.ts:235 | `u.toString()` is the bare base URL for an empty query, else the base, `?` and the serialised query |
| GutendexServer.RequestUrl | docs/chatgpt-apps-sdk-gutendex-example/gutendex_server_node/src/server.ts:216-236 | a truthy `pageUrl` is the URL verbatim, whatever the other arguments; otherwise the `/books` URL with the query of the arguments |
| GutendexServer.NoArgumentsBareUrl | docs/chatgpt-apps-sdk-gutendex-example/gutendex_server_node/src/server.ts:220-235 | with no non-empty argument the request is the bare `/books` URL |
| GutendexServer.GutendexFetch | docs/chatgpt-apps-sdk-gutendex-example/gutendex_server_node/src/server.ts:215-277 | a truthy cached value is returned without fetching or writing; a rejected `fetch` fails with its error; a non-ok response fails with `Gutendex request failed: <status> <text>`; a body that is not JSON fails; none of these writes anything; otherwise the parsed body is written under the request URL and returned |
| GutendexServer.SecondFetchHits | docs/chatgpt-apps-sdk-gutendex-example/gutendex_server_node/src/server.ts:240-244 | after a fault-free write of a truthy body, the next fetch of the same URL is a cache hit returning that body, provided the URL survives eviction and shares no digest |
| GutendexServer.OrDefault | docs/chatgpt-apps-sdk-gutendex-example/gutendex_server_node/src/server.ts:354 | `x ?? d` is `d` exactly for an absent or `null` member |
| GutendexServer.ArrayOrEmpty | docs/chatgpt-apps-sdk-gutendex-example/gutendex_server_node/src/server.ts:366-371 | `Array.isArray(x) ? x : []` is always an array, the member itself when it is one |
| GutendexServer.MapAuthor | docs/chatgpt-apps-sdk-gutendex-example/gutendex_server_node/src/server.ts:360-364 | an author keeps its name and its non-null `birth_year` and `death_year`; a missing or `null` year becomes `null`; a `null` author throws |
| GutendexServer.MapAuthors | docs/chatgpt-apps-sdk-gutendex-example/gutendex_server_node/src/server.ts:359-365 | the authors map one to one, and the map throws exactly when some author is `null` |
| GutendexServer.MapBook | docs/chatgpt-apps-sdk-gutendex-example/gutendex_server_node/src/server.ts:353-374 | `cover_url` is `formats["image/jpeg"]` exactly when that is a string, else `null`; `media_type` defaults to `null`, `formats` to `{}`, `download_count` to 0 and the array fields to `[]`; each author is the mapping of the corresponding source author; the mapping throws exactly for a `null` book or a `null` author |
| GutendexServer.MapResults | docs/chatgpt-apps-sdk-gutendex-example/gutendex_server_node/src/server.ts:351-375 | the result books map one to one, in order, and the map throws exactly when one book does |
| GutendexServer.MapAll | docs/chatgpt-apps-sdk-gutendex-example/gutendex_server_node/src/server.ts:352-375 | `results.map(...)` over a list: one book per book, failing when any one fails |
| GutendexSearch.Formats | docs/chatgpt-apps-sdk-gutendex-example/src/gutendex-search/index.jsx:6 | `book?.formats \|\| {}` is the book's formats member when it is present and truthy, and an empty object otherwise |
| GutendexSearch.FirstTruthyIndex | docs/chatgpt-apps-sdk-gutendex-example/src/gutendex-search/index.jsx:14-16 | the loop stops at the first candidate whose entry is truthy, and runs out exactly when none is |
| GutendexSearch.FirstTruthy | docs/chatgpt-apps-sdk-gutendex-example/src/gutendex-search/index.jsx:14-16 | the loop returns the value of the first candidate whose entry is truthy, and nothing exactly when none is |
| GutendexSearch.FormatValues | docs/chatgpt-apps-sdk-gutendex-example/src/gutendex-search/index.jsx:17 | `Object.values` lists an object's member values, an array's items and a string's characters in order |
| GutendexSearch.BestFormatUrl | docs/chatgpt-apps-sdk-gutendex-example/src/gutendex-search/index.jsx:5-19 | the value of the first MIME type in priority order whose entry is truthy, when there is one; otherwise the first format value if it is a string, and null if it is not or there is none |
| GutendexSearch.BestFormatPrefersPriority | docs/chatgpt-apps-sdk-gutendex-example/src/gutendex-search/index.jsx:5-16 | the URL is the value of the first MIME type in priority order with a truthy entry |
| GutendexSearch.BestFormatFallback | docs/chatgpt-apps-sdk-gutendex-example/src/gutendex-search/index.jsx:17-18 | with no priority type present, the URL is the first format value if it is a string, else `null` |
| GutendexSearch.NoFormatsNoUrl | docs/chatgpt-apps-sdk-gutendex-example/src/gutendex-search/index.jsx:5-18 | a book without formats has no URL |
| GutendexSearch.CoverUrl | docs/chatgpt-apps-sdk-gutendex-example/src/gutendex-search/index.jsx:21-24 | the JPEG format when it is a string, else a truthy `cover_url`, else `null` |
| GutendexSearch.MappedBookCover | docs/chatgpt-apps-sdk-gutendex-example/src/gutendex-search/index.jsx:193-194 | for a book as `fetchPage` maps it, `coverUrl` agrees with the mapped `cover_url` |
| GutendexSearch.Chips | docs/chatgpt-apps-sdk-gutendex-example/src/gutendex-search/index.jsx:26-47 | nothing for a non-array, an empty array or `max` 0; otherwise the first `min(max, n)` items, and `+N more` exactly when items were cut, N the number cut |
| GutendexSearch.ChipsAccountForAll | docs/chatgpt-apps-sdk-gutendex-example/src/gutendex-search/index.jsx:27-44 | the chips shown plus the `more` count add up to the number of items |
| GutendexSearch.ArrayItems | docs/chatgpt-apps-sdk-gutendex-example/src/gutendex-search/index.jsx:86-87 | a member that is not an array counts as `[]` |
| GutendexSearch.TruthyOnly | docs/chatgpt-apps-sdk-gutendex-example/src/gutendex-search/index.jsx:88 | `.filter(Boolean)` keeps exactly the truthy entries |
| GutendexSearch.TruthyOnlyIsSubsequence | docs/chatgpt-apps-sdk-gutendex-example/src/gutendex-search/index.jsx:88 | the kept entries keep their order |
| GutendexSearch.Take | docs/chatgpt-apps-sdk-gutendex-example/src/gutendex-search/index.jsx:93 | `slice(0, n)` is the first `min(n, length)` entries |
| GutendexSearch.TopTags | docs/chatgpt-apps-sdk-gutendex-example/src/gutendex-search/index.jsx:85-94 | the `unique` loop builds `Dedup` of the combined tags (their first occurrences, in order, see `Sequences.DedupCharacterised`), and the first three of them are shown |
| GutendexSearch.TagsProperties | docs/chatgpt-apps-sdk-gutendex-example/src/gutendex-search/index.jsx:86-93 | the tags are distinct, at most 3 (exactly 3 when there are that many distinct), truthy, each from the subjects or bookshelves, a prefix of the de-duplicated list, and in the order of their first occurrences |
| GutendexSearch.TagsEarliest | docs/chatgpt-apps-sdk-gutendex-example/src/gutendex-search/index.jsx:86-93 | the tags shown are in the order of their first occurrences, and a tag left out means three are shown, each first occurring before it |
| GutendexSearch.TagsInSourceOrder | docs/chatgpt-apps-sdk-gutendex-example/src/gutendex-search/index.jsx:86-92 | the combined list keeps subjects before bookshelves, and the de-duplicated list is the one listing of all the distinct tags in the order of their first occurrences |
| Sequences.DedupFirstOccurrences | docs/chatgpt-apps-sdk-gutendex-example/src/gutendex-search/index.jsx:86-92 | the `unique` list holds the distinct elements ordered by their first occurrence |
| Sequences.DedupCharacterised | docs/chatgpt-apps-sdk-gutendex-example/src/gutendex-search/index.jsx:86-92 | a list is the `unique` list exactly when it is in first-occurrence order and contains every element (both directions) |
| Sequences.DedupPrefixEarliest | docs/chatgpt-apps-sdk-gutendex-example/src/gutendex-search/index.jsx:86-93 | an element missing from a prefix of the `unique` list first occurs after every element of that prefix |
| GutendexSearch.TagChipsNeverMore | docs/chatgpt-apps-sdk-gutendex-example/src/gutendex-search/index.jsx:93-94 | the tag chips never show a `+N more` |
| GutendexSearch.OnNavigate | docs/chatgpt-apps-sdk-gutendex-example/src/gutendex-search/index.jsx:213-218 | a page is fetched exactly when not loading and the target is truthy, with `next` for "next" and `previous` otherwise |
| GutendexSearch.NoFetchPastTheEnds | docs/chatgpt-apps-sdk-gutendex-example/src/gutendex-search/index.jsx:215-216 | no fetch past the last or before the first page |
| Schedule.Pad2 | server/src/schedule.ts:46-49 | `padStart(2, "0")` of a clock field is two digits |
| Schedule.ParsePad2Pad2 | server/src/schedule.ts:46-49 | the two digits read back as the field |
| Schedule.FormatTimeRange | server/src/schedule.ts:42-52 | `HH:MM–HH:MM`: 11 characters with the separators in place |
| Schedule.TimeRangeRoundTrip | server/src/schedule.ts:42-52 | the range reads back as both clock readings exactly |
| Schedule.FormatDay | server/src/schedule.ts:57-62 | the short month name, a space and the day of the month |
| Schedule.FormatDayInjective | server/src/schedule.ts:57-62 | within a month, two days show the same text exactly when they are the same day |
| Schedule.TransformTalk | server/src/schedule.ts:77-88 | id, title and kind are kept; speakers are the given ones, and "Various" exactly when falsy; the track is the given one, and "General" exactly when falsy; tags default to `[]`; the category is `categorizeTalk`; the abstract is present exactly when asked for and non-empty |
| Schedule.TransformTalks | server/src/schedule.ts:76-89 | one talk per raw talk, in order |
| Schedule.TransformedCategoryKnown | server/src/schedule.ts:84 | every talk's category is one of the twelve names or "General" |
| Schedule.FilterTalks | server/src/schedule.ts:103-136 | filtering never adds talks |
| Schedule.FilterKeepsMatching | server/src/schedule.ts:104-135 | a talk is kept exactly when it is one of the talks and meets every given criterion |
| Schedule.FilterIsSubsequence | server/src/schedule.ts:104 | the kept talks keep their original order |
| Schedule.FilterCounts | server/src/schedule.ts:104-135 | every copy of a matching talk is kept and no copy of any other talk |
| Schedule.NoFiltersKeepAll | server/src/schedule.ts:103-136 | with no criterion every talk is kept, in order |
| Schedule.FilterIdempotent | server/src/schedule.ts:103-136 | filtering again with the same criteria changes nothing |
| Schedule.SpeakerFilterIgnoresCase | server/src/schedule.ts:113 | speaker filters that agree up to letter case keep the same talks |
| Schedule.FilterSameMatches | server/src/schedule.ts:103-136 | criteria that accept the same talks filter identically |
| Schedule.SameCriteriaFilter | server/src/schedule.ts:105-133 | criteria that give the same non-empty values filter identically, however the absent ones are spelled |
| Schedule.EmptyCriteriaIgnored | server/src/schedule.ts:105-133 | an empty-string or empty-list criterion filters exactly as if it were absent |
| Schedule.GetTalkById | server/src/schedule.ts:157-159 | the first talk with the id, and `undefined` exactly when no talk has it |
| Schedule.Keys | server/src/schedule.ts:181 | `talks.map((t) => t.track)` has one key per talk |
| Schedule.KeysAt | server/src/schedule.ts:181 | the key at each position is that talk's key |
| Schedule.GetAllTracks | server/src/schedule.ts:180-183 | sorted, without duplicates, exactly the tracks of the talks |
| Schedule.AllTagsElements | server/src/schedule.ts:190-194 | a tag occurs in the flattened list exactly when some talk has it |
| Schedule.CollectTags | server/src/schedule.ts:189-194 | the nested loop collects each tag once, in order of first occurrence |
| Schedule.AddTags | server/src/schedule.ts:191-193 | the inner loop adds the new tags of one talk to the set |
| Schedule.GetAllTags | server/src/schedule.ts:188-196 | sorted, without duplicates, exactly the tags of the talks |
| Schedule.AllTagsListing | server/src/schedule.ts:195 | the sorted set of tags is sorted, without duplicates and holds exactly the tags of the talks |
| Schedule.SelectKeys | server/src/schedule.ts:144-149 | a group holds only talks of the list with the group's key |
| Schedule.SelectNonEmpty | server/src/schedule.ts:145-148 | every talk is in the group of its key, so no group is empty |
| Schedule.GroupTalks | server/src/schedule.ts:141-175 | the loop builds the keys in order of first occurrence and, per key, exactly its talks in input order |
| Schedule.GroupTalksByCategory | server/src/schedule.ts:141-152 | the grouping by category |
| Schedule.CategoryNamesNotInherited | server/src/categorize.ts:5-23 | no category name, nor "General", names a member every plain object inherits |
| Schedule.CategoryGroupingSafe | server/src/schedule.ts:141-152 | the source's `!groups[key]` loop never meets an inherited key when grouping transformed talks by category, so it agrees with the intended grouping |
| Schedule.GroupTalksByTrack | server/src/schedule.ts:164-175 | the grouping by track, as intended: see Findings |
| Schedule.GroupSizesSum | server/src/schedule.ts:141-175 | every talk lands in exactly one group: the group sizes add up to the number of talks |
| Schedule.GroupTalksAsWritten | server/src/schedule.ts:164-175 | the loop as written throws exactly when some key names an inherited member of a plain object, and otherwise builds the grouping |
| Schedule.PushAsWritten | server/src/schedule.ts:167-170 | one iteration as written fails only on a key that has no group and names an inherited member; otherwise it extends the grouping by the talk |
| Schedule.KnownKeyNotInherited | server/src/schedule.ts:167 | a key that already has a group came from an earlier talk, so it names no inherited member |
| Schedule.ToStringTrackGroups | server/src/schedule.ts:164-175 | a single talk on the track "toString" makes the loop throw, while the intended grouping has one group holding it |
| Categorize.CategoryNames | server/src/categorize.ts:5-18 | the twelve category names, in declaration order, none of them "General" |
| Categorize.AnyKeyword | server/src/categorize.ts:37-41 | the inner loop finds a keyword exactly when some lower-cased keyword occurs in the text |
| Categorize.FirstMatch | server/src/categorize.ts:36-42 | the first category in declaration order with a matching keyword, even when later ones match too, and nothing exactly when none matches |
| Categorize.CategorizeTalk | server/src/categorize.ts:33-45 | first match wins, and "General" exactly when no keyword of any category occurs in the lower-cased title and abstract |
| Categorize.DefaultIsNoCategory | server/src/categorize.ts:5-23 | the fallback "General" is the name of none of the twelve categories, so it marks exactly the talks no keyword matched |
| Categorize.CategoryIsKnown | server/src/categorize.ts:5-23 | the result is a category name or "General" |
| Categorize.NullAbstractIsEmpty | server/src/categorize.ts:34 | a `null` abstract categorises like an empty one |
| Categorize.CaseInsensitive | server/src/categorize.ts:34-38 | texts equal up to letter case fall in the same category |
| Categorize.CategorizeTalks | server/src/categorize.ts:53-57 | one category per talk, element `i` being `categorizeTalk` of talk `i` |
| ScheduleServer.PluralSuffix | server/src/server.ts:327-329 | "talk" is singular exactly for a count of one |
| ScheduleServer.SummaryPartsCount | server/src/server.ts:394-405 | one part per given criterion among category, day, speaker and non-empty keywords, and none when none is given |
| ScheduleServer.SummaryPartsOrder | server/src/server.ts:394-405 | a category part comes first and a keywords part, joined with ", ", comes last |
| ScheduleServer.BuildFilterSummary | server/src/server.ts:391-412 | `Showing all N talks` with no criterion, else `Found N talk(s) matching ` and the parts joined with " and " |
| ScheduleServer.FormatBodyPreview | server/src/server.ts:46-54 | text of at most 4000 characters is unchanged and not marked; longer text is its first 4000 characters followed by `...[truncated]`, marked |
| ScheduleServer.PreviewBounded | server/src/server.ts:46-54 | a preview never exceeds 4000 characters plus the mark |
| ScheduleServer.SearchFilters | server/src/server.ts:306-311 | `search_talks` filters on category, day, speaker and keywords only |
| ScheduleServer.HandleToolCall | server/src/server.ts:296-383 | `search_talks` lists the filtered talks with `totalCount` their number, `groups` their grouping by category and the summary text; an unknown talk id, an unknown tool and a failed schedule load each give `isError` |
| ScheduleServer.DetailsIncludeAbstract | server/src/server.ts:337-360 | a found talk's details are its transform with the abstract, present whenever the schedule has a non-empty one |
| ScheduleServer.SearchCountsAllGrouped | server/src/server.ts:313-320 | the groups of a search reply hold all `totalCount` talks |
| WidgetTemplate.ReplaceAll | server/src/widget-template.ts:102-104 | `replaceAll` with the pattern as its own replacement changes nothing, and an equally long replacement keeps the length |
| WidgetTemplate.ReplaceAllAbsent | server/src/widget-template.ts:102-104 | `replaceAll` leaves a text without the pattern unchanged |
| WidgetTemplate.ReplaceAllWhole | server/src/widget-template.ts:102-104 | the pattern alone is replaced as a whole |
| WidgetTemplate.ReplaceAllSplit | server/src/widget-template.ts:102-104 | replacing in `a + b` is replacing in each part when no occurrence can straddle the boundary |
| WidgetTemplate.SlotsDistinct | server/src/widget-template.ts:17-23 | no placeholder contains another |
| WidgetTemplate.RenderWidgetTemplate | server/src/widget-template.ts:92-105 | filling each slot with its own placeholder gives back the template; `RenderFillsSlots` and `RenderLeavesNoPlaceholder` pin the page for real values |
| WidgetTemplate.RenderFillsSlots | server/src/widget-template.ts:92-105 | the page is the template with the server URL in its three URL slots and the widget file and the style file (or "undefined") in theirs |
| WidgetTemplate.RenderLeavesNoPlaceholder | server/src/widget-template.ts:17-23 | when no value contains `{{`, no placeholder is left |
| WidgetTemplate.LookupDistFile | server/src/widget-template.ts:48-50 | `manifest[key]?.file` |
| WidgetTemplate.LookupDistFileWithIndexFallback | server/src/widget-template.ts:52-59 | nothing exactly when neither `<base>.tsx` nor `<base>/index.tsx` has a file |
| WidgetTemplate.FlatEntryPreferred | server/src/widget-template.ts:58 | `<base>.tsx` wins whenever it has a file; otherwise `<base>/index.tsx` is used |
| WidgetTemplate.ResolveWidgetAssets | server/src/widget-template.ts:82-90 | a missing or empty bundle throws `Missing widget bundle for <name>`; otherwise the bundle and the optional `style.css` file |
| WidgetTemplate.BundledWidgetResolves | server/src/widget-template.ts:82-90 | a widget bundled under either key resolves to its file |
| WidgetTemplate.GetHeader | server/src/widget-template.ts:61-67 | a header with a single value yields it; a header with a non-empty list of values yields the first; nothing when the headers or the header are absent or the list is empty |
| WidgetTemplate.ResolveServerUrl | server/src/widget-template.ts:107-115 | `http://localhost:3000` outside production; in production `https://` and the forwarded host, else the host, else `localhost` |
| WidgetTemplate.ProductionUsesForwardedHost | server/src/widget-template.ts:110-111 | the forwarded host wins over the host |
| WidgetTemplate.GetWidgetTemplateHashEntry | server/src/widget-template.ts:69-72 | the entry of the widget when the hash map and its templates have one, else nothing |
| WidgetTemplate.ResolveWidgetTemplateUri | server/src/widget-template.ts:74-80 | `ui://widgets/apps-sdk/<file>` for an entry with a file, else `ui://widgets/apps-sdk/<name>.html` |
| WidgetTemplate.HashedUriOrFallback | server/src/__tests__/widget-template-hash.test.ts:17-43 | the hash map of the unit test gives `test_widget-deadbeef.html` to the listed widget and the plain name to another |
| WidgetTemplate.NoHashMapFallsBack | server/src/widget-template.ts:74-80 | without a hash map every widget gets its plain template URI |
| WidgetHashes.RenderTemplate | scripts/generate-widget-template-hashes.mjs:19-24 | filling each slot with its own placeholder gives back the template; `RenderTemplateMatchesServer` ties it to the server's page |
| WidgetHashes.RenderTemplateMatchesServer | scripts/generate-widget-template-hashes.mjs:5-24 | the script's template and substitutions are the server's, so it renders the same page |
| WidgetHashes.NormalizeSeparators | scripts/generate-widget-template-hashes.mjs:27 | every backslash becomes a slash and nothing else changes |
| WidgetHashes.BaseName | scripts/generate-widget-template-hashes.mjs:29-31 | the last path segment |
| WidgetHashes.LastIndexOf | scripts/generate-widget-template-hashes.mjs:31 | the position of the last occurrence of a character |
| WidgetHashes.LastIndexOfAt | scripts/generate-widget-template-hashes.mjs:31 | the last occurrence of a character is at `i` when `s[i]` is it and no later character is |
| WidgetHashes.Stem | scripts/generate-widget-template-hashes.mjs:31 | a segment without its extension, a leading dot opening none |
| WidgetHashes.ResolveWidgetName | scripts/generate-widget-template-hashes.mjs:26-32 | a widget name holds no separator |
| WidgetHashes.NameIgnoresSeparatorStyle | scripts/generate-widget-template-hashes.mjs:27 | backslashes are normalised before anything else |
| WidgetHashes.IndexEntryName | scripts/generate-widget-template-hashes.mjs:28-29 | `src/widgets/<name>/index.tsx` is named `<name>` |
| WidgetHashes.FlatEntryName | scripts/generate-widget-template-hashes.mjs:31 | `src/widgets/<name>.tsx` is named `<name>` |
| WidgetHashes.FileOf | scripts/generate-widget-template-hashes.mjs:40 | `manifest["style.css"]?.file` is the file of a member so named |
| WidgetHashes.Hash8 | scripts/generate-widget-template-hashes.mjs:60 | the hash is eight characters of the hex digest |
| WidgetHashes.EntryFor | scripts/generate-widget-template-hashes.mjs:55-63 | the record holds the hash and `<name>-<hash>.html` |
| WidgetHashes.ErrorIsFinal | scripts/generate-widget-template-hashes.mjs:51-53 | once the loop has thrown, later members change nothing |
| WidgetHashes.GenerateTemplates | scripts/generate-widget-template-hashes.mjs:39-64 | the loop over the manifest builds exactly `Templates` of the manifest |
| WidgetHashes.Templates | scripts/generate-widget-template-hashes.mjs:43-64 | every recorded widget has an 8-character hash and the file `<name>-<hash>.html`; `TemplatesError` and `TemplatesContents` pin the rest |
| WidgetHashes.TemplatesError | scripts/generate-widget-template-hashes.mjs:43-53 | the loop throws exactly when some widget key has no file, naming the first such key; other keys are skipped |
| WidgetHashes.TemplatesContents | scripts/generate-widget-template-hashes.mjs:43-64 | the names recorded are exactly those of the widget keys, each holding the record of the last key so named |
| WidgetHashes.RecordedHash | scripts/generate-widget-template-hashes.mjs:55-64 | every recorded name holds `<name>-<hash8>.html` and the hash of the page of a widget key with that name and a bundled file |
| WidgetHashes.ServerUsesGeneratedName | scripts/generate-widget-template-hashes.mjs:55-70 | the server serves a recorded widget at `<name>-<hash8>.html`, the hash being that of its page rendered with the server URL left as a placeholder |
| WidgetHashes.HashedUri | server/src/widget-template.ts:74-78 | a recorded widget is served under its recorded file |
| ScheduleApp.ToggleFavorite | web/src/app.tsx:631-635 | the id's membership flips and nothing else changes |
| ScheduleApp.ToggleTwice | web/src/app.tsx:629-636 | toggling twice restores the set |
| ScheduleApp.ToggleSize | web/src/app.tsx:631-635 | toggling removes or adds exactly one favourite |
| ScheduleApp.IdSet.Copy | web/src/app.tsx:630 | `new Set(favorites)` holds the same ids |
| ScheduleApp.IdSet.Empty | web/src/app.tsx:602 | the initial favourites are empty |
| ScheduleApp.IdSet.Has | web/src/app.tsx:631 | `has` is membership |
| ScheduleApp.IdSet.Add | web/src/app.tsx:634 | `add` inserts the id |
| ScheduleApp.IdSet.Delete | web/src/app.tsx:632 | `delete` removes the id |
| ScheduleApp.Favorites.constructor | web/src/app.tsx:602 | the state starts with an empty set |
| ScheduleApp.Favorites.HandleFavToggle | web/src/app.tsx:629-636 | the new state is a fresh set holding the toggle of the old one; the old set is not modified |
| ScheduleApp.ColorsFor | web/src/app.tsx:7-28 | each track gets its entry's colours, and a track without an entry the "General" colours |
| ScheduleApp.ColorsOfKnownTracks | web/src/app.tsx:433 | a track with an entry gets exactly that entry's colours |
| ScheduleApp.ColorsAsWritten | web/src/app.tsx:433 | the lookup as written finds no colours exactly for a track named after an inherited member |
| ScheduleApp.InheritedTrackHasNoColors | web/src/app.tsx:494 | the track "toString" finds no colours as written, and the "General" ones as intended |
| ScheduleApp.RemainingTracks | web/src/app.tsx:666 | the remaining tracks are exactly the group keys outside `TRACK_ORDER`, without duplicates |
| ScheduleApp.TrackOrderDistinct | web/src/app.tsx:591 | the three fixed tracks are distinct |
| ScheduleApp.DisplayOrder | web/src/app.tsx:665-671 | `TRACK_ORDER` first, in its order, then the remaining keys sorted; no duplicates; exactly the fixed tracks and the group keys |
| ScheduleApp.TalksOf | web/src/app.tsx:675 | `groups[track] \|\| []` is empty for a track without a group |
| ScheduleApp.Rows | web/src/app.tsx:566-568 | only tracks with talks render a row, holding the track's talks; the ordering is `RowsInTrackOrder` |
| ScheduleApp.RowsInTrackOrder | web/src/app.tsx:671-675 | over duplicate-free tracks the rows appear in the order of the tracks |
| ScheduleApp.RowsSnocOrder | web/src/app.tsx:671-675 | one more track keeps the rows in track order, its row coming last |
| ScheduleApp.RowsInDisplayOrder | web/src/app.tsx:665-675 | the rows appear in the displayed order: `TRACK_ORDER`, then the other group keys sorted |
| ScheduleApp.RowsCover | web/src/app.tsx:671-675 | every listed track with talks has a row |
| ScheduleApp.RowsDistinct | web/src/app.tsx:671 | no track has two rows |
| ScheduleApp.OneRowPerTrack | web/src/app.tsx:671-675 | a listed track with talks has exactly one row |
| ScheduleApp.EveryGroupOneRow | web/src/app.tsx:664-676 | every non-empty group is shown in exactly one row, and every row shows a whole group |
| ScheduleApp.CardTags | web/src/app.tsx:513-515 | no tag list for a talk without tags; otherwise its first three tags, or all when fewer |

## Left out

- File I/O, the clock and the network are parameters:
  - the directory listing, the manifest and the hash-map file are given as values;
  - what `fetch` settles to is given: a rejection with its message, or a response with its status and body text;
  - file-system faults are explicit flags.
- SHA-1 and SHA-256 (FIPS 180-4 sections 6.1 and 6.2) are parameters. A SHA-1 digest is a 40-character lower-case hex string and a SHA-256 digest a 64-character one. Collision freedom is required only for the keys a lemma is about.
- JSON: parsing and `JSON.stringify` (RFC 8259) are a pair that round-trips by construction. Text that does not parse is one `Garbled` value. The tool replies keep the object they serialise, not its text, and the indentation is not modelled.
- Object key order follows insertion. JavaScript lists integer-like keys first; that order is not modelled.
- Concurrency: the cache's calls are treated as sequential. Interleaved writes and the index read-modify-write race are not modelled.
- `mkdir` is a fault flag. Directory creation itself is not modelled.
- Logging (`info`, `debug`), `DEBUG` and the response summary in `gutendexFetch` are not modelled.
- Lower-casing is ASCII only. String order compares code points, while JavaScript's `sort` compares UTF-16 code units.
- Date and time zone: `new Date(...)` read in the server's zone is the parameter `localTime`. Locales other than en-US are not modelled.
- `loadSchedule` is a file read; the schedule arrives as a value, or as the error it threw.
- `replaceAll`: the `$` patterns of the replacement string are not modelled. No value written into the template contains `$`.
- `path` helpers: `basename` and `extname` are modelled for keys without trailing or repeated slashes and without `.` or `..` segments.
- WidgetHashes.ResolveWidgetName: the key `src/widgets/index.tsx` and names with a slash are not covered by `IndexEntryName`/`FlatEntryName`.
- WidgetHashes.TemplatesContents: assigning `templates["__proto__"]` is modelled as an ordinary member.
- WidgetHashes: the missing-manifest exit and the write of the output file are not modelled. `generatedAt` is the clock's reading, given.
- WidgetHashes.TemplatesContents: the loop lemmas take the naming rule as a parameter. `GenerateTemplates` fixes it to `ResolveWidgetName`.
- HTTP and SSE routing, sessions, CORS, request-body streaming, MCP handler registration, tool schemas and zod validation are not modelled.
- In the Gutendex tool handler, the unknown-tool throw and the `Found N books` text are not modelled. The modelled part is the result mapping.
- React rendering, hooks, `localStorage`, `fetch` and `AbortController` in the widgets are not modelled, nor are the clipboard, timers, the `onSummary` prompt text and the count label of a track row. Of `fetchPage`, only the per-book `cover_url` mapping is modelled (`GutendexSearch.MappedCoverUrl`, `GutendexSearch.MappedBookCover`); its request, paging state and error handling are not.
- ScheduleApp.Favorites.HandleFavToggle: the `localStorage` write and the iteration order of the set are not modelled.
- GutendexSearch.Chips: `max` is a natural number. A negative `max` (which `slice` counts from the end) is not modelled.
- GutendexSearch.TopTags: `unique.includes` compares objects by reference; the model compares JSON values structurally. The two agree on string tags, which is what Gutendex returns.
- GutendexSearch.BestFormatFallback: `Object.values` on numbers and booleans yields `[]`; on these the model agrees.
- GutendexServer.Truncate: `max` has no default (the source defaults it to 4000, and its only call passes 4000). Lengths and the cut count characters (code points). JavaScript's `length` and `slice` count UTF-16 code units, so for text outside the Basic Multilingual Plane the source cuts earlier, reports a larger count and can split a surrogate pair; the model does not capture this.
- WidgetTemplate.GetWidgetTemplateHashEntry: the hash map's `templates` is a map of its own entries. For a widget name such as "toString", the source's `templates[name]` is an inherited function, not `null`. The model returns no entry there. The resolved URI is the same either way, because the function has no `file`.
- ScheduleServer.FormatBodyPreview: the 4000 limit and the cut count characters, not UTF-16 code units, with the same consequence as for `Truncate`.
- GutendexServer.GutendexFetch: the message of the `SyntaxError` that `resp.json()` rejects with is the stand-in `BODY_NOT_JSON`; the contract says only that the result is an error.
- JSON numbers are integers (`Num(int)`). JavaScript numbers are doubles: `String(1.5)` gives "1.5" and `download_count ?? 0` keeps a fractional count, neither of which the model represents.
- Duplicate object keys: `JSON.parse` keeps the last of repeated keys (in a hand-edited `index.json`, say), while `Lookup` takes the first. Text produced by `JSON.stringify` never repeats a key.
- Cache.FileFifoCache.constructor: `capacity` is a natural number with no default; the source defaults it to 10, and its only call site (the Gutendex `server.ts`, line 213) passes 10. A negative capacity would make the eviction loop at `cache.ts` line 82 run forever once the order is empty (`0 > -1` keeps holding); that case is outside the model.

## Findings

| source | as written | input that shows it | evidently intended | confidence | as-written member | corrected member |
|---|---|---|---|---|---|---|
| server/src/schedule.ts:164-175 | `!groups[talk.track]` reads the empty object literal, so a track named after an inherited member of `Object.prototype` already finds a (function) value there; no array is created, and `groups[talk.track].push` throws a TypeError. `groupTalksByCategory` (141-152) has the same loop, but its keys are always one of the thirteen category names, none inherited. | one talk whose track is "toString" | one group "toString" holding that talk | not executed | Schedule.GroupTalksAsWritten, Schedule.ToStringTrackGroups | Schedule.GroupTalksByTrack |
| web/src/app.tsx:433, 494 | `TRACK_COLORS[talk.track] \|\| TRACK_COLORS["General"]` finds the inherited `Object.prototype` function for a track so named. That value is truthy, so the "General" fallback is skipped and the colours read as `undefined`. | a talk whose track is "toString" | the "General" colours | not executed | ScheduleApp.ColorsAsWritten, ScheduleApp.InheritedTrackHasNoColors | ScheduleApp.ColorsFor |
