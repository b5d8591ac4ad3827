# Signalist market-data proxy: verified model of `finnhub.actions.ts`

This project models the one piece of the Signalist backend that holds real logic:
`apps/server/lib/actions/finnhub.actions.ts`, the proxy in front of the Finnhub
market-data API. It has three parts.

- **The TTL cache** (`memoryCache`, `memoize`). This is a process-wide map from a
  request URL to a value and an absolute expiry. A live entry (`expiry > now`) is
  served without computing. On a miss the value is computed and stored with
  `expiry = now + ttlSeconds * 1000`, where `now` was read before computing. A
  rejected computation stores nothing. It is modelled as the class
  `TtlCache.MemoryCache` over a `map`. The pure function `TtlCache.Memo` says
  what one call does, and `TtlCache.Replay` does the same for a sequence of calls.
- **`getNews`**.
  - Symbols are trimmed, upper-cased, and empty ones are dropped (`Symbols`).
  - Each symbol's valid articles form a queue.
  - A round-robin interleave takes at most one head per symbol position per
    round, for at most 6 rounds, and stops at 6 articles (`RoundRobin`).
  - The collected articles are sorted newest first and cut to 6.
  - When no per-symbol article is found, the general feed is used instead. It is
    deduplicated by the key `${id}-${url}-${headline}`, capped at 20, and the
    first 6 are formatted with their positions (`GeneralNews`, `News`).
- **`searchStocks`**.
  - With no API key the result is empty.
  - An empty query uses the profiles of the first 10 popular symbols.
  - Any other query uses the provider's `result` array.
  - In both cases the first 15 hits are shaped with default fields, and any
    exception gives an empty list (`Search`).

The network, the clock and three helpers are inputs, not code. Every provider
fetch is a value of `Common.Response`: a body, a JSON `null`, or a rejection.
The clock reading `now` is a parameter. `validateArticle` and `formatArticle`
are function parameters (`valid`, `format`), and `POPULAR_STOCK_SYMBOLS` is the
parameter `popular`. `lib/utils` and `lib/constants`, which define those three,
are not part of this model.

`RoundRobin.Collect` and `GeneralNews.DedupGeneral` are methods with loops,
because the source fills `collected` and `unique` step by step. Each is proved
to compute a pure specification function: `RoundRobin.Run` and
`GeneralNews.Dedup` respectively. The source's promises are proved as lemmas
about those functions. `News.GetNews` is a method because it calls these two.
Its contract does not stand in for any single function; on the per-symbol path
it states which articles come back (as a multiset), that they are newest
first, and that articles with one `datetime` keep the order they were collected
in.

Behaviour of the code worth knowing:

- The interleave runs at most 6 rounds. `RoundRobin.StopsEarlyOnlyWhenExhausted`
  shows that it ends with fewer than 6 articles only when every queue is empty.
- Symbols are not deduplicated. A symbol requested twice shares one queue and
  can give two articles per round (`RoundRobin.DuplicateSymbolSharesOneQueue`).
  The one-per-symbol-per-round property therefore holds per request position,
  and per symbol only when no symbol repeats.
- For one symbol with more than 6 articles, the code collects the first 6 in
  the provider's order, then sorts them. These are the 6 newest only if the
  provider lists newest first.
- The composite dedup key does not keep its parts apart. Two different
  articles can share a key and collapse into one
  (`GeneralNews.KeyJoinsPartsAmbiguously`).

## Model

| member | source | states |
|---|---|---|
| `Common.Filter` | apps/server/lib/actions/finnhub.actions.ts:57 | `filter` keeps only elements that pass, and keeps every element that passes; it never adds any |
| `Common.FilterSingle` | apps/server/lib/actions/finnhub.actions.ts:57 | one element is kept exactly when it passes |
| `Common.FilterAppend` | apps/server/lib/actions/finnhub.actions.ts:57 | filtering keeps order and multiplicity: the filter of a concatenation is the concatenation of the filters, which with `FilterSingle` fixes the result |
| `Common.Take` | apps/server/lib/actions/finnhub.actions.ts:81 | `slice(0, n)` gives the first `min(n, length)` elements, in order |
| `TtlCache.MemoryCache.constructor` | apps/server/lib/actions/finnhub.actions.ts:8 | the cache starts empty |
| `TtlCache.MemoryCache.Memoize` | apps/server/lib/actions/finnhub.actions.ts:10-22 | a live entry is returned and the map is unchanged; on a miss a computed value is returned and stored with expiry `now + ttlSeconds * 1000`; a rejection is returned and the map is unchanged; result and new map are `Memo` of the old map |
| `TtlCache.Memo` | apps/server/lib/actions/finnhub.actions.ts:10-22 | one call changes at most the entry under its key; it returns the computation's outcome or, for a live entry, the stored value; when it changes the cache, the call missed, the computation succeeded, and the new entry is (value, `now + ttlSeconds * 1000`) |
| `TtlCache.HitServesStoredValue` | apps/server/lib/actions/finnhub.actions.ts:11-16 | a key whose expiry lies after `now` is served its stored value, whatever the computation would give, and the cache is not changed |
| `TtlCache.MissStoresComputedValue` | apps/server/lib/actions/finnhub.actions.ts:12-21 | on a miss the computed value is returned; the entry for the key becomes (value, `now + ttlSeconds * 1000`) with `now` read before computing; every other key keeps its entry |
| `TtlCache.FailureStoresNothing` | apps/server/lib/actions/finnhub.actions.ts:18-21 | a rejected computation is passed on and leaves the cache as it was, so a later call computes again |
| `TtlCache.NeverServedPastExpiry` | apps/server/lib/actions/finnhub.actions.ts:14-16 | a value that did not come from the computation came from an entry whose expiry is after `now` |
| `TtlCache.SecondCallWithinTtlHits` | apps/server/lib/actions/finnhub.actions.ts:11-21 | after a computed miss at `t1`, any call before `t1 + ttlSeconds * 1000` is served that value and the cache does not change |
| `TtlCache.CallAfterExpiryRecomputes` | apps/server/lib/actions/finnhub.actions.ts:11-21 | once the time to live has elapsed, the same key is computed again |
| `TtlCache.EntriesComeFromMisses` | apps/server/lib/actions/finnhub.actions.ts:8-21 | starting from an empty cache, after any sequence of calls every entry holds the value of an earlier call that missed and computed, with expiry that call's `now + ttlSeconds * 1000` |
| `TtlCache.ServedValueWasComputedWithinTtl` | apps/server/lib/actions/finnhub.actions.ts:11-21 | in a fresh process, a call served from the cache gets exactly the value an earlier call on that key computed, and that call's expiry is still after the serving call's clock |
| `Text.Trim` | apps/server/lib/actions/finnhub.actions.ts:41 | `trim` gives a string that has no whitespace at either end and that `s` surrounds with whitespace only; these two facts fix the result; it is empty exactly when `s` is all whitespace |
| `Text.Upper` | apps/server/lib/actions/finnhub.actions.ts:41 | `toUpperCase` keeps the length, maps each character, and leaves no lower-case ASCII letter |
| `Text.IntText` | apps/server/lib/actions/finnhub.actions.ts:95 | the text of `id` in the key is non-empty, starts with a minus sign exactly for negative ids, and is otherwise decimal digits |
| `Text.NatTextValue` | apps/server/lib/actions/finnhub.actions.ts:95 | the digits printed for a natural number denote that number |
| `Text.IntTextValue` | apps/server/lib/actions/finnhub.actions.ts:95 | reading back the printed text of an integer gives that integer, so different ids print differently |
| `Symbols.CleanSymbol` | apps/server/lib/actions/finnhub.actions.ts:41 | a cleaned symbol is trimmed and upper case, and it is empty exactly when the input is all whitespace |
| `Symbols.CleanSymbols` | apps/server/lib/actions/finnhub.actions.ts:40-42 | every cleaned symbol is non-empty, trimmed and upper case, and there are no more of them than inputs |
| `Symbols.CleanSymbolsSingle` | apps/server/lib/actions/finnhub.actions.ts:40-42 | one input symbol gives its cleaned form, or nothing when it is all whitespace |
| `Symbols.CleanSymbolsAppend` | apps/server/lib/actions/finnhub.actions.ts:40-42 | cleaning keeps input order: cleaning a concatenation gives the concatenation of the cleaned parts |
| `Symbols.CleanSymbolsKeeps` | apps/server/lib/actions/finnhub.actions.ts:40-42 | every input that is not all whitespace reaches the cleaned list in cleaned form |
| `Symbols.CleanSymbolsIdempotent` | apps/server/lib/actions/finnhub.actions.ts:40-42 | cleaning a cleaned list changes nothing |
| `RoundRobin.Step` | apps/server/lib/actions/finnhub.actions.ts:67-75 | one visit moves to the next position, or to the next round once the symbols are used up; it adds at most one pick, and an added pick is the valid head of the visited symbol's queue, tagged with that symbol, its position and the round |
| `RoundRobin.Run` | apps/server/lib/actions/finnhub.actions.ts:66-77 | the walk always ends at one of the two breaks: all 6 rounds done, or 6 articles collected |
| `RoundRobin.FormatPicks` | apps/server/lib/actions/finnhub.actions.ts:72 | pick `k` becomes `formatArticle(article, true, sym, round)` of that pick, one article per pick, in order; this only spells out the `push` at :72, and the promise built on it is proved by `RoundRobin.Collect` and `News.GetNews` |
| `RoundRobin.Collect` | apps/server/lib/actions/finnhub.actions.ts:65-77 | the nested loops with `shift`, `push` and both `break`s produce exactly the formatted picks of `Run` from the initial queues |
| `RoundRobin.NoSymbolsNoPicks` | apps/server/lib/actions/finnhub.actions.ts:47 | with no symbol requested, nothing is collected |
| `RoundRobin.AtMostMaxArticles` | apps/server/lib/actions/finnhub.actions.ts:74-76 | `collected` never holds more than 6 articles |
| `RoundRobin.OnePickPerSymbolPerRound` | apps/server/lib/actions/finnhub.actions.ts:66-73 | picks are in increasing (round, position) order, so one round takes at most one article per request position; each pick names the symbol at its position, was made in one of the 6 rounds and passed validation; without repeated symbols, one round holds at most one article per symbol |
| `RoundRobin.QueueOrderKept` | apps/server/lib/actions/finnhub.actions.ts:68-70 | for every symbol, the articles collected from it followed by what is left of its queue are its original queue, so it contributes the heads of its queue in queue order |
| `RoundRobin.StopsEarlyOnlyWhenExhausted` | apps/server/lib/actions/finnhub.actions.ts:66-77 | the walk ends with fewer than 6 articles only after all 6 rounds, and then every requested symbol's queue is empty and all of its valid articles were collected |
| `RoundRobin.FirstRoundTakesEachSymbolOnce` | apps/server/lib/actions/finnhub.actions.ts:66-73 | when all requested symbols (none repeated) have articles, the first picks are each symbol's head in request order, before any symbol gives a second |
| `RoundRobin.DuplicateSymbolSharesOneQueue` | apps/server/lib/actions/finnhub.actions.ts:48-70 | a symbol requested twice gives its first two articles in round 0, since both positions shift the one queue stored under that symbol |
| `GeneralNews.Dedup` | apps/server/lib/actions/finnhub.actions.ts:91-100 | the walk with the seen set keeps no more articles than the feed has, and every kept article is valid and has a key not in the starting seen set |
| `GeneralNews.DedupGeneral` | apps/server/lib/actions/finnhub.actions.ts:91-100 | the loop with `seen`, `continue` and the early `break` leaves in `unique` exactly the first 20 articles of the dedup walk over the whole feed |
| `GeneralNews.DedupSound` | apps/server/lib/actions/finnhub.actions.ts:93-98 | every kept article passed validation and comes from the feed; no kept key was seen earlier; no two kept articles share a key; there are no more than the feed has |
| `GeneralNews.DedupCovers` | apps/server/lib/actions/finnhub.actions.ts:93-98 | every valid article of the feed has its key either seen earlier or among the kept articles |
| `GeneralNews.DedupIsFirstOccurrences` | apps/server/lib/actions/finnhub.actions.ts:91-100 | the walk with a seen-set keeps exactly the articles that are valid and whose key no earlier valid article has, in feed order |
| `GeneralNews.UniqueArticles` | apps/server/lib/actions/finnhub.actions.ts:91-100 | `unique` is at most 20 valid articles of the feed with pairwise different keys, the first valid occurrences of their keys in feed order; when it has fewer than 20, every valid key of the feed is in it |
| `GeneralNews.ArticleKey` | apps/server/lib/actions/finnhub.actions.ts:95 | the key `${id}-${url}-${headline}` has a hyphen right after the printed id; what the key does and does not keep apart is proved by `GeneralNews.KeyOpensWithId`, `GeneralNews.KeyDeterminesId` and `GeneralNews.KeyJoinsPartsAmbiguously` |
| `GeneralNews.KeyOpensWithId` | apps/server/lib/actions/finnhub.actions.ts:95 | the key `${id}-${url}-${headline}` opens with the printed id followed by a hyphen |
| `GeneralNews.KeyDeterminesId` | apps/server/lib/actions/finnhub.actions.ts:95 | two articles with one key have one id: the printed id has no hyphen after its first character, so the key fixes it |
| `GeneralNews.KeyJoinsPartsAmbiguously` | apps/server/lib/actions/finnhub.actions.ts:95-96 | two different articles, one with url "a" and headline "b-c" and one with url "a-b" and headline "c", share the key "1-a-b-c", so only the first is kept |
| `News.SymbolQueue` | apps/server/lib/actions/finnhub.actions.ts:53-61 | the queue of a fetched body is exactly the body filtered by validation (so body order and multiplicity are kept, by `FilterAppend`); only valid articles, every valid article of the body; empty when the fetch failed or returned `null` |
| `News.SymbolQueues` | apps/server/lib/actions/finnhub.actions.ts:48-63 | `perSymbolArticles` has one queue per cleaned symbol, and each symbol's queue is the filtered result of that symbol's own fetch |
| `News.InsertByDate` | apps/server/lib/actions/finnhub.actions.ts:80 | inserting into a newest-first list keeps it newest first and adds exactly that article |
| `News.SortByDate` | apps/server/lib/actions/finnhub.actions.ts:80 | the sort returns the same articles (as a multiset), newest first |
| `News.InsertByDateStable` | apps/server/lib/actions/finnhub.actions.ts:80 | an inserted article goes ahead of the articles with its own `datetime`, and those keep their order |
| `News.SortByDateStable` | apps/server/lib/actions/finnhub.actions.ts:80 | the sort is stable: for every `datetime`, the articles with it come out in their input order |
| `News.SortedStaysPut` | apps/server/lib/actions/finnhub.actions.ts:80 | a list that is already newest first comes out unchanged |
| `News.FormatIndexed` | apps/server/lib/actions/finnhub.actions.ts:102-104 | article `k` of the first six becomes `formatArticle(a, false, undefined, k)`, one per article, in order; this only spells out the `map` at :104, and which articles are formatted is proved by `News.GetNews` with `GeneralNews.UniqueArticles` |
| `News.GetNews` | apps/server/lib/actions/finnhub.actions.ts:35-109 | with no API key the call fails; when the interleave collected articles, the result is those articles as a multiset, at most 6, newest first, and articles with one `datetime` stay in the order they were collected; otherwise a failed general fetch fails the call, and success is the first 6 first-valid-occurrences of the general feed, each formatted with its position |
| `Search.ProfileHit` | apps/server/lib/actions/finnhub.actions.ts:137-151 | a profile gives a hit exactly when it was fetched and has a name or a ticker; the hit has the upper-cased symbol, the name or else the ticker, type "Common Stock", and the profile's exchange or else "US" |
| `Search.PopularHits` | apps/server/lib/actions/finnhub.actions.ts:137-152 | there are no more hits than symbols, and each has a non-empty name, type "Common Stock" and an exchange |
| `Search.PopularHitsAppend` | apps/server/lib/actions/finnhub.actions.ts:137-152 | hits keep the symbols' order: the hits of a concatenation are the concatenated hits |
| `Search.PopularHitsSound` | apps/server/lib/actions/finnhub.actions.ts:137-152 | every hit is the hit of one of the symbols |
| `Search.PopularHitsComplete` | apps/server/lib/actions/finnhub.actions.ts:137-152 | every symbol with a usable profile has its hit among the hits; with `PopularHitsSound`, the hits are exactly those that `.filter(Boolean)` at :152 keeps |
| `Search.ToStock` | apps/server/lib/actions/finnhub.actions.ts:159-165 | a row has the upper-cased symbol, the description or else the symbol as name, the exchange or else "US", the type or else "Stock", and `isInWatchlist` false |
| `Search.FromProvider` | apps/server/lib/actions/finnhub.actions.ts:156 | a provider hit keeps its symbol, description, display symbol and type, and has no `__exchange` (""); this only spells out the record, and the consequence, exchange "US" on every query row, is proved by `Search.SearchStocks` |
| `Search.QueryHits` | apps/server/lib/actions/finnhub.actions.ts:156 | the results are the provider's `result` array, one to one and in order, each without an `__exchange`, and none when `result` is not an array |
| `Search.Shape` | apps/server/lib/actions/finnhub.actions.ts:159-165 | shaping returns exactly `min(15, n)` rows, row `k` shaped from hit `k` |
| `Search.SearchStocks` | apps/server/lib/actions/finnhub.actions.ts:112-170 | no API key gives `[]`; at most 15 rows, each with an upper-case symbol, a non-empty exchange and type, and `isInWatchlist` false; a blank query gives the shaped hits of the first 10 popular symbols (at most 10 rows, each named and typed "Common Stock"); any other query gives the shaped provider result, or `[]` when the fetch failed or `result` is not an array, and every such row has exchange "US" because provider hits carry no `__exchange` |

## Left out

- `fetchJSON`, URL construction and the HTTP calls are network I/O. Each fetch is an input `Response` value: a body, a `null` body, or a rejection. A non-2xx status is a rejection.
- The `memoize` wrapping of the fetches inside `getNews` and `searchStocks` is not replayed. Their fetch results are inputs, whether the cache or the network supplied them. The cache itself is modelled on its own, with one value type per cache, where the source keeps `any`.
- `Promise.all` and the async sequencing only add concurrency. Per-symbol and per-profile fetches are inputs that have already settled. The duplicate computation of two overlapping misses on one key is not modelled.
- `Date.now()` is the parameter `now`. `getDateRange` only feeds the request URL, so it is left out.
- `validateArticle`, `formatArticle` and `POPULAR_STOCK_SYMBOLS` are defined in files not part of this model. They are parameters with no properties assumed, so the synthesized article ids are not modelled.
- `console.error` logging is left out. The message of the error `getNews` rethrows is left out too; that failure is `Failure`.
- TypeScript `number` is modelled as an unbounded integer. Fractions, `NaN`, exponent notation in `${id}` and the `|| 0` in the sort comparator are not modelled. For integers the `|| 0` changes nothing.
- Elements of `symbols` that are `null` (the `s?.` in the cleaning) are not modelled, because the parameter is typed `string[]`. General-feed entries that are not objects are not modelled either.
- In search records, "" stands for a field that is missing or falsy; the shaping code treats both the same. A provider hit whose `symbol` is missing would throw inside the map and give `[]`. The model assumes `symbol` is a string, as its type says.
- Text.Upper: upper-cases ASCII letters only. JavaScript's `toUpperCase` maps all of Unicode, and some characters change the length ("ß" becomes "SS").
- News.SortByDate: sorts a value rather than the `collected` array in place. It is a stable insertion sort (`News.SortByDateStable`); the engine's own sorting algorithm is not modelled, only the stable newest-first result it must produce.
