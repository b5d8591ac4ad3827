/**
 * `searchStocks`: with an empty query, the profiles of the first
 * `PopularCount` popular symbols; otherwise the provider's search result; in
 * both cases the first `MaxResults` hits shaped into `StockWithWatchlistStatus`.
 */
module Search {
  import opened Common
  import opened Text
  import opened Records

  /** The number of popular symbols whose profile is fetched for an empty query. */
  const PopularCount: nat := 10

  /** The number of results returned at most. */
  const MaxResults: nat := 15

  /**
   * The hit built from the profile fetched for `sym`, or `None` when the profile
   * fetch failed, its body was `null`, or the profile has neither a name nor a ticker.
   */
  function ProfileHit(sym: string, response: Response<Profile>): (h: Option<SearchHit>)
    ensures h.Some? <==> response.Body? && (response.body.name != "" || response.body.ticker != "")
    ensures h.Some? ==>
      && h.value.symbol == Upper(sym) && h.value.displaySymbol == Upper(sym)
      && h.value.description == (if response.body.name != "" then response.body.name else response.body.ticker)
      && h.value.description != ""
      && h.value.kind == "Common Stock"
      && h.value.exchange == (if response.body.exchange != "" then response.body.exchange else "US")
  {
    match response
    case Body(p) =>
      if p.name == "" && p.ticker == "" then None
      else
        var symbol := Upper(sym);
        var name := if p.name != "" then p.name else p.ticker;
        var exchange := if p.exchange != "" then p.exchange else "US";
        Some(SearchHit(symbol, name, symbol, "Common Stock", exchange))
    case _ => None
  }

  /** `profiles.map(...).filter(Boolean)`: the hits of the symbols with a usable profile, in symbol order. */
  function PopularHits(syms: seq<string>, profiles: string -> Response<Profile>): (hits: seq<SearchHit>)
    ensures |hits| <= |syms|
    ensures forall k :: 0 <= k < |hits| ==> hits[k].description != "" && hits[k].kind == "Common Stock" && hits[k].exchange != ""
  {
    if syms == [] then []
    else
      var h := ProfileHit(syms[0], profiles(syms[0]));
      (if h.Some? then [h.value] else []) + PopularHits(syms[1..], profiles)
  }

  /** The popular hits keep the order of the symbols: the hits of a concatenation are the concatenated hits. */
  lemma {:induction false} PopularHitsAppend(a: seq<string>, b: seq<string>, profiles: string -> Response<Profile>)
    ensures PopularHits(a + b, profiles) == PopularHits(a, profiles) + PopularHits(b, profiles)
  {
    if a == [] {
      assert a + b == b;
    } else {
      assert (a + b)[0] == a[0];
      assert (a + b)[1..] == a[1..] + b;
      PopularHitsAppend(a[1..], b, profiles);
    }
  }

  /** `h` is the hit of one of `syms`. */
  ghost predicate HitOf(h: SearchHit, syms: seq<string>, profiles: string -> Response<Profile>)
  {
    exists j :: 0 <= j < |syms| && ProfileHit(syms[j], profiles(syms[j])) == Some(h)
  }

  /** Every popular hit is the hit of one of `syms`. */
  lemma {:induction false} PopularHitsSound(syms: seq<string>, profiles: string -> Response<Profile>)
    ensures forall k :: 0 <= k < |PopularHits(syms, profiles)| ==> HitOf(PopularHits(syms, profiles)[k], syms, profiles)
  {
    if syms != [] {
      var h := ProfileHit(syms[0], profiles(syms[0]));
      var rest := PopularHits(syms[1..], profiles);
      var hits := PopularHits(syms, profiles);
      PopularHitsSound(syms[1..], profiles);
      forall k | 0 <= k < |hits|
        ensures HitOf(hits[k], syms, profiles)
      {
        if h.Some? && k == 0 {
          assert ProfileHit(syms[0], profiles(syms[0])) == Some(hits[0]);
        } else {
          var k' := if h.Some? then k - 1 else k;
          assert hits[k] == rest[k'];
          assert HitOf(rest[k'], syms[1..], profiles);
          var j' :| 0 <= j' < |syms[1..]| && ProfileHit(syms[1..][j'], profiles(syms[1..][j'])) == Some(rest[k']);
          assert ProfileHit(syms[j' + 1], profiles(syms[j' + 1])) == Some(hits[k]);
        }
      }
    }
  }

  /** Every symbol of `syms` with a usable profile has its hit among the popular hits. */
  lemma {:induction false} PopularHitsComplete(syms: seq<string>, profiles: string -> Response<Profile>)
    ensures forall j :: 0 <= j < |syms| && ProfileHit(syms[j], profiles(syms[j])).Some? ==>
      ProfileHit(syms[j], profiles(syms[j])).value in PopularHits(syms, profiles)
  {
    if syms != [] {
      var h := ProfileHit(syms[0], profiles(syms[0]));
      var rest := PopularHits(syms[1..], profiles);
      PopularHitsComplete(syms[1..], profiles);
      assert PopularHits(syms, profiles) == (if h.Some? then [h.value] else []) + rest;
      forall j | 0 <= j < |syms| && ProfileHit(syms[j], profiles(syms[j])).Some?
        ensures ProfileHit(syms[j], profiles(syms[j])).value in PopularHits(syms, profiles)
      {
        if j > 0 {
          assert syms[j] == syms[1..][j - 1];
          assert ProfileHit(syms[j], profiles(syms[j])).value in rest;
        }
      }
    }
  }

  /** One result row: `symbol` upper-cased, `name` falling back to `symbol`, `exchange` to "US", `type` to "Stock". */
  function ToStock(h: SearchHit): (s: StockWithWatchlistStatus)
    ensures s.symbol == Upper(h.symbol) && IsUpperCase(s.symbol)
    ensures s.name == (if h.description != "" then h.description else h.symbol)
    ensures s.exchange == (if h.exchange != "" then h.exchange else "US") && s.exchange != ""
    ensures s.kind == (if h.kind != "" then h.kind else "Stock") && s.kind != ""
    ensures !s.isInWatchlist
  {
    StockWithWatchlistStatus(
      Upper(h.symbol),
      if h.description != "" then h.description else h.symbol,
      if h.exchange != "" then h.exchange else "US",
      if h.kind != "" then h.kind else "Stock",
      false)
  }

  /** `results.slice(0, MaxResults).map(...)`: exactly the first `MaxResults` hits, shaped, in order. */
  function Shape(hits: seq<SearchHit>): (r: seq<StockWithWatchlistStatus>)
    ensures |r| == if |hits| < MaxResults then |hits| else MaxResults
    ensures forall k :: 0 <= k < |r| ==> r[k] == ToStock(hits[k])
  {
    var first := Take(hits, MaxResults);
    seq(|first|, k requires 0 <= k < |first| => ToStock(first[k]))
  }

  /** A provider hit as a search result; it carries no `__exchange` (""). */
  function FromProvider(p: ProviderHit): (h: SearchHit)
    ensures h.symbol == p.symbol && h.description == p.description && h.displaySymbol == p.displaySymbol
    ensures h.kind == p.kind && h.exchange == ""
  {
    SearchHit(p.symbol, p.description, p.displaySymbol, p.kind, "")
  }

  /** `Array.isArray(data?.result) ? data.result : []`. */
  function QueryHits(search: Response<SearchResponse>): (hits: seq<SearchHit>)
    ensures var provided := if search.Body? && search.body.result.Some? then search.body.result.value else [];
      && |hits| == |provided|
      && forall k :: 0 <= k < |hits| ==> hits[k] == FromProvider(provided[k])
  {
    if search.Body? && search.body.result.Some? then
      var provided := search.body.result.value;
      seq(|provided|, k requires 0 <= k < |provided| => FromProvider(provided[k]))
    else []
  }

  /**
   * `searchStocks(query)`. `hasApiKey` says whether a provider key is
   * configured, `popular` is the popular-symbols list, `profiles(sym)` the
   * settled profile fetch for `sym` and `search` the fetch of the provider's
   * search for the trimmed query. A failed search fetch reaches the outer
   * `catch` and gives no results.
   */
  function SearchStocks(hasApiKey: bool, query: Option<string>, popular: seq<string>,
                        profiles: string -> Response<Profile>, search: Response<SearchResponse>)
    : (r: seq<StockWithWatchlistStatus>)
    ensures !hasApiKey ==> r == []
    ensures |r| <= MaxResults
    ensures forall k :: 0 <= k < |r| ==>
      IsUpperCase(r[k].symbol) && !r[k].isInWatchlist && r[k].exchange != "" && r[k].kind != ""
    ensures hasApiKey && AllSpace(OrEmpty(query)) ==>
      && r == Shape(PopularHits(Take(popular, PopularCount), profiles))
      && |r| <= PopularCount
      && forall k :: 0 <= k < |r| ==> r[k].name != "" && r[k].kind == "Common Stock"
    ensures hasApiKey && !AllSpace(OrEmpty(query)) ==>
      && r == (if search.Failed? then [] else Shape(QueryHits(search)))
      && forall k :: 0 <= k < |r| ==> r[k].exchange == "US"
  {
    if !hasApiKey then []
    else
      var trimmed := Trim(OrEmpty(query));
      if trimmed == [] then
        var hits := PopularHits(Take(popular, PopularCount), profiles);
        Shape(hits)
      else if search.Failed? then []
      else Shape(QueryHits(search))
  }
}
