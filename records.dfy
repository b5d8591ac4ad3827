/**
 * The records the proxy exchanges with the market-data provider and with its
 * own callers (apps/server/types/index.ts). An optional provider field is an
 * `Option`; TypeScript's `number` is an unbounded integer here.
 */
module Records {
  import opened Common

  /** A news item as the provider sends it; every field but `id` may be missing. */
  datatype RawNewsArticle = RawNewsArticle(
    id: int,
    headline: Option<string>,
    summary: Option<string>,
    url: Option<string>,
    datetime: Option<int>,
    source: Option<string>,
    image: Option<string>,
    category: Option<string>,
    related: Option<string>)

  /** A news item as the proxy returns it, every field present. */
  datatype MarketNewsArticle = MarketNewsArticle(
    id: int,
    headline: string,
    summary: string,
    source: string,
    url: string,
    datetime: int,
    image: string,
    category: string,
    related: string)

  /**
   * One search result before shaping (`FinnhubSearchResult`), with the
   * `__exchange` field the popular-symbols branch attaches to it. `kind` is the
   * provider's `type`; "" stands for a field that is missing, empty or otherwise
   * falsy, which the shaping code treats alike.
   */
  datatype SearchHit = SearchHit(
    symbol: string,
    description: string,
    displaySymbol: string,
    kind: string,
    exchange: string)

  /**
   * One instrument as the provider's search returns it (`FinnhubSearchResult`):
   * it has no `__exchange` field.
   */
  datatype ProviderHit = ProviderHit(
    symbol: string,
    description: string,
    displaySymbol: string,
    kind: string)

  /** The provider's search response: `result` is `None` when it is not an array. */
  datatype SearchResponse = SearchResponse(result: Option<seq<ProviderHit>>)

  /** The fields of a provider company profile that search reads ("" when falsy). */
  datatype Profile = Profile(name: string, ticker: string, exchange: string)

  /** A search result as the proxy returns it (`StockWithWatchlistStatus`). */
  datatype StockWithWatchlistStatus = StockWithWatchlistStatus(
    symbol: string,
    name: string,
    exchange: string,
    kind: string,
    isInWatchlist: bool)
}
