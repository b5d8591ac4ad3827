/**
 * `getNews`: the per-symbol path (clean the symbols, build each symbol's queue
 * of valid articles, interleave, sort newest first, keep `MaxArticles`) and the
 * general-news fallback (deduplicate, cap, format the first `MaxArticles` with
 * their positions).
 */
module News {
  import opened Common
  import opened Records
  import opened Symbols
  import opened RoundRobin
  import opened GeneralNews

  /** `(articles || []).filter(validateArticle)`, or `[]` when the symbol's fetch failed. */
  function SymbolQueue(response: Response<seq<RawNewsArticle>>, valid: RawNewsArticle -> bool): (q: seq<RawNewsArticle>)
    ensures forall k :: 0 <= k < |q| ==> valid(q[k])
    ensures response.Body? ==> forall k :: 0 <= k < |response.body| && valid(response.body[k]) ==> response.body[k] in q
    ensures !response.Body? ==> q == []
    ensures response.Body? ==> q == Filter(valid, response.body)
  {
    Filter(valid, BodyOr(response, []))
  }

  /** `perSymbolArticles` once every per-symbol fetch has settled. */
  function SymbolQueues(syms: seq<string>, companyNews: string -> Response<seq<RawNewsArticle>>, valid: RawNewsArticle -> bool): (q: Queues)
    ensures q.Keys == set s | s in syms
    ensures AllValid(valid, q)
    ensures forall s :: s in syms ==> q[s] == SymbolQueue(companyNews(s), valid)
  {
    map s | s in syms :: SymbolQueue(companyNews(s), valid)
  }

  /** Newest first: `datetime` does not increase along the list. */
  predicate NewestFirst(s: seq<MarketNewsArticle>)
  {
    forall j, k :: 0 <= j < k < |s| ==> s[j].datetime >= s[k].datetime
  }

  /** An article no older than the head of a newest-first list can go in front of it. */
  lemma PrependNewest(y: MarketNewsArticle, t: seq<MarketNewsArticle>)
    requires NewestFirst(t) && (t == [] || y.datetime >= t[0].datetime)
    ensures NewestFirst([y] + t)
  {
    var u := [y] + t;
    forall j, k | 0 <= j < k < |u|
      ensures u[j].datetime >= u[k].datetime
    {
      if j == 0 {
        assert u[k] == t[k - 1];
        assert t[0].datetime >= t[k - 1].datetime || k == 1;
      } else {
        assert u[j] == t[j - 1] && u[k] == t[k - 1];
      }
    }
  }

  /** The tail of a newest-first list is newest first, and its head is no newer than the list's head. */
  lemma NewestFirstTail(s: seq<MarketNewsArticle>)
    requires NewestFirst(s) && s != []
    ensures NewestFirst(s[1..])
    ensures |s| > 1 ==> s[0].datetime >= s[1..][0].datetime
  {
    var t := s[1..];
    forall j, k | 0 <= j < k < |t|
      ensures t[j].datetime >= t[k].datetime
    {
      assert t[j] == s[j + 1] && t[k] == s[k + 1];
    }
  }

  /** Putting `y` in front of a newest-first list that holds `tail` and `x`, with `y` no older than its head. */
  lemma PrependOlderHead(y: MarketNewsArticle, x: MarketNewsArticle, tail: seq<MarketNewsArticle>, rest: seq<MarketNewsArticle>)
    requires NewestFirst(rest) && rest != [] && y.datetime >= rest[0].datetime
    requires multiset(rest) == multiset(tail) + multiset{x}
    ensures NewestFirst([y] + rest)
    ensures multiset([y] + rest) == multiset([y] + tail) + multiset{x}
  {
    PrependNewest(y, rest);
    assert multiset([y] + rest) == multiset{y} + multiset(rest);
    assert multiset([y] + tail) == multiset{y} + multiset(tail);
  }

  /** Places `x` before the first article of `s` that is not newer than it. */
  function InsertByDate(x: MarketNewsArticle, s: seq<MarketNewsArticle>): (r: seq<MarketNewsArticle>)
    requires NewestFirst(s)
    ensures NewestFirst(r)
    ensures multiset(r) == multiset(s) + multiset{x}
    ensures r != [] && (r[0] == x || (s != [] && r[0] == s[0]))
  {
    if s == [] || s[0].datetime <= x.datetime then
      PrependNewest(x, s);
      [x] + s
    else
      var tail := s[1..];
      assert s == [s[0]] + tail;
      NewestFirstTail(s);
      var rest := InsertByDate(x, tail);
      PrependOlderHead(s[0], x, tail, rest);
      [s[0]] + rest
  }

  /**
   * `collected.sort((a, b) => b.datetime - a.datetime)`: a stable sort, newest
   * first; articles with equal `datetime` keep their order (`SortByDateStable`).
   */
  function SortByDate(s: seq<MarketNewsArticle>): (r: seq<MarketNewsArticle>)
    ensures NewestFirst(r)
    ensures multiset(r) == multiset(s)
  {
    if s == [] then []
    else
      assert s == [s[0]] + s[1..];
      InsertByDate(s[0], SortByDate(s[1..]))
  }

  /** Whether an article carries the timestamp `d`. */
  function DatedAt(d: int): MarketNewsArticle -> bool
  {
    (a: MarketNewsArticle) => a.datetime == d
  }

  /** Inserting `x` places it ahead of every article of `s` that has its own `datetime`, and keeps their order. */
  lemma {:induction false} InsertByDateStable(x: MarketNewsArticle, s: seq<MarketNewsArticle>, d: int)
    requires NewestFirst(s)
    ensures Filter(DatedAt(d), InsertByDate(x, s)) == Filter(DatedAt(d), [x]) + Filter(DatedAt(d), s)
  {
    if s == [] || s[0].datetime <= x.datetime {
      assert InsertByDate(x, s) == [x] + s;
      FilterAppend(DatedAt(d), [x], s);
    } else {
      var tail := s[1..];
      assert s == [s[0]] + tail;
      NewestFirstTail(s);
      assert InsertByDate(x, s) == [s[0]] + InsertByDate(x, tail);
      InsertByDateStable(x, tail, d);
      FilterAppend(DatedAt(d), [s[0]], InsertByDate(x, tail));
      FilterAppend(DatedAt(d), [s[0]], tail);
      FilterSingle(DatedAt(d), s[0]);
      FilterSingle(DatedAt(d), x);
    }
  }

  /** The sort is stable: the articles with any one `datetime` come out in their input order. */
  lemma {:induction false} SortByDateStable(s: seq<MarketNewsArticle>, d: int)
    ensures Filter(DatedAt(d), SortByDate(s)) == Filter(DatedAt(d), s)
  {
    if s != [] {
      var tail := s[1..];
      assert s == [s[0]] + tail;
      SortByDateStable(tail, d);
      InsertByDateStable(s[0], SortByDate(tail), d);
      FilterAppend(DatedAt(d), [s[0]], tail);
    }
  }

  /** A list that is already newest first is left as it is. */
  lemma {:induction false} SortedStaysPut(s: seq<MarketNewsArticle>)
    requires NewestFirst(s)
    ensures SortByDate(s) == s
  {
    if s != [] {
      var tail := s[1..];
      NewestFirstTail(s);
      SortedStaysPut(tail);
      assert SortByDate(s) == InsertByDate(s[0], tail);
      assert tail == [] || tail[0].datetime <= s[0].datetime;
      assert InsertByDate(s[0], tail) == [s[0]] + tail;
      assert s == [s[0]] + tail;
    }
  }

  /** `.map((a, idx) => formatArticle(a, false, undefined, idx))`. */
  function FormatIndexed(format: Formatter, s: seq<RawNewsArticle>): (r: seq<MarketNewsArticle>)
    ensures |r| == |s|
    ensures forall k :: 0 <= k < |r| ==> r[k] == format(s[k], false, None, k)
  {
    seq(|s|, k requires 0 <= k < |s| => format(s[k], false, None, k))
  }

  /** The interleave's picks for one `getNews` call. */
  function PerSymbolPicks(symbols: Option<seq<string>>, companyNews: string -> Response<seq<RawNewsArticle>>,
                          valid: RawNewsArticle -> bool): seq<Pick>
  {
    var syms := CleanSymbols(OrEmpty(symbols));
    RoundRobinPicks(syms, valid, SymbolQueues(syms, companyNews, valid))
  }

  /**
   * `getNews(symbols)`. `hasApiKey` says whether a provider key is configured;
   * `companyNews(sym)` is the settled company-news fetch for `sym` and
   * `generalNews` the general-news fetch. Every failure the function catches
   * becomes `Failure` ("Failed to fetch news").
   */
  method GetNews(hasApiKey: bool, symbols: Option<seq<string>>,
                 companyNews: string -> Response<seq<RawNewsArticle>>, generalNews: Response<seq<RawNewsArticle>>,
                 valid: RawNewsArticle -> bool, format: Formatter)
    returns (r: Outcome<seq<MarketNewsArticle>>)
    ensures !hasApiKey ==> r == Failure
    ensures hasApiKey && PerSymbolPicks(symbols, companyNews, valid) != [] ==>
      && r.Success?
      && |r.value| <= MaxArticles
      && NewestFirst(r.value)
      && multiset(r.value) == multiset(FormatPicks(format, PerSymbolPicks(symbols, companyNews, valid)))
      && forall d :: Filter(DatedAt(d), r.value) == Filter(DatedAt(d), FormatPicks(format, PerSymbolPicks(symbols, companyNews, valid)))
    ensures hasApiKey && PerSymbolPicks(symbols, companyNews, valid) == [] ==>
      r == if generalNews.Failed? then Failure
           else Success(FormatIndexed(format, Take(FirstOccurrences(valid, BodyOr(generalNews, [])), MaxArticles)))
  {
    if !hasApiKey {
      return Failure;
    }
    var cleanSymbols := CleanSymbols(OrEmpty(symbols));
    ghost var picks := PerSymbolPicks(symbols, companyNews, valid);
    if |cleanSymbols| > 0 {
      var perSymbolArticles := SymbolQueues(cleanSymbols, companyNews, valid);
      var collected := Collect(cleanSymbols, perSymbolArticles, valid, format);
      assert collected == FormatPicks(format, picks);
      if |collected| > 0 {
        AtMostMaxArticles(cleanSymbols, valid, perSymbolArticles);
        var sorted := SortByDate(collected);
        forall d
          ensures Filter(DatedAt(d), sorted) == Filter(DatedAt(d), collected)
        {
          SortByDateStable(collected, d);
        }
        assert |sorted| == |collected| by {
          assert |multiset(sorted)| == |multiset(collected)|;
        }
        assert Take(sorted, MaxArticles) == sorted by {
          assert sorted[..|sorted|] == sorted;
        }
        return Success(Take(sorted, MaxArticles));
      }
    } else {
      NoSymbolsNoPicks(valid, Start(SymbolQueues(cleanSymbols, companyNews, valid)));
    }
    assert picks == [];
    if generalNews.Failed? {
      return Failure;
    }
    var general := BodyOr(generalNews, []);
    var unique := DedupGeneral(general, valid);
    DedupIsFirstOccurrences(valid, general);
    TakeTake(FirstOccurrences(valid, general), MaxUnique, MaxArticles);
    return Success(FormatIndexed(format, Take(unique, MaxArticles)));
  }
}
