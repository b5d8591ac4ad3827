/**
 * The round-robin interleave of `getNews`: at most `MaxArticles` rounds, and in
 * each round every requested symbol, in request order, gives up the head of its
 * queue (`list.shift()`); a valid head is formatted and collected, and the walk
 * stops as soon as `MaxArticles` articles are collected.
 *
 * `Step` and `Run` specify the walk one symbol visit at a time; `Collect` is the
 * nested loop of the source, proved to compute `Run`'s result.
 */
module RoundRobin {
  import opened Common
  import opened Records

  /** `maxArticles`: the number of rounds and the number of articles collected at most. */
  const MaxArticles: nat := 6

  /** `formatArticle(article, isCompanyNews, symbol, index)`, left uninterpreted. */
  type Formatter = (RawNewsArticle, bool, Option<string>, int) -> MarketNewsArticle

  /** The per-symbol article lists (`perSymbolArticles`). */
  type Queues = map<string, seq<RawNewsArticle>>

  /** An article taken from the queue of `sym`, the symbol at position `pos` of the request, in round `round`. */
  datatype Pick = Pick(sym: string, pos: nat, round: nat, article: RawNewsArticle)

  /** The walk's position (round, symbol index), the queues as shifted so far and the picks so far. */
  datatype State = State(round: nat, pos: nat, queues: Queues, picks: seq<Pick>)

  /** `perSymbolArticles[sym] || []`. */
  function QueueOf(q: Queues, sym: string): seq<RawNewsArticle>
  {
    if sym in q then q[sym] else []
  }

  function Start(queues: Queues): State
  {
    State(0, 0, queues, [])
  }

  predicate InRange(syms: seq<string>, st: State)
  {
    st.round <= MaxArticles && st.pos <= |syms|
  }

  /** Either break of the source: all rounds are done, or enough articles are collected. */
  predicate Finished(st: State)
  {
    st.round >= MaxArticles || |st.picks| >= MaxArticles
  }

  /** One visit of the inner loop, or the move to the next round when the symbols are used up. */
  function Step(syms: seq<string>, valid: RawNewsArticle -> bool, st: State): (next: State)
    requires InRange(syms, st) && !Finished(st)
    ensures InRange(syms, next)
    ensures next.round > st.round || (next.round == st.round && next.pos == st.pos + 1)
    ensures |st.picks| <= |next.picks| <= |st.picks| + 1 && next.picks[..|st.picks|] == st.picks
    ensures |next.picks| > |st.picks| ==>
      && st.pos < |syms| && QueueOf(st.queues, syms[st.pos]) != []
      && next.picks[|st.picks|] == Pick(syms[st.pos], st.pos, st.round, QueueOf(st.queues, syms[st.pos])[0])
      && valid(next.picks[|st.picks|].article)
  {
    if st.pos == |syms| then State(st.round + 1, 0, st.queues, st.picks)
    else
      var sym := syms[st.pos];
      var list := QueueOf(st.queues, sym);
      if list == [] then State(st.round, st.pos + 1, st.queues, st.picks)
      else
        var picks := if valid(list[0]) then st.picks + [Pick(sym, st.pos, st.round, list[0])] else st.picks;
        State(st.round, st.pos + 1, st.queues[sym := list[1..]], picks)
  }

  /** The walk from `st` to the point where it stops. */
  function Run(syms: seq<string>, valid: RawNewsArticle -> bool, st: State): (end: State)
    requires InRange(syms, st)
    ensures InRange(syms, end) && Finished(end)
    decreases MaxArticles - st.round, |syms| - st.pos
  {
    if Finished(st) then st else Run(syms, valid, Step(syms, valid, st))
  }

  /** The articles the interleave picks from `queues`, in the order it picks them. */
  function RoundRobinPicks(syms: seq<string>, valid: RawNewsArticle -> bool, queues: Queues): seq<Pick>
  {
    Run(syms, valid, Start(queues)).picks
  }

  /** `formatArticle(article, true, sym, round)` for each pick. */
  function FormatPicks(format: Formatter, picks: seq<Pick>): (r: seq<MarketNewsArticle>)
    ensures |r| == |picks|
    ensures forall k :: 0 <= k < |r| ==> r[k] == format(picks[k].article, true, Some(picks[k].sym), picks[k].round)
  {
    seq(|picks|, k requires 0 <= k < |picks| => format(picks[k].article, true, Some(picks[k].sym), picks[k].round))
  }

  /** Formatting one more pick appends its formatted article. */
  lemma FormatPicksSnoc(format: Formatter, picks: seq<Pick>, p: Pick)
    ensures FormatPicks(format, picks + [p]) == FormatPicks(format, picks) + [format(p.article, true, Some(p.sym), p.round)]
  {
    var l, r := FormatPicks(format, picks + [p]), FormatPicks(format, picks) + [format(p.article, true, Some(p.sym), p.round)];
    forall k | 0 <= k < |l|
      ensures l[k] == r[k]
    {
      if k < |picks| {
        assert (picks + [p])[k] == picks[k];
      }
    }
  }

  /** The nested `for` loops over rounds and symbols that fill `collected`. */
  method Collect(syms: seq<string>, queues: Queues, valid: RawNewsArticle -> bool, format: Formatter)
    returns (collected: seq<MarketNewsArticle>)
    ensures collected == FormatPicks(format, RoundRobinPicks(syms, valid, queues))
  {
    var perSymbol := queues;
    collected := [];
    ghost var picks: seq<Pick> := [];
    var round: nat := 0;
    while round < MaxArticles
      invariant round <= MaxArticles && |picks| < MaxArticles
      invariant Run(syms, valid, Start(queues)) == Run(syms, valid, State(round, 0, perSymbol, picks))
      invariant collected == FormatPicks(format, picks)
    {
      var i := 0;
      while i < |syms|
        invariant i <= |syms| && |picks| < MaxArticles
        invariant Run(syms, valid, Start(queues)) == Run(syms, valid, State(round, i, perSymbol, picks))
        invariant collected == FormatPicks(format, picks)
      {
        ghost var before := State(round, i, perSymbol, picks);
        var sym := syms[i];
        var list := QueueOf(perSymbol, sym);
        if |list| == 0 {
          i := i + 1;
          continue;
        }
        var article := list[0];
        perSymbol := perSymbol[sym := list[1..]];
        if valid(article) {
          FormatPicksSnoc(format, picks, Pick(sym, i, round, article));
          collected := collected + [format(article, true, Some(sym), round)];
          picks := picks + [Pick(sym, i, round, article)];
        }
        i := i + 1;
        assert State(round, i, perSymbol, picks) == Step(syms, valid, before);
        assert Run(syms, valid, before) == Run(syms, valid, State(round, i, perSymbol, picks));
        if |collected| >= MaxArticles {
          assert Run(syms, valid, Start(queues)).picks == picks;
          break;
        }
      }
      if |collected| >= MaxArticles {
        break;
      }
      assert State(round + 1, 0, perSymbol, picks) == Step(syms, valid, State(round, i, perSymbol, picks));
      round := round + 1;
    }
  }

  // ----- At most MaxArticles picks -----

  lemma {:induction false} RunKeepsBound(syms: seq<string>, valid: RawNewsArticle -> bool, st: State)
    requires InRange(syms, st) && |st.picks| <= MaxArticles
    ensures |Run(syms, valid, st).picks| <= MaxArticles
    decreases MaxArticles - st.round, |syms| - st.pos
  {
    if !Finished(st) {
      RunKeepsBound(syms, valid, Step(syms, valid, st));
    }
  }

  /** With no symbol requested the rounds pass without a pick. */
  lemma {:induction false} NoSymbolsNoPicks(valid: RawNewsArticle -> bool, st: State)
    requires st.round <= MaxArticles && st.pos == 0 && st.picks == []
    ensures Run([], valid, st).picks == []
    decreases MaxArticles - st.round
  {
    if !Finished(st) {
      NoSymbolsNoPicks(valid, Step([], valid, st));
    }
  }

  /** `collected` never holds more than `MaxArticles` articles. */
  lemma AtMostMaxArticles(syms: seq<string>, valid: RawNewsArticle -> bool, queues: Queues)
    ensures |RoundRobinPicks(syms, valid, queues)| <= MaxArticles
  {
    RunKeepsBound(syms, valid, Start(queues));
  }

  // ----- Picks are ordered by (round, position) -----

  /** Pick `a` was made before the walk reached position `pos` of round `round`. */
  predicate Precedes(a: Pick, round: nat, pos: nat)
  {
    a.round < round || (a.round == round && a.pos < pos)
  }

  /**
   * Every pick names the symbol at its position, is valid, was made in one of
   * the `MaxArticles` rounds and before the walk's current position, and picks
   * are in strictly increasing (round, position) order.
   */
  ghost predicate Traced(syms: seq<string>, valid: RawNewsArticle -> bool, st: State)
  {
    && (forall k :: 0 <= k < |st.picks| ==>
          && st.picks[k].pos < |syms| && syms[st.picks[k].pos] == st.picks[k].sym
          && st.picks[k].round < MaxArticles && valid(st.picks[k].article)
          && Precedes(st.picks[k], st.round, st.pos))
    && (forall j, k :: 0 <= j < k < |st.picks| ==> Precedes(st.picks[j], st.picks[k].round, st.picks[k].pos))
  }

  lemma StepKeepsTraced(syms: seq<string>, valid: RawNewsArticle -> bool, st: State)
    requires InRange(syms, st) && !Finished(st) && Traced(syms, valid, st)
    ensures Traced(syms, valid, Step(syms, valid, st))
  {
  }

  lemma {:induction false} RunKeepsTraced(syms: seq<string>, valid: RawNewsArticle -> bool, st: State)
    requires InRange(syms, st) && Traced(syms, valid, st)
    ensures Traced(syms, valid, Run(syms, valid, st))
    decreases MaxArticles - st.round, |syms| - st.pos
  {
    if !Finished(st) {
      StepKeepsTraced(syms, valid, st);
      RunKeepsTraced(syms, valid, Step(syms, valid, st));
    }
  }

  predicate NoDuplicates(syms: seq<string>)
  {
    forall i, j :: 0 <= i < j < |syms| ==> syms[i] != syms[j]
  }

  /**
   * Within one round each position of the request contributes at most one
   * article, and rounds follow each other: picks are in increasing
   * (round, position) order. Every collected article passed validation. When no
   * symbol is requested twice, one round holds at most one article per symbol.
   */
  lemma OnePickPerSymbolPerRound(syms: seq<string>, valid: RawNewsArticle -> bool, queues: Queues)
    ensures var picks := RoundRobinPicks(syms, valid, queues);
      && (forall k :: 0 <= k < |picks| ==>
            picks[k].pos < |syms| && syms[picks[k].pos] == picks[k].sym && picks[k].round < MaxArticles && valid(picks[k].article))
      && (forall j, k :: 0 <= j < k < |picks| ==>
            picks[j].round < picks[k].round || (picks[j].round == picks[k].round && picks[j].pos < picks[k].pos))
      && (NoDuplicates(syms) ==>
            forall j, k :: 0 <= j < k < |picks| && picks[j].round == picks[k].round ==> picks[j].sym != picks[k].sym)
  {
    RunKeepsTraced(syms, valid, Start(queues));
  }

  // ----- Each symbol's articles leave its queue in queue order -----

  /** The articles picked for `sym`, in the order they were picked. */
  function ArticlesFor(picks: seq<Pick>, sym: string): seq<RawNewsArticle>
  {
    if picks == [] then []
    else
      var last := picks[|picks| - 1];
      ArticlesFor(picks[..|picks| - 1], sym) + (if last.sym == sym then [last.article] else [])
  }

  lemma ArticlesForSnoc(picks: seq<Pick>, p: Pick, sym: string)
    ensures ArticlesFor(picks + [p], sym) == ArticlesFor(picks, sym) + (if p.sym == sym then [p.article] else [])
  {
    assert (picks + [p])[..|picks|] == picks;
  }

  lemma {:induction false} ArticlesForLength(picks: seq<Pick>, sym: string)
    ensures |ArticlesFor(picks, sym)| <= |picks|
  {
    if picks != [] {
      ArticlesForLength(picks[..|picks| - 1], sym);
    }
  }

  /** Every article of every queue passes validation, as `perSymbolArticles` is filtered by it. */
  ghost predicate AllValid(valid: RawNewsArticle -> bool, q: Queues)
  {
    forall s, k :: s in q && 0 <= k < |q[s]| ==> valid(q[s][k])
  }

  /** For every symbol, what was picked for it followed by what is left of its queue is its original queue. */
  ghost predicate Consumed(original: Queues, st: State)
  {
    forall s :: ArticlesFor(st.picks, s) + QueueOf(st.queues, s) == QueueOf(original, s)
  }

  lemma StepKeepsConsumed(syms: seq<string>, valid: RawNewsArticle -> bool, original: Queues, st: State)
    requires InRange(syms, st) && !Finished(st)
    requires AllValid(valid, st.queues) && Consumed(original, st)
    ensures var next := Step(syms, valid, st);
      AllValid(valid, next.queues) && Consumed(original, next)
  {
    if st.pos < |syms| {
      var sym := syms[st.pos];
      var list := QueueOf(st.queues, sym);
      if list != [] {
        var next := Step(syms, valid, st);
        assert valid(list[0]);
        var p := Pick(sym, st.pos, st.round, list[0]);
        assert next.picks == st.picks + [p];
        forall s
          ensures ArticlesFor(next.picks, s) + QueueOf(next.queues, s) == QueueOf(original, s)
        {
          ArticlesForSnoc(st.picks, p, s);
          if s == sym {
            assert QueueOf(next.queues, s) == list[1..];
            assert [list[0]] + list[1..] == list;
            assert ArticlesFor(next.picks, s) + QueueOf(next.queues, s)
                == ArticlesFor(st.picks, s) + ([list[0]] + list[1..]);
          }
        }
        forall s, k | s in next.queues && 0 <= k < |next.queues[s]|
          ensures valid(next.queues[s][k])
        {
          if s == sym {
            assert next.queues[s][k] == list[k + 1];
          }
        }
      }
    }
  }

  lemma {:induction false} RunKeepsConsumed(syms: seq<string>, valid: RawNewsArticle -> bool, original: Queues, st: State)
    requires InRange(syms, st)
    requires AllValid(valid, st.queues) && Consumed(original, st)
    ensures var end := Run(syms, valid, st);
      AllValid(valid, end.queues) && Consumed(original, end)
    decreases MaxArticles - st.round, |syms| - st.pos
  {
    if !Finished(st) {
      StepKeepsConsumed(syms, valid, original, st);
      RunKeepsConsumed(syms, valid, original, Step(syms, valid, st));
    }
  }

  /**
   * `shift` takes heads: the articles collected for a symbol are a prefix of its
   * queue, in queue order, and the queue after the interleave holds the rest.
   */
  lemma QueueOrderKept(syms: seq<string>, valid: RawNewsArticle -> bool, queues: Queues)
    requires AllValid(valid, queues)
    ensures var end := Run(syms, valid, Start(queues));
      forall s :: ArticlesFor(end.picks, s) + QueueOf(end.queues, s) == QueueOf(queues, s)
  {
    RunKeepsConsumed(syms, valid, queues, Start(queues));
  }

  // ----- Stopping early means every queue is used up -----

  /**
   * Every symbol whose queue is not yet empty has had an article picked in each
   * round so far, and in the current round too if the walk has passed its position.
   */
  ghost predicate Fair(syms: seq<string>, st: State)
  {
    forall p :: 0 <= p < |syms| && QueueOf(st.queues, syms[p]) != [] ==>
      |ArticlesFor(st.picks, syms[p])| >= if p < st.pos then st.round + 1 else st.round
  }

  lemma StepKeepsFair(syms: seq<string>, valid: RawNewsArticle -> bool, st: State)
    requires InRange(syms, st) && !Finished(st)
    requires AllValid(valid, st.queues) && Fair(syms, st)
    ensures Fair(syms, Step(syms, valid, st))
  {
    if st.pos < |syms| {
      var sym := syms[st.pos];
      var list := QueueOf(st.queues, sym);
      var next := Step(syms, valid, st);
      if list != [] {
        assert valid(list[0]);
        var p := Pick(sym, st.pos, st.round, list[0]);
        forall q | 0 <= q < |syms| && QueueOf(next.queues, syms[q]) != []
          ensures |ArticlesFor(next.picks, syms[q])| >= if q < next.pos then next.round + 1 else next.round
        {
          ArticlesForSnoc(st.picks, p, syms[q]);
        }
      }
    }
  }

  lemma {:induction false} RunKeepsFair(syms: seq<string>, valid: RawNewsArticle -> bool, st: State)
    requires InRange(syms, st)
    requires AllValid(valid, st.queues) && Fair(syms, st)
    ensures Fair(syms, Run(syms, valid, st))
    decreases MaxArticles - st.round, |syms| - st.pos
  {
    if !Finished(st) {
      StepKeepsFair(syms, valid, st);
      StepKeepsValid(syms, valid, st);
      RunKeepsFair(syms, valid, Step(syms, valid, st));
    }
  }

  lemma StepKeepsValid(syms: seq<string>, valid: RawNewsArticle -> bool, st: State)
    requires InRange(syms, st) && !Finished(st) && AllValid(valid, st.queues)
    ensures AllValid(valid, Step(syms, valid, st).queues)
  {
    var next := Step(syms, valid, st);
    if st.pos < |syms| && QueueOf(st.queues, syms[st.pos]) != [] {
      var sym := syms[st.pos];
      forall s, k | s in next.queues && 0 <= k < |next.queues[s]|
        ensures valid(next.queues[s][k])
      {
        if s == sym {
          assert next.queues[s][k] == st.queues[s][k + 1];
        }
      }
    }
  }

  /**
   * The interleave ends with fewer than `MaxArticles` articles only after all
   * `MaxArticles` rounds, and then every requested symbol's queue is used up:
   * all of its valid articles were collected.
   */
  /** A symbol whose queue, were it not empty, would have given more articles than were collected in all. */
  lemma ShortSymbolExhausted(picks: seq<Pick>, left: seq<RawNewsArticle>, original: seq<RawNewsArticle>, s: string)
    requires |picks| < MaxArticles
    requires left != [] ==> |ArticlesFor(picks, s)| >= MaxArticles
    requires ArticlesFor(picks, s) + left == original
    ensures left == [] && ArticlesFor(picks, s) == original
  {
    ArticlesForLength(picks, s);
    assert ArticlesFor(picks, s) + [] == ArticlesFor(picks, s);
  }

  lemma StopsEarlyOnlyWhenExhausted(syms: seq<string>, valid: RawNewsArticle -> bool, queues: Queues)
    requires AllValid(valid, queues)
    ensures var end := Run(syms, valid, Start(queues));
      |end.picks| < MaxArticles ==>
        && end.round == MaxArticles
        && forall s :: s in syms ==> QueueOf(end.queues, s) == [] && ArticlesFor(end.picks, s) == QueueOf(queues, s)
  {
    var end := Run(syms, valid, Start(queues));
    RunKeepsFair(syms, valid, Start(queues));
    RunKeepsConsumed(syms, valid, queues, Start(queues));
    if |end.picks| < MaxArticles {
      forall s | s in syms
        ensures QueueOf(end.queues, s) == [] && ArticlesFor(end.picks, s) == QueueOf(queues, s)
      {
        var p :| 0 <= p < |syms| && syms[p] == s;
        assert QueueOf(end.queues, s) != [] ==> |ArticlesFor(end.picks, s)| >= MaxArticles;
        ShortSymbolExhausted(end.picks, QueueOf(end.queues, s), QueueOf(queues, s), s);
      }
    }
  }

  // ----- The first round takes one head per symbol -----

  /** The walk only appends: the picks so far are a prefix of the final picks. */
  lemma {:induction false} RunExtendsPicks(syms: seq<string>, valid: RawNewsArticle -> bool, st: State)
    requires InRange(syms, st)
    ensures var end := Run(syms, valid, st);
      |st.picks| <= |end.picks| && end.picks[..|st.picks|] == st.picks
    decreases MaxArticles - st.round, |syms| - st.pos
  {
    if !Finished(st) {
      var next := Step(syms, valid, st);
      RunExtendsPicks(syms, valid, next);
      assert next.picks[..|st.picks|] == st.picks;
    }
  }

  /**
   * The first picks are the queue heads of the requested symbols, one per
   * position in request order (as far as `MaxArticles` allows).
   */
  predicate HeadsInRequestOrder(syms: seq<string>, queues: Queues, picks: seq<Pick>)
  {
    forall i :: 0 <= i < |syms| && i < MaxArticles ==>
      && i < |picks| && QueueOf(queues, syms[i]) != []
      && picks[i] == Pick(syms[i], i, 0, QueueOf(queues, syms[i])[0])
  }

  lemma {:induction false} FirstRoundFrom(syms: seq<string>, valid: RawNewsArticle -> bool, original: Queues, st: State)
    requires NoDuplicates(syms) && AllValid(valid, original)
    requires forall s :: s in syms ==> QueueOf(original, s) != []
    requires st.round == 0 && st.pos <= |syms| && |st.picks| == st.pos
    requires forall i :: 0 <= i < st.pos ==> st.picks[i] == Pick(syms[i], i, 0, QueueOf(original, syms[i])[0])
    requires forall i :: st.pos <= i < |syms| ==> QueueOf(st.queues, syms[i]) == QueueOf(original, syms[i])
    ensures HeadsInRequestOrder(syms, original, Run(syms, valid, st).picks)
    decreases |syms| - st.pos
  {
    if !Finished(st) && st.pos < |syms| {
      var sym := syms[st.pos];
      var head := QueueOf(original, sym)[0];
      assert QueueOf(st.queues, sym) == QueueOf(original, sym);
      assert valid(head);
      var next := Step(syms, valid, st);
      assert next.picks == st.picks + [Pick(sym, st.pos, 0, head)];
      forall i | next.pos <= i < |syms|
        ensures QueueOf(next.queues, syms[i]) == QueueOf(original, syms[i])
      {
        assert syms[i] != sym;
      }
      FirstRoundFrom(syms, valid, original, next);
      assert Run(syms, valid, st) == Run(syms, valid, next);
    } else {
      // The first round is over or six articles are in: every position that
      // counts already has its pick.
      var picks := Run(syms, valid, st).picks;
      RunExtendsPicks(syms, valid, st);
      forall i | 0 <= i < |syms| && i < MaxArticles
        ensures i < |picks| && QueueOf(original, syms[i]) != []
        ensures picks[i] == Pick(syms[i], i, 0, QueueOf(original, syms[i])[0])
      {
        assert i < st.pos;
        assert picks[i] == picks[..|st.picks|][i] == st.picks[i];
      }
    }
  }

  /**
   * Fair representation: when every requested symbol (none twice) has articles,
   * the interleave's first picks are the head of each symbol's queue, one per
   * symbol in request order, before any symbol gives a second article.
   */
  lemma FirstRoundTakesEachSymbolOnce(syms: seq<string>, valid: RawNewsArticle -> bool, queues: Queues)
    requires NoDuplicates(syms) && AllValid(valid, queues)
    requires forall s :: s in syms ==> QueueOf(queues, s) != []
    ensures HeadsInRequestOrder(syms, queues, RoundRobinPicks(syms, valid, queues))
  {
    FirstRoundFrom(syms, valid, queues, Start(queues));
  }

  /**
   * A symbol requested twice is visited twice per round but has one queue (the
   * per-symbol record is keyed by symbol): in the first round it gives up its
   * first two articles.
   */
  lemma DuplicateSymbolSharesOneQueue(valid: RawNewsArticle -> bool, sym: string, x: RawNewsArticle, y: RawNewsArticle)
    requires valid(x) && valid(y)
    ensures var picks := RoundRobinPicks([sym, sym], valid, map[sym := [x, y]]);
      |picks| >= 2 && picks[0] == Pick(sym, 0, 0, x) && picks[1] == Pick(sym, 1, 0, y)
  {
    var syms := [sym, sym];
    var s0 := Start(map[sym := [x, y]]);
    var s1 := Step(syms, valid, s0);
    assert s1.picks == [Pick(sym, 0, 0, x)] && QueueOf(s1.queues, sym) == [y];
    var s2 := Step(syms, valid, s1);
    assert s2.picks == [Pick(sym, 0, 0, x), Pick(sym, 1, 0, y)];
    assert Run(syms, valid, s0) == Run(syms, valid, s1) == Run(syms, valid, s2);
    RunExtendsPicks(syms, valid, s2);
  }
}
