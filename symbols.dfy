/** The cleaning `getNews` applies to the requested ticker symbols. */
module Symbols {
  import opened Text

  /** `s.trim().toUpperCase()`. It is empty exactly when `s` is all whitespace. */
  function CleanSymbol(s: string): (r: string)
    ensures IsTrimmed(r) && IsUpperCase(r)
    ensures r == [] <==> AllSpace(s)
  {
    UpperKeepsTrimmed(Trim(s));
    Upper(Trim(s))
  }

  /** A symbol as `getNews` queries it: non-empty, trimmed and upper case. */
  predicate IsClean(s: string)
  {
    s != [] && IsTrimmed(s) && IsUpperCase(s)
  }

  /** `symbols.map(s => s.trim().toUpperCase()).filter(Boolean)`. */
  function CleanSymbols(symbols: seq<string>): (r: seq<string>)
    ensures |r| <= |symbols|
    ensures forall k :: 0 <= k < |r| ==> IsClean(r[k])
  {
    if symbols == [] then []
    else
      var c := CleanSymbol(symbols[0]);
      var rest := CleanSymbols(symbols[1..]);
      if c == [] then rest
      else
        assert IsClean(c);
        [c] + rest
  }

  /** A single symbol yields its cleaned form, or nothing when it is all whitespace. */
  lemma CleanSymbolsSingle(s: string)
    ensures CleanSymbols([s]) == if AllSpace(s) then [] else [CleanSymbol(s)]
  {
    assert [s][1..] == [];
  }

  /**
   * Cleaning works symbol by symbol and keeps the input order: cleaning a
   * concatenation is the concatenation of the cleaned parts.
   */
  lemma {:induction false} CleanSymbolsAppend(a: seq<string>, b: seq<string>)
    ensures CleanSymbols(a + b) == CleanSymbols(a) + CleanSymbols(b)
  {
    if a == [] {
      assert a + b == b;
    } else {
      assert (a + b)[0] == a[0];
      assert (a + b)[1..] == a[1..] + b;
      CleanSymbolsAppend(a[1..], b);
    }
  }

  /** Every symbol that is not all whitespace reaches the cleaned list, in cleaned form. */
  lemma {:induction false} CleanSymbolsKeeps(symbols: seq<string>, j: nat)
    requires j < |symbols| && !AllSpace(symbols[j])
    ensures CleanSymbol(symbols[j]) in CleanSymbols(symbols)
  {
    var c := CleanSymbol(symbols[0]);
    var rest := CleanSymbols(symbols[1..]);
    if j == 0 {
      assert c != [];
      assert CleanSymbols(symbols) == [c] + rest;
    } else {
      assert symbols[1..][j - 1] == symbols[j];
      CleanSymbolsKeeps(symbols[1..], j - 1);
      assert CleanSymbols(symbols) == (if c == [] then [] else [c]) + rest;
    }
  }

  /** Cleaning an already cleaned list changes nothing. */
  lemma {:induction false} CleanSymbolsIdempotent(symbols: seq<string>)
    ensures CleanSymbols(CleanSymbols(symbols)) == CleanSymbols(symbols)
  {
    if symbols != [] {
      var c := CleanSymbol(symbols[0]);
      var rest := CleanSymbols(symbols[1..]);
      CleanSymbolsIdempotent(symbols[1..]);
      if c != [] {
        TrimOfTrimmed(c);
        UpperOfUpperCase(c);
        assert CleanSymbol(c) == c;
        assert ([c] + rest)[1..] == rest;
      }
    }
  }
}
