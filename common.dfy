/** Small value wrappers shared by the model of the market-data proxy. */
module Common {

  /** A value that may be absent, like an optional TypeScript parameter. */
  datatype Option<+T> = None | Some(value: T)

  /** The outcome of an asynchronous computation: it resolves with a value or rejects. */
  datatype Outcome<+T> = Success(value: T) | Failure

  /**
   * What one call to the market-data provider produced once its JSON body was
   * decoded: a body, a JSON `null` body, or a rejected promise (network error,
   * non-2xx status or undecodable body).
   */
  datatype Response<+T> = Body(body: T) | NullBody | Failed

  /** The body of a response, or `default` when the body was JSON `null` or the call failed. */
  function BodyOr<T>(response: Response<T>, default: T): T
  {
    if response.Body? then response.body else default
  }

  /** `xs.filter(p)`. */
  function Filter<T>(p: T -> bool, xs: seq<T>): (r: seq<T>)
    ensures |r| <= |xs|
    ensures forall k :: 0 <= k < |r| ==> p(r[k]) && r[k] in xs
    ensures forall k :: 0 <= k < |xs| && p(xs[k]) ==> xs[k] in r
  {
    if xs == [] then []
    else
      var rest := Filter(p, xs[1..]);
      assert forall k :: 1 <= k < |xs| ==> xs[k] == xs[1..][k - 1];
      if p(xs[0]) then [xs[0]] + rest else rest
  }

  /** Filtering one element keeps it exactly when it passes. */
  lemma FilterSingle<T>(p: T -> bool, x: T)
    ensures Filter(p, [x]) == if p(x) then [x] else []
  {
    assert [x][1..] == [];
  }

  /** Filtering keeps order and multiplicity: the filter of a concatenation is the concatenation of the filters. */
  lemma {:induction false} FilterAppend<T>(p: T -> bool, a: seq<T>, b: seq<T>)
    ensures Filter(p, a + b) == Filter(p, a) + Filter(p, b)
  {
    if a == [] {
      assert a + b == b;
    } else {
      assert (a + b)[0] == a[0];
      assert (a + b)[1..] == a[1..] + b;
      FilterAppend(p, a[1..], b);
    }
  }

  /** `xs || []` on an optional array. */
  function OrEmpty<T>(xs: Option<seq<T>>): seq<T>
  {
    if xs.Some? then xs.value else []
  }

  /** `s.slice(0, n)`: the first `n` elements, or all of them when there are fewer. */
  function Take<T>(s: seq<T>, n: nat): (r: seq<T>)
    ensures |r| == if |s| < n then |s| else n
    ensures r == s[..|r|]
  {
    if |s| < n then s else s[..n]
  }

  lemma TakeTake<T>(s: seq<T>, m: nat, n: nat)
    requires n <= m
    ensures Take(Take(s, m), n) == Take(s, n)
  {
  }
}
