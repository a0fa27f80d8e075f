/**
 * `GitAPIAccess.get_response_limit`: the rate-limit headers of the response to
 * a request for the authenticated user's profile.
 */
module RateLimit {
  import opened Text
  import opened Http

  const RateLimitMarker := "RateLimit"

  /** `pd.Series(values, index=keys)`: header names, and position by position their values. */
  datatype Series = Series(index: seq<string>, values: seq<string>)

  predicate IsRateLimitHeader(h: Header) {
    Contains(h.0, RateLimitMarker)
  }

  /** The headers whose name contains the marker, in the order the response lists them. */
  function RateLimitHeaders(headers: seq<Header>): seq<Header>
    decreases |headers|
  {
    if headers == [] then []
    else
      var last := headers[|headers| - 1];
      RateLimitHeaders(headers[..|headers| - 1]) + (if IsRateLimitHeader(last) then [last] else [])
  }

  /** A header is kept exactly when it is one of the response's headers and its name contains the marker. */
  lemma {:induction false} RateLimitHeadersMembership(headers: seq<Header>)
    ensures forall h :: h in RateLimitHeaders(headers) <==> h in headers && IsRateLimitHeader(h)
    decreases |headers|
  {
    if headers != [] {
      var init, last := headers[..|headers| - 1], headers[|headers| - 1];
      RateLimitHeadersMembership(init);
      assert headers == init + [last];
    }
  }

  /** Filtering a concatenation filters each part and keeps them in order. */
  lemma {:induction false} RateLimitHeadersAppend(a: seq<Header>, b: seq<Header>)
    ensures RateLimitHeaders(a + b) == RateLimitHeaders(a) + RateLimitHeaders(b)
    decreases |b|
  {
    if b == [] {
      assert a + b == a;
    } else {
      var init, last := b[..|b| - 1], b[|b| - 1];
      assert (a + b)[..|a + b| - 1] == a + init;
      RateLimitHeadersAppend(a, init);
    }
  }

  /** The series lists exactly `headers`: names in `index`, values in `values`, pair by pair. */
  predicate Lists(s: Series, headers: seq<Header>) {
    && |s.index| == |headers|
    && |s.values| == |headers|
    && forall k :: 0 <= k < |headers| ==> headers[k] == (s.index[k], s.values[k])
  }

  /** The loop over `response.headers` that fills the `keys` and `values` lists. */
  method CollectRateLimit(headers: seq<Header>) returns (s: Series)
    ensures Lists(s, RateLimitHeaders(headers))
  {
    var keys: seq<string> := [];
    var values: seq<string> := [];
    var i := 0;
    while i < |headers|
      invariant 0 <= i <= |headers|
      invariant Lists(Series(keys, values), RateLimitHeaders(headers[..i]))
    {
      var (name, value) := headers[i];
      assert headers[..i + 1][..i] == headers[..i];
      if Contains(name, RateLimitMarker) {
        keys := keys + [name];
        values := values + [value];
      }
      i := i + 1;
    }
    assert headers[..|headers|] == headers;
    s := Series(keys, values);
  }
}
