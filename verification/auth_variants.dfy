/**
 The two authenticated-fetch wrappers side by side. They agree when the
 refresh hands out a token, and disagree on what a caller sees when the
 session cannot be refreshed.
 */
module AuthVariants {
  import opened JsValue
  import opened Text
  import opened Http
  import ApiClient
  import BearerFetch

  predicate FirstIsUnauthorized(net: seq<Outcome>) {
    Nth(net, 0).Reply? && Nth(net, 0).response.status == Unauthorized
  }

  /** A refresh that yields a token: both wrappers retry once, to the same URL, and hand back the same response. */
  lemma {:induction false} VariantsAgreeOnRecovery(
    base: string, path: string, options: Options, store: BearerFetch.TokenStore, net: seq<Outcome>)
    requires !StartsWith(path, "http")
    requires FirstIsUnauthorized(net)
    requires BearerFetch.RefreshToken(Nth(net, 1)).Refreshed?
    requires Nth(net, 2).Reply?
    ensures var c := ApiClient.FetchWithAuth(base, path, options, net);
            var b := BearerFetch.ApiFetch(base, path, options, store, net);
            && |c.calls| == |b.calls| == 3
            && c.calls[2].url == b.calls[2].url == base + path
            && c.calls[1] == b.calls[1]
            && c.result == b.result == Returned(Nth(net, 2).response)
            && c.redirects == []
  {
    assert !ApiClient.RefreshRefused(Nth(net, 1));
  }

  /** A refresh answered 401: the cookie wrapper navigates to /login and resolves with the old 401; the bearer wrapper rejects and clears its token. */
  lemma {:induction false} VariantsDisagreeOnRefusedRefresh(
    base: string, path: string, options: Options, store: BearerFetch.TokenStore, net: seq<Outcome>)
    requires FirstIsUnauthorized(net)
    requires Nth(net, 1).Reply? && Nth(net, 1).response.status == Unauthorized
    ensures var c := ApiClient.FetchWithAuth(base, path, options, net);
            var b := BearerFetch.ApiFetch(base, path, options, store, net);
            && c.result == Returned(Nth(net, 0).response) && c.redirects == [ApiClient.LoginRoute]
            && b.result == Threw(Raised(BearerFetch.RefreshFailedMessage)) && b.store.token == None
            && |c.calls| == |b.calls| == 2
  {
    assert !Ok(Nth(net, 1).response);
  }

  /** A refresh answered with a non-2xx status other than 401 (a 500, say): the cookie wrapper still retries, the bearer wrapper gives up. */
  lemma {:induction false} VariantsDisagreeOnServerErrorRefresh(
    base: string, path: string, options: Options, store: BearerFetch.TokenStore, net: seq<Outcome>)
    requires FirstIsUnauthorized(net)
    requires Nth(net, 1).Reply? && !Ok(Nth(net, 1).response) && Nth(net, 1).response.status != Unauthorized
    ensures |ApiClient.FetchWithAuth(base, path, options, net).calls| == 3
    ensures |BearerFetch.ApiFetch(base, path, options, store, net).calls| == 2
    ensures BearerFetch.ApiFetch(base, path, options, store, net).result == Threw(Raised(BearerFetch.RefreshFailedMessage))
  {
  }
}
