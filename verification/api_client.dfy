/**
 `fetchWithAuth`, the cookie-session wrapper: one request, and on a 401 one
 refresh of the session cookie followed by one retry. When the refresh is
 refused the browser is sent to the login page and the caller gets the
 original 401 response back.
 */
module ApiClient {
  import opened JsValue
  import opened Text
  import opened Http

  const RefreshPath: string := "/users/refresh-token"
  const LoginRoute: string := "/login"

  /** Absolute URLs (anything starting with "http") are used verbatim, the rest are relative to the API base. */
  function ResolveUrl(base: string, url: string): (r: string)
    ensures StartsWith(url, "http") ==> r == url
    ensures !StartsWith(url, "http") ==> r == base + url
  {
    if StartsWith(url, "http") then url else base + url
  }

  /** With an absolute base, a resolved URL resolves to itself: the base is never added twice. */
  lemma ResolveUrlIdempotent(base: string, url: string)
    requires StartsWith(base, "http")
    ensures ResolveUrl(base, ResolveUrl(base, url)) == ResolveUrl(base, url)
  {
    if !StartsWith(url, "http") {
      assert (base + url)[..4] == base[..4];
    }
  }

  /** The refresh call: `POST <base>/users/refresh-token` with cookies. */
  function RefreshRequest(base: string): Request {
    Request(base + RefreshPath, map["method" := Str("POST"), "credentials" := Include])
  }

  /** Everything one call does: how it settled, the requests it issued in order, and where it navigated. */
  datatype Run = Run(result: Result, calls: seq<Request>, redirects: seq<string>)

  predicate IsUnauthorized(o: Outcome) {
    o.Reply? && o.response.status == Unauthorized
  }

  /** The refresh counts as refused when it rejects or answers 401; any other status (even 500) lets the retry go. */
  predicate RefreshRefused(o: Outcome) {
    o.Throw? || o.response.status == Unauthorized
  }

  /**
   `fetchWithAuth(url, options)` run against the outcomes `net`.
   The first request is outside the `try`, so its rejection reaches the caller.
   The retry is `return fetch(...)` without `await`, so its rejection is not
   caught by the `catch` either: it reaches the caller and nothing redirects.
   */
  function FetchWithAuth(base: string, url: string, options: Options, net: seq<Outcome>): (run: Run)
    // every call starts with the caller's request, credentials included unless overridden
    ensures 1 <= |run.calls| <= 3
    ensures run.calls[0] == Request(ResolveUrl(base, url), WithCredentials(options))
    // a rejected first request propagates; nothing else happens
    ensures Nth(net, 0).Throw? ==>
      run == Run(Threw(Transport(Nth(net, 0).reason)), [run.calls[0]], [])
    // anything but 401 is handed back untouched after one call
    ensures Nth(net, 0).Reply? && Nth(net, 0).response.status != Unauthorized ==>
      run == Run(Returned(Nth(net, 0).response), [run.calls[0]], [])
    // a 401 triggers exactly one refresh
    ensures IsUnauthorized(Nth(net, 0)) ==> |run.calls| >= 2 && run.calls[1] == RefreshRequest(base)
    // refused refresh: go to the login page, give back the original 401, no retry
    ensures IsUnauthorized(Nth(net, 0)) && RefreshRefused(Nth(net, 1)) ==>
      && |run.calls| == 2
      && run.result == Returned(Nth(net, 0).response)
      && run.redirects == [LoginRoute]
    // accepted refresh: the same request once more, its outcome handed back as is, even another 401
    ensures IsUnauthorized(Nth(net, 0)) && !RefreshRefused(Nth(net, 1)) ==>
      && |run.calls| == 3
      && run.calls[2] == run.calls[0]
      && run.result == Settle(Nth(net, 2))
      && run.redirects == []
    // the caller never sees the refresh response
    ensures run.result.Returned? ==>
      run.result.response == Nth(net, 0).response || (|run.calls| == 3 && run.result.response == Nth(net, 2).response)
    // a redirect happens only on the login route and only when the caller gets a 401 back
    ensures run.redirects != [] ==> run.redirects == [LoginRoute] && run.result.Returned? && run.result.response.status == Unauthorized
  {
    var call := Request(ResolveUrl(base, url), WithCredentials(options));
    match Nth(net, 0)
    case Throw(e) => Run(Threw(Transport(e)), [call], [])
    case Reply(res) =>
      if res.status != Unauthorized then Run(Returned(res), [call], [])
      else
        var refresh := Nth(net, 1);
        if refresh.Throw? || refresh.response.status == Unauthorized then
          Run(Returned(res), [call, RefreshRequest(base)], [LoginRoute])
        else
          Run(Settle(Nth(net, 2)), [call, RefreshRequest(base), call], [])
  }
}
