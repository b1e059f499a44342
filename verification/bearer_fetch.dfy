/**
 `apiFetch` and `refreshToken`, the bearer-token wrapper. It keeps the access
 token in an in-memory cell (the token service: get, set, clear), sends it as
 `Authorization: Bearer <token>`, and on a 401 refreshes the token once and
 retries once. Any failure of the refresh or of the retry clears the token
 and rejects with that same error; this wrapper never navigates.
 */
module BearerFetch {
  import opened JsValue
  import opened Text
  import opened Http

  const RefreshPath: string := "/users/refresh-token"
  const RefreshFailedMessage: string := "Refresh failed"
  const NoTokenMessage: string := "No access token in refresh response"
  const ApplicationJson: string := "application/json"

  /** The token service: a single cell holding the current access token, if any. */
  datatype TokenStore = TokenStore(token: Option<string>) {
    function Set(t: string): TokenStore { TokenStore(Some(t)) }
    function Clear(): TokenStore { TokenStore(None) }
  }

  /** A token is sent only when it is truthy (present and not the empty string). */
  predicate HasToken(token: Option<string>) {
    token.Some? && token.value != ""
  }

  function Bearer(t: string): string {
    "Bearer " + t
  }

  /** The `Authorization` header value: `Bearer <token>` for a truthy token, the empty string otherwise. */
  function Authorization(token: Option<string>): (h: string)
    ensures HasToken(token) ==> h == Bearer(token.value)
    ensures !HasToken(token) ==> h == ""
    ensures h == "" || StartsWith(h, "Bearer ")
  {
    if HasToken(token) then Bearer(token.value) else ""
  }

  /** `options.headers || {}` */
  function CallerHeaders(options: Options): map<string, string> {
    if "headers" in options && options["headers"].Dict? then options["headers"].entries else map[]
  }

  /**
   The options of the first request:
   `{...options, credentials: "include", headers: {...(options.headers || {}), Authorization, "Content-Type"}}`.
   */
  function CallOptions(options: Options, token: Option<string>): (r: Options)
    ensures r.Keys == options.Keys + {"credentials", "headers"}
    // forced: the caller cannot turn cookies off or change the content type or authorization
    ensures r["credentials"] == Include
    ensures r["headers"].Dict?
    ensures r["headers"].entries.Keys == CallerHeaders(options).Keys + {"Authorization", "Content-Type"}
    ensures r["headers"].entries["Authorization"] == Authorization(token)
    ensures r["headers"].entries["Content-Type"] == ApplicationJson
    // every other caller header and option goes through unchanged
    ensures forall h :: h in CallerHeaders(options) && h != "Authorization" && h != "Content-Type" ==>
      r["headers"].entries[h] == CallerHeaders(options)[h]
    ensures forall k :: k in options && k != "credentials" && k != "headers" ==> r[k] == options[k]
  {
    var headers := Spread(CallerHeaders(options), map["Authorization" := Authorization(token), "Content-Type" := ApplicationJson]);
    Spread(options, map["credentials" := Include, "headers" := Dict(headers)])
  }

  /** `opts.headers.Authorization = "Bearer " + t`: the in-place header update before the retry. */
  function WithBearer(opts: Options, t: string): (r: Options)
    requires "headers" in opts && opts["headers"].Dict?
    ensures r.Keys == opts.Keys
    ensures r["headers"] == Dict(opts["headers"].entries["Authorization" := Bearer(t)])
    ensures forall k :: k in opts && k != "headers" ==> r[k] == opts[k]
  {
    opts["headers" := Dict(opts["headers"].entries["Authorization" := Bearer(t)])]
  }

  /** The refresh call: `POST <api>/users/refresh-token` with cookies. */
  function RefreshRequest(api: string): Request {
    Request(api + RefreshPath, map["method" := Str("POST"), "credentials" := Include])
  }

  /** `json?.data?.accessToken`, read as a token only when it is a non-empty string. */
  function AccessToken(body: Json): (t: Option<string>)
    ensures t.Some? ==> t.value != ""
    ensures t.Some? <==> Truthy(Path(Some(body), ["data", "accessToken"])) && Path(Some(body), ["data", "accessToken"]).value.JStr?
  {
    match Path(Some(body), ["data", "accessToken"])
    case Some(JStr(s)) => if s != "" then Some(s) else None
    case _ => None
  }

  /** How `refreshToken()` settles: with the new token, or with the error it throws. */
  datatype Refresh = Refreshed(token: string) | RefreshError(failure: Failure)

  /** `refreshToken()` given the outcome of its one request; on success the caller stores the token. */
  function RefreshToken(o: Outcome): (r: Refresh)
    ensures r.Refreshed? <==> o.Reply? && Ok(o.response) && o.response.body.Some? && AccessToken(o.response.body.value).Some?
    ensures r.Refreshed? ==> r.token != "" && Some(r.token) == AccessToken(o.response.body.value)
    ensures o.Throw? ==> r == RefreshError(Transport(o.reason))
    ensures o.Reply? && !Ok(o.response) ==> r == RefreshError(Raised(RefreshFailedMessage))
    ensures o.Reply? && Ok(o.response) && o.response.body.None? ==> r == RefreshError(BadJson)
    ensures o.Reply? && Ok(o.response) && o.response.body.Some? && AccessToken(o.response.body.value).None? ==>
      r == RefreshError(Raised(NoTokenMessage))
  {
    match o
    case Throw(e) => RefreshError(Transport(e))
    case Reply(res) =>
      if !Ok(res) then RefreshError(Raised(RefreshFailedMessage))
      else match res.body
        case None => RefreshError(BadJson)
        case Some(json) =>
          match AccessToken(json)
          case None => RefreshError(Raised(NoTokenMessage))
          case Some(t) => Refreshed(t)
  }

  /** Everything one call does: how it settled, the requests it issued in order, and the token cell afterwards. */
  datatype Run = Run(result: Result, calls: seq<Request>, store: TokenStore)

  /** `apiFetch(path, options)` with the token cell `store`, run against the outcomes `net`. */
  function ApiFetch(api: string, path: string, options: Options, store: TokenStore, net: seq<Outcome>): (run: Run)
    // always API base + path, no absolute-URL check; the token in the cell goes in the header
    ensures 1 <= |run.calls| <= 3
    ensures run.calls[0] == Request(api + path, CallOptions(options, store.token))
    // first request rejected (outside the try): the error propagates, the token is untouched
    ensures Nth(net, 0).Throw? ==>
      run == Run(Threw(Transport(Nth(net, 0).reason)), [run.calls[0]], store)
    // anything but 401 is handed back after one call, the token untouched
    ensures Nth(net, 0).Reply? && Nth(net, 0).response.status != Unauthorized ==>
      run == Run(Returned(Nth(net, 0).response), [run.calls[0]], store)
    // a 401 triggers exactly one refresh
    ensures Nth(net, 0).Reply? && Nth(net, 0).response.status == Unauthorized ==>
      |run.calls| >= 2 && run.calls[1] == RefreshRequest(api)
    // failed refresh: token cleared, the refresh error rethrown, no retry
    ensures Nth(net, 0).Reply? && Nth(net, 0).response.status == Unauthorized && RefreshToken(Nth(net, 1)).RefreshError? ==>
      run == Run(Threw(RefreshToken(Nth(net, 1)).failure), run.calls[..2], TokenStore(None))
    // refreshed: one retry carrying the new token, its response handed back as is
    ensures Nth(net, 0).Reply? && Nth(net, 0).response.status == Unauthorized && RefreshToken(Nth(net, 1)).Refreshed? ==>
      var t := RefreshToken(Nth(net, 1)).token;
      && |run.calls| == 3
      && run.calls[2] == Request(api + path, WithBearer(run.calls[0].options, t))
      && (Nth(net, 2).Reply? ==> run.result == Returned(Nth(net, 2).response) && run.store == TokenStore(Some(t)))
      && (Nth(net, 2).Throw? ==> run.result == Threw(Transport(Nth(net, 2).reason)) && run.store == TokenStore(None))
    // a rejection after a 401 always leaves the cell empty
    ensures |run.calls| >= 2 && run.result.Threw? ==> run.store.token == None
  {
    var opts := CallOptions(options, store.token);
    var call := Request(api + path, opts);
    match Nth(net, 0)
    case Throw(e) => Run(Threw(Transport(e)), [call], store)
    case Reply(res) =>
      if res.status != Unauthorized then Run(Returned(res), [call], store)
      else
        match RefreshToken(Nth(net, 1))
        case RefreshError(f) => Run(Threw(f), [call, RefreshRequest(api)], store.Clear())
        case Refreshed(t) =>
          var refreshed := store.Set(t);
          var retry := Request(api + path, WithBearer(opts, t));
          match Nth(net, 2)
          case Throw(e) => Run(Threw(Transport(e)), [call, RefreshRequest(api), retry], refreshed.Clear())
          case Reply(res2) => Run(Returned(res2), [call, RefreshRequest(api), retry], refreshed)
  }

  /**
   The retried request is exactly the request a fresh call would issue with
   the new token, whatever token (an expired one, or none) the first request
   carried.
   */
  lemma RetryIsFreshCall(options: Options, prior: Option<string>, t: string)
    requires t != ""
    ensures WithBearer(CallOptions(options, prior), t) == CallOptions(options, Some(t))
  {
    var a := WithBearer(CallOptions(options, prior), t);
    var b := CallOptions(options, Some(t));
    RetryHeadersAreFresh(options, prior, t);
    assert a.Keys == b.Keys;
    assert forall k | k in a :: a[k] == b[k];
  }

  /** The retried request's headers are the headers a fresh call would send with the new token. */
  lemma RetryHeadersAreFresh(options: Options, prior: Option<string>, t: string)
    requires t != ""
    ensures WithBearer(CallOptions(options, prior), t)["headers"] == CallOptions(options, Some(t))["headers"]
  {
    var first := CallOptions(options, prior);
    var ha := WithBearer(first, t)["headers"].entries;
    var hb := CallOptions(options, Some(t))["headers"].entries;
    assert ha == first["headers"].entries["Authorization" := Bearer(t)];
    assert hb["Authorization"] == Bearer(t);
    assert ha.Keys == hb.Keys;
    forall h | h in ha
      ensures ha[h] == hb[h]
    {
      if h != "Authorization" && h != "Content-Type" {
        assert ha[h] == CallerHeaders(options)[h];
      }
    }
  }

  /** A token obtained by a refresh authorizes the next call made through the same cell. */
  lemma {:induction false} RefreshedTokenAuthorizesNextCall(
    api: string, path: string, options: Options, store: TokenStore, net: seq<Outcome>,
    path2: string, options2: Options, net2: seq<Outcome>)
    requires Nth(net, 0).Reply? && Nth(net, 0).response.status == Unauthorized
    requires RefreshToken(Nth(net, 1)).Refreshed?
    requires Nth(net, 2).Reply?
    ensures var first := ApiFetch(api, path, options, store, net);
            var second := ApiFetch(api, path2, options2, first.store, net2);
            second.calls[0].options["headers"].entries["Authorization"] == Bearer(RefreshToken(Nth(net, 1)).token)
  {
    var first := ApiFetch(api, path, options, store, net);
    assert first.store == TokenStore(Some(RefreshToken(Nth(net, 1)).token));
  }

  /** After a failed refresh the next call goes out with an empty `Authorization` header. */
  lemma {:induction false} FailedRefreshSendsNextCallAnonymously(
    api: string, path: string, options: Options, store: TokenStore, net: seq<Outcome>,
    path2: string, options2: Options, net2: seq<Outcome>)
    requires Nth(net, 0).Reply? && Nth(net, 0).response.status == Unauthorized
    requires RefreshToken(Nth(net, 1)).RefreshError?
    ensures var first := ApiFetch(api, path, options, store, net);
            var second := ApiFetch(api, path2, options2, first.store, net2);
            second.calls[0].options["headers"].entries["Authorization"] == ""
  {
    var first := ApiFetch(api, path, options, store, net);
    assert first.store == TokenStore(None);
  }
}
