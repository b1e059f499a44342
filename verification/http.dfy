/**
 What the client sends and receives. The network is not modelled: a run of
 any wrapper is given the outcomes of its calls in advance, as a sequence
 consumed in order (call `i` of the run sees outcome `i`).
 */
module Http {
  import opened JsValue

  /**
   A value in a `fetch` options object: a string, a flat string-to-string
   object (`headers`), or a `body` written as `JSON.stringify(fields)`, kept
   here before it is encoded.
   */
  datatype Value = Str(s: string) | Dict(entries: map<string, string>) | Encoded(fields: map<string, Json>)

  type Options = map<string, Value>

  /** A `fetch(url, options)` call as issued. */
  datatype Request = Request(url: string, options: Options)

  /** A response: its status and its body, `None` when the body is not valid JSON (so `res.json()` rejects). */
  datatype Response = Response(status: int, body: Option<Json>)

  /** What a `fetch` call produced: a response, or a rejection (DNS, refused connection, ...). */
  datatype Outcome = Reply(response: Response) | Throw(reason: string)

  /** Why a wrapper call rejected. */
  datatype Failure =
    | Transport(reason: string)   // a `fetch` rejection passed through
    | Raised(message: string)     // an `Error` the wrapper threw itself
    | BadJson                     // `res.json()` rejected

  /** How a wrapper call settled: resolved with a response, or rejected. */
  datatype Result = Returned(response: Response) | Threw(failure: Failure)

  const Unauthorized: int := 401

  /** `res.ok` */
  predicate Ok(r: Response) {
    200 <= r.status <= 299
  }

  /** The outcome call `i` of a run sees. A run that outlives the given sequence sees the connection drop. */
  function Nth(net: seq<Outcome>, i: nat): Outcome {
    if i < |net| then net[i] else Throw("network unavailable")
  }

  /** The promise a bare `fetch` settles to. */
  function Settle(o: Outcome): (r: Result)
    ensures o.Reply? <==> r.Returned?
    ensures o.Reply? ==> r.response == o.response
  {
    match o
    case Reply(res) => Returned(res)
    case Throw(e) => Threw(Transport(e))
  }

  /** `{...base, ...over}`: keys of `over` win. */
  function Spread<V>(base: map<string, V>, over: map<string, V>): (r: map<string, V>)
    ensures r.Keys == base.Keys + over.Keys
    ensures forall k :: k in over ==> r[k] == over[k]
    ensures forall k :: k in base && k !in over ==> r[k] == base[k]
  {
    base + over
  }

  const Include: Value := Str("include")

  /** `{credentials: "include", ...options}`: cookies by default, but a caller's own `credentials` wins. */
  function WithCredentials(options: Options): (r: Options)
    ensures r.Keys == options.Keys + {"credentials"}
    ensures r["credentials"] == if "credentials" in options then options["credentials"] else Include
    ensures forall k :: k in options ==> r[k] == options[k]
  {
    Spread(map["credentials" := Include], options)
  }

  /** A handler's response was usable: `await res.json()` resolved and `res.ok` held, so no error was thrown. */
  predicate Confirmed(r: Result) {
    r.Returned? && r.response.body.Some? && Ok(r.response)
  }

  /** What a UI event handler did: the state it left behind and whether it issued a request. */
  datatype Handled<S> = Handled(state: S, sent: bool)

  /** What a UI event handler did, with the request it issued, if any. */
  datatype Submitted<S> = Submitted(state: S, request: Option<Request>) {
    const sent: bool := request.Some?
  }
}
