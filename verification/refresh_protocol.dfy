/**
 The refresh-and-retry protocol of the cookie-session wrapper written as a
 per-call state machine (Sending, Unauthorized, Refreshing, RetrySending,
 then Done or Failed), independently of the wrapper's nested conditionals.
 The phases that wait on the network read the next outcome; the machine and
 `ApiClient.FetchWithAuth` are proved to agree on every input.
 */
module RefreshProtocol {
  import opened JsValue
  import opened Http
  import ApiClient

  datatype Phase =
    | Sending
    | Unauthorized(original: Response)
    | Refreshing(original: Response)
    | RetrySending
    | Done(result: Result)
    | Failed(original: Response)

  /** Where a call is, how many requests it has issued, and whether it navigated to the login page. */
  datatype Machine = Machine(phase: Phase, sent: nat, redirected: bool)

  const Start: Machine := Machine(Sending, 0, false)

  predicate Terminal(p: Phase) {
    p.Done? || p.Failed?
  }

  /** How many more requests a phase may still issue. */
  function Budget(p: Phase): nat {
    match p
    case Sending => 3
    case Unauthorized(_) => 2
    case Refreshing(_) => 2
    case RetrySending => 1
    case Done(_) => 0
    case Failed(_) => 0
  }

  /** How many more transitions a phase may still take. */
  function Rank(p: Phase): nat {
    match p
    case Sending => 4
    case Unauthorized(_) => 3
    case Refreshing(_) => 2
    case RetrySending => 1
    case Done(_) => 0
    case Failed(_) => 0
  }

  /** One transition. `o` is the outcome of the request issued in this phase, if it issues one. */
  function Step(m: Machine, o: Outcome): (m': Machine)
    requires !Terminal(m.phase)
    ensures Rank(m'.phase) < Rank(m.phase)
    ensures m.sent <= m'.sent <= m.sent + 1
    ensures m'.sent + Budget(m'.phase) <= m.sent + Budget(m.phase)
    ensures m'.redirected <==> m.redirected || m'.phase.Failed?
  {
    match m.phase
    case Sending =>
      (match o
       case Throw(e) => Machine(Done(Threw(Transport(e))), m.sent + 1, m.redirected)
       case Reply(res) =>
         if res.status == Http.Unauthorized then Machine(Unauthorized(res), m.sent + 1, m.redirected)
         else Machine(Done(Returned(res)), m.sent + 1, m.redirected))
    case Unauthorized(res) =>
      // always attempted: no backoff, no budget check
      m.(phase := Refreshing(res))
    case Refreshing(res) =>
      if ApiClient.RefreshRefused(o) then Machine(Failed(res), m.sent + 1, true)
      else Machine(RetrySending, m.sent + 1, m.redirected)
    case RetrySending =>
      // whatever the retry produced is final: a second 401 is not retried
      Machine(Done(Settle(o)), m.sent + 1, m.redirected)
  }

  /** Runs the machine to a terminal phase; request number `k` of the call sees outcome `k`. */
  function Run(m: Machine, net: seq<Outcome>): (m': Machine)
    ensures Terminal(m'.phase)
    ensures m.sent <= m'.sent <= m.sent + Budget(m.phase)
    ensures m.redirected ==> m'.redirected
    decreases Rank(m.phase)
  {
    if Terminal(m.phase) then m else Run(Step(m, Nth(net, m.sent)), net)
  }

  /** What the caller gets once the machine stops: the final result, or the original 401 after a failed refresh. */
  function Answer(m: Machine): Result
    requires Terminal(m.phase)
  {
    match m.phase
    case Done(r) => r
    case Failed(res) => Returned(res)
  }

  /** A call issues at most three requests, and navigates exactly when it ends in `Failed`. */
  lemma {:induction false} RunBounds(net: seq<Outcome>)
    ensures 1 <= Run(Start, net).sent <= 3
    ensures Run(Start, net).redirected <==> Run(Start, net).phase.Failed?
  {
    var m1 := Step(Start, Nth(net, 0));
    if Terminal(m1.phase) {
      assert Run(Start, net) == m1;
    } else {
      var m2 := Step(m1, Nth(net, 1));
      assert m2.phase.Refreshing? && !m2.redirected && m2.sent == 1;
      assert Run(Start, net) == Run(m1, net) == Run(m2, net);
      var m3 := Step(m2, Nth(net, 1));
      if Terminal(m3.phase) {
        assert Run(m2, net) == Run(m3, net) == m3;
      } else {
        var m4 := Step(m3, Nth(net, 2));
        assert Run(m2, net) == Run(m3, net) == Run(m4, net) == m4;
      }
    }
  }

  /** The wrapper and the machine agree: same answer, same number of requests, a redirect exactly on `Failed`. */
  lemma {:induction false} FetchWithAuthFollowsProtocol(base: string, url: string, options: Http.Options, net: seq<Outcome>)
    ensures var run := ApiClient.FetchWithAuth(base, url, options, net);
            var m := Run(Start, net);
            && Answer(m) == run.result
            && m.sent == |run.calls|
            && (m.redirected <==> run.redirects == [ApiClient.LoginRoute])
            && (m.phase.Failed? <==> run.redirects != [])
  {
    var run := ApiClient.FetchWithAuth(base, url, options, net);
    var m1 := Step(Start, Nth(net, 0));
    if Terminal(m1.phase) {
      assert Run(Start, net) == m1;
    } else {
      var m2 := Step(m1, Nth(net, 1));
      assert m2.phase.Refreshing? && !m2.redirected && m2.sent == 1;
      assert Run(Start, net) == Run(m1, net) == Run(m2, net);
      var m3 := Step(m2, Nth(net, 1));
      if Terminal(m3.phase) {
        assert Run(m2, net) == Run(m3, net) == m3;
      } else {
        var m4 := Step(m3, Nth(net, 2));
        assert Run(m2, net) == Run(m3, net) == Run(m4, net) == m4;
      }
    }
  }
}
