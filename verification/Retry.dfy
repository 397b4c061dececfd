/** The inline retry loop around one logical upstream call (kahyad/internal/anthproxy/retry.go) and the
    error taxonomy it consults (kahyad/internal/cloudretry/taxonomy.go). */
module Retry {
  import opened Wrappers

  type Bytes = seq<char>

  datatype TransportError =
    | DeadlineExceeded
    | DnsFailure
    | ConnectionRefused
    | ConnectionReset
    | OtherNetOp
    | OtherTimeout
    | Unclassified

  // A response: its status, and the Retry-After delay its header asks for (None when absent or unparseable).
  datatype Response = Response(status: nat, retryAfter: Option<nat>)

  // What one attempt on the base transport gives back.
  datatype Outcome = Outcome(resp: Option<Response>, err: Option<TransportError>)

  datatype Class = Retryable | NonRetryable

  const RETRYABLE_STATUSES: set<nat> := {408, 429, 500, 502, 503, 504, 529}

  function Status(o: Outcome): nat {
    if o.resp.Some? then o.resp.value.status else 0
  }

  function Classify(status: nat, err: Option<TransportError>): Class {
    if status != 0 then
      if status in RETRYABLE_STATUSES then Retryable else NonRetryable
    else
      match err
      case None => NonRetryable
      case Some(Unclassified) => NonRetryable
      case Some(_) => Retryable
  }

  predicate Succeeds(o: Outcome) {
    o.err.None? && Status(o) < 400
  }

  predicate MayRetry(o: Outcome) {
    !Succeeds(o) && Classify(Status(o), o.err).Retryable?
  }

  datatype Failure = RetriesExhausted | NonRetryableTransport

  // How long the loop waits before the next attempt.
  datatype Delay = Asked(seconds: nat) | Backoff(attempt: nat)

  const DEFAULT_MAX_INLINE_RETRIES := 3

  function MaxInline(configured: int): (n: nat)
    ensures n >= 1
  {
    if configured <= 0 then DEFAULT_MAX_INLINE_RETRIES else configured
  }

  function NextDelay(o: Outcome, attempt: nat): Delay {
    if o.resp.Some? && o.resp.value.retryAfter.Some? && o.resp.value.retryAfter.value > 0
    then Asked(o.resp.value.retryAfter.value)
    else Backoff(attempt)
  }

  // The wait is what the response asks for, and the back-off when it asks for nothing, or for no time at all.
  predicate WaitAfter(o: Outcome, attempt: nat, wait: Delay) {
    match wait
    case Asked(seconds) => seconds > 0 && o.resp.Some? && o.resp.value.retryAfter == Some(seconds)
    case Backoff(k) =>
      k == attempt && (o.resp.Some? ==> o.resp.value.retryAfter == None || o.resp.value.retryAfter == Some(0))
  }

  // Which attempts may be followed by another: seven statuses, whatever else went wrong, and without a response the
  // failures of the network.
  lemma MayRetryIff(o: Outcome)
    ensures MayRetry(o) <==>
            if o.resp.Some? && o.resp.value.status != 0
            then o.resp.value.status in {408, 429, 500, 502, 503, 504, 529}
            else o.err.Some? && o.err.value in {DeadlineExceeded, DnsFailure, ConnectionRefused, ConnectionReset, OtherNetOp,
                                                OtherTimeout}
  {
  }

  // What the k-th attempt meets, counting attempts from 1.
  function Attempt(upstream: seq<Outcome>, k: nat): Outcome
    requires 1 <= k <= |upstream|
  {
    upstream[k - 1]
  }

  // The first of the attempts that is not retryable, or one past the last when there is none.
  function FirstDecisive(upstream: seq<Outcome>): (k: nat)
    ensures 1 <= k <= |upstream| + 1
    ensures forall i | 1 <= i < k :: MayRetry(Attempt(upstream, i))
    ensures k <= |upstream| ==> !MayRetry(Attempt(upstream, k))
  {
    if upstream == [] || !MayRetry(upstream[0]) then 1
    else
      var k := FirstDecisive(upstream[1..]);
      assert forall i | 2 <= i < k + 1 :: Attempt(upstream, i) == Attempt(upstream[1..], i - 1);
      k + 1
  }

  // The waits after attempts 1..m.
  function Delays(upstream: seq<Outcome>, m: nat): (d: seq<Delay>)
    requires m <= |upstream|
    ensures |d| == m
    ensures forall i | 0 <= i < m :: d[i] == NextDelay(Attempt(upstream, i + 1), i + 1)
  {
    if m == 0 then [] else Delays(upstream, m - 1) + [NextDelay(Attempt(upstream, m), m)]
  }

  // The attempts among 1..m that came back with a response, in order.
  function WithResponse(upstream: seq<Outcome>, m: nat): (ks: seq<nat>)
    requires m <= |upstream|
    ensures forall i :: i in ks <==> 1 <= i <= m && Attempt(upstream, i).resp.Some?
  {
    if m == 0 then []
    else WithResponse(upstream, m - 1) + (if Attempt(upstream, m).resp.Some? then [m] else [])
  }

  predicate Rising(ks: seq<nat>) {
    forall i, j | 0 <= i < j < |ks| :: ks[i] < ks[j]
  }

  lemma RisingMore(ks: seq<nat>, m: nat)
    requires Rising(ks) && forall k | k in ks :: k < m
    ensures Rising(ks + [m])
  {
    assert forall i | 0 <= i < |ks| :: ks[i] in ks;
  }

  // Each of them once.
  lemma {:induction false} ClosedOnce(upstream: seq<Outcome>, m: nat)
    requires m <= |upstream|
    ensures Rising(WithResponse(upstream, m))
  {
    if m > 0 {
      var front := WithResponse(upstream, m - 1);
      ClosedOnce(upstream, m - 1);
      RisingMore(front, m);
      assert front + [] == front;
    }
  }

  // m attempts that all carry the same bytes.
  function Copies(body: Bytes, m: nat): (c: seq<Bytes>)
    ensures |c| == m && forall i | 0 <= i < m :: c[i] == body
  {
    if m == 0 then [] else Copies(body, m - 1) + [body]
  }

  // The per-request record the loop fills in, and the loop's visible effects.
  class RetryTransport {
    const maxInline: int

    var retryAttempts: nat
    var nonRetryable: bool
    var exhausted: bool

    var sent: seq<Bytes>     // the body of every attempt, in order
    var slept: seq<Delay>    // every wait, in order
    var closed: seq<nat>     // the attempts whose response body was closed here

    predicate Fresh()
      reads this
    {
      retryAttempts == 0 && !nonRetryable && !exhausted && sent == [] && slept == [] && closed == []
    }

    constructor (maxInline: int)
      ensures this.maxInline == maxInline && Fresh()
    {
      this.maxInline := maxInline;
      retryAttempts, nonRetryable, exhausted := 0, false, false;
      sent, slept, closed := [], [], [];
    }

    // One logical call. `upstream` lists what the attempts meet; `body` is the buffered request body that
    // the proxy replays. With k the first attempt that is not retryable: every attempt carries the same
    // bytes, there is a wait between attempts and none after the last, exactly the responses that are not
    // handed on are closed, and exhaustion means that no attempt decided.
    method RoundTrip(body: Bytes, upstream: seq<Outcome>) returns (r: Result<Outcome, Failure>)
      requires Fresh()
      requires |upstream| == MaxInline(maxInline)
      modifies this
      ensures var n, k := MaxInline(maxInline), FirstDecisive(upstream);
              && 1 <= retryAttempts <= n && retryAttempts == (if k <= n then k else n)
              && sent == Copies(body, retryAttempts)
              && slept == Delays(upstream, retryAttempts - 1)
              && closed == WithResponse(upstream, if r.Ok? then k - 1 else retryAttempts)
              && (exhausted <==> k > n)
              && (nonRetryable <==> k <= n && !Succeeds(Attempt(upstream, k)))
              && r == Answer(upstream)
    {
      var n := MaxInline(maxInline);
      ghost var k := FirstDecisive(upstream);
      var attempt := 1;
      while attempt <= n
        invariant 1 <= attempt <= n + 1
        invariant attempt <= k
        invariant sent == Copies(body, attempt - 1)
        invariant slept == Delays(upstream, if attempt <= n then attempt - 1 else n - 1)
        invariant closed == WithResponse(upstream, attempt - 1)
        invariant retryAttempts == attempt - 1 && !exhausted && !nonRetryable
      {
        var decided, result := TryOnce(body, Attempt(upstream, attempt), attempt, n);
        if decided {
          assert k == attempt;
          return result;
        }
        attempt := attempt + 1;
      }
      assert k == n + 1;
      exhausted := true;
      return Err(RetriesExhausted);
    }

    // One iteration of the loop: send, and either decide the call or prepare the next attempt.
    method TryOnce(body: Bytes, o: Outcome, attempt: nat, n: nat) returns (decided: bool, result: Result<Outcome, Failure>)
      requires attempt <= n
      modifies this
      ensures sent == old(sent) + [body] && retryAttempts == attempt
      ensures decided == !MayRetry(o)
      ensures decided ==> result == Verdict(o)
      ensures nonRetryable == (old(nonRetryable) || (decided && !Succeeds(o))) && exhausted == old(exhausted)
      ensures closed == old(closed) + (if o.resp.Some? && !(decided && result.Ok?) then [attempt] else [])
      ensures slept == old(slept) + (if !decided && attempt < n then [NextDelay(o, attempt)] else [])
    {
      result := Ok(o);
      sent := sent + [body];
      retryAttempts := attempt;
      if Succeeds(o) {
        return true, Ok(o);
      }
      if Classify(Status(o), o.err).NonRetryable? {
        nonRetryable := true;
        if o.err.Some? {
          if o.resp.Some? {
            closed := closed + [attempt];
          }
          return true, Err(NonRetryableTransport);
        }
        return true, Ok(o);
      }
      if o.resp.Some? {
        closed := closed + [attempt];
      }
      if attempt < n {
        slept := slept + [NextDelay(o, attempt)];
      }
      return false, Ok(o);
    }
  }

  // The waits and the number of attempts, in the caller's terms.
  lemma {:induction false} WaitsAre(maxInline: int, upstream: seq<Outcome>, m: nat)
    requires m <= |upstream|
    ensures MaxInline(maxInline) == if maxInline > 0 then maxInline else 3
    ensures |Delays(upstream, m)| == m && forall i | 0 <= i < m :: WaitAfter(upstream[i], i + 1, Delays(upstream, m)[i])
  {
    forall i | 0 <= i < m
      ensures WaitAfter(upstream[i], i + 1, Delays(upstream, m)[i])
    {
      assert Attempt(upstream, i + 1) == upstream[i];
    }
  }

  // What a deciding outcome answers.
  function Verdict(o: Outcome): Result<Outcome, Failure> {
    if !Succeeds(o) && o.err.Some? then Err(NonRetryableTransport) else Ok(o)
  }

  // The answer of the whole call: the first outcome that is a success or not worth retrying.
  function Answer(upstream: seq<Outcome>): Result<Outcome, Failure> {
    var k := FirstDecisive(upstream);
    if k > |upstream| then Err(RetriesExhausted)
    else Verdict(Attempt(upstream, k))
  }

  // The call is exhausted exactly when every attempt was retryable, and hands on a response exactly when
  // some attempt succeeded, or was refused with a status, after retryable attempts only.
  lemma AnswerMeaning(upstream: seq<Outcome>)
    ensures Answer(upstream) == Err(RetriesExhausted) <==> forall i | 0 <= i < |upstream| :: MayRetry(upstream[i])
    ensures Answer(upstream).Ok? <==>
            exists i | 0 <= i < |upstream| ::
              && !MayRetry(upstream[i])
              && upstream[i].err.None?
              && (forall j | 0 <= j < i :: MayRetry(upstream[j]))
  {
    var k := FirstDecisive(upstream);
    assert forall i | 0 <= i < k - 1 :: upstream[i] == Attempt(upstream, i + 1);
    if k <= |upstream| {
      assert upstream[k - 1] == Attempt(upstream, k);
    }
  }

  // The i-th attempt, counting from 0, is the first that is not retryable.
  predicate Decides(upstream: seq<Outcome>, i: nat) {
    i < |upstream| && !MayRetry(upstream[i]) && forall j | 0 <= j < i :: MayRetry(upstream[j])
  }

  // And what it hands on is that outcome.
  lemma AnswerIs(upstream: seq<Outcome>, i: nat)
    requires Decides(upstream, i)
    ensures Answer(upstream) == if upstream[i].err.None? then Ok(upstream[i]) else Err(NonRetryableTransport)
  {
    var k := FirstDecisive(upstream);
    assert forall j | 1 <= j < k && j <= |upstream| :: upstream[j - 1] == Attempt(upstream, j);
    assert Attempt(upstream, i + 1) == upstream[i];
  }

  // A non-retryable outcome may also end the call on a later attempt than the first.
  lemma NonRetryableCanComeLater()
    ensures var overloaded, refused := Outcome(Some(Response(529, None)), None), Outcome(Some(Response(400, None)), None);
            !Succeeds(refused) && Succeeds(Outcome(Some(Response(399, None)), None)) && FirstDecisive([overloaded, refused, refused]) == 2 && Answer([overloaded, refused, refused]) == Ok(refused)
  {
    var overloaded, refused := Outcome(Some(Response(529, None)), None), Outcome(Some(Response(400, None)), None);
    assert [overloaded, refused, refused][1..] == [refused, refused];
    assert MayRetry(overloaded) && !MayRetry(refused);
  }
}
