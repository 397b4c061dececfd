/** The reservation lifecycle of proxied requests (kahyad/internal/anthproxy/proxy.go): one request on its
    own, and any number of requests interleaving on the shared governor. */
module Proxy {
  import opened Wrappers
  import opened Width
  import opened Pricing
  import opened Estimate
  import opened Books
  import Bounds
  import G = Governor
  import opened Retry
  import opened Stream

  // ---- One request ----

  // What a request meets on its way: the answers of everything outside the governor.
  datatype Surroundings = Surroundings(
    authorized: bool,
    egressAllowed: bool,
    bodyReadable: bool,
    keychainMode: bool,
    credentialFound: bool,
    checkedAt: Instant,
    upstream: seq<Outcome>,   // what each inline attempt meets
    isSSE: bool,              // whether the response is an event stream
    decoders: Decoders,
    readResults: seq<ReadResult>,   // what the reads of the response body deliver, as far as it is read at all
    recordedAt: Instant)

  datatype Reply =
    | Unauthorized
    | Forbidden
    | BadBody
    | Blocked(reason: Books.Verdict)
    | KeychainUnavailable
    | CloudUnreachable
    | BadGateway
    | Relayed(status: nat)

  // The two books agree on everything outstanding, key by key.
  ghost predicate SameReserved(s: State, t: State) {
    && s.reservations == t.reservations
    && (forall taskID: string :: Get(s.perTaskReserved, taskID, 0) == Get(t.perTaskReserved, taskID, 0))
    && (forall b: Bucket :: Pool(s, b) == Pool(t, b))
  }

  lemma FoldUndo(p: int64, x: int64)
    ensures Sub64(Add64(p, x), x) == p
  {
  }

  lemma ReserveThenRelease(s: State, r: Reservation)
    requires s.nextReservationID + 1 !in s.reservations
    ensures SameReserved(s, Release(Reserve(s, r), s.nextReservationID + 1))
  {
    var s' := Release(Reserve(s, r), s.nextReservationID + 1);
    FoldUndo(Get(s.perTaskReserved, r.taskID, 0), r.tokens);
    assert s'.reservations == s.reservations;
  }

  // What a request leaves behind: nothing outstanding of its own, and one recorded call or none.
  ghost predicate Settled(before: State, after: State, taskID: string, tokens: int64, billed: nat) {
    && Conserved(after)
    && SameReserved(before, after)
    && (forall t: string | t != "" ::
          Get(after.perTask, t, 0)
          == if billed == 1 && t == taskID then Add64(Get(before.perTask, t, 0), tokens) else Get(before.perTask, t, 0))
  }

  lemma SettleUnrecorded(before: State, r: Reservation, taskID: string, tokens: int64)
    requires Conserved(before)
    ensures Settled(before, Release(Reserve(before, r), before.nextReservationID + 1), taskID, tokens, 0)
  {
    ReserveConserves(before, r);
    ReleaseConserves(Reserve(before, r), before.nextReservationID + 1);
    ReserveThenRelease(before, r);
  }

  // The deferred release after a recorded call finds nothing left to do.
  lemma SettleRecorded(before: State, r: Reservation, at: Instant, call: CallRecord)
    requires Conserved(before)
    ensures var id := before.nextReservationID + 1;
            Settled(before, Release(RecordUsage(Reserve(before, r), id, at, call), id), call.taskID, call.usage.BillableTokens(), 1)
  {
    var id := before.nextReservationID + 1;
    SettleUnrecorded(before, r, call.taskID, call.usage.BillableTokens());
    var mid := Release(Reserve(before, r), id);
    RecordKeepsPools(mid, at, call);
    assert Release(RecordCall(mid, at, call), id) == RecordCall(mid, at, call);
    assert forall b: Bucket :: Pool(RecordCall(mid, at, call), b) == Pool(mid, b);
  }

  // The dollars of the call are added to its day and its month, and to nothing else.
  ghost predicate Charged(before: State, after: State, usd: real, at: Instant, billed: nat) {
    forall b: Bucket ::
      Bounds.Completed(after, b) == Bounds.Completed(before, b) + (if billed == 1 && Bounds.Falls(at, b) then usd else 0.0)
  }

  lemma ChargedNothing(before: State, r: Reservation, usd: real, at: Instant)
    ensures Charged(before, Release(Reserve(before, r), before.nextReservationID + 1), usd, at, 0)
  {
    forall b: Bucket
      ensures Bounds.Completed(Release(Reserve(before, r), before.nextReservationID + 1), b) == Bounds.Completed(before, b)
    {
      Bounds.ReservePool(before, r, b);
      Bounds.ReleasePool(Reserve(before, r), before.nextReservationID + 1, b);
    }
  }

  lemma ChargedOnce(before: State, r: Reservation, at: Instant, call: CallRecord)
    ensures var id := before.nextReservationID + 1;
            Charged(before, Release(RecordUsage(Reserve(before, r), id, at, call), id), call.usd, at, 1)
  {
    var id := before.nextReservationID + 1;
    ChargedNothing(before, r, call.usd, at);
    var mid := Release(Reserve(before, r), id);
    forall b: Bucket
      ensures Bounds.Completed(Release(RecordCall(mid, at, call), id), b)
              == Bounds.Completed(mid, b) + (if Bounds.Falls(at, b) then call.usd else 0.0)
    {
      Bounds.RecordCompleted(mid, at, call, b);
      Bounds.ReleasePool(RecordCall(mid, at, call), id, b);
    }
  }

  // The usage of the response: that of the bytes received up to the first read error, the end of file included.
  function UsageOf(env: Surroundings): Usage {
    match FirstError(env.readResults)
    case Some((body, _)) => Extracted(env.isSSE, env.decoders, body)
    case None => NO_USAGE
  }

  function CallOf(taskID: string, model: string, usage: Usage, at: Instant): CallRecord {
    var row := PriceFor(model, at);
    CallRecord(taskID, usage, if row.Some? then usage.CostUSD(row.value) else 0.0)
  }

  // What the response costs at the prices of the moment it is recorded; an unpriced model costs nothing.
  function PriceOf(model: string, env: Surroundings): real {
    match PriceFor(model, env.recordedAt)
    case Some(row) => UsageOf(env).CostUSD(row)
    case None => 0.0
  }

  function RecordOf(taskID: string, model: string, env: Surroundings): CallRecord {
    CallOf(taskID, model, UsageOf(env), env.recordedAt)
  }

  // A response comes back and some read of it returns an error, the end of file included: the one case that is billed.
  predicate Billed(env: Surroundings) {
    (env.keychainMode ==> env.credentialFound) && Answer(env.upstream).Ok? && FirstError(env.readResults).Some?
  }

  // What is billed: the usage of everything received up to and including the first read that came with an error.
  lemma {:induction false} UsageOfIs(env: Surroundings, k: nat)
    requires k < |env.readResults| && env.readResults[k].err.Some?
    requires forall j | 0 <= j < k :: env.readResults[j].err.None?
    ensures UsageOf(env) == Extracted(env.isSSE, env.decoders, Received(env.readResults[..k + 1]))
  {
    assert FirstErrorAt(env.readResults) == k;
  }

  predicate HasCredential(env: Surroundings) {
    env.keychainMode ==> env.credentialFound
  }

  // The reply to a request that was admitted.
  ghost predicate Answers(env: Surroundings, reply: Reply) {
    && (reply == KeychainUnavailable <==> !HasCredential(env))
    && (reply == CloudUnreachable <==> HasCredential(env) && forall i | 0 <= i < |env.upstream| :: MayRetry(env.upstream[i]))
    && (forall i: nat | HasCredential(env) && Decides(env.upstream, i) ::
          reply == if env.upstream[i].err.Some? then BadGateway
                   else Relayed(if env.upstream[i].resp.Some? then env.upstream[i].resp.value.status else 0))
  }

  // The reply to a request that was not, by the first check that it fails.
  ghost predicate Refuses(limits: Limits, s: State, taskID: string, model: string, body: Body, env: Surroundings, reply: Reply) {
    var v := Check(limits, s, taskID, EstimateRequest(limits, model, body, env.checkedAt), env.checkedAt).0;
    && (reply == Unauthorized <==> !env.authorized)
    && (reply == Forbidden <==> env.authorized && !env.egressAllowed)
    && (reply == BadBody <==> env.authorized && env.egressAllowed && !env.bodyReadable)
    && (reply == Blocked(v) <==> env.authorized && env.egressAllowed && env.bodyReadable && !v.Granted?)
  }

  lemma AnswersExhausted(env: Surroundings)
    requires HasCredential(env) && Answer(env.upstream) == Err(RetriesExhausted)
    ensures Answers(env, CloudUnreachable)
  {
    AnswerMeaning(env.upstream);
  }

  lemma DecidesOnce(upstream: seq<Outcome>) returns (i: nat)
    requires Answer(upstream) != Err(RetriesExhausted)
    ensures Decides(upstream, i) && forall j: nat | Decides(upstream, j) :: j == i
    ensures Answer(upstream) == if upstream[i].err.None? then Ok(upstream[i]) else Err(NonRetryableTransport)
  {
    i := FirstDecisive(upstream) - 1;
    assert forall j | 0 <= j < i :: Attempt(upstream, j + 1) == upstream[j];
    assert Attempt(upstream, i + 1) == upstream[i];
    AnswerIs(upstream, i);
  }

  lemma AnswersDecided(env: Surroundings)
    requires HasCredential(env) && Answer(env.upstream) != Err(RetriesExhausted)
    ensures Answer(env.upstream).Err? ==> Answers(env, BadGateway)
    ensures Answer(env.upstream).Ok? ==> Answers(env, Relayed(Status(Answer(env.upstream).value)))
  {
    var i := DecidesOnce(env.upstream);
    assert !MayRetry(env.upstream[i]);
  }

  // From the granted check to the end of the relayed response.
  method Forward(g: G.Governor, id: nat, taskID: string, model: string, bytes: Bytes, maxInline: int, env: Surroundings)
    returns (reply: Reply, billed: nat)
    requires |env.upstream| == MaxInline(maxInline)
    modifies g
    ensures billed == if Billed(env) then 1 else 0
    ensures g.View() == if Billed(env) then RecordUsage(old(g.View()), id, env.recordedAt, RecordOf(taskID, model, env))
                        else old(g.View())
    ensures reply.Relayed? ==> Answer(env.upstream).Ok?
    ensures Answers(env, reply)
  {
    if env.keychainMode && !env.credentialFound {
      return KeychainUnavailable, 0;
    }
    var transport := new RetryTransport(maxInline);
    var answer := transport.RoundTrip(bytes, env.upstream);
    if answer == Err(RetriesExhausted) {
      AnswersExhausted(env);
    } else {
      AnswersDecided(env);
    }
    match answer {
      case Err(RetriesExhausted) => return CloudUnreachable, 0;
      case Err(NonRetryableTransport) => return BadGateway, 0;
      case Ok(o) =>
        var reports, _ := Relay(env.isSSE, env.decoders, env.readResults);
        if |reports| > 0 {
          g.RecordUsage(id, env.recordedAt, CallOf(taskID, model, reports[0].0, env.recordedAt));
          return Relayed(Status(o)), 1;
        }
        return Relayed(Status(o)), 0;
    }
  }

  // Forwarding, and the release that is deferred on every path.
  method Complete(g: G.Governor, id: nat, taskID: string, model: string, bytes: Bytes, maxInline: int, env: Surroundings,
                  ghost before: State, ghost r: Reservation)
    returns (reply: Reply, billed: nat)
    requires |env.upstream| == MaxInline(maxInline)
    requires Conserved(before) && g.View() == Reserve(before, r) && id == before.nextReservationID + 1
    modifies g
    ensures billed == if Billed(env) then 1 else 0
    ensures Settled(before, g.View(), taskID, UsageOf(env).BillableTokens(), billed)
    ensures Charged(before, g.View(), PriceOf(model, env), env.recordedAt, billed)
    ensures reply.Relayed? ==> Answer(env.upstream).Ok?
    ensures Answers(env, reply)
  {
    SettleUnrecorded(before, r, taskID, UsageOf(env).BillableTokens());
    SettleRecorded(before, r, env.recordedAt, RecordOf(taskID, model, env));
    ChargedNothing(before, r, PriceOf(model, env), env.recordedAt);
    ChargedOnce(before, r, env.recordedAt, RecordOf(taskID, model, env));
    reply, billed := Forward(g, id, taskID, model, bytes, maxInline, env);
    g.ReleaseReservation(id);
  }

  lemma SettleNothing(s: State, taskID: string, tokens: int64)
    requires Conserved(s)
    ensures Settled(s, s, taskID, tokens, 0)
  {
  }

  predicate Admitted(limits: Limits, s: State, taskID: string, model: string, body: Body, env: Surroundings) {
    && env.authorized && env.egressAllowed && env.bodyReadable
    && Check(limits, s, taskID, EstimateRequest(limits, model, body, env.checkedAt), env.checkedAt).0.Granted?
  }

  // From the local authorization to the check-and-reserve; None when the request may go on.
  method Admit(g: G.Governor, taskID: string, model: string, body: Body, env: Surroundings) returns (refusal: Option<Reply>, id: nat)
    modifies g
    ensures refusal.None? <==> Admitted(g.limits, old(g.View()), taskID, model, body, env)
    ensures refusal.None? ==>
              && id == old(g.View()).nextReservationID + 1
              && g.View() == Reserve(old(g.View()), Booking(taskID, EstimateRequest(g.limits, model, body, env.checkedAt), env.checkedAt))
    ensures refusal.Some? ==> g.View() == old(g.View()) && !refusal.value.Relayed?
    ensures refusal.Some? ==> Refuses(g.limits, old(g.View()), taskID, model, body, env, refusal.value)
  {
    if !env.authorized {
      return Some(Unauthorized), 0;
    }
    if !env.egressAllowed {
      return Some(Forbidden), 0;
    }
    if !env.bodyReadable {
      return Some(BadBody), 0;
    }
    var v := g.CheckBeforeForward(taskID, model, body, env.checkedAt);
    if !v.Granted? {
      return Some(Blocked(v)), 0;
    }
    return None, v.id;
  }

  // The deferred release covers every path below the check: whatever happens after a reservation was
  // granted, it is gone when the request ends, no pool has moved, and the completed total of its task grows by
  // one recorded call exactly when an answer came back and was read to its end or to an error; never when the
  // attempts ran out, and not for a response that is abandoned before.
  method ServeHTTP(g: G.Governor, taskID: string, model: string, body: Body, bytes: Bytes, maxInline: int, env: Surroundings)
    returns (reply: Reply, billed: nat)
    requires |env.upstream| == MaxInline(maxInline)
    requires Conserved(g.View())
    modifies g
    ensures Settled(old(g.View()), g.View(), taskID, UsageOf(env).BillableTokens(), billed)
    ensures Charged(old(g.View()), g.View(), PriceOf(model, env), env.recordedAt, billed)
    ensures if Admitted(g.limits, old(g.View()), taskID, model, body, env) then Answers(env, reply)
            else Refuses(g.limits, old(g.View()), taskID, model, body, env, reply)
    ensures billed == if Admitted(g.limits, old(g.View()), taskID, model, body, env) && Billed(env) then 1 else 0
    ensures Answer(env.upstream) == Err(RetriesExhausted) ==> billed == 0 && !reply.Relayed?
    ensures FirstError(env.readResults).None? ==> billed == 0
  {
    SettleNothing(g.View(), taskID, UsageOf(env).BillableTokens());
    ghost var before := g.View();
    ghost var r := Booking(taskID, EstimateRequest(g.limits, model, body, env.checkedAt), env.checkedAt);
    var refusal, id := Admit(g, taskID, model, body, env);
    if refusal.Some? {
      return refusal.value, 0;
    }
    reply, billed := Complete(g, id, taskID, model, bytes, maxInline, env, before, r);
  }

  // ---- Requests in flight together ----

  // A request between its check and its end: the reservation it holds, and whether usage was recorded.
  datatype Flight = Flight(id: nat, recorded: bool)

  datatype System = System(books: State, flights: map<nat, Flight>)

  datatype Event =
    | Arrive(req: nat, taskID: string, quote: Quote, at: Instant)
    | Drained(req: nat, at: Instant, call: CallRecord)
    | Finish(req: nat)

  function Next(limits: Limits, s: System, e: Event): System {
    match e
    case Arrive(req, taskID, quote, at) =>
      if req in s.flights then s
      else
        var (v, books) := Check(limits, s.books, taskID, quote, at);
        System(books, if v.Granted? then s.flights[req := Flight(v.id, false)] else s.flights)
    case Drained(req, at, call) =>
      if req !in s.flights || s.flights[req].recorded then s
      else System(RecordUsage(s.books, s.flights[req].id, at, call), s.flights[req := Flight(s.flights[req].id, true)])
    case Finish(req) =>
      if req !in s.flights then s
      else System(Release(s.books, s.flights[req].id), s.flights - {req})
  }

  function RunSystem(limits: Limits, s: System, events: seq<Event>): System {
    if events == [] then s
    else Next(limits, RunSystem(limits, s, events[..|events| - 1]), events[|events| - 1])
  }

  // Requests hold distinct reservations, and what is outstanding is exactly what they hold unrecorded.
  ghost predicate Held(outstanding: set<nat>, last: nat, flights: map<nat, Flight>) {
    && (forall req <- flights :: 1 <= flights[req].id <= last)
    && (forall p, q | p in flights && q in flights && flights[p].id == flights[q].id :: p == q)
    && (forall req <- flights :: flights[req].id in outstanding <==> !flights[req].recorded)
    && (forall id <- outstanding :: exists req :: req in flights && flights[req].id == id)
  }

  ghost predicate Tracked(s: System) {
    Conserved(s.books) && Held(s.books.reservations.Keys, s.books.nextReservationID, s.flights)
  }

  lemma HeldAfterGrant(outstanding: set<nat>, last: nat, flights: map<nat, Flight>, req: nat)
    requires Held(outstanding, last, flights) && req !in flights
    requires forall id <- outstanding :: id <= last
    ensures Held(outstanding + {last + 1}, last + 1, flights[req := Flight(last + 1, false)])
  {
    var flights' := flights[req := Flight(last + 1, false)];
    assert flights'[req].id == last + 1;
    forall id | id in outstanding ensures exists r :: r in flights' && flights'[r].id == id {
      var r :| r in flights && flights[r].id == id;
      assert flights'[r].id == id;
    }
  }

  lemma HeldAfterRelease(outstanding: set<nat>, last: nat, flights: map<nat, Flight>, req: nat, flights': map<nat, Flight>)
    requires Held(outstanding, last, flights) && req in flights
    requires flights' == flights - {req} || flights' == flights[req := Flight(flights[req].id, true)]
    ensures Held(outstanding - {flights[req].id}, last, flights')
  {
    forall id | id in outstanding - {flights[req].id} ensures exists r :: r in flights' && flights'[r].id == id {
      var r :| r in flights && flights[r].id == id;
      assert r != req && flights'[r].id == id;
    }
  }

  lemma CheckShape(limits: Limits, s: State, taskID: string, quote: Quote, at: Instant)
    ensures var (v, s') := Check(limits, s, taskID, quote, at);
            if v.Granted?
            then v.id == s'.nextReservationID == s.nextReservationID + 1
                 && s'.reservations.Keys == s.reservations.Keys + {s'.nextReservationID}
            else s' == s
  {
  }

  lemma ReleaseShape(s: State, id: nat, at: Instant, call: CallRecord)
    requires id != 0
    ensures Release(s, id).reservations.Keys == s.reservations.Keys - {id}
    ensures Release(s, id).nextReservationID == s.nextReservationID
    ensures RecordUsage(s, id, at, call).reservations.Keys == s.reservations.Keys - {id}
    ensures RecordUsage(s, id, at, call).nextReservationID == s.nextReservationID
  {
  }

  lemma GrantTracked(s: System, books: State, req: nat)
    requires Tracked(s) && req !in s.flights && Conserved(books)
    requires books.nextReservationID == s.books.nextReservationID + 1
    requires books.reservations.Keys == s.books.reservations.Keys + {books.nextReservationID}
    ensures Tracked(System(books, s.flights[req := Flight(books.nextReservationID, false)]))
  {
    HeldAfterGrant(s.books.reservations.Keys, s.books.nextReservationID, s.flights, req);
  }

  lemma ArriveTracked(limits: Limits, s: System, e: Event)
    requires Tracked(s) && e.Arrive? && e.req !in s.flights
    ensures Tracked(Next(limits, s, e))
  {
    var books := Step(limits, s.books, CheckOp(e.taskID, e.quote, e.at));
    CheckShape(limits, s.books, e.taskID, e.quote, e.at);
    StepConserves(limits, s.books, CheckOp(e.taskID, e.quote, e.at));
    if books == s.books {
      assert Next(limits, s, e) == s;
    } else {
      GrantTracked(s, books, e.req);
    }
  }

  lemma DrainedTracked(limits: Limits, s: System, e: Event)
    requires Tracked(s) && e.Drained? && e.req in s.flights && !s.flights[e.req].recorded
    ensures Tracked(Next(limits, s, e))
  {
    var id := s.flights[e.req].id;
    StepConserves(limits, s.books, RecordOp(id, e.at, e.call));
    ReleaseShape(s.books, id, e.at, e.call);
    HeldAfterRelease(s.books.reservations.Keys, s.books.nextReservationID, s.flights, e.req, s.flights[e.req := Flight(id, true)]);
  }

  lemma FinishTracked(limits: Limits, s: System, e: Event)
    requires Tracked(s) && e.Finish? && e.req in s.flights
    ensures Tracked(Next(limits, s, e))
  {
    var id := s.flights[e.req].id;
    ReleaseConserves(s.books, id);
    ReleaseShape(s.books, id, Clock(1, 1, 1, 0), CallRecord("", Usage(0, 0, 0, 0), 0.0));
    HeldAfterRelease(s.books.reservations.Keys, s.books.nextReservationID, s.flights, e.req, s.flights - {e.req});
  }

  lemma NextTracked(limits: Limits, s: System, e: Event)
    requires Tracked(s)
    ensures Tracked(Next(limits, s, e))
  {
    if e.Arrive? && e.req !in s.flights {
      ArriveTracked(limits, s, e);
    } else if e.Drained? && e.req in s.flights && !s.flights[e.req].recorded {
      DrainedTracked(limits, s, e);
    } else if e.Finish? && e.req in s.flights {
      FinishTracked(limits, s, e);
    } else {
      assert Next(limits, s, e) == s;
    }
  }

  // However requests interleave, the outstanding reservations are those of the unrecorded requests in flight.
  lemma {:induction false} RunTracked(limits: Limits, s: System, events: seq<Event>)
    requires Tracked(s)
    ensures Tracked(RunSystem(limits, s, events))
  {
    if events != [] {
      RunTracked(limits, s, events[..|events| - 1]);
      NextTracked(limits, RunSystem(limits, s, events[..|events| - 1]), events[|events| - 1]);
    }
  }

  // No leak: whenever no request is in flight, nothing is outstanding and every pool reads zero.
  lemma {:induction false} QuietMeansZero(limits: Limits, s: System, events: seq<Event>)
    requires Tracked(s)
    requires RunSystem(limits, s, events).flights == map[]
    ensures var books := RunSystem(limits, s, events).books;
            && books.reservations == map[]
            && (forall taskID: string :: Get(books.perTaskReserved, taskID, 0) == 0)
            && (forall day: Day :: Get(books.dailyReserved, day, 0.0) == 0.0)
            && (forall month: Month :: Get(books.monthlyReserved, month, 0.0) == 0.0)
  {
    RunTracked(limits, s, events);
    var books := RunSystem(limits, s, events).books;
    assert books.reservations.Keys == {};
    PoolsDrain(books);
  }

  // What the usage of a request in flight does, once: its reservation is released and the call is recorded. A second
  // time, or for a request that is not in flight, it does nothing.
  lemma DrainedOnce(limits: Limits, s: System, req: nat, at: Instant, call: CallRecord, again: Event)
    requires Tracked(s) && req in s.flights && !s.flights[req].recorded
    requires again.Drained? && again.req == req
    ensures var s' := Next(limits, s, Drained(req, at, call));
            && s'.flights == s.flights[req := Flight(s.flights[req].id, true)]
            && s'.books.reservations == s.books.reservations - {s.flights[req].id}
            && (forall t: string | t != "" ::
                  Get(s'.books.perTask, t, 0)
                  == if t == call.taskID then Add64(Get(s.books.perTask, t, 0), call.usage.BillableTokens())
                     else Get(s.books.perTask, t, 0))
            && (forall b: Bucket ::
                  Bounds.Completed(s'.books, b) == Bounds.Completed(s.books, b) + (if Bounds.Falls(at, b) then call.usd else 0.0))
            && Next(limits, s', again) == s'
  {
    var id := s.flights[req].id;
    forall b: Bucket
      ensures Bounds.Completed(RecordUsage(s.books, id, at, call), b)
              == Bounds.Completed(s.books, b) + (if Bounds.Falls(at, b) then call.usd else 0.0)
    {
      Bounds.ReleasePool(s.books, id, b);
      Bounds.RecordCompleted(Release(s.books, id), at, call, b);
    }
  }

  // The recorded totals are the same.
  predicate SameTotals(s: State, t: State) {
    s.perTask == t.perTask && s.daily == t.daily && s.monthly == t.monthly
  }

  lemma ReleaseRemoves(s: State, id: nat)
    requires id != 0
    ensures Release(s, id).reservations == s.reservations - {id} && SameTotals(Release(s, id), s)
  {
  }

  // The end of a request: it is no longer in flight and nothing of it is outstanding.
  lemma FinishSettles(limits: Limits, s: System, req: nat)
    requires Tracked(s)
    ensures var s' := Next(limits, s, Finish(req));
            && s'.flights == s.flights - {req} && SameTotals(s'.books, s.books)
            && (req in s.flights ==> s'.books.reservations == s.books.reservations - {s.flights[req].id})
  {
    if req in s.flights {
      ReleaseRemoves(s.books, s.flights[req].id);
    }
  }

  function Finishes(reqs: seq<nat>): seq<Event> {
    if reqs == [] then [] else Finishes(reqs[..|reqs| - 1]) + [Finish(reqs[|reqs| - 1])]
  }

  lemma {:induction false} RunLast(limits: Limits, s: System, events: seq<Event>, e: Event)
    ensures RunSystem(limits, s, events + [e]) == Next(limits, RunSystem(limits, s, events), e)
  {
    assert (events + [e])[..|events|] == events;
  }

  lemma {:induction false} AllFinish(limits: Limits, s: System, reqs: seq<nat>)
    requires Tracked(s)
    ensures var s' := RunSystem(limits, s, Finishes(reqs));
            Tracked(s') && SameTotals(s'.books, s.books) && forall r | r in s'.flights :: r in s.flights && r !in reqs
  {
    if reqs != [] {
      var front, last := reqs[..|reqs| - 1], reqs[|reqs| - 1];
      AllFinish(limits, s, front);
      RunLast(limits, s, Finishes(front), Finish(last));
      FinishSettles(limits, RunSystem(limits, s, Finishes(front)), last);
      NextTracked(limits, RunSystem(limits, s, Finishes(front)), Finish(last));
      assert reqs == front + [last];
    }
  }

  lemma NoFlightNoReservation(s: System)
    requires Tracked(s) && s.flights == map[]
    ensures s.books.reservations == map[]
  {
    assert s.books.reservations.Keys == {};
  }

  // However requests were interleaved before: when each of those in flight has come to its end, nothing is in flight or
  // outstanding any more, and nothing more was billed.
  lemma {:induction false} AllQuiet(limits: Limits, s: System, reqs: seq<nat>)
    requires Tracked(s) && forall req <- s.flights :: req in reqs
    ensures var s' := RunSystem(limits, s, Finishes(reqs));
            s'.flights == map[] && s'.books.reservations == map[] && SameTotals(s'.books, s.books)
  {
    AllFinish(limits, s, reqs);
    NoFlightNoReservation(RunSystem(limits, s, Finishes(reqs)));
  }

  // How often reservation id stops being outstanding during a run.
  ghost function Releases(limits: Limits, s: System, events: seq<Event>, id: nat): nat {
    if events == [] then 0
    else
      var front := RunSystem(limits, s, events[..|events| - 1]);
      Releases(limits, s, events[..|events| - 1], id) + Leaves(front.books, Next(limits, front, events[|events| - 1]).books, id)
  }

  ghost function Leaves(s: State, s': State, id: nat): nat {
    if id in s.reservations && id !in s'.reservations then 1 else 0
  }

  // One event adds the next id, removes ids, or leaves them alone.
  lemma NextIds(limits: Limits, s: System, e: Event, id: nat)
    requires forall i <- s.flights :: s.flights[i].id != 0
    ensures var s' := Next(limits, s, e);
            && (forall i <- s'.flights :: s'.flights[i].id != 0)
            && (|| (s'.books.nextReservationID == s.books.nextReservationID
                    && (id in s'.books.reservations ==> id in s.books.reservations))
                || (s'.books.nextReservationID == s.books.nextReservationID + 1
                    && (id in s'.books.reservations <==> id in s.books.reservations || id == s.books.nextReservationID + 1)))
  {
    match e
    case Arrive(req, taskID, quote, at) =>
      CheckShape(limits, s.books, taskID, quote, at);
    case Drained(req, at, call) =>
      if req in s.flights {
        ReleaseShape(s.books, s.flights[req].id, at, call);
      }
    case Finish(req) =>
      if req in s.flights {
        ReleaseShape(s.books, s.flights[req].id, Clock(1, 1, 1, 0), CallRecord("", Usage(0, 0, 0, 0), 0.0));
      }
  }

  // Every reservation granted during a run is released exactly once or is still outstanding; never twice.
  lemma {:induction false} ReleasedExactlyOnce(limits: Limits, s: System, events: seq<Event>, id: nat)
    requires forall i <- s.flights :: s.flights[i].id != 0
    requires id > s.books.nextReservationID && id !in s.books.reservations
    ensures var s' := RunSystem(limits, s, events);
            && (forall i <- s'.flights :: s'.flights[i].id != 0)
            && (id in s'.books.reservations ==> id <= s'.books.nextReservationID)
            && Releases(limits, s, events, id)
               == if id <= s'.books.nextReservationID && id !in s'.books.reservations then 1 else 0
  {
    if events != [] {
      var front := events[..|events| - 1];
      ReleasedExactlyOnce(limits, s, front, id);
      NextIds(limits, RunSystem(limits, s, front), events[|events| - 1], id);
    }
  }
}
