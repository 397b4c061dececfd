/** The conservative estimate a request reserves before it is forwarded
    (kahyad/internal/anthproxy/governor.go, estimateRequestLocked). */
module Estimate {
  import opened Wrappers
  import opened Width
  import opened Pricing

  datatype Limits = Limits(dailyUSD: real, monthlyUSD: real, taskCeiling: int64, estRequestTokens: int64)

  const DEFAULT_EST_REQUEST_TOKENS: int64 := 50_000
  const BYTES_PER_TOKEN := 3

  // A request body: its length, and the max_tokens a JSON decoder finds (None when decoding fails,
  // Some(0) when the field is missing).
  datatype Body = Body(length: Length, decoded: Option<int64>)

  type Length = n: nat | n <= MAX64

  function Probe(body: Body): Option<int64> {
    if body.length == 0 then None else body.decoded
  }

  function FallbackTokens(limits: Limits): (r: int64)
    ensures r > 0
  {
    if limits.estRequestTokens <= 0 then DEFAULT_EST_REQUEST_TOKENS else limits.estRequestTokens
  }

  // The input-side bound derived from the body's own length.
  function InputBound(body: Body): (r: int64)
    ensures r >= 1
  {
    if body.length / BYTES_PER_TOKEN <= 0 then 1 else body.length / BYTES_PER_TOKEN
  }

  // The output-side bound: max_tokens when it is positive, the configured fallback otherwise.
  function OutputBound(limits: Limits, maxTokens: int64): (r: int64)
    ensures r > 0
  {
    if maxTokens <= 0 then FallbackTokens(limits) else maxTokens
  }

  // What a request would reserve; never a negative amount of dollars.
  datatype Estimated = Priced(tokens: int64, usd: real)

  type Quote = q: Estimated | q.usd >= 0.0 witness Priced(0, 0.0)

  // The dollars of `tokens` tokens at a per-million rate.
  function Cost(tokens: int, rate: real): (c: real)
    ensures tokens > 0 && rate > 0.0 ==> c > 0.0
  {
    assert tokens > 0 && rate > 0.0 ==> tokens as real * rate > 0.0;
    tokens as real * rate / 1_000_000.0
  }

  function EstimateRequest(limits: Limits, model: string, body: Body, at: Instant): (q: Quote)
    ensures q.usd > 0.0 <==> PriceFor(model, at).Some?
  {
    var row := PriceFor(model, at);
    match Probe(body)
    case Some(maxTokens) =>
      var inTokens, outTokens := InputBound(body), OutputBound(limits, maxTokens);
      Priced(Add64(inTokens, outTokens),
             if row.None? then 0.0
             else Cost(inTokens, row.value.perMTokCacheWrite1h) + Cost(outTokens, row.value.perMTokOut))
    case None =>
      var tokens := FallbackTokens(limits);
      Priced(tokens, if row.None? then 0.0 else Cost(tokens, row.value.perMTokOut))
  }

  ghost predicate NonNegative(u: Usage) {
    u.input >= 0 && u.output >= 0 && u.cacheCreation >= 0 && u.cacheRead >= 0
  }

  // The call stayed inside the bounds the estimate was built from.
  ghost predicate WithinBounds(limits: Limits, body: Body, u: Usage) {
    && NonNegative(u)
    && match Probe(body)
       case Some(maxTokens) =>
         && u.input + u.cacheCreation + u.cacheRead <= InputBound(body)
         && u.output <= OutputBound(limits, maxTokens)
       case None =>
         u.input as int + u.cacheCreation + u.cacheRead + u.output <= FallbackTokens(limits)
  }

  lemma CostMonotone(few: int, many: int, low: real, high: real)
    requires 0 <= few <= many && 0.0 <= low <= high
    ensures Cost(few, low) <= Cost(many, high)
  {
    assert few as real * low <= few as real * high;
    assert few as real * high <= many as real * high;
  }

  lemma CostAdds(a: int, b: int, rate: real)
    ensures Cost(a + b, rate) == Cost(a, rate) + Cost(b, rate)
  {
    assert (a + b) as real == a as real + b as real;
  }

  // Input-side tokens, whatever their mix, cost at most the cache-write rate.
  lemma InputSideCost(u: Usage, row: PriceRow)
    requires NonNegative(u)
    requires 0.0 <= row.perMTokCacheRead <= row.perMTokIn <= row.perMTokCacheWrite1h
    ensures u.CostUSD(row)
            <= Cost(u.input + u.cacheCreation + u.cacheRead, row.perMTokCacheWrite1h) + Cost(u.output, row.perMTokOut)
  {
    var w := row.perMTokCacheWrite1h;
    CostMonotone(u.input, u.input, row.perMTokIn, w);
    CostMonotone(u.cacheRead, u.cacheRead, row.perMTokCacheRead, w);
    CostAdds(u.input + u.cacheCreation, u.cacheRead, w);
    CostAdds(u.input, u.cacheCreation, w);
    CostParts(u, row);
  }

  lemma CostParts(u: Usage, row: PriceRow)
    ensures u.CostUSD(row) == Cost(u.input, row.perMTokIn) + Cost(u.output, row.perMTokOut)
                              + Cost(u.cacheRead, row.perMTokCacheRead) + Cost(u.cacheCreation, row.perMTokCacheWrite1h)
  {
  }

  // Fail closed, in dollars: a call inside its bounds, priced by the row it was reserved under,
  // costs at most what was reserved. This needs no bound on the size of the numbers.
  lemma CostWithinReserve(limits: Limits, model: string, body: Body, at: Instant, u: Usage)
    requires WithinBounds(limits, body, u)
    requires PriceFor(model, at).Some?
    ensures u.CostUSD(PriceFor(model, at).value) <= EstimateRequest(limits, model, body, at).usd
  {
    var row := PriceFor(model, at).value;
    RateOrder(model, at);
    InputSideCost(u, row);
    var side := u.input + u.cacheCreation + u.cacheRead;
    match Probe(body)
    case Some(maxTokens) =>
      CostMonotone(side, InputBound(body), row.perMTokCacheWrite1h, row.perMTokCacheWrite1h);
      CostMonotone(u.output, OutputBound(limits, maxTokens), row.perMTokOut, row.perMTokOut);
    case None =>
      CostMonotone(side, side, row.perMTokCacheWrite1h, row.perMTokOut);
      CostAdds(side, u.output, row.perMTokOut);
      CostMonotone(side + u.output, FallbackTokens(limits), row.perMTokOut, row.perMTokOut);
  }

  // The mathematical size of a request's token estimate.
  ghost function TrueEstimate(limits: Limits, body: Body): int {
    match Probe(body)
    case Some(maxTokens) => InputBound(body) as int + OutputBound(limits, maxTokens)
    case None => FallbackTokens(limits)
  }

  // Fail closed, in tokens: a call inside its bounds uses at most the reserved tokens exactly when the
  // reserved sum fits a 64-bit counter. Past that the reservation wraps to a negative number.
  lemma TokensWithinReserve(limits: Limits, model: string, body: Body, at: Instant, u: Usage)
    requires WithinBounds(limits, body, u)
    ensures var reserved := EstimateRequest(limits, model, body, at).tokens;
            var bound := TrueEstimate(limits, body);
            && (u.input as int + u.output + u.cacheCreation <= reserved <==> Fits(bound))
            && (Fits(bound) ==> u.BillableTokens() == u.input + u.output + u.cacheCreation)
  {
  }

  // ---- Fail closed, from the request's own numbers ----

  // The dollars per million tokens of input, output, cache reads and cache writes.
  predicate Charges(row: PriceRow, inRate: real, outRate: real, readRate: real, writeRate: real) {
    && row.perMTokIn == inRate && row.perMTokOut == outRate
    && row.perMTokCacheRead == readRate && row.perMTokCacheWrite1h == writeRate
  }

  lemma PriceList(at: Instant)
    ensures PriceFor("claude-opus-4-8", at).Some? && Charges(PriceFor("claude-opus-4-8", at).value, 5.0, 25.0, 0.5, 10.0)
    ensures PriceFor("claude-haiku-4-5", at).Some? && Charges(PriceFor("claude-haiku-4-5", at).value, 1.0, 5.0, 0.1, 2.0)
    ensures PriceFor("claude-fable-5", at).Some? && Charges(PriceFor("claude-fable-5", at).value, 10.0, 50.0, 1.0, 20.0)
    ensures PriceFor("claude-sonnet-5", at).Some?
    ensures if at.year < 2026 || (at.year == 2026 && at.month < 9) then Charges(PriceFor("claude-sonnet-5", at).value, 2.0, 10.0, 0.2, 4.0)
            else Charges(PriceFor("claude-sonnet-5", at).value, 3.0, 15.0, 0.3, 6.0)
  {
    PriceCoverage(OPUS, at);
    PriceCoverage(HAIKU, at);
    PriceCoverage(FABLE, at);
    SonnetRows(at);
  }

  lemma CostOfCall(u: Usage, row: PriceRow, inRate: real, outRate: real, readRate: real, writeRate: real)
    requires Charges(row, inRate, outRate, readRate, writeRate)
    ensures u.CostUSD(row) * 1_000_000.0
            == u.input as real * inRate + u.output as real * outRate
               + u.cacheRead as real * readRate + u.cacheCreation as real * writeRate
  {
  }

  // A decoded body reserves one token for every three of its bytes, at least one, and its max_tokens, or the
  // configured fallback of 50000 unless set, when that is not positive. A call with no more input and output than
  // that costs at most the reserved dollars, uses at most the reserved tokens when they fit, and one such call
  // costs and uses exactly as much.
  lemma DecodedFailsClosed(limits: Limits, model: string, length: Length, maxTokens: int64, at: Instant)
    requires length > 0
    ensures var q := EstimateRequest(limits, model, Body(length, Some(maxTokens)), at);
            var inTokens: int := if length < 3 then 1 else length / 3;
            var outTokens: int := if maxTokens > 0 then maxTokens
                                  else if limits.estRequestTokens > 0 then limits.estRequestTokens else 50_000;
            && (inTokens + outTokens <= 0x7FFF_FFFF_FFFF_FFFF ==> q.tokens == inTokens + outTokens)
            && (forall u: Usage |
                  && 0 <= u.input && 0 <= u.output && 0 <= u.cacheCreation && 0 <= u.cacheRead
                  && u.input + u.cacheCreation + u.cacheRead <= inTokens && u.output <= outTokens ::
                  && (inTokens + outTokens <= 0x7FFF_FFFF_FFFF_FFFF ==> u.BillableTokens() <= q.tokens)
                  && (PriceFor(model, at).Some? ==> u.CostUSD(PriceFor(model, at).value) <= q.usd))
            && (PriceFor(model, at).Some? ==> Usage(0, outTokens, inTokens, 0).CostUSD(PriceFor(model, at).value) == q.usd)
  {
    var body := Body(length, Some(maxTokens));
    forall u: Usage | WithinBounds(limits, body, u)
      ensures Fits(TrueEstimate(limits, body)) ==> u.BillableTokens() <= EstimateRequest(limits, model, body, at).tokens
      ensures PriceFor(model, at).Some? ==>
                u.CostUSD(PriceFor(model, at).value) <= EstimateRequest(limits, model, body, at).usd
    {
      TokensWithinReserve(limits, model, body, at, u);
      if PriceFor(model, at).Some? {
        CostWithinReserve(limits, model, body, at, u);
      }
    }
    if PriceFor(model, at).Some? {
      WorstCaseCost(limits, model, body, at);
    }
  }

  // An empty body, or one that does not decode, reserves the fallback as a whole, at the output price.
  lemma FallbackFailsClosed(limits: Limits, model: string, body: Body, at: Instant)
    requires body.length == 0 || body.decoded.None?
    ensures var q := EstimateRequest(limits, model, body, at);
            var tokens: int := if limits.estRequestTokens > 0 then limits.estRequestTokens else 50_000;
            && q.tokens == tokens
            && (forall u: Usage |
                  && 0 <= u.input && 0 <= u.output && 0 <= u.cacheCreation && 0 <= u.cacheRead
                  && u.input + u.output + u.cacheCreation + u.cacheRead <= tokens ::
                  && u.BillableTokens() <= q.tokens
                  && (PriceFor(model, at).Some? ==> u.CostUSD(PriceFor(model, at).value) <= q.usd))
            && (PriceFor(model, at).Some? ==> Usage(0, tokens, 0, 0).CostUSD(PriceFor(model, at).value) == q.usd)
  {
    forall u: Usage | WithinBounds(limits, body, u)
      ensures u.BillableTokens() <= EstimateRequest(limits, model, body, at).tokens
      ensures PriceFor(model, at).Some? ==>
                u.CostUSD(PriceFor(model, at).value) <= EstimateRequest(limits, model, body, at).usd
    {
      TokensWithinReserve(limits, model, body, at, u);
      if PriceFor(model, at).Some? {
        CostWithinReserve(limits, model, body, at, u);
      }
    }
    if PriceFor(model, at).Some? {
      WorstCaseCost(limits, model, body, at);
    }
  }

  // ---- Reserved under one row, recorded under another ----

  // No call inside its bounds costs more, priced when it is recorded, than was reserved.
  ghost predicate Covered(limits: Limits, model: string, body: Body, reservedAt: Instant, recordedAt: Instant)
    requires PriceFor(model, recordedAt).Some?
  {
    forall u: Usage | WithinBounds(limits, body, u) ::
      u.CostUSD(PriceFor(model, recordedAt).value) <= EstimateRequest(limits, model, body, reservedAt).usd
  }

  // The one price rise of the table lies between the two instants.
  predicate PriceRises(model: string, reservedAt: Instant, recordedAt: Instant) {
    model == SONNET && Before(reservedAt, SONNET_INTRO_END) && !Before(recordedAt, SONNET_INTRO_END)
  }

  lemma SonnetRows(at: Instant)
    ensures PriceFor(SONNET, at) == Some(PRICING_TABLE[if Before(at, SONNET_INTRO_END) then 1 else 2])
  {
    PriceCoverage(SONNET, at);
    assert SONNET[7] != OPUS[7] && |SONNET| == 15 && |HAIKU| == 16 && |FABLE| == 14;
    if Before(at, SONNET_INTRO_END) {
      assert Applies(PRICING_TABLE[1], SONNET, at);
    } else {
      assert Applies(PRICING_TABLE[2], SONNET, at);
    }
  }

  // Apart from that rise, no rate of a model is higher later or earlier than it was when the call was reserved.
  lemma RatesDoNotRise(model: string, reservedAt: Instant, recordedAt: Instant)
    requires PriceFor(model, reservedAt).Some? && !PriceRises(model, reservedAt, recordedAt)
    ensures PriceFor(model, recordedAt).Some?
    ensures var was, now := PriceFor(model, reservedAt).value, PriceFor(model, recordedAt).value;
            now.perMTokCacheWrite1h <= was.perMTokCacheWrite1h && now.perMTokOut <= was.perMTokOut
  {
    PriceCoverage(model, reservedAt);
    PriceCoverage(model, recordedAt);
    if model == SONNET {
      SonnetRows(reservedAt);
      SonnetRows(recordedAt);
    } else {
      assert PriceFor(model, reservedAt) == PriceFor(model, recordedAt);
    }
  }

  // A reservation grows with the two rates it is built from.
  lemma ReserveMonotone(limits: Limits, model: string, body: Body, low: Instant, high: Instant)
    requires PriceFor(model, low).Some? && PriceFor(model, high).Some?
    requires PriceFor(model, low).value.perMTokCacheWrite1h <= PriceFor(model, high).value.perMTokCacheWrite1h
    requires PriceFor(model, low).value.perMTokOut <= PriceFor(model, high).value.perMTokOut
    ensures EstimateRequest(limits, model, body, low).usd <= EstimateRequest(limits, model, body, high).usd
  {
    var was, now := PriceFor(model, high).value, PriceFor(model, low).value;
    match Probe(body)
    case Some(maxTokens) =>
      CostMonotone(InputBound(body), InputBound(body), now.perMTokCacheWrite1h, was.perMTokCacheWrite1h);
      CostMonotone(OutputBound(limits, maxTokens), OutputBound(limits, maxTokens), now.perMTokOut, was.perMTokOut);
    case None =>
      CostMonotone(FallbackTokens(limits), FallbackTokens(limits), now.perMTokOut, was.perMTokOut);
  }

  // The dearest call inside the bounds: all input written to the cache, or all of a fallback spent on output.
  function WorstCase(limits: Limits, body: Body): Usage {
    match Probe(body)
    case Some(maxTokens) => Usage(0, OutputBound(limits, maxTokens), InputBound(body), 0)
    case None => Usage(0, FallbackTokens(limits), 0, 0)
  }

  // It costs exactly what would be reserved under the row it is priced by.
  lemma WorstCaseCost(limits: Limits, model: string, body: Body, at: Instant)
    requires PriceFor(model, at).Some?
    ensures WithinBounds(limits, body, WorstCase(limits, body))
    ensures WorstCase(limits, body).CostUSD(PriceFor(model, at).value) == EstimateRequest(limits, model, body, at).usd
  {
    CostParts(WorstCase(limits, body), PriceFor(model, at).value);
  }

  lemma RiseReservesLess(limits: Limits, body: Body, reservedAt: Instant, recordedAt: Instant)
    requires PriceRises(SONNET, reservedAt, recordedAt)
    ensures EstimateRequest(limits, SONNET, body, reservedAt).usd < EstimateRequest(limits, SONNET, body, recordedAt).usd
  {
    SonnetRows(reservedAt);
    SonnetRows(recordedAt);
    var was, now := PRICING_TABLE[1], PRICING_TABLE[2];
    match Probe(body)
    case Some(maxTokens) =>
      DearerCost(InputBound(body), was.perMTokCacheWrite1h, now.perMTokCacheWrite1h);
      DearerCost(OutputBound(limits, maxTokens), was.perMTokOut, now.perMTokOut);
    case None =>
      DearerCost(FallbackTokens(limits), was.perMTokOut, now.perMTokOut);
  }

  lemma DearerCost(tokens: int, low: real, high: real)
    requires tokens > 0 && low < high
    ensures Cost(tokens, low) < Cost(tokens, high)
  {
    assert tokens as real * low < tokens as real * high;
  }

  // Fail closed across two instants: for a priced model, every call inside its bounds costs at most what was
  // reserved exactly when the introductory price of one model did not end in between.
  lemma CoveredIff(limits: Limits, model: string, body: Body, reservedAt: Instant, recordedAt: Instant)
    requires PriceFor(model, reservedAt).Some?
    ensures PriceFor(model, recordedAt).Some?
    ensures Covered(limits, model, body, reservedAt, recordedAt) <==> !PriceRises(model, reservedAt, recordedAt)
  {
    PriceCoverage(model, reservedAt);
    PriceCoverage(model, recordedAt);
    if PriceRises(model, reservedAt, recordedAt) {
      WorstCaseCost(limits, model, body, recordedAt);
      RiseReservesLess(limits, body, reservedAt, recordedAt);
    } else {
      RatesDoNotRise(model, reservedAt, recordedAt);
      ReserveMonotone(limits, model, body, recordedAt, reservedAt);
      forall u: Usage | WithinBounds(limits, body, u)
        ensures u.CostUSD(PriceFor(model, recordedAt).value) <= EstimateRequest(limits, model, body, reservedAt).usd
      {
        CostWithinReserve(limits, model, body, recordedAt, u);
      }
    }
  }

  // A concrete case: reserved on the last introductory day and recorded on the first standard one.
  lemma PriceChangeCostsMore(limits: Limits, body: Body)
    ensures var reservedAt: Instant, recordedAt: Instant := Clock(2026, 8, 31, 0), Clock(2026, 9, 1, 0);
            && PriceFor(SONNET, recordedAt).Some?
            && WithinBounds(limits, body, WorstCase(limits, body))
            && WorstCase(limits, body).CostUSD(PriceFor(SONNET, recordedAt).value)
               > EstimateRequest(limits, SONNET, body, reservedAt).usd
  {
    var reservedAt: Instant, recordedAt: Instant := Clock(2026, 8, 31, 0), Clock(2026, 9, 1, 0);
    PriceCoverage(SONNET, recordedAt);
    WorstCaseCost(limits, SONNET, body, recordedAt);
    RiseReservesLess(limits, body, reservedAt, recordedAt);
  }
}
