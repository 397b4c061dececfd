/** The dated pricing table and the price of one call (kahyad/internal/anthproxy/usage.go).
    Dollars are reals; instants are UTC calendar instants. */
module Pricing {
  import opened Wrappers
  import opened Width

  datatype Clock = Clock(year: int, month: int, day: int, nanos: nat)

  // An instant of the UTC calendar.
  type Instant = c: Clock | 1 <= c.month <= 12 && 1 <= c.day <= 31 witness Clock(1, 1, 1, 0)

  datatype Day = Day(year: int, month: int, day: int)
  datatype Month = Month(year: int, month: int)

  function DayOf(at: Instant): Day {
    Day(at.year, at.month, at.day)
  }

  function MonthOf(at: Instant): Month {
    Month(at.year, at.month)
  }

  predicate Before(a: Instant, b: Instant) {
    || a.year < b.year
    || (a.year == b.year && a.month < b.month)
    || (a.year == b.year && a.month == b.month && a.day < b.day)
    || (a.year == b.year && a.month == b.month && a.day == b.day && a.nanos < b.nanos)
  }

  // Instants are in one line, and an earlier year, month or day decides whatever follows it.
  lemma BeforeIsOrder(a: Instant, b: Instant, c: Instant)
    ensures a == b <==> !Before(a, b) && !Before(b, a)
    ensures !(Before(a, b) && Before(b, a))
    ensures Before(a, b) && Before(b, c) ==> Before(a, c)
    ensures a.year < b.year || (a.year == b.year && a.month < b.month) ==> Before(a, b)
    ensures a.year == b.year && a.month == b.month && a.day < b.day ==> Before(a, b)
  {
  }

  // Token usage of one call, as parsed from the response.
  datatype Usage = Usage(input: int64, output: int64, cacheCreation: int64, cacheRead: int64)
  {
    // Contribution to the per-task ceiling: cache reads are free.
    function BillableTokens(): int64 {
      Add64(Add64(input, output), cacheCreation)
    }

    function CostUSD(row: PriceRow): real {
      input as real * row.perMTokIn / 1_000_000.0
      + output as real * row.perMTokOut / 1_000_000.0
      + cacheRead as real * row.perMTokCacheRead / 1_000_000.0
      + cacheCreation as real * row.perMTokCacheWrite1h / 1_000_000.0
    }
  }

  // A missing bound is the source's zero time: from is inclusive, until exclusive.
  datatype PriceRow = PriceRow(
    model: string,
    from: Option<Instant>,
    until: Option<Instant>,
    perMTokIn: real,
    perMTokOut: real,
    perMTokCacheRead: real,
    perMTokCacheWrite1h: real)

  function MakeRow(model: string, from: Option<Instant>, until: Option<Instant>, inRate: real, outRate: real): PriceRow {
    PriceRow(model, from, until, inRate, outRate, inRate * 0.1, inRate * 2.0)
  }

  const OPUS := "claude-opus-4-8"
  const SONNET := "claude-sonnet-5"
  const HAIKU := "claude-haiku-4-5"
  const FABLE := "claude-fable-5"

  const SONNET_INTRO_END: Instant := Clock(2026, 9, 1, 0)

  const PRICING_TABLE: seq<PriceRow> := [
    MakeRow(OPUS, None, None, 5.0, 25.0),
    MakeRow(SONNET, None, Some(SONNET_INTRO_END), 2.0, 10.0),
    MakeRow(SONNET, Some(SONNET_INTRO_END), None, 3.0, 15.0),
    MakeRow(HAIKU, None, None, 1.0, 5.0),
    MakeRow(FABLE, None, None, 10.0, 50.0)
  ]

  predicate Applies(row: PriceRow, model: string, at: Instant) {
    && row.model == model
    && (row.from.Some? ==> !Before(at, row.from.value))
    && (row.until.Some? ==> Before(at, row.until.value))
  }

  // The first row of the table that applies.
  function FindRow(rows: seq<PriceRow>, model: string, at: Instant): (r: Option<PriceRow>)
    ensures r.Some? ==> r.value in rows && Applies(r.value, model, at)
    ensures r.None? ==> forall row <- rows :: !Applies(row, model, at)
  {
    if rows == [] then None
    else if Applies(rows[0], model, at) then Some(rows[0])
    else FindRow(rows[1..], model, at)
  }

  function PriceFor(model: string, at: Instant): (r: Option<PriceRow>)
    ensures r.Some? ==> 0.0 < r.value.perMTokCacheWrite1h && 0.0 < r.value.perMTokOut
  {
    FindRow(PRICING_TABLE, model, at)
  }

  // The dated rows of every listed model cover every instant exactly once, and no other model is priced.
  lemma PriceCoverage(model: string, at: Instant)
    ensures PriceFor(model, at).Some? <==> model in {OPUS, SONNET, HAIKU, FABLE}
    ensures forall i, j | 0 <= i < |PRICING_TABLE| && 0 <= j < |PRICING_TABLE| ::
              Applies(PRICING_TABLE[i], model, at) && Applies(PRICING_TABLE[j], model, at) ==> i == j
  {
    assert |OPUS| == 15 && |SONNET| == 15 && |HAIKU| == 16 && |FABLE| == 14;
    assert OPUS[7] == 'o' && SONNET[7] == 's';
    var t := PRICING_TABLE;
    assert t[0].model == OPUS && t[1].model == SONNET && t[2].model == SONNET && t[3].model == HAIKU && t[4].model == FABLE;
    if model == OPUS {
      assert Applies(t[0], model, at);
    } else if model == SONNET {
      assert if Before(at, SONNET_INTRO_END) then Applies(t[1], model, at) else Applies(t[2], model, at);
    } else if model == HAIKU {
      assert Applies(t[3], model, at);
    } else if model == FABLE {
      assert Applies(t[4], model, at);
    }
  }

  // What every row of the table guarantees: the two input-side surcharges stay below the output rate.
  lemma RateOrder(model: string, at: Instant)
    requires PriceFor(model, at).Some?
    ensures var row := PriceFor(model, at).value;
            0.0 < row.perMTokCacheRead <= row.perMTokIn <= row.perMTokCacheWrite1h <= row.perMTokOut
  {
  }
}
