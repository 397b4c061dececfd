/** The cost governor's books as values: completed totals, outstanding reservations and the pools
    that cache their sums (kahyad/internal/anthproxy/governor.go). The class Governor updates the
    same books in place; every property of runs is proved here. */
module Books {
  import opened Wrappers
  import opened Width
  import opened Pricing
  import opened Estimate

  datatype DailyAgg = DailyAgg(usd: real, calls: nat, inputTokens: int64, cacheReadTokens: int64)

  const EMPTY_DAY := DailyAgg(0.0, 0, 0, 0)

  datatype Reservation = Reservation(taskID: string, tokens: int64, usd: real, day: Day, month: Month)

  // What the ledger keeps of one completed call; usage carries its four token counts.
  datatype CallRecord = CallRecord(taskID: string, usage: Usage, usd: real)

  datatype State = State(
    perTask: map<string, int64>,
    daily: map<Day, DailyAgg>,
    monthly: map<Month, real>,
    nextReservationID: nat,
    reservations: map<nat, Reservation>,
    perTaskReserved: map<string, int64>,
    dailyReserved: map<Day, real>,
    monthlyReserved: map<Month, real>)

  const EMPTY := State(map[], map[], map[], 0, map[], map[], map[], map[])

  datatype Verdict = Granted(id: nat) | TaskCeiling | DailyBudget | MonthlyBudget

  // ---- The three operations ----

  function Reserve(s: State, r: Reservation): State {
    s.(nextReservationID := s.nextReservationID + 1,
       reservations := s.reservations[s.nextReservationID + 1 := r],
       perTaskReserved := s.perTaskReserved[r.taskID := Add64(Get(s.perTaskReserved, r.taskID, 0), r.tokens)],
       dailyReserved := s.dailyReserved[r.day := Get(s.dailyReserved, r.day, 0.0) + r.usd],
       monthlyReserved := s.monthlyReserved[r.month := Get(s.monthlyReserved, r.month, 0.0) + r.usd])
  }

  function Release(s: State, id: nat): State {
    if id == 0 || id !in s.reservations then s
    else
      var r := s.reservations[id];
      s.(reservations := s.reservations - {id},
         perTaskReserved := s.perTaskReserved[r.taskID := Sub64(Get(s.perTaskReserved, r.taskID, 0), r.tokens)],
         dailyReserved := s.dailyReserved[r.day := Get(s.dailyReserved, r.day, 0.0) - r.usd],
         monthlyReserved := s.monthlyReserved[r.month := Get(s.monthlyReserved, r.month, 0.0) - r.usd])
  }

  function AddCall(agg: DailyAgg, r: CallRecord): DailyAgg {
    DailyAgg(agg.usd + r.usd, agg.calls + 1,
             Add64(agg.inputTokens, r.usage.input), Add64(agg.cacheReadTokens, r.usage.cacheRead))
  }

  function AddTokens(m: map<string, int64>, r: CallRecord): map<string, int64> {
    if r.taskID == "" then m else m[r.taskID := Add64(Get(m, r.taskID, 0), r.usage.BillableTokens())]
  }

  function AddDay(m: map<Day, DailyAgg>, day: Day, r: CallRecord): map<Day, DailyAgg> {
    m[day := AddCall(Get(m, day, EMPTY_DAY), r)]
  }

  function AddMonth(m: map<Month, real>, month: Month, r: CallRecord): map<Month, real> {
    m[month := Get(m, month, 0.0) + r.usd]
  }

  function RecordCall(s: State, at: Instant, r: CallRecord): State {
    s.(perTask := AddTokens(s.perTask, r),
       daily := AddDay(s.daily, DayOf(at), r),
       monthly := AddMonth(s.monthly, MonthOf(at), r))
  }

  function RecordUsage(s: State, id: nat, at: Instant, r: CallRecord): State {
    RecordCall(Release(s, id), at, r)
  }

  // The sums a request must stay under, each as the source computes it.
  function ProjectedTokens(s: State, taskID: string, tokens: int64): int64 {
    Add64(Add64(Get(s.perTask, taskID, 0), Get(s.perTaskReserved, taskID, 0)), tokens)
  }

  function Judge(limits: Limits, s: State, taskID: string, q: Quote, at: Instant): Verdict {
    var day, month := DayOf(at), MonthOf(at);
    if limits.taskCeiling > 0 && ProjectedTokens(s, taskID, q.tokens) > limits.taskCeiling then TaskCeiling
    else if limits.dailyUSD > 0.0
            && Get(s.daily, day, EMPTY_DAY).usd + Get(s.dailyReserved, day, 0.0) + q.usd > limits.dailyUSD then DailyBudget
    else if limits.monthlyUSD > 0.0
            && Get(s.monthly, month, 0.0) + Get(s.monthlyReserved, month, 0.0) + q.usd > limits.monthlyUSD then MonthlyBudget
    else Granted(s.nextReservationID + 1)
  }

  function Booking(taskID: string, q: Quote, at: Instant): Reservation {
    Reservation(taskID, q.tokens, q.usd, DayOf(at), MonthOf(at))
  }

  // The atomic check-and-reserve, for a request whose estimate is q.
  function Check(limits: Limits, s: State, taskID: string, q: Quote, at: Instant): (Verdict, State) {
    var v := Judge(limits, s, taskID, q, at);
    (v, if v.Granted? then Reserve(s, Booking(taskID, q, at)) else s)
  }

  // ---- Runs: any interleaving of the three operations under the governor's lock ----

  datatype Op =
    | CheckOp(taskID: string, quote: Quote, at: Instant)
    | RecordOp(id: nat, at: Instant, call: CallRecord)
    | ReleaseOp(id: nat)

  function Step(limits: Limits, s: State, op: Op): State {
    match op
    case CheckOp(taskID, quote, at) => Check(limits, s, taskID, quote, at).1
    case RecordOp(id, at, call) => RecordUsage(s, id, at, call)
    case ReleaseOp(id) => Release(s, id)
  }

  function Run(limits: Limits, s: State, ops: seq<Op>): State {
    if ops == [] then s
    else Step(limits, Run(limits, s, ops[..|ops| - 1]), ops[|ops| - 1])
  }

  // ---- Reservation conservation ----

  // Outstanding tokens of one task over the reservation ids 1..n.
  ghost function OutstandingTokens(rs: map<nat, Reservation>, n: nat, taskID: string): int {
    if n == 0 then 0
    else OutstandingTokens(rs, n - 1, taskID) + (if n in rs && rs[n].taskID == taskID then rs[n].tokens else 0)
  }

  // A calendar bucket of the dollar books: a day or a month.
  datatype Bucket = DayBucket(day: Day) | MonthBucket(month: Month)

  ghost function Share(r: Reservation, b: Bucket): real {
    match b
    case DayBucket(day) => if r.day == day then r.usd else 0.0
    case MonthBucket(month) => if r.month == month then r.usd else 0.0
  }

  ghost function OutstandingUSD(rs: map<nat, Reservation>, n: nat, b: Bucket): real {
    if n == 0 then 0.0
    else OutstandingUSD(rs, n - 1, b) + (if n in rs then Share(rs[n], b) else 0.0)
  }

  ghost function Pool(s: State, b: Bucket): real {
    match b
    case DayBucket(day) => Get(s.dailyReserved, day, 0.0)
    case MonthBucket(month) => Get(s.monthlyReserved, month, 0.0)
  }

  // Every pool is the sum of what is outstanding (the token pools as 64-bit registers hold it), and every
  // outstanding id was handed out.
  ghost predicate Conserved(s: State) {
    && (forall id <- s.reservations :: 1 <= id <= s.nextReservationID)
    && (forall taskID: string ::
          Get(s.perTaskReserved, taskID, 0) == Wrap(OutstandingTokens(s.reservations, s.nextReservationID, taskID)))
    && (forall b: Bucket :: Pool(s, b) == OutstandingUSD(s.reservations, s.nextReservationID, b))
  }

  lemma {:induction false} TokensWithout(rs: map<nat, Reservation>, n: nat, id: nat, taskID: string)
    requires id in rs
    ensures OutstandingTokens(rs - {id}, n, taskID)
            == OutstandingTokens(rs, n, taskID) - (if 1 <= id <= n && rs[id].taskID == taskID then rs[id].tokens else 0)
  {
    if n > 0 {
      TokensWithout(rs, n - 1, id, taskID);
    }
  }

  lemma {:induction false} USDWithout(rs: map<nat, Reservation>, n: nat, id: nat, b: Bucket)
    requires id in rs
    ensures OutstandingUSD(rs - {id}, n, b)
            == OutstandingUSD(rs, n, b) - (if 1 <= id <= n then Share(rs[id], b) else 0.0)
  {
    if n > 0 {
      USDWithout(rs, n - 1, id, b);
    }
  }

  // Adding an id above n leaves the sums over 1..n alone.
  lemma {:induction false} SumsBelow(rs: map<nat, Reservation>, n: nat, id: nat, r: Reservation)
    requires id > n
    ensures forall taskID: string :: OutstandingTokens(rs[id := r], n, taskID) == OutstandingTokens(rs, n, taskID)
    ensures forall b: Bucket :: OutstandingUSD(rs[id := r], n, b) == OutstandingUSD(rs, n, b)
  {
    if n > 0 {
      SumsBelow(rs, n - 1, id, r);
    }
  }

  lemma ReserveConserves(s: State, r: Reservation)
    requires Conserved(s)
    ensures Conserved(Reserve(s, r))
  {
    var n := s.nextReservationID;
    SumsBelow(s.reservations, n, n + 1, r);
    var s' := Reserve(s, r);
    forall taskID: string
      ensures Get(s'.perTaskReserved, taskID, 0) == Wrap(OutstandingTokens(s'.reservations, n + 1, taskID))
    {
      WrapFold(OutstandingTokens(s.reservations, n, taskID), r.tokens);
    }
    forall b: Bucket ensures Pool(s', b) == OutstandingUSD(s'.reservations, n + 1, b) {
      assert Pool(s, b) == OutstandingUSD(s.reservations, n, b);
    }
  }

  lemma ReleaseConserves(s: State, id: nat)
    requires Conserved(s)
    ensures Conserved(Release(s, id))
  {
    if id in s.reservations && id != 0 {
      var n, r, s' := s.nextReservationID, s.reservations[id], Release(s, id);
      forall taskID: string
        ensures Get(s'.perTaskReserved, taskID, 0) == Wrap(OutstandingTokens(s'.reservations, n, taskID))
      {
        TokensWithout(s.reservations, n, id, taskID);
        WrapFold(OutstandingTokens(s.reservations, n, taskID), -(r.tokens as int));
      }
      forall b: Bucket ensures Pool(s', b) == OutstandingUSD(s'.reservations, n, b) {
        USDWithout(s.reservations, n, id, b);
      }
    }
  }

  lemma RecordKeepsPools(s: State, at: Instant, call: CallRecord)
    requires Conserved(s)
    ensures Conserved(RecordCall(s, at, call))
  {
    var s' := RecordCall(s, at, call);
    assert forall b: Bucket :: Pool(s', b) == Pool(s, b);
  }

  lemma StepConserves(limits: Limits, s: State, op: Op)
    requires Conserved(s)
    ensures Conserved(Step(limits, s, op))
  {
    match op
    case CheckOp(taskID, quote, at) =>
      ReserveConserves(s, Booking(taskID, quote, at));
    case RecordOp(id, at, call) =>
      ReleaseConserves(s, id);
      RecordKeepsPools(Release(s, id), at, call);
    case ReleaseOp(id) =>
      ReleaseConserves(s, id);
  }

  // Every pool equals the sum of the outstanding reservations in every reachable state, however the
  // operations interleave, also when token sums wrap.
  lemma {:induction false} RunConserves(limits: Limits, s: State, ops: seq<Op>)
    requires Conserved(s)
    ensures Conserved(Run(limits, s, ops))
  {
    if ops != [] {
      RunConserves(limits, s, ops[..|ops| - 1]);
      StepConserves(limits, Run(limits, s, ops[..|ops| - 1]), ops[|ops| - 1]);
    }
  }

  lemma {:induction false} NothingOutstanding(n: nat)
    ensures forall taskID: string :: OutstandingTokens(map[], n, taskID) == 0
    ensures forall b: Bucket :: OutstandingUSD(map[], n, b) == 0.0
  {
    if n > 0 {
      NothingOutstanding(n - 1);
    }
  }

  // With nothing outstanding every pool is back to zero.
  lemma PoolsDrain(s: State)
    requires Conserved(s)
    requires s.reservations == map[]
    ensures forall taskID: string :: Get(s.perTaskReserved, taskID, 0) == 0
    ensures forall day: Day :: Get(s.dailyReserved, day, 0.0) == 0.0
    ensures forall month: Month :: Get(s.monthlyReserved, month, 0.0) == 0.0
  {
    NothingOutstanding(s.nextReservationID);
    forall day: Day ensures Get(s.dailyReserved, day, 0.0) == 0.0 {
      assert Pool(s, DayBucket(day)) == 0.0;
    }
    forall month: Month ensures Get(s.monthlyReserved, month, 0.0) == 0.0 {
      assert Pool(s, MonthBucket(month)) == 0.0;
    }
  }

  // A released id stays released: no later operation brings it back, so no second release can act.
  lemma {:induction false} ReleasedForever(limits: Limits, s: State, ops: seq<Op>, id: nat)
    requires id <= s.nextReservationID && id !in s.reservations
    ensures id <= Run(limits, s, ops).nextReservationID && id !in Run(limits, s, ops).reservations
    ensures Release(Run(limits, s, ops), id) == Run(limits, s, ops)
  {
    if ops != [] {
      ReleasedForever(limits, s, ops[..|ops| - 1], id);
    }
  }
}
