/** Safety of the cost governor over whole runs: what completed plus reserved totals can reach. */
module Bounds {
  import opened Wrappers
  import opened Width
  import opened Pricing
  import opened Estimate
  import opened Books

  // ---- Tokens of one task ----

  // Completed plus reserved tokens, added without wrap-around.
  ghost function Exposure(s: State, taskID: string): int {
    Get(s.perTask, taskID, 0) as int + Get(s.perTaskReserved, taskID, 0) as int
  }

  ghost predicate Booked(s: State, id: nat) {
    id != 0 && id in s.reservations
  }

  ghost function TokenCredit(s: State, id: nat, taskID: string): int {
    if Booked(s, id) && s.reservations[id].taskID == taskID then s.reservations[id].tokens else 0
  }

  // By how much a recorded call outgrows the reservation it settles.
  ghost function TokenCharge(s: State, op: Op, taskID: string): int {
    if op.RecordOp? && op.call.taskID == taskID && taskID != ""
    then Max(0, op.call.usage.BillableTokens() - TokenCredit(s, op.id, taskID))
    else 0
  }

  ghost function TokenOverrun(limits: Limits, s: State, ops: seq<Op>, taskID: string): int {
    if ops == [] then 0
    else
      var front := ops[..|ops| - 1];
      TokenOverrun(limits, s, front, taskID) + TokenCharge(Run(limits, s, front), ops[|ops| - 1], taskID)
  }

  // No addition this operation performs leaves the 64-bit range.
  ghost predicate InRange(s: State, op: Op) {
    match op
    case CheckOp(taskID, quote, _) =>
      && 0 <= quote.tokens
      && Fits(Exposure(s, taskID))
      && Fits(Exposure(s, taskID) + quote.tokens)
      && Fits(Get(s.perTaskReserved, taskID, 0) as int + quote.tokens)
    case RecordOp(_, _, call) => Fits(Get(s.perTask, call.taskID, 0) as int + call.usage.BillableTokens())
    case ReleaseOp(_) => true
  }

  ghost predicate RunInRange(limits: Limits, s: State, ops: seq<Op>) {
    ops == []
    || (RunInRange(limits, s, ops[..|ops| - 1]) && InRange(Run(limits, s, ops[..|ops| - 1]), ops[|ops| - 1]))
  }

  // The pools are conserved and none of them has wrapped.
  ghost predicate Exact(s: State) {
    && Conserved(s)
    && (forall id <- s.reservations :: 0 <= s.reservations[id].tokens)
    && (forall taskID: string ::
          Get(s.perTaskReserved, taskID, 0) == OutstandingTokens(s.reservations, s.nextReservationID, taskID))
  }

  lemma {:induction false} OutstandingAtLeast(rs: map<nat, Reservation>, n: nat, id: nat, taskID: string)
    requires forall i <- rs :: 0 <= rs[i].tokens
    ensures 0 <= OutstandingTokens(rs, n, taskID)
    ensures id in rs && 1 <= id <= n && rs[id].taskID == taskID ==> rs[id].tokens <= OutstandingTokens(rs, n, taskID)
  {
    if n > 0 {
      OutstandingAtLeast(rs, n - 1, id, taskID);
    }
  }

  lemma ReleaseExact(s: State, id: nat)
    requires Exact(s)
    ensures Exact(Release(s, id))
    ensures forall taskID: string ::
              Exposure(Release(s, id), taskID) == Exposure(s, taskID) - TokenCredit(s, id, taskID)
  {
    ReleaseConserves(s, id);
    if Booked(s, id) {
      var n, s' := s.nextReservationID, Release(s, id);
      forall taskID: string
        ensures Get(s'.perTaskReserved, taskID, 0) == OutstandingTokens(s'.reservations, n, taskID)
        ensures Exposure(s', taskID) == Exposure(s, taskID) - TokenCredit(s, id, taskID)
      {
        TokensWithout(s.reservations, n, id, taskID);
        OutstandingAtLeast(s.reservations, n, id, taskID);
        OutstandingAtLeast(s'.reservations, n, id, taskID);
      }
    }
  }

  lemma ReserveExact(s: State, r: Reservation)
    requires Exact(s) && 0 <= r.tokens
    requires Fits(Get(s.perTaskReserved, r.taskID, 0) as int + r.tokens)
    ensures Exact(Reserve(s, r))
    ensures forall taskID: string ::
              Exposure(Reserve(s, r), taskID) == Exposure(s, taskID) + (if taskID == r.taskID then r.tokens else 0)
  {
    ReserveConserves(s, r);
    var n, s' := s.nextReservationID, Reserve(s, r);
    SumsBelow(s.reservations, n, n + 1, r);
    forall taskID: string
      ensures Get(s'.perTaskReserved, taskID, 0) == OutstandingTokens(s'.reservations, n + 1, taskID)
    {
      assert OutstandingTokens(s'.reservations, n, taskID) == OutstandingTokens(s.reservations, n, taskID);
    }
  }

  lemma RecordExact(s: State, at: Instant, call: CallRecord)
    requires Exact(s)
    requires Fits(Get(s.perTask, call.taskID, 0) as int + call.usage.BillableTokens())
    ensures Exact(RecordCall(s, at, call))
    ensures forall taskID: string ::
              Exposure(RecordCall(s, at, call), taskID)
              == Exposure(s, taskID) + (if taskID == call.taskID != "" then call.usage.BillableTokens() else 0)
  {
    RecordKeepsPools(s, at, call);
  }

  lemma CheckExposure(limits: Limits, s: State, op: Op, taskID: string)
    requires op.CheckOp? && limits.taskCeiling > 0
    requires Exact(s) && InRange(s, op)
    ensures Exact(Step(limits, s, op))
    ensures Exposure(Step(limits, s, op), taskID) <= Max(limits.taskCeiling, Exposure(s, taskID))
  {
    if Judge(limits, s, op.taskID, op.quote, op.at).Granted? {
      ReserveExact(s, Booking(op.taskID, op.quote, op.at));
    }
  }

  lemma StepExposure(limits: Limits, s: State, op: Op, taskID: string)
    requires limits.taskCeiling > 0
    requires Exact(s) && InRange(s, op)
    ensures Exact(Step(limits, s, op))
    ensures Exposure(Step(limits, s, op), taskID)
            <= Max(limits.taskCeiling, Exposure(s, taskID) + TokenCharge(s, op, taskID))
  {
    match op
    case CheckOp(_, _, _) =>
      CheckExposure(limits, s, op, taskID);
    case RecordOp(id, at, call) =>
      ReleaseExact(s, id);
      RecordExact(Release(s, id), at, call);
    case ReleaseOp(id) =>
      ReleaseExact(s, id);
  }

  // The per-task hard cap: in every state reachable by any interleaving whose additions stay in range,
  // completed plus reserved tokens stay under the ceiling (or the starting total when that is larger),
  // up to the amounts by which recorded calls outgrew their own reservations.
  lemma {:induction false} TaskCeilingHolds(limits: Limits, s: State, ops: seq<Op>, taskID: string)
    requires limits.taskCeiling > 0
    requires Exact(s) && RunInRange(limits, s, ops)
    ensures Exact(Run(limits, s, ops))
    ensures 0 <= TokenOverrun(limits, s, ops, taskID)
    ensures Exposure(Run(limits, s, ops), taskID)
            <= Max(limits.taskCeiling, Exposure(s, taskID)) + TokenOverrun(limits, s, ops, taskID)
  {
    if ops != [] {
      var front := ops[..|ops| - 1];
      TaskCeilingHolds(limits, s, front, taskID);
      StepExposure(limits, Run(limits, s, front), ops[|ops| - 1], taskID);
    }
  }

  // What the range condition is for: a granted request is really under the ceiling exactly when its true
  // projected total does not exceed the largest 64-bit number.
  lemma GrantUnderCeilingIff(limits: Limits, s: State, taskID: string, model: string, body: Body, at: Instant)
    requires limits.taskCeiling > 0
    requires Check(limits, s, taskID, EstimateRequest(limits, model, body, at), at).0.Granted?
    ensures var projected := Exposure(s, taskID) + TrueEstimate(limits, body);
            projected <= limits.taskCeiling <==> projected <= MAX64
  {
  }

  // Fail-closed and no more: in range, a request is granted exactly when no cap would be passed by adding
  // its whole estimate to what is completed and what every other request has reserved.
  lemma GrantedIff(limits: Limits, s: State, taskID: string, q: Quote, at: Instant)
    requires InRange(s, CheckOp(taskID, q, at))
    ensures Check(limits, s, taskID, q, at).0.Granted? <==>
            && (limits.taskCeiling > 0 ==> Exposure(s, taskID) + q.tokens <= limits.taskCeiling)
            && (forall b: Bucket | Falls(at, b) && Budget(limits, b) > 0.0 ::
                  Completed(s, b) + Pool(s, b) + q.usd <= Budget(limits, b))
  {
    var today, thisMonth := DayBucket(DayOf(at)), MonthBucket(MonthOf(at));
    assert Falls(at, today) && Falls(at, thisMonth);
    assert forall b: Bucket | Falls(at, b) :: b == today || b == thisMonth;
  }

  // A refusal names the first cap that the whole estimate would pass, the task's before the day's before the month's;
  // a grant hands out the next id.
  lemma VerdictNames(limits: Limits, s: State, taskID: string, q: Quote, at: Instant)
    requires InRange(s, CheckOp(taskID, q, at))
    ensures var v := Check(limits, s, taskID, q, at).0;
            var overTask := limits.taskCeiling > 0 && Exposure(s, taskID) + q.tokens > limits.taskCeiling;
            var day, month := DayBucket(Day(at.year, at.month, at.day)), MonthBucket(Month(at.year, at.month));
            var overDay := limits.dailyUSD > 0.0 && Completed(s, day) + Pool(s, day) + q.usd > limits.dailyUSD;
            var overMonth := limits.monthlyUSD > 0.0 && Completed(s, month) + Pool(s, month) + q.usd > limits.monthlyUSD;
            && (v == TaskCeiling <==> overTask)
            && (v == DailyBudget <==> !overTask && overDay)
            && (v == MonthlyBudget <==> !overTask && !overDay && overMonth)
            && (v.Granted? <==> !overTask && !overDay && !overMonth)
            && (v.Granted? ==> v.id == s.nextReservationID + 1)
  {
  }

  const SOMETIME: Instant := Clock(2026, 7, 1, 0)

  // Without the range condition the ceiling can be passed with no call recorded at all: one request
  // whose estimate wraps negative makes room for another beyond the ceiling, and is then released.
  lemma {:induction false} WrapBreaksCeiling(limits: Limits)
    requires limits == Limits(0.0, 0.0, 500_000, 50_000)
    ensures var huge := CheckOp("t", EstimateRequest(limits, "", Body(34, Some(MAX64)), SOMETIME), SOMETIME);
            var large := CheckOp("t", EstimateRequest(limits, "", Body(21, Some(600_000)), SOMETIME), SOMETIME);
            && Exposure(Run(limits, EMPTY, [huge, large, ReleaseOp(1)]), "t") == 600_007
            && TokenOverrun(limits, EMPTY, [huge, large, ReleaseOp(1)], "t") == 0
  {
    WrappedEstimates(limits);
    WrappedRun(limits, CheckOp("t", Priced(MIN64 + 10, 0.0), SOMETIME), CheckOp("t", Priced(600_007, 0.0), SOMETIME));
  }

  lemma WrappedEstimates(limits: Limits)
    ensures EstimateRequest(limits, "", Body(34, Some(MAX64)), SOMETIME) == Priced(MIN64 + 10, 0.0)
    ensures EstimateRequest(limits, "", Body(21, Some(600_000)), SOMETIME) == Priced(600_007, 0.0)
  {
    PriceCoverage("", SOMETIME);
  }

  lemma {:induction false} WrappedRun(limits: Limits, huge: Op, large: Op)
    requires limits == Limits(0.0, 0.0, 500_000, 50_000)
    requires huge == CheckOp("t", Priced(MIN64 + 10, 0.0), SOMETIME) && large == CheckOp("t", Priced(600_007, 0.0), SOMETIME)
    ensures Exposure(Run(limits, EMPTY, [huge, large, ReleaseOp(1)]), "t") == 600_007
    ensures TokenOverrun(limits, EMPTY, [huge, large, ReleaseOp(1)], "t") == 0
  {
    TokensOfThree(limits, EMPTY, huge, large, ReleaseOp(1), "t");
    var s1 := Reserve(EMPTY, Booking("t", huge.quote, SOMETIME));
    var s2 := Reserve(s1, Booking("t", large.quote, SOMETIME));
    UncappedGrant(limits, EMPTY, huge);
    UncappedGrant(limits, s1, large);
    RunOfThree(limits, EMPTY, huge, s1, large, s2, ReleaseOp(1), Release(s2, 1));
    TwoReservations(Booking("t", huge.quote, SOMETIME), Booking("t", large.quote, SOMETIME));
  }

  lemma UncappedGrant(limits: Limits, s: State, op: Op)
    requires op.CheckOp? && limits.dailyUSD == limits.monthlyUSD == 0.0
    requires ProjectedTokens(s, op.taskID, op.quote.tokens) <= limits.taskCeiling
    ensures Step(limits, s, op) == Reserve(s, Booking(op.taskID, op.quote, op.at))
  {
  }

  lemma TwoReservations(first: Reservation, second: Reservation)
    requires first.taskID == second.taskID && first.tokens == MIN64 + 10 && second.tokens == 600_007
    ensures Exposure(Release(Reserve(Reserve(EMPTY, first), second), 1), first.taskID) == 600_007
  {
    var s := Reserve(Reserve(EMPTY, first), second);
    assert s.reservations[1] == first;
    assert s.perTaskReserved[first.taskID] == MIN64 + 10 + 600_007;
  }

  // Three steps through named states.
  lemma {:induction false} RunOfThree(limits: Limits, s: State, a: Op, s1: State, b: Op, s2: State, c: Op, s3: State)
    requires s1 == Step(limits, s, a) && s2 == Step(limits, s1, b) && s3 == Step(limits, s2, c)
    ensures Run(limits, s, [a, b]) == s2
    ensures Run(limits, s, [a, b, c]) == s3
  {
    RunAppend(limits, s, [], a);
    RunAppend(limits, s, [a], b);
    RunAppend(limits, s, [a, b], c);
    assert [] + [a] == [a] && [a] + [b] == [a, b] && [a, b] + [c] == [a, b, c];
  }

  lemma {:induction false} RunAppend(limits: Limits, s: State, ops: seq<Op>, op: Op)
    ensures Run(limits, s, ops + [op]) == Step(limits, Run(limits, s, ops), op)
  {
    assert (ops + [op])[..|ops|] == ops;
  }

  lemma {:induction false} TokensOfThree(limits: Limits, s: State, a: Op, b: Op, c: Op, taskID: string)
    requires !a.RecordOp? && !b.RecordOp? && !c.RecordOp?
    ensures TokenOverrun(limits, s, [a, b, c], taskID) == 0
  {
    assert [a][..0] == [] && [a, b][..1] == [a] && [a, b, c][..2] == [a, b];
    assert TokenOverrun(limits, s, [a], taskID) == 0;
    assert TokenOverrun(limits, s, [a, b], taskID) == 0;
  }

  // ---- Dollars of one day or month ----

  ghost function Completed(s: State, b: Bucket): real {
    match b
    case DayBucket(day) => Get(s.daily, day, EMPTY_DAY).usd
    case MonthBucket(month) => Get(s.monthly, month, 0.0)
  }

  ghost function Budget(limits: Limits, b: Bucket): real {
    if b.DayBucket? then limits.dailyUSD else limits.monthlyUSD
  }

  ghost predicate Falls(at: Instant, b: Bucket) {
    match b
    case DayBucket(day) => DayOf(at) == day
    case MonthBucket(month) => MonthOf(at) == month
  }

  ghost predicate ReservedIn(s: State, id: nat, b: Bucket) {
    Booked(s, id)
    && match b
       case DayBucket(day) => s.reservations[id].day == day
       case MonthBucket(month) => s.reservations[id].month == month
  }

  // Recorded in the bucket its reservation was booked in: only the excess over the reservation counts.
  ghost function OverrunCharge(s: State, op: Op, b: Bucket): real {
    if op.RecordOp? && Falls(op.at, b) && ReservedIn(s, op.id, b)
    then MaxReal(0.0, op.call.usd - s.reservations[op.id].usd)
    else 0.0
  }

  // Recorded in another bucket than its reservation's: the whole cost carries over.
  ghost function CarryCharge(s: State, op: Op, b: Bucket): real {
    if op.RecordOp? && Falls(op.at, b) && !ReservedIn(s, op.id, b) then MaxReal(0.0, op.call.usd) else 0.0
  }

  ghost function Overrun(limits: Limits, s: State, ops: seq<Op>, b: Bucket): real {
    if ops == [] then 0.0
    else
      var front := ops[..|ops| - 1];
      Overrun(limits, s, front, b) + OverrunCharge(Run(limits, s, front), ops[|ops| - 1], b)
  }

  ghost function Carry(limits: Limits, s: State, ops: seq<Op>, b: Bucket): real {
    if ops == [] then 0.0
    else
      var front := ops[..|ops| - 1];
      Carry(limits, s, front, b) + CarryCharge(Run(limits, s, front), ops[|ops| - 1], b)
  }

  ghost predicate ReservedNonNegative(s: State) {
    forall id <- s.reservations :: 0.0 <= s.reservations[id].usd
  }

  lemma ReservePool(s: State, r: Reservation, b: Bucket)
    ensures Pool(Reserve(s, r), b) == Pool(s, b) + Share(r, b)
    ensures Completed(Reserve(s, r), b) == Completed(s, b)
  {
  }

  lemma ReleasePool(s: State, id: nat, b: Bucket)
    ensures Pool(Release(s, id), b) == Pool(s, b) - (if Booked(s, id) then Share(s.reservations[id], b) else 0.0)
    ensures Completed(Release(s, id), b) == Completed(s, b)
  {
  }

  lemma RecordCompleted(s: State, at: Instant, call: CallRecord, b: Bucket)
    ensures Pool(RecordCall(s, at, call), b) == Pool(s, b)
    ensures Completed(RecordCall(s, at, call), b) == Completed(s, b) + (if Falls(at, b) then call.usd else 0.0)
  {
  }

  lemma CheckSpend(limits: Limits, s: State, op: Op, b: Bucket)
    requires op.CheckOp? && Budget(limits, b) > 0.0
    ensures Completed(Step(limits, s, op), b) + Pool(Step(limits, s, op), b)
            <= MaxReal(Budget(limits, b), Completed(s, b) + Pool(s, b))
  {
    if Judge(limits, s, op.taskID, op.quote, op.at).Granted? {
      ReservePool(s, Booking(op.taskID, op.quote, op.at), b);
    }
  }

  lemma ReleaseSpend(s: State, id: nat, b: Bucket)
    requires ReservedNonNegative(s)
    ensures ReservedNonNegative(Release(s, id))
    ensures Completed(Release(s, id), b) + Pool(Release(s, id), b) <= Completed(s, b) + Pool(s, b)
  {
    ReleasePool(s, id, b);
  }

  lemma RecordSpend(limits: Limits, s: State, op: Op, b: Bucket)
    requires op.RecordOp? && ReservedNonNegative(s)
    ensures ReservedNonNegative(Step(limits, s, op))
    ensures Completed(Step(limits, s, op), b) + Pool(Step(limits, s, op), b)
            <= Completed(s, b) + Pool(s, b) + OverrunCharge(s, op, b) + CarryCharge(s, op, b)
  {
    ReleasePool(s, op.id, b);
    RecordCompleted(Release(s, op.id), op.at, op.call, b);
  }

  lemma StepSpend(limits: Limits, s: State, op: Op, b: Bucket)
    requires Budget(limits, b) > 0.0
    requires ReservedNonNegative(s)
    ensures ReservedNonNegative(Step(limits, s, op))
    ensures Completed(Step(limits, s, op), b) + Pool(Step(limits, s, op), b)
            <= MaxReal(Budget(limits, b), Completed(s, b) + Pool(s, b) + OverrunCharge(s, op, b) + CarryCharge(s, op, b))
  {
    match op
    case CheckOp(_, _, _) =>
      CheckSpend(limits, s, op, b);
    case RecordOp(_, _, _) =>
      RecordSpend(limits, s, op, b);
    case ReleaseOp(id) =>
      ReleaseSpend(s, id, b);
  }

  // The daily and the monthly hard cap, with no condition on the size of the numbers: completed plus
  // reserved dollars of any day or month stay under its budget (or the starting total), up to the excess
  // of calls over their reservations and the whole cost of calls recorded in another day or month.
  lemma {:induction false} BudgetHolds(limits: Limits, s: State, ops: seq<Op>, b: Bucket)
    requires Budget(limits, b) > 0.0
    requires ReservedNonNegative(s)
    ensures ReservedNonNegative(Run(limits, s, ops))
    ensures 0.0 <= Overrun(limits, s, ops, b) && 0.0 <= Carry(limits, s, ops, b)
    ensures Completed(Run(limits, s, ops), b) + Pool(Run(limits, s, ops), b)
            <= MaxReal(Budget(limits, b), Completed(s, b) + Pool(s, b)) + Overrun(limits, s, ops, b) + Carry(limits, s, ops, b)
  {
    if ops != [] {
      var front := ops[..|ops| - 1];
      BudgetHolds(limits, s, front, b);
      StepSpend(limits, Run(limits, s, front), ops[|ops| - 1], b);
    }
  }

  // The carry term is needed: a call reserved just before midnight and recorded just after it takes the
  // new day over budget although it cost exactly what was reserved.
  lemma {:induction false} MidnightCarry(limits: Limits, call: CallRecord, today: Bucket)
    requires limits == Limits(10.0, 150.0, 0, 240_000) && call.usd == 6.0 && today == DayBucket(Day(2026, 7, 2))
    ensures var quote := EstimateRequest(limits, OPUS, Body(44, None), Clock(2026, 7, 1, 0));
            var ops := [CheckOp("a", quote, Clock(2026, 7, 1, 0)),
                        CheckOp("b", quote, Clock(2026, 7, 2, 0)),
                        RecordOp(1, Clock(2026, 7, 2, 0), call)];
            var s := Run(limits, EMPTY, ops);
            && quote.usd == 6.0
            && Completed(s, today) + Pool(s, today) == 12.0
            && Overrun(limits, EMPTY, ops, today) == 0.0
            && Carry(limits, EMPTY, ops, today) == 6.0
  {
    var before: Instant, after: Instant := Clock(2026, 7, 1, 0), Clock(2026, 7, 2, 0);
    var quote := Priced(240_000, 6.0);
    assert PriceFor(OPUS, before) == Some(PRICING_TABLE[0]);
    assert quote == EstimateRequest(limits, OPUS, Body(44, None), before);
    var a, b, c := CheckOp("a", quote, before), CheckOp("b", quote, after), RecordOp(1, after, call);
    var s1 := Reserve(EMPTY, Booking("a", quote, before));
    var s2 := Reserve(s1, Booking("b", quote, after));
    RunOfThree(limits, EMPTY, a, s1, b, s2, c, RecordUsage(s2, 1, after, call));
    ChargesOfThree(limits, EMPTY, a, b, c, today);
    ReservePool(EMPTY, Booking("a", quote, before), today);
    ReservePool(s1, Booking("b", quote, after), today);
    ReleasePool(s2, 1, today);
    RecordCompleted(Release(s2, 1), after, call, today);
  }

  lemma {:induction false} ChargesOfThree(limits: Limits, s: State, a: Op, b: Op, c: Op, bucket: Bucket)
    requires a.CheckOp? && b.CheckOp?
    ensures Overrun(limits, s, [a, b, c], bucket) == OverrunCharge(Run(limits, s, [a, b]), c, bucket)
    ensures Carry(limits, s, [a, b, c], bucket) == CarryCharge(Run(limits, s, [a, b]), c, bucket)
  {
    assert [a][..0] == [] && [a, b][..1] == [a] && [a, b, c][..2] == [a, b];
    assert Overrun(limits, s, [a], bucket) == 0.0 && Carry(limits, s, [a], bucket) == 0.0;
    assert Overrun(limits, s, [a, b], bucket) == 0.0 && Carry(limits, s, [a, b], bucket) == 0.0;
  }
}
