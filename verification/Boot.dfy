/** Boot replay of the ledger against the live governor (kahyad/internal/anthproxy/governor.go, Boot). */
module Boot {
  import opened Wrappers
  import opened Width
  import opened Pricing
  import opened Estimate
  import opened Books
  import opened Bounds

  // One model_call row of the ledger: when it was recorded, and what it recorded.
  datatype BootEvent = BootEvent(at: Instant, call: CallRecord)

  function Replay(s: State, events: seq<BootEvent>): State {
    if events == [] then s
    else
      var last := events[|events| - 1];
      RecordCall(Replay(s, events[..|events| - 1]), last.at, last.call)
  }

  // What Boot promises to rebuild; the reservation pools start empty.
  datatype Totals = Totals(perTask: map<string, int64>, daily: map<Day, DailyAgg>, monthly: map<Month, real>)

  ghost function TotalsOf(s: State): Totals {
    Totals(s.perTask, s.daily, s.monthly)
  }

  // The ledger rows a run of the live governor writes.
  ghost function Recorded(ops: seq<Op>): seq<BootEvent> {
    if ops == [] then []
    else
      var op := ops[|ops| - 1];
      Recorded(ops[..|ops| - 1]) + (if op.RecordOp? then [BootEvent(op.at, op.call)] else [])
  }

  lemma FoldCommutes(p: int64, a: int64, b: int64)
    ensures Add64(Add64(p, a), b) == Add64(Add64(p, b), a)
  {
  }

  lemma AddCallCommutes(agg: DailyAgg, a: CallRecord, b: CallRecord)
    ensures AddCall(AddCall(agg, a), b) == AddCall(AddCall(agg, b), a)
  {
    FoldCommutes(agg.inputTokens, a.usage.input, b.usage.input);
    FoldCommutes(agg.cacheReadTokens, a.usage.cacheRead, b.usage.cacheRead);
  }

  lemma TokensCommute(m: map<string, int64>, a: CallRecord, b: CallRecord)
    ensures AddTokens(AddTokens(m, a), b) == AddTokens(AddTokens(m, b), a)
  {
    FoldCommutes(Get(m, a.taskID, 0), a.usage.BillableTokens(), b.usage.BillableTokens());
  }

  lemma DaysCommute(m: map<Day, DailyAgg>, d: Day, a: CallRecord, e: Day, b: CallRecord)
    ensures AddDay(AddDay(m, d, a), e, b) == AddDay(AddDay(m, e, b), d, a)
  {
    AddCallCommutes(Get(m, d, EMPTY_DAY), a, b);
  }

  lemma MonthsCommute(m: map<Month, real>, d: Month, a: CallRecord, e: Month, b: CallRecord)
    ensures AddMonth(AddMonth(m, d, a), e, b) == AddMonth(AddMonth(m, e, b), d, a)
  {
  }

  // Two recorded calls may be replayed in either order.
  lemma RecordCommutes(s: State, x: BootEvent, y: BootEvent)
    ensures RecordCall(RecordCall(s, x.at, x.call), y.at, y.call)
            == RecordCall(RecordCall(s, y.at, y.call), x.at, x.call)
  {
    TokensCommute(s.perTask, x.call, y.call);
    DaysCommute(s.daily, DayOf(x.at), x.call, DayOf(y.at), y.call);
    MonthsCommute(s.monthly, MonthOf(x.at), x.call, MonthOf(y.at), y.call);
  }

  lemma {:induction false} ReplayLast(s: State, front: seq<BootEvent>, x: BootEvent)
    ensures Replay(s, front + [x]) == RecordCall(Replay(s, front), x.at, x.call)
  {
    assert (front + [x])[..|front|] == front;
  }

  // An event may be moved to the end of the replay.
  lemma {:induction false} MoveToEnd(s: State, a: seq<BootEvent>, x: BootEvent, b: seq<BootEvent>)
    ensures Replay(s, a + [x] + b) == Replay(s, a + b + [x])
    decreases |b|
  {
    if b == [] {
      assert a + [x] + b == a + b + [x];
    } else {
      var front, y := b[..|b| - 1], b[|b| - 1];
      assert a + [x] + b == (a + [x] + front) + [y];
      assert a + b == (a + front) + [y];
      ReplayLast(s, a + [x] + front, y);
      MoveToEnd(s, a, x, front);
      ReplayLast(s, a + front, x);
      RecordCommutes(Replay(s, a + front), x, y);
      ReplayLast(s, a + front, y);
      ReplayLast(s, a + b, x);
    }
  }

  lemma Around(ys: seq<BootEvent>, x: BootEvent) returns (a: seq<BootEvent>, b: seq<BootEvent>)
    requires x in ys
    ensures ys == a + [x] + b
    ensures multiset(ys) == multiset(a + b) + multiset{x}
  {
    var i :| 0 <= i < |ys| && ys[i] == x;
    a, b := ys[..i], ys[i + 1..];
    assert ys == a + [x] + b;
  }

  // Replay is independent of the order of the events.
  lemma {:induction false} ReplayAnyOrder(s: State, xs: seq<BootEvent>, ys: seq<BootEvent>)
    requires multiset(xs) == multiset(ys)
    ensures Replay(s, xs) == Replay(s, ys)
    decreases |xs|
  {
    if xs == [] {
      assert |multiset(ys)| == 0;
    } else {
      var front, x := xs[..|xs| - 1], xs[|xs| - 1];
      assert xs == front + [x];
      assert multiset(xs) == multiset(front) + multiset{x};
      assert x in multiset(ys);
      var a, b := Around(ys, x);
      assert multiset(front) == multiset(xs) - multiset{x};
      assert multiset(a + b) == multiset(ys) - multiset{x};
      ReplayAnyOrder(s, front, a + b);
      ReplayLast(s, front, x);
      ReplayLast(s, a + b, x);
      MoveToEnd(s, a, x, b);
    }
  }

  lemma {:induction false} ReplayAppend(s: State, xs: seq<BootEvent>, ys: seq<BootEvent>)
    ensures Replay(s, xs + ys) == Replay(Replay(s, xs), ys)
    decreases |ys|
  {
    if ys == [] {
      assert xs + ys == xs;
    } else {
      var front, y := ys[..|ys| - 1], ys[|ys| - 1];
      assert xs + ys == (xs + front) + [y];
      ReplayLast(s, xs + front, y);
      ReplayAppend(s, xs, front);
    }
  }

  lemma RecordTotals(s: State, t: State, at: Instant, call: CallRecord)
    requires TotalsOf(s) == TotalsOf(t)
    ensures TotalsOf(RecordCall(s, at, call)) == TotalsOf(RecordCall(t, at, call))
  {
  }

  lemma {:induction false} RunTotals(limits: Limits, s: State, ops: seq<Op>)
    ensures TotalsOf(Run(limits, s, ops)) == TotalsOf(Replay(s, Recorded(ops)))
  {
    if ops != [] {
      var front, op := ops[..|ops| - 1], ops[|ops| - 1];
      RunTotals(limits, s, front);
      if op.RecordOp? {
        ReplayLast(s, Recorded(front), BootEvent(op.at, op.call));
        RecordTotals(Release(Run(limits, s, front), op.id), Replay(s, Recorded(front)), op.at, op.call);
      } else {
        assert Recorded(ops) == Recorded(front);
      }
    }
  }

  // Restart safety: a governor booted from any reordering of the ledger rows has exactly the completed
  // totals of the live governor that wrote them, whatever checks and releases happened in between.
  lemma {:induction false} BootRefinesLive(limits: Limits, history: seq<BootEvent>, ops: seq<Op>, ledger: seq<BootEvent>)
    requires multiset(ledger) == multiset(history + Recorded(ops))
    ensures TotalsOf(Replay(EMPTY, ledger)) == TotalsOf(Run(limits, Replay(EMPTY, history), ops))
  {
    ReplayAnyOrder(EMPTY, ledger, history + Recorded(ops));
    ReplayAppend(EMPTY, history, Recorded(ops));
    RunTotals(limits, Replay(EMPTY, history), ops);
  }

  // ---- What the totals are ----

  ghost function TaskSum(events: seq<BootEvent>, taskID: string): int {
    if events == [] then 0
    else
      var last := events[|events| - 1].call;
      TaskSum(events[..|events| - 1], taskID) + (if last.taskID == taskID then last.usage.BillableTokens() else 0)
  }

  ghost function BucketSum(events: seq<BootEvent>, b: Bucket): real {
    if events == [] then 0.0
    else
      var last := events[|events| - 1];
      BucketSum(events[..|events| - 1], b) + (if Falls(last.at, b) then last.call.usd else 0.0)
  }

  // Each total is the plain sum of the billable tokens, or of the dollars, of the calls that belong to it.
  lemma {:induction false} TotalsAreSums(events: seq<BootEvent>, taskID: string, b: Bucket)
    requires taskID != ""
    ensures Get(Replay(EMPTY, events).perTask, taskID, 0) == Wrap(TaskSum(events, taskID))
    ensures Completed(Replay(EMPTY, events), b) == BucketSum(events, b)
  {
    if events != [] {
      var front, last := events[..|events| - 1], events[|events| - 1];
      TotalsAreSums(front, taskID, b);
      WrapFold(TaskSum(front, taskID), last.call.usage.BillableTokens());
      RecordCompleted(Replay(EMPTY, front), last.at, last.call, b);
    }
  }

  // The calls of one day.
  ghost function CallsOn(events: seq<BootEvent>, day: Day): seq<CallRecord> {
    if events == [] then []
    else
      var last := events[|events| - 1];
      CallsOn(events[..|events| - 1], day)
      + (if last.at.year == day.year && last.at.month == day.month && last.at.day == day.day then [last.call] else [])
  }

  ghost function InputSum(calls: seq<CallRecord>): int {
    if calls == [] then 0 else InputSum(calls[..|calls| - 1]) + calls[|calls| - 1].usage.input
  }

  ghost function CacheReadSum(calls: seq<CallRecord>): int {
    if calls == [] then 0 else CacheReadSum(calls[..|calls| - 1]) + calls[|calls| - 1].usage.cacheRead
  }

  // The row counts these calls, and sums their input and their cache-read tokens in 64-bit registers.
  ghost predicate Counts(row: DailyAgg, calls: seq<CallRecord>) {
    row.calls == |calls| && row.inputTokens == Wrap(InputSum(calls)) && row.cacheReadTokens == Wrap(CacheReadSum(calls))
  }

  lemma {:induction false} CallAdds(row: DailyAgg, calls: seq<CallRecord>, call: CallRecord)
    requires Counts(row, calls)
    ensures Counts(AddCall(row, call), calls + [call])
  {
    assert (calls + [call])[..|calls|] == calls;
    WrapFold(InputSum(calls), call.usage.input);
    WrapFold(CacheReadSum(calls), call.usage.cacheRead);
  }

  lemma DayRow(s: State, at: Instant, call: CallRecord, day: Day)
    ensures Get(RecordCall(s, at, call).daily, day, EMPTY_DAY)
            == if at.year == day.year && at.month == day.month && at.day == day.day
               then AddCall(Get(s.daily, day, EMPTY_DAY), call) else Get(s.daily, day, EMPTY_DAY)
  {
  }

  // The row of a day counts the calls of that day.
  lemma {:induction false} DaysCount(events: seq<BootEvent>, day: Day)
    ensures Counts(Get(Replay(EMPTY, events).daily, day, DailyAgg(0.0, 0, 0, 0)), CallsOn(events, day))
  {
    if events != [] {
      var front, last := events[..|events| - 1], events[|events| - 1];
      DaysCount(front, day);
      DayRow(Replay(EMPTY, front), last.at, last.call, day);
      CallAdds(Get(Replay(EMPTY, front).daily, day, EMPTY_DAY), CallsOn(front, day), last.call);
      assert CallsOn(front, day) + [] == CallsOn(front, day);
    }
  }

  // ---- Days add up to months ----

  ghost function DaysOfMonth(daily: map<Day, DailyAgg>, m: Month, upTo: nat): real {
    if upTo == 0 then 0.0
    else DaysOfMonth(daily, m, upTo - 1) + Get(daily, Day(m.year, m.month, upTo), EMPTY_DAY).usd
  }

  ghost predicate MonthsAddUp(s: State) {
    forall m: Month :: Get(s.monthly, m, 0.0) == DaysOfMonth(s.daily, m, 31)
  }

  lemma {:induction false} OneDayChanges(daily: map<Day, DailyAgg>, day: Day, agg: DailyAgg, m: Month, upTo: nat)
    ensures DaysOfMonth(daily[day := agg], m, upTo)
            == DaysOfMonth(daily, m, upTo)
               + (if Month(day.year, day.month) == m && 1 <= day.day <= upTo
                  then agg.usd - Get(daily, day, EMPTY_DAY).usd else 0.0)
  {
    if upTo > 0 {
      OneDayChanges(daily, day, agg, m, upTo - 1);
    }
  }

  lemma RecordAddsUp(s: State, at: Instant, call: CallRecord)
    requires MonthsAddUp(s)
    ensures MonthsAddUp(RecordCall(s, at, call))
  {
    var s' := RecordCall(s, at, call);
    forall m: Month ensures Get(s'.monthly, m, 0.0) == DaysOfMonth(s'.daily, m, 31) {
      OneDayChanges(s.daily, DayOf(at), AddCall(Get(s.daily, DayOf(at), EMPTY_DAY), call), m, 31);
    }
  }

  lemma {:induction false} EmptyDays(m: Month, upTo: nat)
    ensures DaysOfMonth(map[], m, upTo) == 0.0
  {
    if upTo > 0 {
      EmptyDays(m, upTo - 1);
    }
  }

  lemma {:induction false} ReplayAddsUp(events: seq<BootEvent>)
    ensures MonthsAddUp(Replay(EMPTY, events))
  {
    if events == [] {
      forall m: Month ensures Get(EMPTY.monthly, m, 0.0) == DaysOfMonth(EMPTY.daily, m, 31) {
        EmptyDays(m, 31);
      }
    } else {
      ReplayAddsUp(events[..|events| - 1]);
      var last := events[|events| - 1];
      RecordAddsUp(Replay(EMPTY, events[..|events| - 1]), last.at, last.call);
    }
  }

  // In every state of a live governor, each month's total is the sum of its days' totals.
  lemma {:induction false} MonthsAreSumsOfDays(limits: Limits, history: seq<BootEvent>, ops: seq<Op>)
    ensures MonthsAddUp(Run(limits, Replay(EMPTY, history), ops))
  {
    ReplayAppend(EMPTY, history, Recorded(ops));
    RunTotals(limits, Replay(EMPTY, history), ops);
    ReplayAddsUp(history + Recorded(ops));
  }
}
