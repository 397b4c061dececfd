/** The in-process cost governor, updating its maps in place (kahyad/internal/anthproxy/governor.go).
    Each method is one critical section of the source's mutex, so a run of them is an interleaving of
    the requests in flight. */
module Governor {
  import opened Wrappers
  import opened Width
  import opened Pricing
  import opened Estimate
  import opened Books
  import Boot

  class Governor {
    const limits: Limits

    var perTask: map<string, int64>
    var daily: map<Day, DailyAgg>
    var monthly: map<Month, real>

    var nextReservationID: nat
    var reservations: map<nat, Reservation>
    var perTaskReserved: map<string, int64>
    var dailyReserved: map<Day, real>
    var monthlyReserved: map<Month, real>

    ghost function View(): State
      reads this
    {
      State(perTask, daily, monthly, nextReservationID, reservations, perTaskReserved, dailyReserved, monthlyReserved)
    }

    constructor (limits: Limits)
      ensures this.limits == limits && View() == EMPTY
    {
      this.limits := limits;
      perTask, daily, monthly := map[], map[], map[];
      nextReservationID, reservations := 0, map[];
      perTaskReserved, dailyReserved, monthlyReserved := map[], map[], map[];
    }

    // Rebuilds the completed totals from the ledger's model_call rows.
    constructor Replayed(events: seq<Boot.BootEvent>, limits: Limits)
      ensures this.limits == limits && View() == Boot.Replay(EMPTY, events)
    {
      this.limits := limits;
      perTask, daily, monthly := map[], map[], map[];
      nextReservationID, reservations := 0, map[];
      perTaskReserved, dailyReserved, monthlyReserved := map[], map[], map[];
      new;
      for i := 0 to |events|
        invariant View() == Boot.Replay(EMPTY, events[..i])
      {
        assert events[..i + 1] == events[..i] + [events[i]];
        Boot.ReplayLast(EMPTY, events[..i], events[i]);
        RecordLocked(events[i].at, events[i].call);
      }
      assert events[..|events|] == events;
    }

    method RecordLocked(at: Instant, r: CallRecord)
      modifies this`perTask, this`daily, this`monthly
      ensures View() == RecordCall(old(View()), at, r)
    {
      var tokens := Add64(Add64(r.usage.input, r.usage.output), r.usage.cacheCreation);
      if r.taskID != "" {
        perTask := perTask[r.taskID := Add64(Get(perTask, r.taskID, 0), tokens)];
      }
      var day, month := DayOf(at), MonthOf(at);
      if day !in daily {
        daily := daily[day := EMPTY_DAY];
      }
      var agg := daily[day];
      agg := agg.(usd := agg.usd + r.usd);
      agg := agg.(calls := agg.calls + 1);
      agg := agg.(inputTokens := Add64(agg.inputTokens, r.usage.input));
      agg := agg.(cacheReadTokens := Add64(agg.cacheReadTokens, r.usage.cacheRead));
      daily := daily[day := agg];
      assert daily == AddDay(old(daily), day, r);
      monthly := monthly[month := Get(monthly, month, 0.0) + r.usd];
    }

    method ReserveLocked(taskID: string, tokens: int64, usd: real, day: Day, month: Month) returns (id: nat)
      modifies this
      ensures View() == Reserve(old(View()), Reservation(taskID, tokens, usd, day, month))
      ensures id == old(nextReservationID) + 1
    {
      nextReservationID := nextReservationID + 1;
      id := nextReservationID;
      reservations := reservations[id := Reservation(taskID, tokens, usd, day, month)];
      perTaskReserved := perTaskReserved[taskID := Add64(Get(perTaskReserved, taskID, 0), tokens)];
      dailyReserved := dailyReserved[day := Get(dailyReserved, day, 0.0) + usd];
      monthlyReserved := monthlyReserved[month := Get(monthlyReserved, month, 0.0) + usd];
    }

    // Unknown ids, and ids released before, are silently ignored.
    method ReleaseReservation(id: nat)
      modifies this
      ensures View() == Release(old(View()), id)
    {
      if id == 0 || id !in reservations {
        return;
      }
      var r := reservations[id];
      reservations := reservations - {id};
      perTaskReserved := perTaskReserved[r.taskID := Sub64(Get(perTaskReserved, r.taskID, 0), r.tokens)];
      dailyReserved := dailyReserved[r.day := Get(dailyReserved, r.day, 0.0) - r.usd];
      monthlyReserved := monthlyReserved[r.month := Get(monthlyReserved, r.month, 0.0) - r.usd];
    }

    // The atomic check-and-reserve.
    method CheckBeforeForward(taskID: string, model: string, body: Body, at: Instant) returns (v: Verdict)
      modifies this
      ensures (v, View()) == Check(limits, old(View()), taskID, EstimateRequest(limits, model, body, at), at)
    {
      var q := EstimateRequest(limits, model, body, at);
      if limits.taskCeiling > 0 {
        var projected := Add64(Add64(Get(perTask, taskID, 0), Get(perTaskReserved, taskID, 0)), q.tokens);
        if projected > limits.taskCeiling {
          return TaskCeiling;
        }
      }
      var today := DayOf(at);
      if limits.dailyUSD > 0.0 {
        var completedUSD := if today in daily then daily[today].usd else 0.0;
        if completedUSD + Get(dailyReserved, today, 0.0) + q.usd > limits.dailyUSD {
          return DailyBudget;
        }
      }
      var month := MonthOf(at);
      if limits.monthlyUSD > 0.0 {
        if Get(monthly, month, 0.0) + Get(monthlyReserved, month, 0.0) + q.usd > limits.monthlyUSD {
          return MonthlyBudget;
        }
      }
      var id := ReserveLocked(taskID, q.tokens, q.usd, today, month);
      return Granted(id);
    }

    // Releases the reservation and books the actual usage, in one critical section.
    method RecordUsage(id: nat, at: Instant, r: CallRecord)
      modifies this
      ensures View() == Books.RecordUsage(old(View()), id, at, r)
    {
      ReleaseReservation(id);
      RecordLocked(at, r);
    }
  }
}
