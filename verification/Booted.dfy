/** A governor from its boot on (kahyad/internal/anthproxy/governor.go, kahyad/internal/anthproxy/proxy.go): where every
    run starts, and what that makes of the bounds. */
module Booted {
  import opened Wrappers
  import opened Width
  import opened Pricing
  import opened Estimate
  import opened Books
  import opened Bounds
  import opened Boot
  import opened Proxy

  // ---- Where every run starts ----

  lemma {:induction false} NothingReserved(history: seq<BootEvent>)
    ensures var s := Replay(EMPTY, history);
            && s.nextReservationID == 0 && s.reservations == map[]
            && s.perTaskReserved == map[] && s.dailyReserved == map[] && s.monthlyReserved == map[]
  {
    if history != [] {
      NothingReserved(history[..|history| - 1]);
    }
  }

  // A booted governor, from any history, meets every condition that runs keep.
  lemma {:induction false} BootedIsSound(history: seq<BootEvent>)
    ensures var s := Replay(EMPTY, history);
            Exact(s) && Conserved(s) && ReservedNonNegative(s) && Tracked(System(s, map[]))
  {
    var s := Replay(EMPTY, history);
    NothingReserved(history);
    forall b: Bucket
      ensures Pool(s, b) == OutstandingUSD(s.reservations, 0, b)
    {
    }
  }

  // ---- The bounds, from the boot totals on ----

  // Every pool of a booted governor equals the sum of what is outstanding, at any time.
  lemma {:induction false} BootedPools(limits: Limits, history: seq<BootEvent>, ops: seq<Op>)
    ensures Conserved(Run(limits, Replay(EMPTY, history), ops))
  {
    BootedIsSound(history);
    RunConserves(limits, Replay(EMPTY, history), ops);
  }

  // Completed plus reserved tokens of a task stay under the ceiling, or its boot total when that is larger, up to
  // the amounts by which recorded calls outgrew their reservations.
  lemma {:induction false} BootedTaskCeiling(limits: Limits, history: seq<BootEvent>, ops: seq<Op>, taskID: string)
    requires limits.taskCeiling > 0 && RunInRange(limits, Replay(EMPTY, history), ops)
    ensures var s := Replay(EMPTY, history);
            Exposure(Run(limits, s, ops), taskID)
            <= Max(limits.taskCeiling, Get(s.perTask, taskID, 0)) + TokenOverrun(limits, s, ops, taskID)
  {
    BootedIsSound(history);
    NothingReserved(history);
    TaskCeilingHolds(limits, Replay(EMPTY, history), ops, taskID);
  }

  // Completed plus reserved dollars of a day or month stay under its budget, or its boot total, up to overrun and carry.
  lemma {:induction false} BootedBudget(limits: Limits, history: seq<BootEvent>, ops: seq<Op>, b: Bucket)
    requires Budget(limits, b) > 0.0
    ensures var s := Replay(EMPTY, history);
            Completed(Run(limits, s, ops), b) + Pool(Run(limits, s, ops), b)
            <= MaxReal(Budget(limits, b), Completed(s, b)) + Overrun(limits, s, ops, b) + Carry(limits, s, ops, b)
  {
    var s := Replay(EMPTY, history);
    BootedIsSound(history);
    NothingReserved(history);
    assert Pool(s, b) == 0.0;
    BudgetHolds(limits, s, ops, b);
  }

  // Whenever no request is in flight after a boot, nothing is outstanding and every pool reads zero.
  lemma {:induction false} BootedQuiet(limits: Limits, history: seq<BootEvent>, events: seq<Event>)
    requires RunSystem(limits, System(Replay(EMPTY, history), map[]), events).flights == map[]
    ensures var books := RunSystem(limits, System(Replay(EMPTY, history), map[]), events).books;
            && books.reservations == map[]
            && (forall taskID: string :: Get(books.perTaskReserved, taskID, 0) == 0)
            && (forall day: Day :: Get(books.dailyReserved, day, 0.0) == 0.0)
            && (forall month: Month :: Get(books.monthlyReserved, month, 0.0) == 0.0)
  {
    BootedIsSound(history);
    QuietMeansZero(limits, System(Replay(EMPTY, history), map[]), events);
  }

  // ---- When counters stay in range ----

  // The operation moves at most `most` tokens.
  predicate Small(op: Op, most: nat) {
    match op
    case CheckOp(_, quote, _) => 0 <= quote.tokens <= most
    case RecordOp(_, _, call) => 0 <= call.usage.BillableTokens() <= most
    case ReleaseOp(_) => true
  }

  // No task has completed a negative number of tokens, and none is exposed to more than `top`.
  ghost predicate Below(s: State, top: int) {
    forall taskID: string :: 0 <= Get(s.perTask, taskID, 0) && Exposure(s, taskID) <= top
  }

  lemma ReservedAtLeastZero(s: State, taskID: string)
    requires Exact(s)
    ensures 0 <= Get(s.perTaskReserved, taskID, 0)
  {
    OutstandingAtLeast(s.reservations, s.nextReservationID, 0, taskID);
  }

  lemma SmallIsInRange(s: State, op: Op, most: nat, top: int)
    requires Exact(s) && Below(s, top) && Small(op, most) && top + most <= MAX64
    ensures InRange(s, op)
  {
    match op
    case CheckOp(taskID, quote, _) =>
      ReservedAtLeastZero(s, taskID);
      assert Exposure(s, taskID) <= top && 0 <= Get(s.perTask, taskID, 0);
    case RecordOp(_, _, call) =>
      ReservedAtLeastZero(s, call.taskID);
      assert Exposure(s, call.taskID) <= top && 0 <= Get(s.perTask, call.taskID, 0);
    case ReleaseOp(_) =>
  }

  lemma CreditAtLeastZero(s: State, id: nat, taskID: string)
    requires Exact(s)
    ensures 0 <= TokenCredit(s, id, taskID)
  {
  }

  lemma ReserveBelow(s: State, r: Reservation, most: nat, top: int)
    requires Exact(s) && Below(s, top) && 0 <= r.tokens <= most
    requires Fits(Get(s.perTaskReserved, r.taskID, 0) as int + r.tokens)
    ensures Exact(Reserve(s, r)) && Below(Reserve(s, r), top + most)
  {
    ReserveExact(s, r);
  }

  lemma ReleaseBelow(s: State, id: nat, top: int)
    requires Exact(s) && Below(s, top)
    ensures Exact(Release(s, id)) && Below(Release(s, id), top)
  {
    ReleaseExact(s, id);
    forall taskID: string
      ensures Exposure(Release(s, id), taskID) <= top
    {
      CreditAtLeastZero(s, id, taskID);
    }
  }

  lemma RecordBelow(s: State, at: Instant, call: CallRecord, most: nat, top: int)
    requires Exact(s) && Below(s, top) && 0 <= call.usage.BillableTokens() <= most && top + most <= MAX64
    ensures Exact(RecordCall(s, at, call)) && Below(RecordCall(s, at, call), top + most)
  {
    ReservedAtLeastZero(s, call.taskID);
    assert Exposure(s, call.taskID) <= top && 0 <= Get(s.perTask, call.taskID, 0);
    RecordExact(s, at, call);
    forall taskID: string
      ensures 0 <= Get(RecordCall(s, at, call).perTask, taskID, 0)
    {
      assert 0 <= Get(s.perTask, taskID, 0);
    }
  }

  lemma StepBelow(limits: Limits, s: State, op: Op, most: nat, top: int)
    requires Exact(s) && Below(s, top) && Small(op, most) && top + most <= MAX64
    ensures Exact(Step(limits, s, op)) && Below(Step(limits, s, op), top + most)
  {
    SmallIsInRange(s, op, most, top);
    match op
    case CheckOp(taskID, quote, at) =>
      if Judge(limits, s, taskID, quote, at).Granted? {
        ReserveBelow(s, Booking(taskID, quote, at), most, top);
      }
    case RecordOp(id, at, call) =>
      ReleaseBelow(s, id, top);
      RecordBelow(Release(s, id), at, call, most, top);
    case ReleaseOp(id) =>
      ReleaseBelow(s, id, top);
  }

  // A condition a caller can check beforehand: when the boot totals and as many of the largest amounts as there are
  // operations fit 64 bits together, no addition of the run leaves the range, whatever the interleaving.
  lemma {:induction false} SmallRunsStayInRange(limits: Limits, s: State, ops: seq<Op>, most: nat, top: int)
    requires Exact(s) && Below(s, top) && top + |ops| * most <= MAX64
    requires forall i | 0 <= i < |ops| :: Small(ops[i], most)
    ensures RunInRange(limits, s, ops)
    ensures Exact(Run(limits, s, ops)) && Below(Run(limits, s, ops), top + |ops| * most)
  {
    if ops != [] {
      var front, op, n := ops[..|ops| - 1], ops[|ops| - 1], |ops|;
      assert n * most == (n - 1) * most + most;
      SmallRunsStayInRange(limits, s, front, most, top);
      SmallIsInRange(Run(limits, s, front), op, most, top + (n - 1) * most);
      StepBelow(limits, Run(limits, s, front), op, most, top + (n - 1) * most);
    }
  }

  // So the task ceiling holds outright for a booted governor whose history and run together stay small.
  lemma {:induction false} SmallTaskCeiling(limits: Limits, history: seq<BootEvent>, ops: seq<Op>, taskID: string, most: nat, top: nat)
    requires limits.taskCeiling > 0 && Below(Replay(EMPTY, history), top) && top + |ops| * most <= MAX64
    requires forall i | 0 <= i < |ops| :: Small(ops[i], most)
    ensures var s := Replay(EMPTY, history);
            Exposure(Run(limits, s, ops), taskID)
            <= Max(limits.taskCeiling, Get(s.perTask, taskID, 0)) + TokenOverrun(limits, s, ops, taskID)
  {
    BootedIsSound(history);
    SmallRunsStayInRange(limits, Replay(EMPTY, history), ops, most, top);
    BootedTaskCeiling(limits, history, ops, taskID);
  }
}
