/** The nightly snapshot (kahyad/internal/backup/backup.go): vacuum into a staging file, verify, rename, note it in
    the ledger, prune. Any of these may fail. The integrity check of a file's contents is a parameter. */
module Backup {
  import opened Wrappers
  import opened Retention

  type Integrity = string -> string

  // The files of the backup directory.
  type Dir = map<string, string>

  datatype Fault =
    | NoFault | MkdirFails | StagingStuck | VacuumFails(left: Option<string>) | VerifyFails | HashFails | RenameFails
    | LedgerFails | ListFails

  // One night: the date, what VACUUM INTO writes, what goes wrong, whether a failed run's clean-up works, and which
  // files cannot be removed.
  datatype Night = Night(date: string, content: string, fault: Fault, cleaned: bool, stuck: set<string>)

  datatype Outcome = Completed | FailedBefore | FailedAfter

  function Staging(date: string): string {
    SnapName(date) + ".staging"
  }

  function Snaps(dir: Dir): set<string> {
    set n | n in dir && DateOf(n).Some?
  }

  // ---- One run ----

  // The failure exit removes nothing but the staging file, best effort.
  function Fail(dir: Dir, night: Night): (Dir, Outcome) {
    (if night.cleaned then dir - {Staging(night.date)} else dir, FailedBefore)
  }

  function Dropped(dir: Dir): set<string> {
    Snaps(dir) - Keep(Snaps(dir))
  }

  function Prune(dir: Dir, stuck: set<string>): (Dir, bool) {
    (dir - (Dropped(dir) - stuck), Dropped(dir) !! stuck)
  }

  function Renamed(dir: Dir, night: Night): Dir {
    (dir - {Staging(night.date)})[SnapName(night.date) := night.content]
  }

  function AfterRename(dir: Dir, night: Night): (Dir, Outcome) {
    var dir' := Renamed(dir, night);
    if night.fault == LedgerFails || night.fault == ListFails then (dir', FailedAfter)
    else
      var (pruned, all) := Prune(dir', night.stuck);
      (pruned, if all then Completed else FailedAfter)
  }

  function RunNight(check: Integrity, dir: Dir, night: Night): (Dir, Outcome) {
    if night.fault == MkdirFails then (dir, FailedBefore)
    else if night.fault == StagingStuck then Fail(dir, night)
    else
      var clear := dir - {Staging(night.date)};
      if night.fault.VacuumFails? then
        Fail(if night.fault.left.Some? then clear[Staging(night.date) := night.fault.left.value] else clear, night)
      else
        var staged := clear[Staging(night.date) := night.content];
        if night.fault == VerifyFails || check(night.content) != "ok" || night.fault == HashFails
           || night.fault == RenameFails
        then Fail(staged, night)
        else AfterRename(staged, night)
  }

  function RunNights(check: Integrity, dir: Dir, nights: seq<Night>): Dir {
    if nights == [] then dir
    else RunNight(check, RunNights(check, dir, nights[..|nights| - 1]), nights[|nights| - 1]).0
  }

  // ---- One run, what it does ----

  lemma StagingIsNoSnap(date: string)
    requires IsDate(date)
    ensures DateOf(Staging(date)) == None && Staging(date) != SnapName(date)
  {
    assert |Staging(date)| == 25;
  }

  // Apart from staging files, two directories hold the same.
  predicate SameButStaging(a: Dir, b: Dir, date: string) {
    a - {Staging(date)} == b - {Staging(date)}
  }

  lemma RenamedSnaps(dir: Dir, night: Night)
    requires IsDate(night.date)
    ensures Snaps(Renamed(dir, night)) == Snaps(dir) + {SnapName(night.date)}
  {
    StagingIsNoSnap(night.date);
    DateOfSnapName(night.date);
  }

  lemma StagingAside(dir: Dir, date: string)
    requires IsDate(date)
    ensures Snaps(dir - {Staging(date)}) == Snaps(dir)
  {
    StagingIsNoSnap(date);
  }

  lemma SameSnaps(a: Dir, b: Dir, date: string)
    requires SameButStaging(a, b, date) && IsDate(date)
    ensures Snaps(a) == Snaps(b) && forall n | n in Snaps(a) :: a[n] == b[n]
  {
    StagingAside(a, date);
    StagingAside(b, date);
    StagingIsNoSnap(date);
    forall n | n in Snaps(a)
      ensures a[n] == b[n]
    {
      assert n in a - {Staging(date)};
      assert (a - {Staging(date)})[n] == (b - {Staging(date)})[n];
    }
  }

  // A run that fails at or before the rename leaves every file but its staging file as it was.
  lemma FailedNightTouchesNothing(check: Integrity, dir: Dir, night: Night)
    requires IsDate(night.date) && RunNight(check, dir, night).1 == FailedBefore
    ensures SameButStaging(RunNight(check, dir, night).0, dir, night.date)
    ensures Snaps(RunNight(check, dir, night).0) == Snaps(dir)
  {
    SameSnaps(RunNight(check, dir, night).0, dir, night.date);
  }

  // Which runs leave a staging file of their date behind: none that gets past the rename, and of the others those whose
  // clean-up fails when there is one, and those that never got to it.
  lemma StagingLeft(check: Integrity, dir: Dir, night: Night)
    requires IsDate(night.date)
    ensures var (dir', outcome) := RunNight(check, dir, night);
            SnapName(night.date) + ".staging" in dir' <==>
            && outcome == FailedBefore
            && match night.fault
               case MkdirFails => SnapName(night.date) + ".staging" in dir
               case StagingStuck => !night.cleaned && SnapName(night.date) + ".staging" in dir
               case VacuumFails(left) => !night.cleaned && left.Some?
               case _ => !night.cleaned
  {
    StagingIsNoSnap(night.date);
  }

  // Exactly when a run gets past the rename, and what it then has checked.
  lemma RenamesIff(check: Integrity, dir: Dir, night: Night)
    ensures RunNight(check, dir, night).1 != FailedBefore <==>
              && check(night.content) == "ok"
              && (night.fault == NoFault || night.fault == LedgerFails || night.fault == ListFails)
    ensures RunNight(check, dir, night).1 != FailedBefore ==>
              RunNight(check, dir, night) == AfterRename(dir, night)
  {
    var clear := dir - {Staging(night.date)};
    assert clear[Staging(night.date) := night.content] - {Staging(night.date)} == clear;
  }

  lemma PrunedSnaps(dir: Dir, stuck: set<string>)
    ensures var dir' := Prune(dir, stuck).0;
            && Keep(Snaps(dir)) <= Snaps(dir') <= Snaps(dir)
            && (Prune(dir, stuck).1 ==> Snaps(dir') == Keep(Snaps(dir)))
            && forall n | n in dir' :: n in dir && dir'[n] == dir[n]
  {
    var dir' := Prune(dir, stuck).0;
    forall n | n in Snaps(dir) && n !in Snaps(dir')
      ensures n !in Keep(Snaps(dir))
    {
    }
  }

  // Past the rename, whatever fails: all seven newest are there, nothing else appears, and nothing else changes.
  lemma RenamedNight(check: Integrity, dir: Dir, night: Night)
    requires IsDate(night.date) && RunNight(check, dir, night).1 != FailedBefore
    ensures var dir' := RunNight(check, dir, night).0;
            var all := Snaps(dir) + {SnapName(night.date)};
            && Keep(all) <= Snaps(dir') <= all
            && forall n | n in Snaps(dir') :: dir'[n] == (if n == SnapName(night.date) then night.content else dir[n])
  {
    RenamesIff(check, dir, night);
    RenamedSnaps(dir, night);
    PrunedSnaps(Renamed(dir, night), night.stuck);
    DateOfSnapName(night.date);
    StagingIsNoSnap(night.date);
  }

  lemma PrunedAll(dir: Dir, night: Night)
    requires IsDate(night.date) && AfterRename(dir, night).1 == Completed
    ensures Snaps(AfterRename(dir, night).0) == Keep(Snaps(dir) + {SnapName(night.date)})
  {
    RenamedSnaps(dir, night);
    PrunedSnaps(Renamed(dir, night), night.stuck);
  }

  lemma CompletedSnaps(check: Integrity, dir: Dir, night: Night)
    requires IsDate(night.date) && RunNight(check, dir, night).1 == Completed
    ensures Snaps(RunNight(check, dir, night).0) == Keep(Snaps(dir) + {SnapName(night.date)})
  {
    RenamesIff(check, dir, night);
    PrunedAll(dir, night);
  }

  // A run that completes leaves exactly the seven newest dates of the previous ones and its own, and the contents
  // of the others unchanged.
  lemma CompletedNight(check: Integrity, dir: Dir, night: Night)
    requires IsDate(night.date) && RunNight(check, dir, night).1 == Completed
    ensures var dir' := RunNight(check, dir, night).0;
            && AreNewest(Snaps(dir'), Snaps(dir) + {SnapName(night.date)})
            && forall n | n in Snaps(dir') :: dir'[n] == (if n == SnapName(night.date) then night.content else dir[n])
  {
    CompletedSnaps(check, dir, night);
    RenamedNight(check, dir, night);
    DateOfSnapName(night.date);
    KeepIsNewest(Snaps(dir) + {SnapName(night.date)});
  }

  // Exactly when a run completes: the contents check out, nothing fails, and no snapshot that is not among the seven
  // newest is stuck. When the ledger or the listing fails, nothing is pruned at all.
  lemma CompletesIff(check: Integrity, dir: Dir, night: Night)
    requires IsDate(night.date)
    ensures var (dir', outcome) := RunNight(check, dir, night);
            var all := Snaps(dir) + {SnapName(night.date)};
            && (outcome == Completed <==>
                  check(night.content) == "ok" && night.fault == NoFault && forall n | n in all && n in night.stuck :: n in Keep(all))
            && (check(night.content) == "ok" && (night.fault == LedgerFails || night.fault == ListFails) ==> Snaps(dir') == all)
  {
    RenamesIff(check, dir, night);
    RenamedSnaps(dir, night);
  }

  // ---- Every run ----

  predicate Verified(check: Integrity, dir: Dir) {
    forall n | n in Snaps(dir) :: check(dir[n]) == "ok"
  }

  predicate Dated(nights: seq<Night>) {
    forall i | 0 <= i < |nights| :: IsDate(nights[i].date)
  }

  // The names that were ever renamed into place, on top of those there at the start.
  function Ever(check: Integrity, dir: Dir, nights: seq<Night>): set<string> {
    if nights == [] then Snaps(dir)
    else
      var front, night := nights[..|nights| - 1], nights[|nights| - 1];
      var before := Ever(check, dir, front);
      if RunNight(check, RunNights(check, dir, front), night).1 == FailedBefore then before
      else before + {SnapName(night.date)}
  }

  lemma {:induction false} EverAreSnaps(check: Integrity, dir: Dir, nights: seq<Night>)
    requires Dated(nights)
    ensures AllSnaps(Ever(check, dir, nights))
  {
    if nights != [] {
      EverAreSnaps(check, dir, nights[..|nights| - 1]);
      DateOfSnapName(nights[|nights| - 1].date);
    }
  }

  // Dated copies only ever hold verified contents.
  lemma {:induction false} AlwaysVerified(check: Integrity, dir: Dir, nights: seq<Night>)
    requires Verified(check, dir) && Dated(nights)
    ensures Verified(check, RunNights(check, dir, nights))
  {
    if nights != [] {
      var front, night := nights[..|nights| - 1], nights[|nights| - 1];
      AlwaysVerified(check, dir, front);
      NightKeepsVerified(check, RunNights(check, dir, front), night);
    }
  }

  lemma NightKeepsVerified(check: Integrity, dir: Dir, night: Night)
    requires Verified(check, dir) && IsDate(night.date)
    ensures Verified(check, RunNight(check, dir, night).0)
  {
    if RunNight(check, dir, night).1 == FailedBefore {
      FailedNightTouchesNothing(check, dir, night);
      SameSnaps(RunNight(check, dir, night).0, dir, night.date);
    } else {
      RenamesIff(check, dir, night);
      RenamedNight(check, dir, night);
    }
  }

  lemma RetentionStep(now: set<string>, ever: set<string>, x: string, now': set<string>)
    requires AllSnaps(ever + {x}) && Keep(ever) <= now <= ever
    requires Keep(now + {x}) <= now' <= now + {x}
    ensures Keep(ever + {x}) <= now' <= ever + {x}
  {
    KeepOfMore(ever, x);
    KeepOfLess(now + {x}, ever + {x});
  }

  // Over any sequence of failing and succeeding runs, the seven newest of all the snapshots ever renamed into place
  // are still there, and only such snapshots are.
  lemma {:induction false} NewestAlwaysThere(check: Integrity, dir: Dir, nights: seq<Night>)
    requires Dated(nights)
    ensures Keep(Ever(check, dir, nights)) <= Snaps(RunNights(check, dir, nights)) <= Ever(check, dir, nights)
  {
    if nights != [] {
      var front, night := nights[..|nights| - 1], nights[|nights| - 1];
      var before := RunNights(check, dir, front);
      NewestAlwaysThere(check, dir, front);
      if RunNight(check, before, night).1 == FailedBefore {
        FailedNightTouchesNothing(check, before, night);
      } else {
        EverAreSnaps(check, dir, nights);
        RenamedNight(check, before, night);
        RetentionStep(Snaps(before), Ever(check, dir, front), SnapName(night.date), Snaps(RunNight(check, before, night).0));
      }
    }
  }

  // And right after a run that completes, they are exactly what is there.
  lemma {:induction false} ExactlyTheNewest(check: Integrity, dir: Dir, nights: seq<Night>, night: Night)
    requires Dated(nights) && IsDate(night.date)
    requires RunNight(check, RunNights(check, dir, nights), night).1 == Completed
    ensures AreNewest(Snaps(RunNights(check, dir, nights + [night])), Ever(check, dir, nights + [night]))
  {
    var before, ever, x := RunNights(check, dir, nights), Ever(check, dir, nights), SnapName(night.date);
    assert (nights + [night])[..|nights|] == nights;
    NewestAlwaysThere(check, dir, nights);
    EverAreSnaps(check, dir, nights + [night]);
    CompletedSnaps(check, before, night);
    KeepOfMore(ever, x);
    KeepOfLess(Snaps(before) + {x}, ever + {x});
    KeepIsNewest(ever + {x});
  }

  // The number of good copies never falls below what it was, or seven.
  lemma {:induction false} NeverFewer(check: Integrity, dir: Dir, nights: seq<Night>)
    requires Dated(nights)
    ensures |Snaps(RunNights(check, dir, nights))| >= 7
            || |Snaps(RunNights(check, dir, nights))| >= |Snaps(dir)|
  {
    var ever, now := Ever(check, dir, nights), Snaps(RunNights(check, dir, nights));
    NewestAlwaysThere(check, dir, nights);
    EverAreSnaps(check, dir, nights);
    KeepIsNewest(ever);
    SubsetSize(Keep(ever), now);
    EverGrows(check, dir, nights);
    SubsetSize(Snaps(dir), ever);
  }

  lemma {:induction false} EverGrows(check: Integrity, dir: Dir, nights: seq<Night>)
    ensures Snaps(dir) <= Ever(check, dir, nights)
  {
    if nights != [] {
      EverGrows(check, dir, nights[..|nights| - 1]);
    }
  }
}
