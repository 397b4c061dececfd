/** The nightly job as the object it is: the backup directory changes in place, step by step
    (kahyad/internal/backup/backup.go). */
module Snapshotter {
  import opened Retention
  import opened Backup

  // ---- The sort, by the text of the date ----

  function InsertByText(n: string, sorted: seq<string>): (r: seq<string>)
    requires DateOf(n).Some? && forall i | 0 <= i < |sorted| :: DateOf(sorted[i]).Some?
    ensures forall i | 0 <= i < |r| :: DateOf(r[i]).Some?
  {
    if sorted == [] || Before(DateOf(sorted[0]).value, DateOf(n).value) then [n] + sorted
    else [sorted[0]] + InsertByText(n, sorted[1..])
  }

  lemma {:induction false} TextOrderIsDateOrder(n: string, sorted: seq<string>)
    requires DateOf(n).Some? && forall i | 0 <= i < |sorted| :: DateOf(sorted[i]).Some?
    ensures InsertByText(n, sorted) == InsertName(n, sorted)
  {
    if sorted != [] {
      BeforeIsLess(DateOf(sorted[0]).value, DateOf(n).value);
      TextOrderIsDateOrder(n, sorted[1..]);
    }
  }

  lemma {:induction false} AddSnap(n: string, sorted: seq<string>)
    requires DateOf(n).Some? && AllSnaps(Names(sorted)) && n !in Names(sorted) && Falling(sorted)
    ensures Falling(InsertName(n, sorted)) && Names(InsertName(n, sorted)) == Names(sorted) + {n}
  {
    forall m | m in Names(sorted)
      ensures Key(m) != Key(n)
    {
      if Key(m) == Key(n) {
        KeyInjective(m, n);
      }
    }
    InsertNameFalls(n, sorted);
    InsertNameNames(n, sorted);
  }

  // The snapshots in a listing that names no file twice, newest first.
  method SnapsNewestFirst(entries: seq<string>) returns (snaps: seq<string>)
    requires forall i, j | 0 <= i < j < |entries| :: entries[i] != entries[j]
    ensures Falling(snaps)
    ensures Names(snaps) == set i | 0 <= i < |entries| && DateOf(entries[i]).Some? :: entries[i]
  {
    snaps := [];
    for k := 0 to |entries|
      invariant Falling(snaps)
      invariant forall i | 0 <= i < |snaps| :: DateOf(snaps[i]).Some?
      invariant Names(snaps) == set i | 0 <= i < k && DateOf(entries[i]).Some? :: entries[i]
    {
      var e := entries[k];
      if DateOf(e).Some? {
        AddSnap(e, snaps);
        TextOrderIsDateOrder(e, snaps);
        snaps := InsertByText(e, snaps);
      }
    }
  }

  lemma TailNames(names: seq<string>)
    requires Falling(names) && |names| > RETENTION_COUNT
    ensures Names(names[RETENTION_COUNT..]) == Names(names) - Keep(Names(names))
  {
    KeepIsHead(names);
    forall n | n in Names(names)
      ensures n in Names(names[RETENTION_COUNT..]) <==> n !in Names(Head(names))
    {
      var i :| 0 <= i < |names| && names[i] == n;
      HeadName(names, i);
      if i >= RETENTION_COUNT {
        assert names[RETENTION_COUNT..][i - RETENTION_COUNT] == n;
      }
    }
    forall n | n in Names(names[RETENTION_COUNT..])
      ensures n in Names(names)
    {
      var i :| 0 <= i < |names| - RETENTION_COUNT && names[RETENTION_COUNT..][i] == n;
      assert names[i + RETENTION_COUNT] == n;
    }
  }

  lemma FewNames(names: seq<string>)
    requires Falling(names) && |names| <= RETENTION_COUNT
    ensures Keep(Names(names)) == Names(names)
  {
    KeepIsHead(names);
    assert Head(names) == names;
  }

  class Snapshotter {
    const check: Integrity
    var dir: Dir

    constructor (check: Integrity, dir: Dir)
      ensures this.check == check && this.dir == dir
    {
      this.check, this.dir := check, dir;
    }

    // The files of the directory, each once.
    method ReadDir() returns (entries: seq<string>)
      ensures forall i, j | 0 <= i < j < |entries| :: entries[i] != entries[j]
      ensures Names(entries) == dir.Keys
    {
      entries := [];
      var left := dir.Keys;
      while left != {}
        invariant left <= dir.Keys && Names(entries) == dir.Keys - left
        invariant forall i, j | 0 <= i < j < |entries| :: entries[i] != entries[j]
        decreases left
      {
        var n :| n in left;
        assert forall i | 0 <= i < |entries| :: entries[i] in Names(entries);
        OneMoreName(entries + [n], |entries|);
        assert (entries + [n])[..|entries|] == entries && (entries + [n])[..|entries| + 1] == entries + [n];
        entries := entries + [n];
        left := left - {n};
      }
    }

    method Remove(snaps: seq<string>, stuck: set<string>) returns (all: bool)
      modifies this`dir
      ensures dir == old(dir) - (Names(snaps) - stuck)
      ensures all <==> Names(snaps) !! stuck
    {
      all := true;
      for i := 0 to |snaps|
        invariant dir == old(dir) - (Names(snaps[..i]) - stuck)
        invariant all <==> Names(snaps[..i]) !! stuck
      {
        assert Names(snaps[..i + 1]) == Names(snaps[..i]) + {snaps[i]} by {
          OneMoreName(snaps, i);
        }
        if snaps[i] in stuck {
          all := false;
        } else {
          dir := dir - {snaps[i]};
        }
      }
      assert snaps[..|snaps|] == snaps;
    }

    method Prune(stuck: set<string>) returns (all: bool)
      modifies this`dir
      ensures (dir, all) == Backup.Prune(old(dir), stuck)
    {
      var entries := ReadDir();
      var snaps := SnapsNewestFirst(entries);
      assert Names(snaps) == Snaps(dir) by {
        assert forall n | n in dir :: n in Names(entries);
        assert forall i | 0 <= i < |entries| :: entries[i] in Names(entries);
      }
      if |snaps| <= RETENTION_COUNT {
        FewNames(snaps);
        assert Dropped(dir) == {} && dir - ({} - stuck) == dir;
        return true;
      }
      TailNames(snaps);
      all := Remove(snaps[RETENTION_COUNT..], stuck);
    }

    method Fail(night: Night)
      modifies this`dir
      ensures (dir, FailedBefore) == Backup.Fail(old(dir), night)
    {
      if night.cleaned {
        dir := dir - {Staging(night.date)};
      }
    }

    // The rename puts the verified staging file over today's copy in one step.
    method Finish(night: Night) returns (r: Outcome)
      requires Staging(night.date) in dir && dir[Staging(night.date)] == night.content
      modifies this`dir
      ensures (dir, r) == AfterRename(old(dir), night)
    {
      dir := (dir - {Staging(night.date)})[SnapName(night.date) := dir[Staging(night.date)]];
      if night.fault == LedgerFails || night.fault == ListFails {
        return FailedAfter;
      }
      var all := Prune(night.stuck);
      return if all then Completed else FailedAfter;
    }

    method Run(night: Night) returns (r: Outcome)
      modifies this`dir
      ensures (dir, r) == RunNight(check, old(dir), night)
    {
      if night.fault == MkdirFails {
        return FailedBefore;
      }
      if night.fault == StagingStuck {
        Fail(night);
        return FailedBefore;
      }
      dir := dir - {Staging(night.date)};
      if night.fault.VacuumFails? {
        if night.fault.left.Some? {
          dir := dir[Staging(night.date) := night.fault.left.value];
        }
        Fail(night);
        return FailedBefore;
      }
      dir := dir[Staging(night.date) := night.content];
      if night.fault == VerifyFails || check(dir[Staging(night.date)]) != "ok" {
        Fail(night);
        return FailedBefore;
      }
      if night.fault == HashFails || night.fault == RenameFails {
        Fail(night);
        return FailedBefore;
      }
      r := Finish(night);
    }
  }

  lemma OneMoreName(names: seq<string>, i: nat)
    requires i < |names|
    ensures Names(names[..i + 1]) == Names(names[..i]) + {names[i]}
  {
    assert names[..i + 1] == names[..i] + [names[i]];
    forall n | n in Names(names[..i]) + {names[i]}
      ensures n in Names(names[..i + 1])
    {
      if n == names[i] {
        assert names[..i + 1][i] == n;
      } else {
        var j :| 0 <= j < i && names[..i][j] == n;
        assert names[..i + 1][j] == n;
      }
    }
  }
}
