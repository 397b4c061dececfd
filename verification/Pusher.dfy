/** The pusher as the object it is: its store, its working copy and the remote change in place, one call after the
    other, exactly as the state machine of module Push says (kahyad/internal/anchor/push.go). */
module Pusher {
  import opened Wrappers
  import opened Width
  import opened Bytes
  import opened Ledger
  import opened AnchorLog
  import opened Push

  class Pusher {
    const sha: Hash
    const configured: bool
    var events: seq<LedgerEvent>
    var lastEventID: int64
    var digest: string
    var rows: seq<Row>
    var repo: Option<Clone>
    var remote: seq<AnchorLine>

    function View(): World
      reads this
    {
      World(configured, events, lastEventID, digest, rows, repo, remote)
    }

    constructor (sha: Hash, configured: bool)
      ensures View() == Fresh(configured) && this.sha == sha
    {
      this.sha, this.configured := sha, configured;
      events, lastEventID, digest, rows, repo, remote := [], 0, Genesis(), [], None, [];
    }

    method InsertEventWithDigest(e: LedgerEvent)
      modifies this
      ensures View() == InsertEvent(sha, old(View()), e)
    {
      if e.id > lastEventID {
        events := events + [e];
        digest := NextDigest(sha, digest, e);
        lastEventID := e.id;
      }
    }

    method InsertPending(fault: Fault) returns (row: Option<Row>)
      modifies this
      ensures fault == InsertFails ==> row == None && View() == old(View())
      ensures fault != InsertFails ==>
                && row == Some(Row(old(lastEventID), Hex(old(digest)), false))
                && View() == old(View()).(rows := old(rows) + [row.value])
    {
      if fault == InsertFails {
        return None;
      }
      var pending := Row(lastEventID, Hex(digest), false);
      rows := rows + [pending];
      return Some(pending);
    }

    // A pending row is retried, never duplicated; a digest that is already anchored needs no row.
    method ClaimPendingRow(fault: Fault) returns (row: Option<Row>)
      modifies this
      ensures (View(), row) == ClaimRow(old(View()), fault)
    {
      if fault == RowsUnreadable {
        return None;
      }
      if rows == [] {
        row := InsertPending(fault);
        return;
      }
      var latest := rows[|rows| - 1];
      if !latest.pushed {
        return Some(latest);
      }
      if latest.eventID == lastEventID {
        return None;
      }
      row := InsertPending(fault);
    }

    method CloneOrPull(fault: Fault) returns (ok: bool)
      modifies this
      ensures (View(), ok) == EnsureClone(old(View()), fault)
      ensures ok ==> repo.Some?
    {
      if fault == Unreachable {
        return false;
      }
      if repo.None? {
        repo := Some(Clone(remote, remote));
        return fault != CheckoutFails;
      }
      var pulled := Pull(repo.value, remote);
      if pulled.None? {
        return false;
      }
      repo := pulled;
      return true;
    }

    method CommitAndPush(line: AnchorLine, fault: Fault) returns (ok: bool)
      requires repo.Some?
      modifies this
      ensures (View(), ok) == Publish(old(View()), old(repo).value, line, fault)
      ensures repo.Some?
    {
      if fault == AppendFails {
        return false;
      }
      repo := Some(repo.value.(work := repo.value.work + [line]));
      if fault == AddFails || fault == CommitFails {
        return false;
      }
      repo := Some(repo.value.(committed := repo.value.work));
      if fault.PushFails? {
        if fault.landed {
          remote := repo.value.committed;
        }
        return false;
      }
      remote := repo.value.committed;
      return true;
    }

    method MarkAnchorPushed(note: Option<LedgerEvent>)
      requires rows != []
      modifies this
      ensures View() == MarkPushed(sha, old(View()), note)
    {
      var last := |rows| - 1;
      rows := rows[last := rows[last].(pushed := true)];
      if note.Some? {
        InsertEventWithDigest(note.value);
      }
    }

    // The row's status is the last thing that changes: any failure on the way leaves it pending.
    method PushRow(row: Row, env: Env)
      requires rows != []
      modifies this
      ensures View() == Push.PushRow(sha, old(View()), row, env)
    {
      if env.fault == KeyUnreadable {
        return;
      }
      var ready := CloneOrPull(env.fault);
      if !ready {
        return;
      }
      var ok := CommitAndPush(LineOf(row, env), env.fault);
      if ok && env.fault != MarkFails {
        MarkAnchorPushed(env.note);
      }
    }

    method Run(env: Env)
      modifies this
      ensures View() == RunTick(sha, old(View()), env)
    {
      if !configured || env.fault == StateUnreadable || lastEventID <= 0 {
        return;
      }
      var row := ClaimPendingRow(env.fault);
      if row.Some? {
        ClaimsLatest(old(View()), env.fault);
        PushRow(row.value, env);
      }
    }
  }
}
