/** The tamper check (kahyad/internal/anchor/verify.go): the ledger against its own checkpoints, and the latest
    checkpoint against the last line of the remote log. */
module Verify {
  import opened Wrappers
  import opened Width
  import opened Bytes
  import opened Ledger
  import opened Spaces
  import opened AnchorLog
  import opened Push

  // What fetching the anchor repository gave: a log file (None when it has none yet), or no answer.
  datatype Remote = NotConfigured | NoAnswer | Log(file: Option<string>)

  datatype Outcome = Passed | MismatchAt(eventID: int64) | CheckFailed

  // Ok(None) when there is nothing to object to, Ok(Some(id)) for a mismatch.
  function CheckRemote(file: Option<string>, latest: Option<Checkpoint>): Result<Option<int64>, Malformed> {
    match ReadLast(match file case None => "" case Some(text) => text)
    case Err(e) => Err(e)
    case Ok(None) => Ok(None)
    case Ok(Some(line)) =>
      if latest.None? || (line.eventID == latest.value.eventID && line.digestHex == latest.value.digestHex) then Ok(None)
      else Ok(Some(if line.eventID > latest.value.eventID then line.eventID else latest.value.eventID))
  }

  method Verify(sha: Hash, events: seq<LedgerEvent>, checkpoints: seq<Checkpoint>, latest: Option<Checkpoint>, remote: Remote)
    returns (r: Outcome)
    ensures r == Passed <==>
              && LocalOk(sha, events, Wanted(checkpoints))
              && (remote == NotConfigured || (remote.Log? && CheckRemote(remote.file, latest) == Ok(None)))
    ensures r.MismatchAt? && LocalOk(sha, events, Wanted(checkpoints)) ==>
              remote.Log? && CheckRemote(remote.file, latest) == Ok(Some(r.eventID))
    ensures LocalOk(sha, events, Wanted(checkpoints)) && remote.Log? && CheckRemote(remote.file, latest).Ok?
            && CheckRemote(remote.file, latest).value.Some? ==>
              r == MismatchAt(CheckRemote(remote.file, latest).value.value)
    ensures !LocalOk(sha, events, Wanted(checkpoints)) ==>
              r.MismatchAt? && FirstDisagreement(sha, events, Wanted(checkpoints), r.eventID)
  {
    var local := CheckLocal(sha, events, checkpoints);
    if local.Some? {
      return MismatchAt(local.value);
    }
    if remote == NotConfigured {
      return Passed;
    }
    if remote == NoAnswer {
      return CheckFailed;
    }
    var read := LastAnchorLine(remote.file);
    if read.Err? {
      return CheckFailed;
    }
    if read.value.None? || latest.None? {
      return Passed;
    }
    var line, row := read.value.value, latest.value;
    if line.eventID != row.eventID || line.digestHex != row.digestHex {
      return MismatchAt(if line.eventID > row.eventID then line.eventID else row.eventID);
    }
    return Passed;
  }

  // ---- Honest runs against the local check ----

  function CheckpointOf(row: Row): Checkpoint {
    Checkpoint(row.eventID, row.digestHex)
  }

  function CheckpointsOf(rows: seq<Row>): seq<Checkpoint> {
    if rows == [] then [] else CheckpointsOf(rows[..|rows| - 1]) + [CheckpointOf(rows[|rows| - 1])]
  }

  function LatestOf(rows: seq<Row>): Option<Checkpoint> {
    if rows == [] then None else Some(CheckpointOf(rows[|rows| - 1]))
  }

  // The list of checkpoints is in the order of the event ids, which need not be unique; rows for one event come in
  // row order, as an index on the event id lists them.
  function InsertByEvent(row: Row, sorted: seq<Row>): seq<Row> {
    if sorted == [] || sorted[|sorted| - 1].eventID <= row.eventID then sorted + [row]
    else InsertByEvent(row, sorted[..|sorted| - 1]) + [sorted[|sorted| - 1]]
  }

  function ListByEvent(rows: seq<Row>): seq<Row> {
    if rows == [] then [] else InsertByEvent(rows[|rows| - 1], ListByEvent(rows[..|rows| - 1]))
  }

  // What the local check wants of a table of rows.
  function Wants(rows: seq<Row>): map<int64, string> {
    Wanted(CheckpointsOf(ListByEvent(rows)))
  }

  lemma {:induction false} WantedAppend(rows: seq<Row>, row: Row)
    ensures Wanted(CheckpointsOf(rows + [row])) == Wanted(CheckpointsOf(rows))[row.eventID := row.digestHex]
  {
    assert (rows + [row])[..|rows|] == rows;
    var all := CheckpointsOf(rows + [row]);
    assert all[..|all| - 1] == CheckpointsOf(rows);
  }

  lemma {:induction false} InsertedIsWanted(row: Row, sorted: seq<Row>)
    ensures var want := Wanted(CheckpointsOf(InsertByEvent(row, sorted)));
            row.eventID in want && want[row.eventID] == row.digestHex
  {
    if sorted == [] || sorted[|sorted| - 1].eventID <= row.eventID {
      WantedAppend(sorted, row);
    } else {
      var front := sorted[..|sorted| - 1];
      InsertedIsWanted(row, front);
      WantedAppend(InsertByEvent(row, front), sorted[|sorted| - 1]);
    }
  }

  // The two queries agree: the digest wanted for the latest row's event is the latest row's, whatever the table holds.
  lemma LatestIsWanted(rows: seq<Row>)
    requires rows != []
    ensures var last := rows[|rows| - 1];
            last.eventID in Wants(rows) && Wants(rows)[last.eventID] == last.digestHex
  {
    InsertedIsWanted(rows[|rows| - 1], ListByEvent(rows[..|rows| - 1]));
  }

  // A table whose event ids increase is listed as it is.
  lemma {:induction false} IncreasingIsListed(rows: seq<Row>)
    requires Increasing(rows)
    ensures ListByEvent(rows) == rows
  {
    if rows != [] {
      IncreasingIsListed(rows[..|rows| - 1]);
      assert rows[..|rows| - 1] + [rows[|rows| - 1]] == rows;
    }
  }

  // Every digest that is wanted comes from a row for that event.
  lemma {:induction false} WantedRow(rows: seq<Row>, id: int64) returns (i: nat)
    requires id in Wanted(CheckpointsOf(rows))
    ensures i < |rows| && rows[i].eventID == id && Wanted(CheckpointsOf(rows))[id] == rows[i].digestHex
  {
    var front := rows[..|rows| - 1];
    var all := CheckpointsOf(rows);
    assert all[..|all| - 1] == CheckpointsOf(front);
    if rows[|rows| - 1].eventID == id {
      i := |rows| - 1;
    } else {
      i := WantedRow(front, id);
    }
  }

  lemma TrueRowAgrees(sha: Hash, events: seq<LedgerEvent>, row: Row, k: nat)
    requires IdsOk(events)
    requires IsTrue(sha, events, row) && k < |events| && events[k].id == row.eventID
    ensures row.digestHex == Hex(Digest(sha, events[..k + 1]))
  {
    var k' :| TrueAt(sha, events, row, k');
    assert k' == k;
  }

  lemma TrueRowsAgree(sha: Hash, events: seq<LedgerEvent>, rows: seq<Row>, n: nat, k: nat)
    requires IdsOk(events) && AllTrue(sha, events, rows) && Increasing(rows) && k < n <= |events|
    ensures Agrees(sha, events[..n], Wants(rows), k)
  {
    var id := events[k].id;
    assert events[..n][k].id == id && events[..n][..k + 1] == events[..k + 1];
    IncreasingIsListed(rows);
    if id in Wants(rows) {
      var i := WantedRow(rows, id);
      assert IsTrue(sha, events, rows[i]);
      TrueRowAgrees(sha, events, rows[i], k);
    }
  }

  // The local check never objects to an honest ledger whose digest was kept from its first event on, whatever part
  // of it the reader has seen.
  lemma LocalNeverFalse(sha: Hash, w: World, n: nat)
    requires Honest(sha, w) && n <= |w.events|
    ensures LocalOk(sha, w.events[..n], Wants(w.rows))
  {
    forall k | 0 <= k < n
      ensures Agrees(sha, w.events[..n], Wants(w.rows), k)
    {
      TrueRowsAgree(sha, w.events, w.rows, n, k);
    }
  }

  // ---- Events from before the digest table ----

  lemma {:induction false} EveryRowWanted(rows: seq<Row>, i: nat)
    requires Increasing(rows) && i < |rows|
    ensures var want := Wanted(CheckpointsOf(rows));
            rows[i].eventID in want && want[rows[i].eventID] == rows[i].digestHex
  {
    var front, last := rows[..|rows| - 1], rows[|rows| - 1];
    assert front + [last] == rows;
    WantedAppend(front, last);
    if i < |front| {
      EveryRowWanted(front, i);
    }
  }

  // One digest for a ledger with earlier events in front and for the same ledger without them.
  ghost predicate FrontClash(sha: Hash, pre: seq<LedgerEvent>, tail: seq<LedgerEvent>) {
    exists n | 0 < n <= |tail| :: Clash(sha, pre + tail[..n], tail[..n])
  }

  // Two ledgers of different lengths with one digest, as it is printed, clash.
  lemma {:induction false} SamePrintClashes(sha: Hash, a: seq<LedgerEvent>, b: seq<LedgerEvent>)
    requires Sized(sha) && |a| != |b| && Hex(Digest(sha, a)) == Hex(Digest(sha, b))
    ensures Clash(sha, a, b)
  {
    DigestSize(sha, a);
    DigestSize(sha, b);
    HexInjective(Digest(sha, a), Digest(sha, b));
    DigestBinds(sha, a, b);
  }

  lemma FrontParts(pre: seq<LedgerEvent>, events: seq<LedgerEvent>, k: nat)
    requires k < |events|
    ensures (pre + events)[|pre| + k] == events[k]
    ensures (pre + events)[..|pre| + k + 1] == pre + events[..k + 1]
  {
  }

  lemma FrontAgrees(sha: Hash, pre: seq<LedgerEvent>, events: seq<LedgerEvent>, row: Row, want: map<int64, string>, k: nat)
    requires Sized(sha) && pre != [] && TrueAt(sha, events, row, k)
    requires row.eventID in want && want[row.eventID] == row.digestHex
    requires Agrees(sha, pre + events, want, |pre| + k)
    ensures Clash(sha, pre + events[..k + 1], events[..k + 1])
  {
    FrontParts(pre, events, k);
    SamePrintClashes(sha, pre + events[..k + 1], events[..k + 1]);
  }

  lemma {:induction false} AnchoredObjects(sha: Hash, pre: seq<LedgerEvent>, events: seq<LedgerEvent>, rows: seq<Row>, i: nat, k: nat)
    requires Sized(sha) && pre != [] && Increasing(rows) && i < |rows| && TrueAt(sha, events, rows[i], k)
    requires LocalOk(sha, pre + events, Wants(rows))
    ensures FrontClash(sha, pre, events)
  {
    IncreasingIsListed(rows);
    EveryRowWanted(rows, i);
    assert Agrees(sha, pre + events, Wants(rows), |pre| + k);
    FrontAgrees(sha, pre, events, rows[i], Wants(rows), k);
  }

  predicate Anchors(rows: seq<Row>, events: seq<LedgerEvent>) {
    exists i, k :: 0 <= i < |rows| && 0 <= k < |events| && rows[i].eventID == events[k].id
  }

  lemma {:induction false} NoneWanted(sha: Hash, events: seq<LedgerEvent>, rows: seq<Row>)
    requires Increasing(rows) && !Anchors(rows, events)
    ensures LocalOk(sha, events, Wants(rows))
  {
    IncreasingIsListed(rows);
    forall k | 0 <= k < |events|
      ensures Agrees(sha, events, Wants(rows), k)
    {
      if events[k].id in Wants(rows) {
        var i := WantedRow(rows, events[k].id);
      }
    }
  }

  lemma RowNotBefore(sha: Hash, pre: seq<LedgerEvent>, events: seq<LedgerEvent>, row: Row, m: nat)
    requires IsTrue(sha, events, row) && IdsOk(pre + events) && m < |pre|
    ensures row.eventID != pre[m].id
  {
    var k: nat :| TrueAt(sha, events, row, k);
    var all := pre + events;
    assert all[m] == pre[m] && all[|pre| + k] == events[k];
  }

  // A row is for an event since the table, so for none before it.
  lemma {:induction false} NotBefore(sha: Hash, pre: seq<LedgerEvent>, events: seq<LedgerEvent>, rows: seq<Row>)
    requires AllTrue(sha, events, rows) && IdsOk(pre + events)
    ensures !Anchors(rows, pre)
  {
    if Anchors(rows, pre) {
      var i, m :| 0 <= i < |rows| && 0 <= m < |pre| && rows[i].eventID == pre[m].id;
      assert IsTrue(sha, events, rows[i]);
      RowNotBefore(sha, pre, events, rows[i], m);
    }
  }

  lemma AnchorsFront(rows: seq<Row>, pre: seq<LedgerEvent>, events: seq<LedgerEvent>)
    requires !Anchors(rows, pre) && !Anchors(rows, events)
    ensures !Anchors(rows, pre + events)
  {
  }

  // A row that is true of a longer ledger is true of a part of it that has its event.
  lemma TrueOfPart(sha: Hash, events: seq<LedgerEvent>, more: seq<LedgerEvent>, row: Row, k: nat)
    requires events <= more && IdsOk(more) && IsTrue(sha, more, row) && k < |events| && events[k].id == row.eventID
    ensures TrueAt(sha, events, row, k)
  {
    TrueRowAgrees(sha, more, row, k);
    assert more[..k + 1] == events[..k + 1];
  }

  lemma {:induction false} ReadAnchorObjects(sha: Hash, pre: seq<LedgerEvent>, events: seq<LedgerEvent>, later: World)
    requires Sized(sha) && Honest(sha, later) && events <= later.events && pre != []
    requires Anchors(later.rows, events) && LocalOk(sha, pre + events, Wants(later.rows))
    ensures FrontClash(sha, pre, events)
  {
    var i, k :| 0 <= i < |later.rows| && 0 <= k < |events| && later.rows[i].eventID == events[k].id;
    assert IsTrue(sha, later.events, later.rows[i]);
    TrueOfPart(sha, events, later.events, later.rows[i], k);
    AnchoredObjects(sha, pre, events, later.rows, i, k);
  }

  lemma {:induction false} NoAnchorPasses(sha: Hash, pre: seq<LedgerEvent>, events: seq<LedgerEvent>, later: World)
    requires Honest(sha, later) && IdsOk(pre + later.events) && !Anchors(later.rows, events)
    ensures LocalOk(sha, pre + events, Wants(later.rows))
  {
    NotBefore(sha, pre, later.events, later.rows);
    AnchorsFront(later.rows, pre, events);
    NoneWanted(sha, pre + events, later.rows);
  }

  // The check as it runs: the events are read at one moment, the checkpoints at a later one.
  lemma {:induction false} LocalPasses(sha: Hash, pre: seq<LedgerEvent>, w: World, between: seq<Op>)
    requires Sized(sha) && Honest(sha, w) && AllPlain(between)
    requires pre == [] || Run(sha, w, between).rows == []
    ensures LocalOk(sha, pre + w.events, Wants(Run(sha, w, between).rows))
  {
    var later := Run(sha, w, between);
    if pre == [] {
      RunKeepsHonest(sha, w, between);
      RunGrows(sha, w, between);
      assert pre + w.events == later.events[..|w.events|];
      LocalNeverFalse(sha, later, |w.events|);
    } else {
      assert !Anchors(later.rows, pre + w.events);
      NoneWanted(sha, pre + w.events, later.rows);
    }
  }

  // Exactly when the local check is content with an honest history that has events from before the digest table in
  // front: there are none, or no event that it read was anchored by the time it reads the checkpoints. Otherwise it
  // objects, up to a clash of the hash between the ledger with and without those events.
  lemma {:induction false} LocalExactly(sha: Hash, pre: seq<LedgerEvent>, w: World, between: seq<Op>)
    requires Sized(sha) && Honest(sha, w) && AllPlain(between) && IdsOk(pre + Run(sha, w, between).events)
    ensures var rows := Run(sha, w, between).rows;
            && (pre == [] || !Anchors(rows, w.events) ==> LocalOk(sha, pre + w.events, Wants(rows)))
            && (LocalOk(sha, pre + w.events, Wants(rows)) ==>
                  pre == [] || !Anchors(rows, w.events) || FrontClash(sha, pre, w.events))
  {
    var later := Run(sha, w, between);
    RunKeepsHonest(sha, w, between);
    RunGrows(sha, w, between);
    if pre == [] {
      LocalPasses(sha, pre, w, between);
    } else if !Anchors(later.rows, w.events) {
      NoAnchorPasses(sha, pre, w.events, later);
    } else if LocalOk(sha, pre + w.events, Wants(later.rows)) {
      ReadAnchorObjects(sha, pre, w.events, later);
    }
  }

  // ---- Honest runs against the remote check ----

  predicate HasLineFor(log: seq<AnchorLine>, id: int64) {
    exists i | 0 <= i < |log| :: log[i].eventID == id
  }

  predicate BlankHost(log: seq<AnchorLine>) {
    log != [] && Words(log[|log| - 1].hostname) == []
  }

  // The log ends with a line for the latest row as soon as it has one at all.
  lemma EndsWithLatest(sha: Hash, events: seq<LedgerEvent>, rows: seq<Row>, log: seq<AnchorLine>)
    requires RowsOk(sha, events, rows) && LogOk(rows, log) && log != []
    ensures rows != [] && log[|log| - 1].eventID <= rows[|rows| - 1].eventID
    ensures HasLineFor(log, rows[|rows| - 1].eventID) <==> Matches(log[|log| - 1], rows[|rows| - 1])
  {
    var last := log[|log| - 1];
    assert ForSome(rows, last);
    LineBound(sha, events, rows, last);
    var id := rows[|rows| - 1].eventID;
    if HasLineFor(log, id) {
      var i :| 0 <= i < |log| && log[i].eventID == id;
      assert log[i].eventID <= last.eventID;
    }
  }

  // What the check says of a log it can read: the ids and digests of the last line and of the latest row decide.
  lemma {:induction false} CheckRendered(log: seq<AnchorLine>, latest: Checkpoint)
    requires AllWritten(log) && log != [] && !BlankHost(log)
    ensures var last := log[|log| - 1];
            CheckRemote(Some(Render(log)), Some(latest)) ==
            if last.eventID == latest.eventID && last.digestHex == latest.digestHex then Ok(None)
            else Ok(Some(if last.eventID > latest.eventID then last.eventID else latest.eventID))
  {
    ReadsLastRecord(log);
  }

  lemma {:induction false} NothingToCompare(log: seq<AnchorLine>, latest: Option<Checkpoint>)
    requires AllWritten(log) && !BlankHost(log) && (log == [] || latest == None)
    ensures CheckRemote(Some(Render(log)), latest) == Ok(None)
  {
    ReadsLastRecord(log);
  }

  // An honest log next to honest rows, when there are both.
  lemma {:induction false} CheckHonestLog(sha: Hash, events: seq<LedgerEvent>, rows: seq<Row>, log: seq<AnchorLine>)
    requires RowsOk(sha, events, rows) && LogOk(rows, log) && !BlankHost(log) && log != [] && rows != []
    ensures var latest := rows[|rows| - 1];
            CheckRemote(Some(Render(log)), Some(CheckpointOf(latest))) ==
            if HasLineFor(log, latest.eventID) then Ok(None) else Ok(Some(latest.eventID))
  {
    var last, latest := log[|log| - 1], rows[|rows| - 1];
    EndsWithLatest(sha, events, rows, log);
    assert last.eventID <= latest.eventID;
    assert HasLineFor(log, latest.eventID) <==> last.eventID == latest.eventID && last.digestHex == latest.digestHex;
    CheckRendered(log, CheckpointOf(latest));
  }

  // There is nothing to compare, or the log has a line for the latest row.
  predicate Accounted(log: seq<AnchorLine>, rows: seq<Row>) {
    rows == [] || log == [] || HasLineFor(log, rows[|rows| - 1].eventID)
  }

  lemma {:induction false} CheckLogAndRows(sha: Hash, events: seq<LedgerEvent>, rows: seq<Row>, log: seq<AnchorLine>)
    requires RowsOk(sha, events, rows) && LogOk(rows, log) && !BlankHost(log)
    ensures CheckRemote(Some(Render(log)), LatestOf(rows)) ==
            if Accounted(log, rows) then Ok(None) else Ok(Some(rows[|rows| - 1].eventID))
  {
    if rows == [] || log == [] {
      NothingToCompare(log, LatestOf(rows));
    } else {
      CheckHonestLog(sha, events, rows, log);
    }
  }

  // Exactly when the remote check is content with an honest history. It reads the log first and the latest row after
  // it, and anything may happen in between: it is content when there is nothing to compare, or the log that was read
  // has a line for the row that is the latest by then. Otherwise it blames that row's event, without anything having
  // been tampered with.
  lemma {:induction false} RemoteExactly(sha: Hash, w: World, between: seq<Op>)
    requires Sized(sha) && Honest(sha, w) && AllPlain(between) && !BlankHost(Seen(w))
    ensures var rows := Run(sha, w, between).rows;
            CheckRemote(Some(Render(Seen(w))), LatestOf(rows)) ==
            if Accounted(Seen(w), rows) then Ok(None) else Ok(Some(rows[|rows| - 1].eventID))
  {
    var later := Run(sha, w, between);
    RunKeepsHonest(sha, w, between);
    RunGrows(sha, w, between);
    LogOutlives(w.rows, later.rows, Seen(w));
    CheckLogAndRows(sha, later.events, later.rows, Seen(w));
  }

  lemma BlankHostFails(sha: Hash, w: World, latest: Option<Checkpoint>)
    requires Honest(sha, w) && BlankHost(Seen(w))
    ensures CheckRemote(Some(Render(Seen(w))), latest) == Err(TooFewFields)
  {
    ReadsLastRecord(Seen(w));
  }

  // Once the latest row is marked, its line is in every log that can be read.
  lemma PushedIsInLog(sha: Hash, w: World)
    requires Honest(sha, w) && w.rows != [] && w.rows[|w.rows| - 1].pushed
    ensures HasLineFor(Seen(w), w.rows[|w.rows| - 1].eventID)
  {
    var k := |w.remote| - 1;
    assert w.remote != [] && w.rows[|w.rows| - 1].eventID <= w.remote[k].eventID;
    assert w.remote <= Seen(w);
    assert Seen(w)[k] == w.remote[k];
    assert ForSome(w.rows, Seen(w)[k]);
    LineBound(sha, w.events, w.rows, Seen(w)[k]);
  }

  lemma PushedIsAccounted(sha: Hash, w: World, rows: seq<Row>)
    requires Honest(sha, w) && w.rows != [] && w.rows[|w.rows| - 1].pushed
    requires Grown(w.rows, rows) && |rows| == |w.rows|
    ensures Accounted(Seen(w), rows)
  {
    PushedIsInLog(sha, w);
    assert rows[|rows| - 1].eventID == w.rows[|rows| - 1].eventID;
  }

  // The latest row is pushed when the log is read, and no row is added before the latest row is read.
  predicate Settled(w: World, later: World) {
    w.rows != [] && w.rows[|w.rows| - 1].pushed && |later.rows| == |w.rows|
  }

  lemma {:induction false} RemotePasses(sha: Hash, w: World, between: seq<Op>)
    requires Sized(sha) && Honest(sha, w) && AllPlain(between) && !BlankHost(Seen(w))
    requires Settled(w, Run(sha, w, between))
    ensures CheckRemote(Some(Render(Seen(w))), LatestOf(Run(sha, w, between).rows)) == Ok(None)
  {
    RunGrows(sha, w, between);
    PushedIsAccounted(sha, w, Run(sha, w, between).rows);
    RemoteExactly(sha, w, between);
  }

  lemma {:induction false} NoFalseLocal(sha: Hash, pre: seq<LedgerEvent>, since: World, between: seq<Op>)
    requires Sized(sha) && Honest(sha, since) && AllPlain(between)
    ensures var w := Behind(pre, since);
            var later := Run(sha, w, between);
            pre == [] || later.rows == [] ==> LocalOk(sha, w.events, Wants(later.rows))
  {
    RunBehind(sha, pre, since, between);
    if pre == [] || Run(sha, since, between).rows == [] {
      LocalPasses(sha, pre, since, between);
    }
  }

  lemma {:induction false} NoFalseRemote(sha: Hash, pre: seq<LedgerEvent>, since: World, between: seq<Op>)
    requires Sized(sha) && Honest(sha, since) && AllPlain(between)
    ensures var w := Behind(pre, since);
            var later := Run(sha, w, between);
            Settled(w, later) && !BlankHost(Seen(w)) ==> CheckRemote(Some(Render(Seen(w))), LatestOf(later.rows)) == Ok(None)
  {
    RunBehind(sha, pre, since, between);
    if Settled(since, Run(sha, since, between)) && !BlankHost(Seen(since)) {
      RemotePasses(sha, since, between);
    }
  }

  // No false alarm: after any run from a database without earlier events, the local check passes, whatever happens
  // between its two reads; and the remote check passes when the latest row is pushed at the time the log is read and
  // no row is added before the latest row is read.
  lemma {:induction false} NoFalseAlarm(sha: Hash, configured: bool, pre: seq<LedgerEvent>, ops: seq<Op>, between: seq<Op>)
    requires Sized(sha) && AllPlain(ops) && AllPlain(between)
    ensures var w := Run(sha, Upgraded(configured, pre), ops);
            var later := Run(sha, w, between);
            && (pre == [] || later.rows == [] ==> LocalOk(sha, w.events, Wants(later.rows)))
            && (Settled(w, later) && !BlankHost(Seen(w)) ==>
                  CheckRemote(Some(Render(Seen(w))), LatestOf(later.rows)) == Ok(None))
  {
    var since := RunStaysHonest(sha, configured, pre, ops);
    NoFalseLocal(sha, pre, since, between);
    NoFalseRemote(sha, pre, since, between);
  }

  // And the local check objects after any run that anchored something in a database with earlier events, up to a
  // clash of the hash.
  lemma {:induction false} UpgradeRaisesAlarm(sha: Hash, configured: bool, pre: seq<LedgerEvent>, ops: seq<Op>, between: seq<Op>)
    requires Sized(sha) && AllPlain(ops) && AllPlain(between) && pre != []
    requires Run(sha, Upgraded(configured, pre), ops).rows != []
    ensures var w := Run(sha, Upgraded(configured, pre), ops);
            var since := Run(sha, Fresh(configured), ops);
            && w.events == pre + since.events
            && (!LocalOk(sha, w.events, Wants(Run(sha, w, between).rows)) || FrontClash(sha, pre, since.events))
  {
    var since := RunStaysHonest(sha, configured, pre, ops);
    RunBehind(sha, pre, since, between);
    AnchoredSince(sha, since, between);
    var later := Run(sha, since, between);
    if LocalOk(sha, pre + since.events, Wants(later.rows)) {
      ReadAnchorObjects(sha, pre, since.events, later);
    }
  }

  lemma TrueRowAnchors(sha: Hash, events: seq<LedgerEvent>, rows: seq<Row>, rows': seq<Row>)
    requires rows != [] && AllTrue(sha, events, rows) && Grown(rows, rows')
    ensures Anchors(rows', events)
  {
    assert IsTrue(sha, events, rows[0]);
    var k: nat :| TrueAt(sha, events, rows[0], k);
    assert rows'[0].eventID == events[k].id;
  }

  lemma {:induction false} AnchoredSince(sha: Hash, w: World, between: seq<Op>)
    requires Sized(sha) && Honest(sha, w) && AllPlain(between) && w.rows != []
    ensures var later := Run(sha, w, between);
            Honest(sha, later) && w.events <= later.events && Anchors(later.rows, w.events)
  {
    RunKeepsHonest(sha, w, between);
    RunGrows(sha, w, between);
    TrueRowAnchors(sha, w.events, w.rows, Run(sha, w, between).rows);
  }

  // ---- The promise the remote check does not keep ----

  function Env0(fault: Fault): Env {
    Env("t", Some("h"), fault, None)
  }

  function Anchored(sha: Hash, e: LedgerEvent): World {
    var hex := Hex(NextDigest(sha, Genesis(), e));
    var log := [AnchorLine(e.id, hex, "t", "h")];
    World(true, [e], e.id, NextDigest(sha, Genesis(), e), [Row(e.id, hex, true)], Some(Clone(log, log)), log)
  }

  lemma FirstAnchor(sha: Hash, e: LedgerEvent)
    requires 0 < e.id
    ensures Step(sha, Step(sha, Fresh(true), Append(e)), Tick(Env0(NoFault))) == Anchored(sha, e)
  {
    var w := Step(sha, Fresh(true), Append(e));
    var hex := Hex(NextDigest(sha, Genesis(), e));
    var row := Row(e.id, hex, false);
    assert [] + [e] == [e] && [] + [row] == [row];
    assert w.events == [e] && w.rows + [row] == [row];
    assert ClaimRow(w, NoFault) == (w.(rows := [row]), Some(row));
    var w1 := w.(rows := [row]);
    assert EnsureClone(w1, NoFault) == (w1.(repo := Some(Clone([], []))), true);
    assert [] + [LineOf(row, Env0(NoFault))] == Anchored(sha, e).remote;
    assert Marked([row]) == [row.(pushed := true)];
  }

  lemma SecondOffline(sha: Hash, e: LedgerEvent, f: LedgerEvent)
    requires 0 < e.id < f.id
    ensures var w := Step(sha, Step(sha, Anchored(sha, e), Append(f)), Tick(Env0(Unreachable)));
            && Seen(w) == Anchored(sha, e).remote
            && |w.rows| == 2 && w.rows[1].eventID == f.id
  {
    var w := Step(sha, Anchored(sha, e), Append(f));
    assert NeedsRow(w);
    assert EnsureClone(ClaimRow(w, Unreachable).0, Unreachable).0 == ClaimRow(w, Unreachable).0;
  }

  lemma {:induction false} RunOfFour(sha: Hash, w: World, a: Op, b: Op, c: Op, d: Op)
    ensures Run(sha, w, [a, b, c, d]) == Step(sha, Step(sha, Step(sha, Step(sha, w, a), b), c), d)
  {
    assert [a, b, c, d][..3] == [a, b, c];
    assert [a, b, c][..2] == [a, b];
    assert [a, b][..1] == [a];
    assert [a][..0] == [];
    assert Run(sha, w, []) == w;
    assert Run(sha, w, [a]) == Step(sha, w, a);
    assert Run(sha, w, [a, b]) == Step(sha, Run(sha, w, [a]), b);
    assert Run(sha, w, [a, b, c]) == Step(sha, Run(sha, w, [a, b]), c);
  }

  // The exception is real: anchor one event, append another, tick while the remote is down. The check that runs
  // when the remote is back reports the second event as tampered with.
  lemma PendingRowRaisesAlarm(sha: Hash, e: LedgerEvent, f: LedgerEvent) returns (ops: seq<Op>)
    requires Sized(sha) && 0 < e.id < f.id
    ensures AllPlain(ops)
    ensures var w := Run(sha, Fresh(true), ops);
            CheckRemote(Some(Render(Seen(w))), LatestOf(w.rows)) == Ok(Some(f.id))
  {
    ops := [Append(e), Tick(Env0(NoFault)), Append(f), Tick(Env0(Unreachable))];
    assert AllPlain(ops);
    RunOfFour(sha, Fresh(true), ops[0], ops[1], ops[2], ops[3]);
    FirstAnchor(sha, e);
    SecondOffline(sha, e, f);
    var w := Run(sha, Fresh(true), ops);
    RunKeepsHonest(sha, Fresh(true), ops);
    HostIsAWord();
    RemoteExactly(sha, w, []);
  }

  lemma SecondOnline(sha: Hash, e: LedgerEvent, f: LedgerEvent)
    requires 0 < e.id < f.id
    ensures var rows := Step(sha, Step(sha, Anchored(sha, e), Append(f)), Tick(Env0(NoFault))).rows;
            |rows| == 2 && rows[1].eventID == f.id && rows[1].pushed
  {
    var w := Step(sha, Anchored(sha, e), Append(f));
    assert NeedsRow(w);
    var row := Row(f.id, Hex(w.digest), false);
    var w1 := ClaimRow(w, NoFault).0;
    assert w1.rows == w.rows + [row];
    assert EnsureClone(w1, NoFault) == (w1, true);
  }

  lemma AnchoredIsHonest(sha: Hash, e: LedgerEvent)
    requires Sized(sha) && 0 < e.id
    ensures Honest(sha, Anchored(sha, e)) && !BlankHost(Seen(Anchored(sha, e)))
  {
    FirstAnchor(sha, e);
    HostIsAWord();
    StepKeepsHonest(sha, Fresh(true), Append(e));
    StepKeepsHonest(sha, Step(sha, Fresh(true), Append(e)), Tick(Env0(NoFault)));
  }

  lemma {:induction false} RunOfTwo(sha: Hash, w: World, a: Op, b: Op)
    ensures Run(sha, w, [a, b]) == Step(sha, Step(sha, w, a), b)
  {
    assert [a, b][..1] == [a] && [a][..0] == [];
    assert Run(sha, w, []) == w;
    assert Run(sha, w, [a]) == Step(sha, w, a);
  }

  // Nor does it take a pending row: a tick that succeeds between the two reads of the check does it, although the
  // latest row is pushed at both moments.
  lemma TickBetweenRaisesAlarm(sha: Hash, e: LedgerEvent, f: LedgerEvent)
    requires Sized(sha) && 0 < e.id < f.id
    ensures var w := Anchored(sha, e);
            var later := Run(sha, w, [Append(f), Tick(Env0(NoFault))]);
            && w.rows[0].pushed && |later.rows| == 2 && later.rows[1].pushed
            && CheckRemote(Some(Render(Seen(w))), LatestOf(later.rows)) == Ok(Some(f.id))
  {
    var w := Anchored(sha, e);
    var between := [Append(f), Tick(Env0(NoFault))];
    AnchoredIsHonest(sha, e);
    RunOfTwo(sha, w, between[0], between[1]);
    SecondOnline(sha, e, f);
    HostIsAWord();
    assert AllPlain(between);
    RemoteExactly(sha, w, between);
    assert !HasLineFor(Seen(w), f.id);
  }

  lemma SecondBlamed(sha: Hash, e: LedgerEvent, f: LedgerEvent, want: map<int64, string>)
    requires Sized(sha) && e.id < f.id && want == map[f.id := Hex(Digest(sha, [f]))]
    ensures FirstDisagreement(sha, [e, f], want, f.id) || Clash(sha, [e, f], [f])
  {
    var both := [e, f];
    assert both[..1 + 1] == both && both[1] == f && both[0] == e;
    if Agrees(sha, both, want, 1) {
      SamePrintClashes(sha, both, [f]);
    } else {
      assert LocalOkBefore(sha, both, want, 1);
    }
  }

  lemma AnchoredBehind(sha: Hash, e: LedgerEvent, f: LedgerEvent)
    requires 0 < f.id
    ensures Run(sha, Upgraded(true, [e]), [Append(f), Tick(Env0(NoFault))]) == Behind([e], Anchored(sha, f))
  {
    var ops := [Append(f), Tick(Env0(NoFault))];
    assert [e] + [] == [e];
    RunBehind(sha, [e], Fresh(true), ops);
    RunOfTwo(sha, Fresh(true), ops[0], ops[1]);
    FirstAnchor(sha, f);
  }

  // A database with one event in it is upgraded, another event is appended and anchored: the check reports the second
  // event, the first that was ever anchored, as tampered with, up to a clash of the hash on these two.
  lemma FirstAnchorBlamed(sha: Hash, e: LedgerEvent, f: LedgerEvent)
    requires Sized(sha) && 0 < e.id < f.id
    ensures var w := Run(sha, Upgraded(true, [e]), [Append(f), Tick(Env0(NoFault))]);
            FirstDisagreement(sha, w.events, Wants(w.rows), f.id) || Clash(sha, [e, f], [f])
  {
    var w := Behind([e], Anchored(sha, f));
    AnchoredBehind(sha, e, f);
    assert w.events == [e, f];
    DigestOfOne(sha, f);
    OneRowWanted(w.rows[0]);
    SecondBlamed(sha, e, f, Wants(w.rows));
  }

  lemma DigestOfOne(sha: Hash, f: LedgerEvent)
    ensures Digest(sha, [f]) == NextDigest(sha, Genesis(), f)
  {
    assert [f][..0] == [] && Digest(sha, []) == Genesis();
  }

  lemma HostIsAWord()
    ensures Words("h") == ["h"]
  {
    WordFirst("h", "");
    assert "h" + "" == "h";
  }

  // ---- Tampering with the whole local database ----

  // The line carries the true digest of the honest ledger at its event, as every line that was ever anchored does.
  ghost predicate TrueLine(sha: Hash, events: seq<LedgerEvent>, line: AnchorLine) {
    IsTrue(sha, events, Row(line.eventID, line.digestHex, true))
  }

  lemma AnchoredLineIsTrue(sha: Hash, w: World, line: AnchorLine)
    requires Honest(sha, w) && ForSome(w.rows, line)
    ensures TrueLine(sha, w.events, line)
  {
    var i :| 0 <= i < |w.rows| && Matches(line, w.rows[i]);
    assert IsTrue(sha, w.events, w.rows[i]);
    var k :| TrueAt(sha, w.events, w.rows[i], k);
    assert TrueAt(sha, w.events, Row(line.eventID, line.digestHex, true), k);
  }

  // Both checks are content with this database and this log file, and the log's last line is about the k-th event.
  ghost predicate PassesAt(sha: Hash, events: seq<LedgerEvent>, rows: seq<Row>, file: string, line: AnchorLine, k: nat) {
    && rows != [] && LocalOk(sha, events, Wants(rows))
    && ReadLast(file) == Ok(Some(line)) && CheckRemote(Some(file), LatestOf(rows)) == Ok(None)
    && k < |events| && events[k].id == line.eventID
  }

  lemma PassingIsDigest(sha: Hash, events: seq<LedgerEvent>, rows: seq<Row>, file: string, line: AnchorLine, k: nat)
    requires PassesAt(sha, events, rows, file, line, k)
    ensures line.digestHex == Hex(Digest(sha, events[..k + 1]))
  {
    LatestIsWanted(rows);
    assert Agrees(sha, events, Wants(rows), k);
  }

  // The ledger up to the k-th event is a prefix of the honest one, or clashes with it.
  ghost predicate Unchanged(sha: Hash, honest: seq<LedgerEvent>, events: seq<LedgerEvent>, k: nat)
    requires k < |events|
  {
    exists n | 0 < n <= |honest| ::
      honest[n - 1].id == events[k].id && (events[..k + 1] == honest[..n] || Clash(sha, events[..k + 1], honest[..n]))
  }

  // Someone rewrites events, checkpoints and even the log that is read, and both checks pass. Exactly when that
  // log's last line is true of the honest ledger, everything up to its event is as it was, up to a clash of the hash
  // between the two ledgers.
  lemma RewriteDetected(sha: Hash, w: World, events: seq<LedgerEvent>, rows: seq<Row>, file: string, line: AnchorLine, k: nat)
    requires Sized(sha) && Honest(sha, w) && PassesAt(sha, events, rows, file, line, k)
    ensures TrueLine(sha, w.events, line) ==> Unchanged(sha, w.events, events, k)
    ensures (exists n | 0 < n <= |w.events| :: events[..k + 1] == w.events[..n]) ==> TrueLine(sha, w.events, line)
  {
    PassingIsDigest(sha, events, rows, file, line, k);
    var row := Row(line.eventID, line.digestHex, true);
    if TrueLine(sha, w.events, line) {
      var m :| TrueAt(sha, w.events, row, m);
      var n := m + 1;
      DigestSize(sha, events[..k + 1]);
      DigestSize(sha, w.events[..n]);
      HexInjective(Digest(sha, events[..k + 1]), Digest(sha, w.events[..n]));
      DigestBinds(sha, events[..k + 1], w.events[..n]);
      assert w.events[n - 1].id == events[k].id;
    }
    if exists n | 0 < n <= |w.events| :: events[..k + 1] == w.events[..n] {
      var n :| 0 < n <= |w.events| && events[..k + 1] == w.events[..n];
      PrefixIsTrue(sha, w.events, events, k, n, row);
    }
  }

  lemma PrefixIsTrue(sha: Hash, honest: seq<LedgerEvent>, events: seq<LedgerEvent>, k: nat, n: nat, row: Row)
    requires k < |events| && 0 < n <= |honest| && events[..k + 1] == honest[..n]
    requires row.eventID == events[k].id && row.digestHex == Hex(Digest(sha, events[..k + 1]))
    ensures IsTrue(sha, honest, row)
  {
    assert |events[..k + 1]| == |honest[..n]| && events[..k + 1][k] == honest[..n][k];
    assert TrueAt(sha, honest, row, k);
  }

  // A database that was tampered with, next to a remote that was not.
  predicate SameRemote(w: World, t: World) {
    t.remote == w.remote
  }

  lemma DroppedRowsAgree(sha: Hash, events: seq<LedgerEvent>, rows: seq<Row>, n: nat)
    requires IdsOk(events) && RowsOk(sha, events, rows) && n <= |rows|
    ensures LocalOk(sha, events, Wants(rows[..n]))
  {
    assert forall i | 0 <= i < n :: rows[..n][i] == rows[i];
    forall i | 0 <= i < n
      ensures IsTrue(sha, events, rows[..n][i])
    {
      assert IsTrue(sha, events, rows[i]);
    }
    assert events[..|events|] == events;
    forall k | 0 <= k < |events|
      ensures Agrees(sha, events, Wants(rows[..n]), k)
    {
      TrueRowsAgree(sha, events, rows[..n], |events|, k);
    }
  }

  lemma {:induction false} DroppedRowsBlamed(sha: Hash, events: seq<LedgerEvent>, rows: seq<Row>, log: seq<AnchorLine>, n: nat)
    requires RowsOk(sha, events, rows) && LogOk(rows, log) && !BlankHost(log) && log != []
    requires 0 < n <= |rows| && HasLineFor(log, rows[|rows| - 1].eventID)
    ensures CheckRemote(Some(Render(log)), Some(CheckpointOf(rows[n - 1])))
            == if n < |rows| then Ok(Some(rows[|rows| - 1].eventID)) else Ok(None)
  {
    EndsWithLatest(sha, events, rows, log);
    CheckRendered(log, CheckpointOf(rows[n - 1]));
    if n < |rows| {
      assert rows[n - 1].eventID < rows[|rows| - 1].eventID;
    }
  }

  lemma LatestOfPrefix(rows: seq<Row>, n: nat)
    requires n <= |rows|
    ensures LatestOf(rows[..n]) == if n == 0 then None else Some(CheckpointOf(rows[n - 1]))
  {
  }

  lemma {:induction false} DroppedSome(sha: Hash, events: seq<LedgerEvent>, rows: seq<Row>, log: seq<AnchorLine>, n: nat)
    requires RowsOk(sha, events, rows) && LogOk(rows, log) && !BlankHost(log) && log != []
    requires 0 < n <= |rows| && HasLineFor(log, rows[|rows| - 1].eventID)
    ensures CheckRemote(Some(Render(log)), LatestOf(rows[..n]))
            == if n < |rows| then Ok(Some(rows[|rows| - 1].eventID)) else Ok(None)
  {
    LatestOfPrefix(rows, n);
    DroppedRowsBlamed(sha, events, rows, log, n);
  }

  lemma {:induction false} DroppedAll(sha: Hash, rows: seq<Row>, log: seq<AnchorLine>)
    requires AllWritten(log) && !BlankHost(log)
    ensures CheckRemote(Some(Render(log)), LatestOf(rows[..0])) == Ok(None)
  {
    LatestOfPrefix(rows, 0);
    NothingToCompare(log, None);
  }

  lemma {:induction false} DroppedRemote(sha: Hash, events: seq<LedgerEvent>, rows: seq<Row>, log: seq<AnchorLine>, left: seq<Row>)
    requires RowsOk(sha, events, rows) && LogOk(rows, log) && !BlankHost(log) && log != []
    requires rows != [] && left <= rows && HasLineFor(log, rows[|rows| - 1].eventID)
    ensures CheckRemote(Some(Render(log)), LatestOf(left))
            == if left == [] || left == rows then Ok(None) else Ok(Some(rows[|rows| - 1].eventID))
  {
    assert left == rows[..|left|];
    if left == [] {
      DroppedAll(sha, rows, log);
    } else {
      DroppedSome(sha, events, rows, log, |left|);
    }
  }

  lemma PushedHasLog(sha: Hash, w: World)
    requires Honest(sha, w) && w.rows != [] && w.rows[|w.rows| - 1].pushed
    ensures var log := Seen(w);
            log != [] && LogOk(w.rows, log) && RowsOk(sha, w.events, w.rows) && HasLineFor(log, w.rows[|w.rows| - 1].eventID)
  {
    PushedIsInLog(sha, w);
  }

  // Someone drops the latest checkpoints. The local check never notices.
  lemma {:induction false} DroppedRowsUnnoticed(sha: Hash, w: World, n: nat)
    requires Honest(sha, w) && n <= |w.rows|
    ensures LocalOk(sha, w.events, Wants(w.rows[..n]))
  {
    DroppedRowsAgree(sha, w.events, w.rows, n);
  }

  // The remote check does when the latest of them was pushed, and blames the event that was anchored last, unless the
  // whole table is gone: then there is nothing to compare, and it passes too.
  lemma {:induction false} DroppedRowsExactly(sha: Hash, w: World, left: seq<Row>)
    requires Honest(sha, w) && w.rows != [] && w.rows[|w.rows| - 1].pushed
    requires left <= w.rows && !BlankHost(Seen(w))
    ensures CheckRemote(Some(Render(Seen(w))), LatestOf(left))
            == if left == [] || left == w.rows then Ok(None) else Ok(Some(w.rows[|w.rows| - 1].eventID))
  {
    PushedHasLog(sha, w);
    DroppedRemote(sha, w.events, w.rows, Seen(w), left);
  }

  // What the check really reads is the working copy after a pull. When there is none it is cloned, its last line is
  // one that was anchored, and the rewrite is detected.
  lemma FreshCloneDetects(sha: Hash, w: World, t: World, k: nat)
    requires Sized(sha) && Honest(sha, w) && SameRemote(w, t) && t.repo.None? && w.remote != [] && !BlankHost(w.remote)
    requires PassesAt(sha, t.events, t.rows, Render(Seen(EnsureClone(t, NoFault).0)), Respaced(w.remote[|w.remote| - 1]), k)
    ensures Unchanged(sha, w.events, t.events, k)
  {
    var last := w.remote[|w.remote| - 1];
    LogPrefix(w.rows, w.remote, Seen(w));
    assert ForSome(w.rows, last);
    AnchoredLineIsTrue(sha, w, last);
    assert TrueLine(sha, w.events, Respaced(last));
    RewriteDetected(sha, w, t.events, t.rows, Render(w.remote), Respaced(last), k);
  }

  // So does a working copy whose last line, after the pull, is an anchored one.
  lemma AnchoredWorkingCopyDetects(sha: Hash, w: World, t: World, k: nat)
    requires Sized(sha) && Honest(sha, w) && SameRemote(w, t) && EnsureClone(t, NoFault).1
    requires var log := Seen(EnsureClone(t, NoFault).0);
             && AllWritten(log) && log != [] && ForSome(w.rows, log[|log| - 1])
             && PassesAt(sha, t.events, t.rows, Render(log), Respaced(log[|log| - 1]), k)
    ensures Unchanged(sha, w.events, t.events, k)
  {
    var log := Seen(EnsureClone(t, NoFault).0);
    var last := log[|log| - 1];
    AnchoredLineIsTrue(sha, w, last);
    assert TrueLine(sha, w.events, Respaced(last));
    RewriteDetected(sha, w, t.events, t.rows, Render(log), Respaced(last), k);
  }

  // The database and the working copy of a forger who never touches the remote: any ledger, one row and one line for
  // its last event, and the local branch as it was.
  function Forged(sha: Hash, w: World, forged: seq<LedgerEvent>): World
    requires forged != []
  {
    var id, hex := forged[|forged| - 1].id, Hex(Digest(sha, forged));
    w.(events := forged, lastEventID := id, digest := Digest(sha, forged), rows := [Row(id, hex, true)],
       repo := Some(Clone([AnchorLine(id, hex, "t", "h")], w.remote)))
  }

  lemma OneRowWanted(row: Row)
    ensures Wants([row]) == map[row.eventID := row.digestHex]
  {
    assert [row][..0] == [] && [] + [row] == [row];
    assert ListByEvent([]) == [] && CheckpointsOf([]) == [] && Wanted([]) == map[];
    assert ListByEvent([row]) == InsertByEvent(row, []);
    WantedAppend([], row);
  }

  // One row for the last event: every event before it is no checkpoint.
  lemma {:induction false} OneRowAgrees(sha: Hash, events: seq<LedgerEvent>, row: Row)
    requires events != [] && IdsOk(events)
    requires row.eventID == events[|events| - 1].id && row.digestHex == Hex(Digest(sha, events))
    ensures LocalOk(sha, events, Wants([row]))
  {
    OneRowWanted(row);
    forall k | 0 <= k < |events|
      ensures Agrees(sha, events, Wants([row]), k)
    {
      if k == |events| - 1 {
        assert events[..k + 1] == events;
      } else {
        assert events[k].id < row.eventID;
      }
    }
  }

  lemma ForgedIsPulled(sha: Hash, w: World, forged: seq<LedgerEvent>)
    requires forged != [] && w.remote != []
    ensures EnsureClone(Forged(sha, w, forged), NoFault) == (Forged(sha, w, forged), true)
  {
  }

  lemma {:induction false} ForgedIsRead(id: int64, digest: string)
    requires digest != ""
    ensures var hex := Hex(digest);
            CheckRemote(Some(Render([AnchorLine(id, hex, "t", "h")])), Some(Checkpoint(id, hex))) == Ok(None)
  {
    HexIsWord(digest);
    HostIsAWord();
    var log := [AnchorLine(id, Hex(digest), "t", "h")];
    assert Written(log[0]) && !BlankHost(log);
    CheckRendered(log, Checkpoint(id, Hex(digest)));
  }

  // The condition is needed, and the remote does not supply it: the pull leaves the forged working copy alone, and
  // both checks pass on any ledger at all.
  lemma ForgedWorkingCopyPasses(sha: Hash, w: World, forged: seq<LedgerEvent>)
    requires Sized(sha) && forged != [] && IdsOk(forged) && w.remote != []
    ensures var t := Forged(sha, w, forged);
            && SameRemote(w, t) && EnsureClone(t, NoFault) == (t, true)
            && LocalOk(sha, t.events, Wants(t.rows))
            && CheckRemote(Some(Render(Seen(t))), LatestOf(t.rows)) == Ok(None)
  {
    ForgedIsPulled(sha, w, forged);
    DigestSize(sha, forged);
    ForgedIsRead(forged[|forged| - 1].id, Digest(sha, forged));
    OneRowAgrees(sha, forged, Forged(sha, w, forged).rows[0]);
  }
}
