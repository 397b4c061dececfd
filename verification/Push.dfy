/** The anchor pusher (kahyad/internal/anchor/push.go) over the ledger it anchors: one anchor_log row per
    digest, one anchors.log line per attempt, and a git repository that can fail at any step. */
module Push {
  import opened Wrappers
  import opened Width
  import opened Bytes
  import opened Ledger
  import opened Spaces
  import opened AnchorLog

  datatype Row = Row(eventID: int64, digestHex: string, pushed: bool)

  // The lines of anchors.log in the working tree and in the local branch.
  datatype Clone = Clone(work: seq<AnchorLine>, committed: seq<AnchorLine>)

  // The remote's branch exists once a line was pushed to it: an empty log means that there is no branch yet.
  datatype World = World(
    configured: bool,
    events: seq<LedgerEvent>, lastEventID: int64, digest: string,
    rows: seq<Row>,
    repo: Option<Clone>, remote: seq<AnchorLine>)

  // Where a tick goes wrong, if anywhere. A push whose answer is lost may have landed all the same.
  datatype Fault =
    | NoFault | StateUnreadable | RowsUnreadable | InsertFails | KeyUnreadable | Unreachable | CheckoutFails
    | AppendFails | AddFails | CommitFails | PushFails(landed: bool) | MarkFails

  datatype Env = Env(ts: string, host: Option<string>, fault: Fault, note: Option<LedgerEvent>)

  datatype Op = Append(e: LedgerEvent) | Tick(env: Env) | Fetch(fault: Fault) | LoseClone

  // The table of the running digest is made with a row that covers no event. A database that is upgraded may hold
  // events by then, and nothing folds them in.
  function Upgraded(configured: bool, pre: seq<LedgerEvent>): World {
    World(configured, pre, 0, Genesis(), [], None, [])
  }

  function Fresh(configured: bool): World {
    Upgraded(configured, [])
  }

  // One transaction inserts the event and advances the digest. The database never reuses an id.
  function InsertEvent(sha: Hash, w: World, e: LedgerEvent): World {
    if e.id <= w.lastEventID then w
    else w.(events := w.events + [e], lastEventID := e.id, digest := NextDigest(sha, w.digest, e))
  }

  // ---- One tick ----

  // Whether a new row has to be written before this tick can push.
  predicate NeedsRow(w: World) {
    w.rows == [] || (w.rows[|w.rows| - 1].pushed && w.rows[|w.rows| - 1].eventID != w.lastEventID)
  }

  function ClaimRow(w: World, fault: Fault): (World, Option<Row>) {
    if fault == RowsUnreadable then (w, None)
    else if NeedsRow(w) then
      var row := Row(w.lastEventID, Hex(w.digest), false);
      if fault == InsertFails then (w, None) else (w.(rows := w.rows + [row]), Some(row))
    else if w.rows[|w.rows| - 1].pushed then (w, None)
    else (w, Some(w.rows[|w.rows| - 1]))
  }

  // A fast-forward pull: a refusal when the remote has no branch, nothing to do, an update of a clean tree, or a
  // refusal of anything else.
  function Pull(c: Clone, remote: seq<AnchorLine>): Option<Clone> {
    if remote == [] then None
    else if remote <= c.committed then Some(c)
    else if c.committed <= remote && c.work == c.committed then Some(Clone(remote, remote))
    else None
  }

  // Whether the clone is usable afterwards, next to the new state.
  function EnsureClone(w: World, fault: Fault): (World, bool) {
    if fault == Unreachable then (w, false)
    else match w.repo
      case None => (w.(repo := Some(Clone(w.remote, w.remote))), fault != CheckoutFails)
      case Some(c) =>
        match Pull(c, w.remote)
        case None => (w, false)
        case Some(c') => (w.(repo := Some(c')), true)
  }

  function HostOf(host: Option<string>): string {
    if host.Some? && host.value != "" then host.value else "unknown"
  }

  function LineOf(row: Row, env: Env): AnchorLine {
    AnchorLine(row.eventID, row.digestHex, env.ts, HostOf(env.host))
  }

  // Append, add, commit, push; whether all four happened.
  function Publish(w: World, c: Clone, line: AnchorLine, fault: Fault): (World, bool) {
    var appended := Clone(c.work + [line], c.committed);
    var committed := Clone(appended.work, appended.work);
    match fault
    case AppendFails => (w, false)
    case AddFails => (w.(repo := Some(appended)), false)
    case CommitFails => (w.(repo := Some(appended)), false)
    case PushFails(landed) => (w.(repo := Some(committed), remote := if landed then committed.committed else w.remote), false)
    case _ => (w.(repo := Some(committed), remote := committed.committed), true)
  }

  function Marked(rows: seq<Row>): seq<Row>
    requires rows != []
  {
    rows[|rows| - 1 := rows[|rows| - 1].(pushed := true)]
  }

  // The latest row becomes pushed, and the ledger notes it (best effort).
  function MarkPushed(sha: Hash, w: World, note: Option<LedgerEvent>): World
    requires w.rows != []
  {
    var marked := w.(rows := Marked(w.rows));
    if note.Some? then InsertEvent(sha, marked, note.value) else marked
  }

  // The half of a push that needs a usable clone.
  function PublishRow(sha: Hash, w: World, row: Row, env: Env): World
    requires w.rows != [] && w.repo.Some?
  {
    var (w', published) := Publish(w, w.repo.value, LineOf(row, env), env.fault);
    if !published || env.fault == MarkFails then w' else MarkPushed(sha, w', env.note)
  }

  function PushRow(sha: Hash, w: World, row: Row, env: Env): World
    requires w.rows != []
  {
    if env.fault == KeyUnreadable then w
    else
      var (w', ready) := EnsureClone(w, env.fault);
      if ready && w'.repo.Some? then PublishRow(sha, w', row, env) else w'
  }

  function RunTick(sha: Hash, w: World, env: Env): World {
    if !w.configured || env.fault == StateUnreadable || w.lastEventID <= 0 then w
    else
      var (w1, row) := ClaimRow(w, env.fault);
      if row.None? then w1 else PushRow(sha, w1, row.value, env)
  }

  function Step(sha: Hash, w: World, op: Op): World {
    match op
    case Append(e) => InsertEvent(sha, w, e)
    case Tick(env) => RunTick(sha, w, env)
    case Fetch(fault) => if w.configured then EnsureClone(w, fault).0 else w
    case LoseClone => w.(repo := None)
  }

  function Run(sha: Hash, w: World, ops: seq<Op>): World {
    if ops == [] then w else Step(sha, Run(sha, w, ops[..|ops| - 1]), ops[|ops| - 1])
  }

  // The time stamp is one word and the host name one line, as the clock and the system give them.
  predicate Plain(op: Op) {
    op.Tick? ==> IsWord(op.env.ts) && Text.NL !in HostOf(op.env.host)
  }

  // ---- What every run keeps ----

  predicate IdsOk(events: seq<LedgerEvent>) {
    && (forall i | 0 <= i < |events| :: 0 < events[i].id)
    && (forall i, j | 0 <= i < j < |events| :: events[i].id < events[j].id)
  }

  ghost predicate LedgerOk(sha: Hash, events: seq<LedgerEvent>, lastEventID: int64, digest: string) {
    && IdsOk(events)
    && lastEventID == (if events == [] then 0 else events[|events| - 1].id)
    && digest == Digest(sha, events)
  }

  // The row carries the digest of the ledger up to the k-th event.
  ghost predicate TrueAt(sha: Hash, events: seq<LedgerEvent>, row: Row, k: nat) {
    k < |events| && row.eventID == events[k].id && row.digestHex == Hex(Digest(sha, events[..k + 1]))
  }

  ghost predicate IsTrue(sha: Hash, events: seq<LedgerEvent>, row: Row) {
    exists k :: TrueAt(sha, events, row, k)
  }

  ghost predicate AllTrue(sha: Hash, events: seq<LedgerEvent>, rows: seq<Row>) {
    forall i | 0 <= i < |rows| :: IsTrue(sha, events, rows[i])
  }

  predicate Increasing(rows: seq<Row>) {
    forall i, j | 0 <= i < j < |rows| :: rows[i].eventID < rows[j].eventID
  }

  predicate OnlyLatestPending(rows: seq<Row>) {
    forall i | 0 <= i < |rows| - 1 :: rows[i].pushed
  }

  ghost predicate RowsOk(sha: Hash, events: seq<LedgerEvent>, rows: seq<Row>) {
    AllTrue(sha, events, rows) && Increasing(rows) && OnlyLatestPending(rows)
  }

  predicate Matches(line: AnchorLine, row: Row) {
    line.eventID == row.eventID && line.digestHex == row.digestHex
  }

  ghost predicate ForSome(rows: seq<Row>, line: AnchorLine) {
    exists i :: 0 <= i < |rows| && Matches(line, rows[i])
  }

  ghost predicate LogOk(rows: seq<Row>, log: seq<AnchorLine>) {
    && AllWritten(log)
    && (forall i | 0 <= i < |log| :: ForSome(rows, log[i]))
    && (forall i, j | 0 <= i <= j < |log| :: log[i].eventID <= log[j].eventID)
  }

  // The last line is at least as recent as every row that was marked.
  ghost predicate Covered(rows: seq<Row>, remote: seq<AnchorLine>) {
    forall i | 0 <= i < |rows| && rows[i].pushed ::
      remote != [] && rows[i].eventID <= remote[|remote| - 1].eventID
  }

  // What a reader of the working tree sees, after cloning if need be.
  function Seen(w: World): seq<AnchorLine> {
    if w.repo.Some? then w.repo.value.work else w.remote
  }

  predicate ReposOk(w: World) {
    w.repo.Some? ==> w.remote <= w.repo.value.committed <= w.repo.value.work
  }

  ghost predicate Honest(sha: Hash, w: World) {
    && LedgerOk(sha, w.events, w.lastEventID, w.digest)
    && RowsOk(sha, w.events, w.rows)
    && LogOk(w.rows, Seen(w))
    && Covered(w.rows, w.remote)
    && ReposOk(w)
  }

  // ---- The ledger grows ----

  lemma {:induction false} DigestGrows(sha: Hash, events: seq<LedgerEvent>, e: LedgerEvent)
    ensures Digest(sha, events + [e]) == NextDigest(sha, Digest(sha, events), e)
  {
    assert (events + [e])[..|events|] == events;
  }

  lemma IdsGrow(events: seq<LedgerEvent>, e: LedgerEvent)
    requires IdsOk(events) && 0 < e.id && (events != [] ==> events[|events| - 1].id < e.id)
    ensures IdsOk(events + [e])
  {
    var more := events + [e];
    forall i | 0 <= i < |events|
      ensures more[i].id < e.id
    {
      assert events[i].id <= events[|events| - 1].id;
    }
  }

  lemma LedgerGrows(sha: Hash, w: World, e: LedgerEvent)
    requires LedgerOk(sha, w.events, w.lastEventID, w.digest)
    ensures var w' := InsertEvent(sha, w, e); LedgerOk(sha, w'.events, w'.lastEventID, w'.digest)
  {
    if e.id > w.lastEventID {
      DigestGrows(sha, w.events, e);
      IdsGrow(w.events, e);
    }
  }

  lemma StillTrue(sha: Hash, events: seq<LedgerEvent>, e: LedgerEvent, row: Row)
    requires IsTrue(sha, events, row)
    ensures IsTrue(sha, events + [e], row)
  {
    var k :| TrueAt(sha, events, row, k);
    assert (events + [e])[..k + 1] == events[..k + 1];
    assert TrueAt(sha, events + [e], row, k);
  }

  lemma RowsStay(sha: Hash, events: seq<LedgerEvent>, e: LedgerEvent, rows: seq<Row>)
    requires RowsOk(sha, events, rows)
    ensures RowsOk(sha, events + [e], rows)
  {
    forall i | 0 <= i < |rows|
      ensures IsTrue(sha, events + [e], rows[i])
    {
      StillTrue(sha, events, e, rows[i]);
    }
  }

  lemma InsertKeepsHonest(sha: Hash, w: World, e: LedgerEvent)
    requires Honest(sha, w)
    ensures Honest(sha, InsertEvent(sha, w, e))
  {
    LedgerGrows(sha, w, e);
    RowsStay(sha, w.events, e, w.rows);
  }

  // ---- The rows grow ----

  // A true row is for an event that is there.
  lemma RowBound(sha: Hash, w: World, i: nat)
    requires LedgerOk(sha, w.events, w.lastEventID, w.digest) && RowsOk(sha, w.events, w.rows) && i < |w.rows|
    ensures 0 < w.rows[i].eventID <= w.lastEventID
  {
    assert IsTrue(sha, w.events, w.rows[i]);
    var k :| TrueAt(sha, w.events, w.rows[i], k);
  }

  lemma RowAppended(sha: Hash, events: seq<LedgerEvent>, rows: seq<Row>, row: Row)
    requires RowsOk(sha, events, rows) && IsTrue(sha, events, row)
    requires rows != [] ==> rows[|rows| - 1].pushed && rows[|rows| - 1].eventID < row.eventID
    ensures RowsOk(sha, events, rows + [row])
  {
    var longer := rows + [row];
    assert AllTrue(sha, events, longer);
    forall i, j | 0 <= i < j < |longer|
      ensures longer[i].eventID < longer[j].eventID
    {
      if j == |rows| {
        assert rows[i].eventID <= rows[|rows| - 1].eventID;
      }
    }
    assert OnlyLatestPending(longer);
  }

  lemma LogStays(rows: seq<Row>, row: Row, log: seq<AnchorLine>)
    requires LogOk(rows, log)
    ensures LogOk(rows + [row], log)
  {
    forall i | 0 <= i < |log|
      ensures ForSome(rows + [row], log[i])
    {
      assert ForSome(rows, log[i]);
      var j :| 0 <= j < |rows| && Matches(log[i], rows[j]);
      assert (rows + [row])[j] == rows[j];
    }
  }

  lemma NewRowIsTrue(sha: Hash, w: World)
    requires LedgerOk(sha, w.events, w.lastEventID, w.digest) && w.lastEventID > 0
    ensures IsTrue(sha, w.events, Row(w.lastEventID, Hex(w.digest), false))
  {
    assert w.events[..|w.events|] == w.events;
    assert TrueAt(sha, w.events, Row(w.lastEventID, Hex(w.digest), false), |w.events| - 1);
  }

  lemma NewRowOk(sha: Hash, w: World)
    requires LedgerOk(sha, w.events, w.lastEventID, w.digest) && w.lastEventID > 0
    requires RowsOk(sha, w.events, w.rows) && NeedsRow(w)
    ensures RowsOk(sha, w.events, w.rows + [Row(w.lastEventID, Hex(w.digest), false)])
  {
    NewRowIsTrue(sha, w);
    if w.rows != [] {
      RowBound(sha, w, |w.rows| - 1);
    }
    RowAppended(sha, w.events, w.rows, Row(w.lastEventID, Hex(w.digest), false));
  }

  lemma NewRowKeepsHonest(sha: Hash, w: World, row: Row)
    requires Honest(sha, w) && !row.pushed && RowsOk(sha, w.events, w.rows + [row])
    ensures Honest(sha, w.(rows := w.rows + [row]))
  {
    LogStays(w.rows, row, Seen(w));
    assert Covered(w.rows + [row], w.remote);
  }

  lemma ClaimKeepsHonest(sha: Hash, w: World, fault: Fault)
    requires Honest(sha, w) && w.lastEventID > 0
    ensures Honest(sha, ClaimRow(w, fault).0)
  {
    if NeedsRow(w) {
      NewRowOk(sha, w);
      NewRowKeepsHonest(sha, w, Row(w.lastEventID, Hex(w.digest), false));
    }
  }

  lemma ClaimsLatest(w: World, fault: Fault)
    ensures var (w', row) := ClaimRow(w, fault);
            row.Some? ==> w'.rows != [] && row.value == w'.rows[|w'.rows| - 1]
  {
  }

  // ---- The log grows ----

  lemma LogPrefix(rows: seq<Row>, shorter: seq<AnchorLine>, log: seq<AnchorLine>)
    requires LogOk(rows, log) && shorter <= log
    ensures LogOk(rows, shorter)
  {
    assert shorter == log[..|shorter|];
    assert forall i | 0 <= i < |shorter| :: shorter[i] == log[i];
  }

  // No row is later than the latest one, so no line is.
  lemma LineBound(sha: Hash, events: seq<LedgerEvent>, rows: seq<Row>, line: AnchorLine)
    requires RowsOk(sha, events, rows) && ForSome(rows, line)
    ensures rows != [] && line.eventID <= rows[|rows| - 1].eventID
    ensures line.eventID == rows[|rows| - 1].eventID ==> line.digestHex == rows[|rows| - 1].digestHex
  {
    var i :| 0 <= i < |rows| && Matches(line, rows[i]);
  }

  lemma LineAppended(sha: Hash, events: seq<LedgerEvent>, rows: seq<Row>, log: seq<AnchorLine>, line: AnchorLine)
    requires RowsOk(sha, events, rows) && LogOk(rows, log)
    requires rows != [] && Matches(line, rows[|rows| - 1]) && Written(line)
    ensures LogOk(rows, log + [line])
  {
    var longer := log + [line];
    assert Matches(line, rows[|rows| - 1]);
    forall i | 0 <= i < |longer|
      ensures ForSome(rows, longer[i]) && longer[i].eventID <= line.eventID
    {
      LineBound(sha, events, rows, longer[i]);
    }
  }

  // Ending in a line for the latest row covers every row.
  lemma CoveredByLatest(sha: Hash, events: seq<LedgerEvent>, rows: seq<Row>, log: seq<AnchorLine>, line: AnchorLine)
    requires RowsOk(sha, events, rows) && rows != [] && Matches(line, rows[|rows| - 1])
    ensures Covered(rows, log + [line])
  {
  }

  lemma EnsureKeepsHonest(sha: Hash, w: World, fault: Fault)
    requires Honest(sha, w)
    ensures var w' := EnsureClone(w, fault).0;
            Honest(sha, w') && w'.rows == w.rows && (EnsureClone(w, fault).1 ==> w'.repo.Some?)
  {
  }

  function WithRepos(w: World, c: Clone, remote: seq<AnchorLine>): World {
    w.(repo := Some(c), remote := remote)
  }

  // What a publication may do: append the line to the working tree, and let the branch and the remote catch up.
  predicate MayPublish(w: World, c: Clone, remote: seq<AnchorLine>, line: AnchorLine)
    requires w.repo.Some?
  {
    var work := w.repo.value.work;
    && (c.work == work || c.work == work + [line])
    && (remote == w.remote || remote == work + [line])
    && remote <= c.committed <= c.work
  }

  lemma PublishMay(w: World, line: AnchorLine, fault: Fault) returns (c: Clone, remote: seq<AnchorLine>)
    requires w.repo.Some? && ReposOk(w)
    ensures MayPublish(w, c, remote, line)
    ensures var (w', published) := Publish(w, w.repo.value, line, fault);
            w' == WithRepos(w, c, remote) && (published ==> remote == w.repo.value.work + [line])
  {
    var work := w.repo.value.work;
    assert w.repo.value.committed <= work <= work + [line];
    var w' := Publish(w, w.repo.value, line, fault).0;
    c, remote := w'.repo.value, w'.remote;
  }

  lemma PublishedLog(sha: Hash, events: seq<LedgerEvent>, rows: seq<Row>, work: seq<AnchorLine>, line: AnchorLine,
                     work': seq<AnchorLine>)
    requires RowsOk(sha, events, rows) && LogOk(rows, work) && rows != []
    requires Matches(line, rows[|rows| - 1]) && Written(line) && (work' == work || work' == work + [line])
    ensures LogOk(rows, work')
  {
    if work' != work {
      LineAppended(sha, events, rows, work, line);
    }
  }

  lemma PublishedCover(sha: Hash, events: seq<LedgerEvent>, rows: seq<Row>, work: seq<AnchorLine>, line: AnchorLine,
                       remote: seq<AnchorLine>, remote': seq<AnchorLine>)
    requires RowsOk(sha, events, rows) && Covered(rows, remote) && rows != []
    requires Matches(line, rows[|rows| - 1]) && (remote' == remote || remote' == work + [line])
    ensures Covered(rows, remote')
  {
    if remote' != remote {
      CoveredByLatest(sha, events, rows, work, line);
    }
  }

  // Only the repositories changed, to these logs.
  lemma ReposReplaced(sha: Hash, w: World, c: Clone, remote: seq<AnchorLine>)
    requires Honest(sha, w) && LogOk(w.rows, c.work) && Covered(w.rows, remote)
    requires remote <= c.committed <= c.work
    ensures Honest(sha, WithRepos(w, c, remote))
  {
  }

  lemma PublishKeepsHonest(sha: Hash, w: World, c: Clone, remote: seq<AnchorLine>, line: AnchorLine)
    requires Honest(sha, w) && w.repo.Some? && MayPublish(w, c, remote, line)
    requires w.rows != [] && Matches(line, w.rows[|w.rows| - 1]) && Written(line)
    ensures Honest(sha, WithRepos(w, c, remote))
  {
    PublishedParts(sha, w.events, w.rows, w.repo.value.work, w.remote, line, c.work, remote);
    ReposReplaced(sha, w, c, remote);
  }

  lemma PublishedParts(sha: Hash, events: seq<LedgerEvent>, rows: seq<Row>, work: seq<AnchorLine>, remote: seq<AnchorLine>,
                       line: AnchorLine, work': seq<AnchorLine>, remote': seq<AnchorLine>)
    requires RowsOk(sha, events, rows) && LogOk(rows, work) && Covered(rows, remote) && rows != []
    requires Matches(line, rows[|rows| - 1]) && Written(line)
    requires (work' == work || work' == work + [line]) && (remote' == remote || remote' == work + [line])
    ensures LogOk(rows, work') && Covered(rows, remote')
  {
    PublishedLog(sha, events, rows, work, line, work');
    PublishedCover(sha, events, rows, work, line, remote, remote');
  }

  lemma MarkingIsCovered(sha: Hash, events: seq<LedgerEvent>, rows: seq<Row>, log: seq<AnchorLine>, line: AnchorLine)
    requires RowsOk(sha, events, rows) && rows != [] && Matches(line, rows[|rows| - 1])
    ensures Covered(Marked(rows), log + [line])
  {
    MarkedRows(sha, events, rows);
    CoveredByLatest(sha, events, Marked(rows), log, line);
  }

  lemma MarkedRows(sha: Hash, events: seq<LedgerEvent>, rows: seq<Row>)
    requires RowsOk(sha, events, rows) && rows != []
    ensures RowsOk(sha, events, Marked(rows))
  {
    forall i | 0 <= i < |rows|
      ensures IsTrue(sha, events, Marked(rows)[i])
    {
      assert IsTrue(sha, events, rows[i]);
      var k :| TrueAt(sha, events, rows[i], k);
      assert TrueAt(sha, events, Marked(rows)[i], k);
    }
  }

  lemma MarkedLog(rows: seq<Row>, log: seq<AnchorLine>)
    requires LogOk(rows, log) && rows != []
    ensures LogOk(Marked(rows), log)
  {
    forall i | 0 <= i < |log|
      ensures ForSome(Marked(rows), log[i])
    {
      assert ForSome(rows, log[i]);
      var j :| 0 <= j < |rows| && Matches(log[i], rows[j]);
      assert Matches(log[i], Marked(rows)[j]);
    }
  }

  lemma MarkKeepsHonest(sha: Hash, w: World, note: Option<LedgerEvent>)
    requires Honest(sha, w) && w.rows != [] && Covered(Marked(w.rows), w.remote)
    ensures Honest(sha, MarkPushed(sha, w, note))
  {
    MarkedRows(sha, w.events, w.rows);
    MarkedLog(w.rows, Seen(w));
    var marked := w.(rows := Marked(w.rows));
    assert Honest(sha, marked);
    if note.Some? {
      InsertKeepsHonest(sha, marked, note.value);
    }
  }

  lemma {:induction false} HexIsWord(s: string)
    ensures NoSpace(Hex(s))
  {
    if s != "" {
      HexIsWord(s[..|s| - 1]);
    }
  }

  lemma RowDigestIsWord(sha: Hash, events: seq<LedgerEvent>, row: Row)
    requires Sized(sha) && IsTrue(sha, events, row)
    ensures IsWord(row.digestHex)
  {
    var k :| TrueAt(sha, events, row, k);
    DigestSize(sha, events[..k + 1]);
    HexIsWord(Digest(sha, events[..k + 1]));
  }

  lemma LineIsWritten(sha: Hash, events: seq<LedgerEvent>, row: Row, env: Env)
    requires Sized(sha) && IsTrue(sha, events, row) && Plain(Tick(env))
    ensures Matches(LineOf(row, env), row) && Written(LineOf(row, env))
  {
    RowDigestIsWord(sha, events, row);
  }

  lemma PublishedThenMarked(sha: Hash, w: World, c: Clone, line: AnchorLine, note: Option<LedgerEvent>)
    requires Honest(sha, w) && w.repo.Some? && MayPublish(w, c, w.repo.value.work + [line], line)
    requires w.rows != [] && Matches(line, w.rows[|w.rows| - 1]) && Written(line)
    ensures Honest(sha, MarkPushed(sha, WithRepos(w, c, w.repo.value.work + [line]), note))
  {
    var remote := w.repo.value.work + [line];
    PublishKeepsHonest(sha, w, c, remote, line);
    MarkingIsCovered(sha, w.events, w.rows, w.repo.value.work, line);
    MarkKeepsHonest(sha, WithRepos(w, c, remote), note);
  }

  lemma PublishRowCases(sha: Hash, w: World, row: Row, env: Env) returns (c: Clone, remote: seq<AnchorLine>)
    requires w.rows != [] && w.repo.Some? && ReposOk(w)
    ensures MayPublish(w, c, remote, LineOf(row, env))
    ensures var w' := PublishRow(sha, w, row, env);
            || w' == WithRepos(w, c, remote)
            || (remote == w.repo.value.work + [LineOf(row, env)] && w' == MarkPushed(sha, WithRepos(w, c, remote), env.note))
  {
    c, remote := PublishMay(w, LineOf(row, env), env.fault);
  }

  lemma PublishRowKeepsHonest(sha: Hash, w: World, row: Row, env: Env)
    requires Sized(sha) && Honest(sha, w) && Plain(Tick(env)) && w.rows != [] && w.repo.Some?
    requires row == w.rows[|w.rows| - 1]
    ensures Honest(sha, PublishRow(sha, w, row, env))
  {
    var line := LineOf(row, env);
    LineIsWritten(sha, w.events, row, env);
    var c, remote := PublishRowCases(sha, w, row, env);
    var w' := PublishRow(sha, w, row, env);
    if w' == WithRepos(w, c, remote) {
      PublishKeepsHonest(sha, w, c, remote, line);
    } else {
      PublishedThenMarked(sha, w, c, line, env.note);
    }
  }

  lemma PushKeepsHonest(sha: Hash, w: World, row: Row, env: Env)
    requires Sized(sha) && Honest(sha, w) && Plain(Tick(env)) && w.rows != []
    requires row == w.rows[|w.rows| - 1]
    ensures Honest(sha, PushRow(sha, w, row, env))
  {
    EnsureKeepsHonest(sha, w, env.fault);
    var (w', ready) := EnsureClone(w, env.fault);
    if env.fault == KeyUnreadable {
      assert PushRow(sha, w, row, env) == w;
    } else if ready {
      PublishRowKeepsHonest(sha, w', row, env);
      assert PushRow(sha, w, row, env) == PublishRow(sha, w', row, env);
    } else {
      assert PushRow(sha, w, row, env) == w';
    }
  }

  lemma TickKeepsHonest(sha: Hash, w: World, env: Env)
    requires Sized(sha) && Honest(sha, w) && Plain(Tick(env))
    ensures Honest(sha, RunTick(sha, w, env))
  {
    if w.lastEventID > 0 {
      ClaimKeepsHonest(sha, w, env.fault);
      ClaimsLatest(w, env.fault);
      var (w1, row) := ClaimRow(w, env.fault);
      if row.Some? {
        PushKeepsHonest(sha, w1, row.value, env);
      }
    }
  }

  lemma LoseKeepsHonest(sha: Hash, w: World)
    requires Honest(sha, w)
    ensures Honest(sha, w.(repo := None))
  {
    LogPrefix(w.rows, w.remote, Seen(w));
  }

  lemma StepKeepsHonest(sha: Hash, w: World, op: Op)
    requires Sized(sha) && Honest(sha, w) && Plain(op)
    ensures Honest(sha, Step(sha, w, op))
  {
    match op {
      case Append(e) => InsertKeepsHonest(sha, w, e);
      case Tick(env) => TickKeepsHonest(sha, w, env);
      case Fetch(fault) => EnsureKeepsHonest(sha, w, fault);
      case LoseClone => LoseKeepsHonest(sha, w);
    }
  }

  predicate AllPlain(ops: seq<Op>) {
    forall i | 0 <= i < |ops| :: Plain(ops[i])
  }

  lemma {:induction false} RunKeepsHonest(sha: Hash, w: World, ops: seq<Op>)
    requires Sized(sha) && Honest(sha, w) && AllPlain(ops)
    ensures Honest(sha, Run(sha, w, ops))
  {
    if ops != [] {
      RunKeepsHonest(sha, w, ops[..|ops| - 1]);
      StepKeepsHonest(sha, Run(sha, w, ops[..|ops| - 1]), ops[|ops| - 1]);
    }
  }

  // ---- Events from before the digest table ----

  // The same world with events in front that the digest does not cover.
  function Behind(pre: seq<LedgerEvent>, w: World): World {
    w.(events := pre + w.events)
  }

  lemma InsertBehind(sha: Hash, pre: seq<LedgerEvent>, w: World, e: LedgerEvent)
    ensures InsertEvent(sha, Behind(pre, w), e) == Behind(pre, InsertEvent(sha, w, e))
  {
    assert pre + w.events + [e] == pre + (w.events + [e]);
  }

  lemma PublishBehind(sha: Hash, pre: seq<LedgerEvent>, w: World, row: Row, env: Env)
    requires w.rows != [] && w.repo.Some?
    ensures PublishRow(sha, Behind(pre, w), row, env) == Behind(pre, PublishRow(sha, w, row, env))
  {
    var (w', published) := Publish(w, w.repo.value, LineOf(row, env), env.fault);
    assert Publish(Behind(pre, w), w.repo.value, LineOf(row, env), env.fault) == (Behind(pre, w'), published);
    if env.note.Some? {
      InsertBehind(sha, pre, w'.(rows := Marked(w'.rows)), env.note.value);
    }
  }

  lemma PushBehind(sha: Hash, pre: seq<LedgerEvent>, w: World, row: Row, env: Env)
    requires w.rows != []
    ensures PushRow(sha, Behind(pre, w), row, env) == Behind(pre, PushRow(sha, w, row, env))
  {
    var (w', ready) := EnsureClone(w, env.fault);
    assert EnsureClone(Behind(pre, w), env.fault) == (Behind(pre, w'), ready);
    if w'.repo.Some? {
      PublishBehind(sha, pre, w', row, env);
    }
  }

  lemma TickBehind(sha: Hash, pre: seq<LedgerEvent>, w: World, env: Env)
    ensures RunTick(sha, Behind(pre, w), env) == Behind(pre, RunTick(sha, w, env))
  {
    var (w', row) := ClaimRow(w, env.fault);
    assert ClaimRow(Behind(pre, w), env.fault) == (Behind(pre, w'), row);
    ClaimsLatest(w, env.fault);
    if row.Some? {
      PushBehind(sha, pre, w', row.value, env);
    }
  }

  // No step looks at them.
  lemma StepBehind(sha: Hash, pre: seq<LedgerEvent>, w: World, op: Op)
    ensures Step(sha, Behind(pre, w), op) == Behind(pre, Step(sha, w, op))
  {
    match op {
      case Append(e) => InsertBehind(sha, pre, w, e);
      case Tick(env) => TickBehind(sha, pre, w, env);
      case _ =>
    }
  }

  lemma {:induction false} RunBehind(sha: Hash, pre: seq<LedgerEvent>, w: World, ops: seq<Op>)
    ensures Run(sha, Behind(pre, w), ops) == Behind(pre, Run(sha, w, ops))
  {
    if ops != [] {
      RunBehind(sha, pre, w, ops[..|ops| - 1]);
      StepBehind(sha, pre, Run(sha, w, ops[..|ops| - 1]), ops[|ops| - 1]);
    }
  }

  // Over any interleaving of appends, ticks failing at any step, checks and losses of the local clone, from a
  // database with any events in it: the row ids strictly increase, only the latest row can be pending, every row
  // carries the true digest of the events since the digest table was made, and every line of the log, in the ledger's
  // order, repeats a row.
  lemma {:induction false} RunStaysHonest(sha: Hash, configured: bool, pre: seq<LedgerEvent>, ops: seq<Op>)
    returns (since: World)
    requires Sized(sha) && AllPlain(ops)
    ensures since == Run(sha, Fresh(configured), ops) && Honest(sha, since)
    ensures Run(sha, Upgraded(configured, pre), ops) == Behind(pre, since)
  {
    since := Run(sha, Fresh(configured), ops);
    RunKeepsHonest(sha, Fresh(configured), ops);
    assert pre + [] == pre;
    RunBehind(sha, pre, Fresh(configured), ops);
  }

  // ---- What later steps leave ----

  // Rows are added and marked, and nothing else happens to them.
  predicate Grown(rows: seq<Row>, rows': seq<Row>) {
    && |rows| <= |rows'|
    && forall i | 0 <= i < |rows| :: rows[i].eventID == rows'[i].eventID && rows[i].digestHex == rows'[i].digestHex
  }

  lemma InsertGrows(sha: Hash, w: World, e: LedgerEvent)
    ensures var w' := InsertEvent(sha, w, e);
            w'.rows == w.rows && w.events <= w'.events
  {
  }

  lemma PublishGrows(sha: Hash, w: World, row: Row, env: Env)
    requires w.rows != [] && w.repo.Some?
    ensures Grown(w.rows, PublishRow(sha, w, row, env).rows) && w.events <= PublishRow(sha, w, row, env).events
  {
    var w' := Publish(w, w.repo.value, LineOf(row, env), env.fault).0;
    assert w'.rows == w.rows && w'.events == w.events;
    if env.note.Some? {
      InsertGrows(sha, w'.(rows := Marked(w'.rows)), env.note.value);
    }
  }

  lemma PushGrows(sha: Hash, w: World, row: Row, env: Env)
    requires w.rows != []
    ensures Grown(w.rows, PushRow(sha, w, row, env).rows) && w.events <= PushRow(sha, w, row, env).events
  {
    var w' := EnsureClone(w, env.fault).0;
    assert w'.rows == w.rows && w'.events == w.events;
    if w'.repo.Some? {
      PublishGrows(sha, w', row, env);
    }
  }

  lemma ClaimGrows(w: World, fault: Fault)
    ensures Grown(w.rows, ClaimRow(w, fault).0.rows) && ClaimRow(w, fault).0.events == w.events
  {
  }

  lemma TickGrows(sha: Hash, w: World, env: Env)
    ensures Grown(w.rows, RunTick(sha, w, env).rows) && w.events <= RunTick(sha, w, env).events
  {
    ClaimGrows(w, env.fault);
    ClaimsLatest(w, env.fault);
    var (w', row) := ClaimRow(w, env.fault);
    if row.Some? {
      PushGrows(sha, w', row.value, env);
    }
  }

  lemma StepGrows(sha: Hash, w: World, op: Op)
    ensures Grown(w.rows, Step(sha, w, op).rows) && w.events <= Step(sha, w, op).events
  {
    match op {
      case Append(e) => InsertGrows(sha, w, e);
      case Tick(env) => TickGrows(sha, w, env);
      case _ =>
    }
  }

  lemma {:induction false} RunGrows(sha: Hash, w: World, ops: seq<Op>)
    ensures Grown(w.rows, Run(sha, w, ops).rows) && w.events <= Run(sha, w, ops).events
  {
    if ops != [] {
      RunGrows(sha, w, ops[..|ops| - 1]);
      StepGrows(sha, Run(sha, w, ops[..|ops| - 1]), ops[|ops| - 1]);
    }
  }

  // A log that was honest stays honest next to the rows of any later moment.
  lemma {:induction false} LogOutlives(rows: seq<Row>, rows': seq<Row>, log: seq<AnchorLine>)
    requires LogOk(rows, log) && Grown(rows, rows')
    ensures LogOk(rows', log)
  {
    forall i | 0 <= i < |log|
      ensures ForSome(rows', log[i])
    {
      assert ForSome(rows, log[i]);
      var j :| 0 <= j < |rows| && Matches(log[i], rows[j]);
      assert Matches(log[i], rows'[j]);
    }
  }

  // ---- What one tick does ----

  // Without a fault, a working copy can be brought up to date when there is none yet or the remote has its branch.
  predicate CanPublish(w: World) {
    w.configured && w.lastEventID > 0 && ReposOk(w) && (w.repo.Some? ==> w.remote != [])
  }

  // The remote ends in a line with this row's event and digest, the time of the tick and the host it ran on.
  predicate EndsIn(log: seq<AnchorLine>, row: Row, env: Env) {
    && log != []
    && log[|log| - 1].eventID == row.eventID && log[|log| - 1].digestHex == row.digestHex
    && log[|log| - 1].ts == env.ts
    && (if env.host.Some? && env.host.value != "" then log[|log| - 1].hostname == env.host.value
        else log[|log| - 1].hostname == "unknown")
  }

  lemma PushProgress(sha: Hash, w: World, env: Env)
    requires CanPublish(w) && env.fault == NoFault && w.rows != []
    ensures var w' := PushRow(sha, w, w.rows[|w.rows| - 1], env);
            && w'.rows == w.rows[..|w.rows| - 1] + [w.rows[|w.rows| - 1].(pushed := true)]
            && EndsIn(w'.remote, w.rows[|w.rows| - 1], env)
            && w'.repo == Some(Clone(w'.remote, w'.remote))
            && w.remote <= w'.remote
  {
    var (w', ready) := EnsureClone(w, NoFault);
    assert ready && w'.repo.Some? && w.remote <= w'.repo.value.committed <= w'.repo.value.work;
    assert Publish(w', w'.repo.value, LineOf(w.rows[|w.rows| - 1], env), NoFault).1;
  }

  // A pending row is retried: a tick in which nothing fails pushes it, and adds no row.
  lemma PendingIsPushed(sha: Hash, w: World, env: Env)
    requires CanPublish(w) && env.fault == NoFault
    requires w.rows != [] && !w.rows[|w.rows| - 1].pushed
    ensures var w' := RunTick(sha, w, env);
            && w'.rows == w.rows[..|w.rows| - 1] + [w.rows[|w.rows| - 1].(pushed := true)]
            && EndsIn(w'.remote, w.rows[|w.rows| - 1], env)
            && w'.repo == Some(Clone(w'.remote, w'.remote))
            && w.remote <= w'.remote
  {
    PushProgress(sha, w, env);
  }

  lemma TickClaims(sha: Hash, w: World, env: Env)
    requires w.configured && w.lastEventID > 0 && env.fault == NoFault && NeedsRow(w)
    ensures var row := Row(w.lastEventID, Hex(w.digest), false);
            RunTick(sha, w, env) == PushRow(sha, w.(rows := w.rows + [row]), row, env)
  {
  }

  lemma AddedRowIsPushed(sha: Hash, w: World, row: Row, env: Env)
    requires CanPublish(w) && env.fault == NoFault
    ensures var w' := PushRow(sha, w.(rows := w.rows + [row]), row, env);
            && w'.rows == w.rows + [row.(pushed := true)]
            && EndsIn(w'.remote, row, env)
            && w'.repo == Some(Clone(w'.remote, w'.remote))
            && w.remote <= w'.remote
  {
    var claimed := w.(rows := w.rows + [row]);
    PushProgress(sha, claimed, env);
    assert claimed.rows[..|w.rows|] == w.rows;
  }

  // Otherwise, when the running digest has no row, the tick adds one for it and pushes it.
  lemma NewDigestIsPushed(sha: Hash, w: World, env: Env)
    requires CanPublish(w) && env.fault == NoFault
    requires w.rows == [] || (w.rows[|w.rows| - 1].pushed && w.rows[|w.rows| - 1].eventID != w.lastEventID)
    ensures var w', row := RunTick(sha, w, env), Row(w.lastEventID, Hex(w.digest), true);
            && w'.rows == w.rows + [row]
            && EndsIn(w'.remote, row, env)
            && w'.repo == Some(Clone(w'.remote, w'.remote))
            && w.remote <= w'.remote
  {
    TickClaims(sha, w, env);
    AddedRowIsPushed(sha, w, Row(w.lastEventID, Hex(w.digest), false), env);
  }

  // Without a remote nothing is ever cloned, anchored or marked.
  lemma Unconfigured(sha: Hash, w: World, op: Op)
    requires !w.configured
    ensures op.Tick? || op.Fetch? ==> Step(sha, w, op) == w
    ensures op.Append? ==> Step(sha, w, op).rows == w.rows && Step(sha, w, op).repo == w.repo && Step(sha, w, op).remote == w.remote
  {
  }

  // What a pull does: it fails when the remote has no branch, when both have commits that the other has not, and when
  // it would have to overwrite a working tree with changes of its own; otherwise the branch has everything that both
  // had, and no line of the working tree is lost.
  lemma PullOutcomes(c: Clone, remote: seq<AnchorLine>)
    requires c.committed <= c.work
    ensures Pull(c, remote).None? <==>
            remote == [] || (!(remote <= c.committed) && (!(c.committed <= remote) || c.work != c.committed))
    ensures Pull(c, remote).Some? ==>
              var c' := Pull(c, remote).value;
              && remote <= c'.committed && c.committed <= c'.committed
              && (c'.committed == c.committed || c'.committed == remote)
              && c.work <= c'.work && (c'.work == c.work || c'.work == c'.committed)
  {
  }

  // And when the latest row is pushed for it, or nothing is to be anchored at all, the tick does nothing.
  lemma IdleTick(sha: Hash, w: World, env: Env)
    requires !w.configured || w.lastEventID <= 0
             || (w.rows != [] && w.rows[|w.rows| - 1].pushed && w.rows[|w.rows| - 1].eventID == w.lastEventID)
    ensures RunTick(sha, w, env) == w
  {
  }

  // What is left of a tick that fails: no row is marked, at most one pending row is added, the events are as they
  // were, and the remote changes only when a push lands without its answer, or is followed by a failing mark.
  predicate LeavesPending(w: World, w': World, fault: Fault) {
    && (w'.rows == w.rows || (NeedsRow(w) && w'.rows == w.rows + [Row(w.lastEventID, Hex(w.digest), false)]))
    && w'.events == w.events && w'.lastEventID == w.lastEventID && w'.digest == w.digest
    && (w'.remote != w.remote ==> fault == PushFails(true) || fault == MarkFails)
    && (fault in {KeyUnreadable, Unreachable} ==> w'.repo == w.repo)
    && (fault in {StateUnreadable, RowsUnreadable, InsertFails} ==> w' == w)
  }

  // A failed push leaves the row for the next tick to retry.
  lemma FailedPushLeavesPending(sha: Hash, w: World, row: Row, env: Env)
    requires w.rows != [] && (env.fault == CheckoutFails ==> w.repo.None?)
    requires env.fault !in {NoFault, StateUnreadable, RowsUnreadable, InsertFails}
    ensures var w' := PushRow(sha, w, row, env);
            w'.rows == w.rows && LeavesPending(w, w', env.fault)
  {
    var w' := EnsureClone(w, env.fault).0;
    assert w'.rows == w.rows && w'.remote == w.remote && w'.events == w.events && w'.digest == w.digest;
  }

  lemma FailedTickLeavesPending(sha: Hash, w: World, env: Env)
    requires env.fault in {StateUnreadable, RowsUnreadable, KeyUnreadable, Unreachable, AppendFails, AddFails, CommitFails,
                           PushFails(false), PushFails(true), MarkFails}
             || (env.fault == InsertFails && NeedsRow(w)) || (env.fault == CheckoutFails && w.repo.None?)
    ensures LeavesPending(w, RunTick(sha, w, env), env.fault)
  {
    if w.configured && env.fault != StateUnreadable && w.lastEventID > 0 {
      ClaimsLatest(w, env.fault);
      var (w', row) := ClaimRow(w, env.fault);
      if row.Some? {
        FailedPushLeavesPending(sha, w', row.value, env);
      }
    }
  }

  // What a push leaves alone: only the note is a new event.
  predicate KeepsDigest(w: World, w': World, note: Option<LedgerEvent>) {
    && w'.configured == w.configured
    && w.lastEventID <= w'.lastEventID
    && (note == None ==> w'.lastEventID == w.lastEventID && w'.digest == w.digest)
  }

  lemma PublishRowKeepsDigest(sha: Hash, w: World, row: Row, env: Env)
    requires w.rows != [] && w.repo.Some?
    ensures KeepsDigest(w, PublishRow(sha, w, row, env), env.note)
  {
  }

  lemma PushKeepsDigest(sha: Hash, w: World, row: Row, env: Env)
    requires w.rows != []
    ensures KeepsDigest(w, PushRow(sha, w, row, env), env.note)
  {
    var w' := EnsureClone(w, env.fault).0;
    assert w'.rows == w.rows && KeepsDigest(w, w', None);
    if w'.repo.Some? {
      PublishRowKeepsDigest(sha, w', row, env);
    }
  }

  lemma TickKeepsDigest(sha: Hash, w: World, env: Env)
    ensures KeepsDigest(w, RunTick(sha, w, env), env.note)
  {
    ClaimsLatest(w, env.fault);
    var (w1, row) := ClaimRow(w, env.fault);
    if row.Some? {
      PushKeepsDigest(sha, w1, row.value, env);
    }
  }

  lemma StepKeepsConfigured(sha: Hash, w: World, op: Op)
    ensures Step(sha, w, op).configured == w.configured
  {
    if op.Tick? {
      TickKeepsDigest(sha, w, op.env);
    }
  }

  lemma {:induction false} RunKeepsConfigured(sha: Hash, w: World, ops: seq<Op>)
    ensures Run(sha, w, ops).configured == w.configured
  {
    if ops != [] {
      RunKeepsConfigured(sha, w, ops[..|ops| - 1]);
      StepKeepsConfigured(sha, Run(sha, w, ops[..|ops| - 1]), ops[|ops| - 1]);
    }
  }

  // The latest row is pushed, for this event.
  predicate PushedFor(w: World, id: int64) {
    w.rows != [] && w.rows[|w.rows| - 1].pushed && w.rows[|w.rows| - 1].eventID == id
  }

  lemma GoodTick(sha: Hash, w: World, env: Env)
    requires CanPublish(w) && env.fault == NoFault
    requires w.rows != [] && w.rows[|w.rows| - 1].pushed ==> w.remote != []
    ensures var w' := RunTick(sha, w, env);
            && w'.rows != [] && w'.rows[|w'.rows| - 1].pushed && w'.remote != []
            && (w.rows == [] || w.rows[|w.rows| - 1].pushed ==> PushedFor(w', w.lastEventID))
  {
    if w.rows != [] && !w.rows[|w.rows| - 1].pushed {
      PendingIsPushed(sha, w, env);
    } else if PushedFor(w, w.lastEventID) {
      IdleTick(sha, w, env);
    } else {
      NewDigestIsPushed(sha, w, env);
    }
  }

  // A pushed latest row is at the end of the remote log.
  lemma PushedAtEnd(sha: Hash, w: World)
    requires Honest(sha, w) && w.rows != [] && w.rows[|w.rows| - 1].pushed
    ensures w.remote != [] && Matches(w.remote[|w.remote| - 1], w.rows[|w.rows| - 1])
  {
    assert w.remote != [] && w.rows[|w.rows| - 1].eventID <= w.remote[|w.remote| - 1].eventID;
    assert w.remote <= Seen(w);
    assert Seen(w)[|w.remote| - 1] == w.remote[|w.remote| - 1];
    assert ForSome(w.rows, Seen(w)[|w.remote| - 1]);
    LineBound(sha, w.events, w.rows, Seen(w)[|w.remote| - 1]);
  }

  lemma PushedForDigest(sha: Hash, w: World)
    requires Honest(sha, w) && PushedFor(w, w.lastEventID)
    ensures w.rows[|w.rows| - 1] == Row(w.lastEventID, Hex(w.digest), true)
  {
    var row := w.rows[|w.rows| - 1];
    assert IsTrue(sha, w.events, row);
    var k: nat :| TrueAt(sha, w.events, row, k);
    assert k == |w.events| - 1;
    assert w.events[..k + 1] == w.events;
  }

  // What a tick in which nothing fails makes of an honest world.
  ghost predicate Recovered(sha: Hash, w: World, w': World, note: Option<LedgerEvent>) {
    && Honest(sha, w') && CanPublish(w') && KeepsDigest(w, w', note)
    && w'.rows != [] && w'.rows[|w'.rows| - 1].pushed
    && (w.rows != [] && w.rows[|w.rows| - 1].pushed ==> PushedFor(w', w.lastEventID))
  }

  lemma HonestGoodTick(sha: Hash, w: World, env: Env)
    requires Sized(sha) && Honest(sha, w) && CanPublish(w) && Plain(Tick(env)) && env.fault == NoFault
    ensures Recovered(sha, w, RunTick(sha, w, env), env.note)
  {
    if w.rows != [] && w.rows[|w.rows| - 1].pushed {
      PushedAtEnd(sha, w);
    }
    GoodTick(sha, w, env);
    TickKeepsDigest(sha, w, env);
    TickKeepsHonest(sha, w, env);
  }

  // The latest row is pushed, reaches the events of w, and is at the end of the remote log.
  predicate Reaches(w': World, w: World) {
    && w'.rows != [] && w'.remote != []
    && w'.rows[|w'.rows| - 1].pushed && w.lastEventID <= w'.rows[|w'.rows| - 1].eventID
    && w'.remote[|w'.remote| - 1].eventID == w'.rows[|w'.rows| - 1].eventID
    && w'.remote[|w'.remote| - 1].digestHex == w'.rows[|w'.rows| - 1].digestHex
  }

  predicate ReachesExactly(w': World, w: World) {
    w'.rows != [] && w'.rows[|w'.rows| - 1] == Row(w.lastEventID, Hex(w.digest), true)
  }

  // The whole promise: after any run, however its ticks failed, two ticks in which nothing fails leave a row pushed
  // that reaches the events there were, at the end of the remote log, unless a clone was made before the remote had
  // its branch. When they note nothing it is the row of the running digest.
  lemma {:induction false} CatchesUp(sha: Hash, configured: bool, pre: seq<LedgerEvent>, ops: seq<Op>, first: Env, second: Env)
    requires Sized(sha) && AllPlain(ops) && Plain(Tick(first)) && Plain(Tick(second))
    requires first.fault == NoFault && second.fault == NoFault
    ensures var w := Run(sha, Upgraded(configured, pre), ops);
            var w' := RunTick(sha, RunTick(sha, w, first), second);
            configured && w.lastEventID > 0 && (w.repo.Some? ==> w.remote != []) ==>
              Reaches(w', w) && (first.note == None && second.note == None ==> ReachesExactly(w', w))
  {
    var w := Run(sha, Upgraded(configured, pre), ops);
    var since := RunStaysHonest(sha, configured, pre, ops);
    RunKeepsConfigured(sha, Upgraded(configured, pre), ops);
    if configured && w.lastEventID > 0 && (w.repo.Some? ==> w.remote != []) {
      var once := RunTick(sha, since, first);
      TickBehind(sha, pre, since, first);
      TickBehind(sha, pre, once, second);
      HonestGoodTick(sha, since, first);
      SecondGoodTick(sha, since, once, first.note, second);
    }
  }

  lemma PushedForReaches(sha: Hash, w: World, once: World, last: World)
    requires Honest(sha, last) && PushedFor(last, once.lastEventID) && w.lastEventID <= once.lastEventID
    ensures Reaches(last, w)
    ensures once.lastEventID == w.lastEventID == last.lastEventID && last.digest == w.digest ==> ReachesExactly(last, w)
  {
    PushedAtEnd(sha, last);
    if once.lastEventID == last.lastEventID {
      PushedForDigest(sha, last);
    }
  }

  lemma SecondGoodTick(sha: Hash, w: World, once: World, note: Option<LedgerEvent>, env: Env)
    requires Sized(sha) && Recovered(sha, w, once, note) && Plain(Tick(env)) && env.fault == NoFault
    ensures var last := RunTick(sha, once, env);
            Reaches(last, w) && (note == None && env.note == None ==> ReachesExactly(last, w))
  {
    HonestGoodTick(sha, once, env);
    PushedForReaches(sha, w, once, RunTick(sha, once, env));
  }

  // ---- A pending row that is never retried ----

  // Without faults, an honest clone is usable exactly when it is fresh or the remote has a branch.
  lemma ReadyIff(sha: Hash, w: World)
    requires Honest(sha, w)
    ensures EnsureClone(w, NoFault).1 <==> w.repo.None? || w.remote != []
  {
  }

  predicate KeepsClone(ops: seq<Op>) {
    forall i | 0 <= i < |ops| :: !ops[i].LoseClone?
  }

  // A clone of a remote without a branch: every later pull fails, so nothing is pushed and no row is marked.
  predicate Stuck(w: World) {
    w.repo.Some? && w.remote == []
  }

  lemma InsertStaysStuck(sha: Hash, w: World, e: LedgerEvent)
    requires Stuck(w)
    ensures var w' := InsertEvent(sha, w, e);
            Stuck(w') && w'.rows == w.rows
  {
  }

  lemma PushStaysStuck(sha: Hash, w: World, row: Row, env: Env)
    requires Stuck(w) && w.rows != []
    ensures PushRow(sha, w, row, env) == w
  {
    assert Pull(w.repo.value, w.remote) == None;
  }

  lemma TickStaysStuck(sha: Hash, w: World, env: Env)
    requires Stuck(w)
    ensures RunTick(sha, w, env) == w || RunTick(sha, w, env) == ClaimRow(w, env.fault).0
  {
    if w.configured && env.fault != StateUnreadable && w.lastEventID > 0 {
      ClaimsLatest(w, env.fault);
      var (w', row) := ClaimRow(w, env.fault);
      if row.Some? {
        PushStaysStuck(sha, w', row.value, env);
      }
    }
  }

  predicate NonePushed(rows: seq<Row>) {
    forall i | 0 <= i < |rows| :: !rows[i].pushed
  }

  lemma StepStaysStuck(sha: Hash, w: World, op: Op)
    requires Stuck(w) && NonePushed(w.rows) && !op.LoseClone?
    ensures Stuck(Step(sha, w, op)) && NonePushed(Step(sha, w, op).rows)
  {
    match op {
      case Append(e) => InsertStaysStuck(sha, w, e);
      case Tick(env) => TickStaysStuck(sha, w, env);
      case Fetch(fault) =>
    }
  }

  // The retry of a pending row can fail for good: once there is a clone and the remote has no branch, no run of
  // appends, ticks and checks pushes anything or marks a row, until the clone is lost.
  lemma {:induction false} NeverPushed(sha: Hash, w: World, ops: seq<Op>)
    requires Stuck(w) && NonePushed(w.rows) && KeepsClone(ops)
    ensures Stuck(Run(sha, w, ops)) && NonePushed(Run(sha, w, ops).rows)
  {
    if ops != [] {
      NeverPushed(sha, w, ops[..|ops| - 1]);
      StepStaysStuck(sha, Run(sha, w, ops[..|ops| - 1]), ops[|ops| - 1]);
    }
  }

  // It takes one check before the first push, or a first push that does not land.
  lemma CheckFirstSticks(sha: Hash, e: LedgerEvent)
    ensures Stuck(Step(sha, Step(sha, Fresh(true), Append(e)), Fetch(NoFault)))
    ensures NonePushed(Step(sha, Step(sha, Fresh(true), Append(e)), Fetch(NoFault)).rows)
  {
  }

  lemma LostFirstPushSticks(sha: Hash, e: LedgerEvent, env: Env)
    requires 0 < e.id && env.fault == PushFails(false)
    ensures var w := Step(sha, Step(sha, Fresh(true), Append(e)), Tick(env));
            Stuck(w) && |w.rows| == 1 && NonePushed(w.rows)
  {
  }
}
