/** The running digest of the event ledger (kahyad/internal/ledgerdigest/digest.go) and the local half of the
    tamper check (kahyad/internal/anchor/verify.go). The hash is a parameter: nothing is assumed of it
    beyond the size of its output, and the theorems name the clash between the two ledgers at hand that a
    forger would need. */
module Ledger {
  import opened Wrappers
  import opened Width
  import opened Bytes

  type Hash = string -> string

  const DIGEST_SIZE := 32

  // What the ledger's digest covers of one event row.
  datatype LedgerEvent = LedgerEvent(id: int64, payload: string)

  // 32 zero bytes.
  function Genesis(): (g: string)
    ensures |g| == DIGEST_SIZE
  {
    seq(DIGEST_SIZE, _ => 0 as char)
  }

  ghost predicate Sized(sha: Hash) {
    forall x :: |sha(x)| == DIGEST_SIZE && AreBytes(sha(x))
  }

  // The conversion to an unsigned 64-bit number.
  function AsUint64(id: int64): (u: nat)
    ensures u < TWO64
  {
    if id < 0 then id + TWO64 else id
  }

  // The bytes hashed for one event.
  function Preimage(prev: string, e: LedgerEvent): string {
    prev + Put64(AsUint64(e.id)) + e.payload
  }

  function NextDigest(sha: Hash, prev: string, e: LedgerEvent): string {
    sha(Preimage(prev, e))
  }

  // The running digest after all the events.
  function Digest(sha: Hash, events: seq<LedgerEvent>): string {
    if events == [] then Genesis()
    else NextDigest(sha, Digest(sha, events[..|events| - 1]), events[|events| - 1])
  }

  lemma {:induction false} DigestSize(sha: Hash, events: seq<LedgerEvent>)
    requires Sized(sha)
    ensures |Digest(sha, events)| == DIGEST_SIZE && AreBytes(Digest(sha, events))
  {
  }

  // One link of the chain: the hash of the previous digest, the event's id as eight bytes with the most significant
  // first (a negative one as its two's complement), and its payload. The chain starts at 32 zero bytes.
  lemma {:induction false} LinkIs(sha: Hash, events: seq<LedgerEvent>, e: LedgerEvent) returns (b: string)
    ensures |b| == 8 && AreBytes(b)
    ensures b[0] as int * 0x100_0000_0000_0000 + b[1] as int * 0x1_0000_0000_0000 + b[2] as int * 0x100_0000_0000
            + b[3] as int * 0x1_0000_0000 + b[4] as int * 0x100_0000 + b[5] as int * 0x1_0000
            + b[6] as int * 0x100 + b[7] as int
            == if e.id < 0 then e.id + 0x1_0000_0000_0000_0000 else e.id
    ensures Digest(sha, events + [e]) == sha(Digest(sha, events) + b + e.payload)
    ensures |Digest(sha, [])| == 32 && forall i | 0 <= i < 32 :: Digest(sha, [])[i] == 0 as char
  {
    b := Put64(AsUint64(e.id));
    Put64Is(AsUint64(e.id));
    assert (events + [e])[..|events|] == events;
  }

  // The fixed-width previous digest and event id make the hashed bytes unambiguous.
  lemma PreimageInjective(p: string, e: LedgerEvent, q: string, f: LedgerEvent)
    requires |p| == |q| && Preimage(p, e) == Preimage(q, f)
    ensures p == q && e == f
  {
    var s, n := Preimage(p, e), |p|;
    assert s[..n] == p && s[..n] == q;
    assert s[n..n + 8] == Put64(AsUint64(e.id)) && s[n..n + 8] == Put64(AsUint64(f.id));
    assert s[n + 8..] == e.payload && s[n + 8..] == f.payload;
    Put64Value(AsUint64(e.id));
    Put64Value(AsUint64(f.id));
  }

  // The bytes hashed for the i-th event of a ledger.
  function Hashed(sha: Hash, events: seq<LedgerEvent>, i: nat): string
    requires i < |events|
  {
    Preimage(Digest(sha, events[..i]), events[i])
  }

  // The hash fails on these two ledgers: it gives one digest for different bytes hashed along them.
  ghost predicate Collide(sha: Hash, a: seq<LedgerEvent>, b: seq<LedgerEvent>) {
    exists i, j | 0 <= i < |a| && 0 <= j < |b| ::
      Hashed(sha, a, i) != Hashed(sha, b, j) && sha(Hashed(sha, a, i)) == sha(Hashed(sha, b, j))
  }

  // Or it gives the genesis digest for bytes hashed along one of them.
  ghost predicate HitsGenesis(sha: Hash, a: seq<LedgerEvent>) {
    exists i | 0 <= i < |a| :: sha(Hashed(sha, a, i)) == Genesis()
  }

  ghost predicate Clash(sha: Hash, a: seq<LedgerEvent>, b: seq<LedgerEvent>) {
    Collide(sha, a, b) || HitsGenesis(sha, a) || HitsGenesis(sha, b)
  }

  lemma HashedPrefix(sha: Hash, events: seq<LedgerEvent>, n: nat, i: nat)
    requires i < n <= |events|
    ensures Hashed(sha, events[..n], i) == Hashed(sha, events, i)
  {
    assert events[..n][..i] == events[..i];
  }

  // A clash of two shorter ledgers is one of the longer ones.
  lemma ClashGrows(sha: Hash, a: seq<LedgerEvent>, m: nat, b: seq<LedgerEvent>, n: nat)
    requires m <= |a| && n <= |b| && Clash(sha, a[..m], b[..n])
    ensures Clash(sha, a, b)
  {
    forall i | 0 <= i < m
      ensures Hashed(sha, a[..m], i) == Hashed(sha, a, i)
    {
      HashedPrefix(sha, a, m, i);
    }
    forall j | 0 <= j < n
      ensures Hashed(sha, b[..n], j) == Hashed(sha, b, j)
    {
      HashedPrefix(sha, b, n, j);
    }
  }

  // The last digest is the hash of the last bytes.
  lemma {:induction false} DigestIsHash(sha: Hash, a: seq<LedgerEvent>)
    requires a != []
    ensures Digest(sha, a) == sha(Hashed(sha, a, |a| - 1))
  {
  }

  lemma {:induction false} EmptyMeets(sha: Hash, a: seq<LedgerEvent>)
    requires Digest(sha, a) == Genesis() && a != []
    ensures HitsGenesis(sha, a)
  {
    DigestIsHash(sha, a);
  }

  // Two ledgers that end in the same bytes to hash end in the same event, after the same digest.
  lemma SameLastBytes(sha: Hash, a: seq<LedgerEvent>, b: seq<LedgerEvent>)
    requires Sized(sha) && a != [] && b != []
    requires Hashed(sha, a, |a| - 1) == Hashed(sha, b, |b| - 1)
    ensures a[|a| - 1] == b[|b| - 1]
    ensures Digest(sha, a[..|a| - 1]) == Digest(sha, b[..|b| - 1])
  {
    DigestSize(sha, a[..|a| - 1]);
    DigestSize(sha, b[..|b| - 1]);
    PreimageInjective(Digest(sha, a[..|a| - 1]), a[|a| - 1], Digest(sha, b[..|b| - 1]), b[|b| - 1]);
  }

  // The digest commits to the whole history: two ledgers with the same digest are the same, event by event,
  // unless the hash gives one digest for two different things hashed along these very ledgers.
  lemma {:induction false} DigestBinds(sha: Hash, a: seq<LedgerEvent>, b: seq<LedgerEvent>)
    requires Sized(sha)
    requires Digest(sha, a) == Digest(sha, b)
    ensures a == b || Clash(sha, a, b)
    decreases |a|
  {
    if a == [] || b == [] {
      if a != [] {
        EmptyMeets(sha, a);
      } else if b != [] {
        EmptyMeets(sha, b);
      }
    } else {
      DigestIsHash(sha, a);
      DigestIsHash(sha, b);
      if Hashed(sha, a, |a| - 1) == Hashed(sha, b, |b| - 1) {
        SameLastBytes(sha, a, b);
        DigestBinds(sha, a[..|a| - 1], b[..|b| - 1]);
        if Clash(sha, a[..|a| - 1], b[..|b| - 1]) {
          ClashGrows(sha, a, |a| - 1, b, |b| - 1);
        } else {
          assert a == a[..|a| - 1] + [a[|a| - 1]] && b == b[..|b| - 1] + [b[|b| - 1]];
        }
      } else {
        assert Collide(sha, a, b);
      }
    }
  }

  // ---- Checkpoints ----

  datatype Checkpoint = Checkpoint(eventID: int64, digestHex: string)

  // What is wanted at each checkpointed event; a later row for the same event replaces an earlier one.
  function Wanted(rows: seq<Checkpoint>): map<int64, string> {
    if rows == [] then map[]
    else Wanted(rows[..|rows| - 1])[rows[|rows| - 1].eventID := rows[|rows| - 1].digestHex]
  }

  // The k-th event is no checkpoint, or the recomputed digest is the wanted one.
  predicate Agrees(sha: Hash, events: seq<LedgerEvent>, want: map<int64, string>, k: nat)
    requires k < |events|
  {
    events[k].id in want ==> Hex(Digest(sha, events[..k + 1])) == want[events[k].id]
  }

  ghost predicate LocalOkBefore(sha: Hash, events: seq<LedgerEvent>, want: map<int64, string>, k: nat)
    requires k <= |events|
  {
    forall i | 0 <= i < k :: Agrees(sha, events, want, i)
  }

  // Every checkpoint that the recomputation visits agrees.
  ghost predicate LocalOk(sha: Hash, events: seq<LedgerEvent>, want: map<int64, string>) {
    LocalOkBefore(sha, events, want, |events|)
  }

  // The id is that of the first event, in ledger order, whose checkpoint disagrees.
  ghost predicate FirstDisagreement(sha: Hash, events: seq<LedgerEvent>, want: map<int64, string>, id: int64) {
    exists k | 0 <= k < |events| ::
      id == events[k].id && !Agrees(sha, events, want, k) && LocalOkBefore(sha, events, want, k)
  }

  // The recomputation loop: silent exactly when every checkpoint it visits agrees, and otherwise it reports
  // the first one in ledger order that does not.
  method CheckLocal(sha: Hash, events: seq<LedgerEvent>, checkpoints: seq<Checkpoint>) returns (mismatch: Option<int64>)
    ensures mismatch.None? <==> LocalOk(sha, events, Wanted(checkpoints))
    ensures mismatch.Some? ==> FirstDisagreement(sha, events, Wanted(checkpoints), mismatch.value)
  {
    var want: map<int64, string> := map[];
    for i := 0 to |checkpoints|
      invariant want == Wanted(checkpoints[..i])
    {
      assert checkpoints[..i + 1][..i] == checkpoints[..i];
      want := want[checkpoints[i].eventID := checkpoints[i].digestHex];
    }
    assert checkpoints[..|checkpoints|] == checkpoints;
    var digest := Genesis();
    for k := 0 to |events|
      invariant digest == Digest(sha, events[..k])
      invariant LocalOkBefore(sha, events, want, k)
    {
      assert events[..k + 1][..k] == events[..k];
      digest := NextDigest(sha, digest, events[k]);
      if events[k].id in want && Hex(digest) != want[events[k].id] {
        assert !Agrees(sha, events, want, k);
        return Some(events[k].id);
      }
    }
    return None;
  }

  // Tamper evidence: if the check passes a checkpoint that was taken when the ledger was `anchored`, then the
  // ledger up to that event still is `anchored`, id by id and payload by payload, unless the forger found a clash
  // between the two.
  lemma {:induction false} TamperEvident(sha: Hash, events: seq<LedgerEvent>, want: map<int64, string>, k: nat, anchored: seq<LedgerEvent>)
    requires Sized(sha) && k < |events|
    requires events[k].id in want && want[events[k].id] == Hex(Digest(sha, anchored))
    requires Agrees(sha, events, want, k)
    ensures events[..k + 1] == anchored || Clash(sha, events[..k + 1], anchored)
  {
    DigestSize(sha, events[..k + 1]);
    DigestSize(sha, anchored);
    HexInjective(Digest(sha, events[..k + 1]), Digest(sha, anchored));
    DigestBinds(sha, events[..k + 1], anchored);
  }

  // The presence condition is needed: the loop visits only events that are still there, so dropping the last
  // checkpointed event altogether goes unnoticed.
  lemma DroppedEventUnnoticed(sha: Hash, e: LedgerEvent, f: LedgerEvent)
    requires e.id < f.id
    ensures var want := Wanted([Checkpoint(f.id, Hex(Digest(sha, [e, f])))]);
            LocalOk(sha, [e], want)
  {
    var row := Checkpoint(f.id, Hex(Digest(sha, [e, f])));
    assert Wanted([row]) == map[f.id := row.digestHex] by {
      assert [row][..0] == [];
    }
  }
}
