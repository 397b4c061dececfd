/** Usage capture while a response body is relayed (kahyad/internal/anthproxy/proxy.go, usageCapturingBody)
    and the event-stream accumulator it feeds (kahyad/internal/anthproxy/usage.go). */
module Stream {
  import opened Wrappers
  import opened Width
  import opened Pricing
  import opened Text

  // What a JSON decoder makes of the data of one stream line.
  datatype SseEvent =
    | MessageStart(input: int64, cacheCreation: int64, cacheRead: int64)
    | MessageDelta(output: int64)
    | Ignored

  // The two decoders the capture relies on: one stream line's data, and a whole non-stream body.
  datatype Decoders = Decoders(event: string -> SseEvent, body: string -> Usage)

  datatype ReadError = EndOfFile | Broken

  const DATA_PREFIX := "data: "
  const NO_USAGE := Usage(0, 0, 0, 0)

  function TrimLineEnd(line: string): string {
    if line != "" && line[|line| - 1] in {'\r', '\n'} then TrimLineEnd(line[..|line| - 1]) else line
  }

  // One raw stream line: only well-formed data lines count, and a later value overwrites an earlier one.
  function Feed(d: Decoders, u: Usage, line: string): Usage {
    var trimmed := TrimLineEnd(line);
    if DATA_PREFIX <= trimmed then
      match d.event(trimmed[|DATA_PREFIX|..])
      case MessageStart(input, cacheCreation, cacheRead) =>
        u.(input := input, cacheCreation := cacheCreation, cacheRead := cacheRead)
      case MessageDelta(output) => u.(output := output)
      case Ignored => u
    else u
  }

  function FeedAll(d: Decoders, u: Usage, lines: seq<string>): Usage
    decreases |lines|
  {
    if lines == [] then u else FeedAll(d, Feed(d, u, lines[0]), lines[1..])
  }

  lemma {:induction false} FeedAllAppend(d: Decoders, u: Usage, a: seq<string>, b: seq<string>)
    ensures FeedAll(d, u, a + b) == FeedAll(d, FeedAll(d, u, a), b)
    decreases |a|
  {
    if a == [] {
      assert a + b == b;
    } else {
      assert (a + b)[1..] == a[1..] + b;
      FeedAllAppend(d, Feed(d, u, a[0]), a[1..], b);
    }
  }

  // Feeding the first line and keeping the rest changes neither the usage nor the tail to come.
  lemma FeedOneLine(d: Decoders, u: Usage, s: string)
    requires FirstNL(s) < |s|
    ensures var i := FirstNL(s);
            && FeedAll(d, u, CompleteLines(s)) == FeedAll(d, Feed(d, u, s[..i]), CompleteLines(s[i + 1..]))
            && Tail(s) == Tail(s[i + 1..])
  {
    var i := FirstNL(s);
    assert CompleteLines(s)[1..] == CompleteLines(s[i + 1..]);
  }

  class UsageCapturingBody {
    const isSSE: bool
    const decoders: Decoders

    var usage: Usage
    var partial: string
    var jsonBuf: string
    var done: bool
    var reports: seq<(Usage, ReadError)>   // the calls made to onDone

    // What has been read so far, and how much of it when the first error came.
    ghost var stream: string
    ghost var ending: Option<(string, ReadError)>

    // The state is a function of the bytes read, not of how they were cut up.
    ghost predicate Valid()
      reads this
    {
      && (isSSE ==> partial == Tail(stream) && usage == FeedAll(decoders, NO_USAGE, CompleteLines(stream)))
      && (!isSSE ==> jsonBuf == stream)
      && done == ending.Some?
      && reports == if ending.None? then [] else [(Extracted(isSSE, decoders, ending.value.0), ending.value.1)]
    }

    constructor (isSSE: bool, decoders: Decoders)
      ensures Valid() && stream == "" && ending == None
      ensures this.isSSE == isSSE && this.decoders == decoders
    {
      this.isSSE, this.decoders := isSSE, decoders;
      usage, partial, jsonBuf, done, reports := NO_USAGE, "", "", false, [];
      stream, ending := "", None;
      new;
      NoLine("");
    }

    // One Read of the wrapped body: it delivered `chunk`, and possibly an error with it.
    method Read(chunk: string, err: Option<ReadError>)
      requires Valid()
      modifies this
      ensures Valid()
      ensures stream == old(stream) + chunk
      ensures ending == if old(ending).None? && err.Some? then Some((stream, err.value)) else old(ending)
    {
      stream := stream + chunk;
      if chunk != "" {
        if isSSE {
          FeedSSE(chunk, old(stream));
        } else {
          jsonBuf := jsonBuf + chunk;
        }
      } else {
        assert stream == old(stream);
      }
      if err.Some? && !done {
        done := true;
        ending := Some((stream, err.value));
        if isSSE {
          reports := reports + [(usage, err.value)];
        } else {
          reports := reports + [(decoders.body(jsonBuf), err.value)];
        }
      }
    }

    method FeedSSE(chunk: string, ghost before: string)
      requires partial == Tail(before) && usage == FeedAll(decoders, NO_USAGE, CompleteLines(before))
      modifies this`partial, this`usage
      ensures partial == Tail(before + chunk)
      ensures usage == FeedAll(decoders, NO_USAGE, CompleteLines(before + chunk))
    {
      LinesAcross(before, chunk);
      FeedAllAppend(decoders, NO_USAGE, CompleteLines(before), CompleteLines(Tail(before) + chunk));
      partial := partial + chunk;
      ghost var all := partial;
      var i := FirstNL(partial);
      while i < |partial|
        invariant i == FirstNL(partial)
        invariant Tail(partial) == Tail(all)
        invariant FeedAll(decoders, usage, CompleteLines(partial)) == FeedAll(decoders, old(usage), CompleteLines(all))
        decreases |partial|
      {
        FeedOneLine(decoders, usage, partial);
        var line := partial[..i];
        partial := partial[i + 1..];
        usage := Feed(decoders, usage, line);
        i := FirstNL(partial);
      }
    }
  }

  // The usage of a whole body: the fold of its complete lines, or the decoded JSON document.
  function Extracted(isSSE: bool, d: Decoders, body: string): Usage {
    if isSSE then FeedAll(d, NO_USAGE, CompleteLines(body)) else d.body(body)
  }

  // ---- What the usage of a stream is ----

  predicate LineEnds(s: string) {
    forall i | 0 <= i < |s| :: s[i] == '\r' || s[i] == '\n'
  }

  // The line is "data: ", this payload, and nothing but line ends.
  predicate Holds(line: string, payload: string) {
    && |payload| + 6 <= |line| && line[..6 + |payload|] == "data: " + payload
    && LineEnds(line[6 + |payload|..])
    && (payload != "" ==> payload[|payload| - 1] != '\r' && payload[|payload| - 1] != '\n')
  }

  // The line tells the decoder this event.
  ghost predicate Tells(d: Decoders, line: string, e: SseEvent) {
    exists payload :: Holds(line, payload) && d.event(payload) == e
  }

  lemma {:induction false} TrimLineEndSpec(line: string)
    ensures TrimLineEnd(line) <= line && LineEnds(line[|TrimLineEnd(line)|..])
    ensures var t := TrimLineEnd(line); t != "" ==> t[|t| - 1] != '\r' && t[|t| - 1] != '\n'
  {
    if line != "" && line[|line| - 1] in {'\r', '\n'} {
      TrimLineEndSpec(line[..|line| - 1]);
    }
  }

  lemma {:induction false} TrimmedIs(line: string, t: string)
    requires t <= line && LineEnds(line[|t|..])
    requires t != "" ==> t[|t| - 1] != '\r' && t[|t| - 1] != '\n'
    ensures TrimLineEnd(line) == t
  {
    if line == t {
      assert line[..|line|] == line;
    } else {
      var last := |line| - 1;
      assert line[last] == line[|t|..][last - |t|];
      assert line[..last][|t|..] == line[|t|..][..last - |t|];
      TrimmedIs(line[..last], t);
    }
  }

  lemma {:induction false} HoldsIsTrimmed(line: string, payload: string)
    ensures Holds(line, payload) <==> TrimLineEnd(line) == "data: " + payload
  {
    TrimLineEndSpec(line);
    var t := "data: " + payload;
    if Holds(line, payload) {
      assert |t| == 6 + |payload| && line[..|t|] == t;
      assert payload == "" ==> t[|t| - 1] == ' ';
      TrimmedIs(line, t);
    }
    if TrimLineEnd(line) == t {
      assert line[..|t|] == t;
      assert payload != "" ==> t[|t| - 1] == payload[|payload| - 1];
    }
  }

  // One line: only an event that it tells changes anything, and then it sets exactly its own counts.
  lemma {:induction false} FeedTells(d: Decoders, u: Usage, line: string)
    ensures forall input, creation, read | Tells(d, line, MessageStart(input, creation, read)) ::
              Feed(d, u, line) == Usage(input, u.output, creation, read)
    ensures forall output | Tells(d, line, MessageDelta(output)) ::
              Feed(d, u, line) == Usage(u.input, output, u.cacheCreation, u.cacheRead)
    ensures (forall e | Tells(d, line, e) :: e == Ignored) ==> Feed(d, u, line) == u
  {
    var t := TrimLineEnd(line);
    forall payload | Holds(line, payload)
      ensures DATA_PREFIX <= t && payload == t[6..]
    {
      HoldsIsTrimmed(line, payload);
    }
    if DATA_PREFIX <= t {
      HoldsIsTrimmed(line, t[6..]);
      assert Tells(d, line, d.event(t[6..]));
    }
  }

  ghost predicate NoStart(d: Decoders, lines: seq<string>, from: nat) {
    forall j, e | from <= j < |lines| && Tells(d, lines[j], e) :: !e.MessageStart?
  }

  ghost predicate NoDelta(d: Decoders, lines: seq<string>, from: nat) {
    forall j, e | from <= j < |lines| && Tells(d, lines[j], e) :: !e.MessageDelta?
  }

  // The i-th line is the last one that tells a start, and it is this one.
  ghost predicate LastStart(d: Decoders, lines: seq<string>, i: nat, e: SseEvent) {
    i < |lines| && e.MessageStart? && Tells(d, lines[i], e) && NoStart(d, lines, i + 1)
  }

  ghost predicate LastDelta(d: Decoders, lines: seq<string>, i: nat, e: SseEvent) {
    i < |lines| && e.MessageDelta? && Tells(d, lines[i], e) && NoDelta(d, lines, i + 1)
  }

  ghost predicate InputSideIs(d: Decoders, lines: seq<string>, u: Usage) {
    && (NoStart(d, lines, 0) ==> u.input == 0 && u.cacheCreation == 0 && u.cacheRead == 0)
    && (forall i, e | LastStart(d, lines, i, e) ::
          u.input == e.input && u.cacheCreation == e.cacheCreation && u.cacheRead == e.cacheRead)
  }

  ghost predicate OutputIs(d: Decoders, lines: seq<string>, u: Usage) {
    && (NoDelta(d, lines, 0) ==> u.output == 0)
    && (forall i, e | LastDelta(d, lines, i, e) :: u.output == e.output)
  }

  lemma TellsOnce(d: Decoders, line: string, e: SseEvent, e': SseEvent)
    requires Tells(d, line, e) && Tells(d, line, e')
    ensures e == e'
  {
    var p :| Holds(line, p) && d.event(p) == e;
    var q :| Holds(line, q) && d.event(q) == e';
    HoldsIsTrimmed(line, p);
    HoldsIsTrimmed(line, q);
    assert p == ("data: " + p)[6..] && q == ("data: " + q)[6..];
  }

  // A line that tells no event of this kind leaves the kind's counts, and what was the last such line.
  lemma {:induction false} InputSideStep(d: Decoders, front: seq<string>, last: string, u: Usage)
    requires InputSideIs(d, front, u)
    ensures InputSideIs(d, front + [last], Feed(d, u, last))
  {
    var lines, u' := front + [last], Feed(d, u, last);
    FeedTells(d, u, last);
    if e :| Tells(d, last, e) && e.MessageStart? {
      assert e == MessageStart(e.input, e.cacheCreation, e.cacheRead);
      assert !NoStart(d, lines, 0) by {
        assert lines[|front|] == last;
      }
      forall i, e' | LastStart(d, lines, i, e')
        ensures u'.input == e'.input && u'.cacheCreation == e'.cacheCreation && u'.cacheRead == e'.cacheRead
      {
        assert lines[|front|] == last;
        TellsOnce(d, last, e, if i == |front| then e' else e);
      }
    } else {
      KeepsInputSide(d, u, last);
      assert forall j | 0 <= j < |front| :: lines[j] == front[j];
      assert NoStart(d, lines, 0) ==> NoStart(d, front, 0);
      forall i, e' | LastStart(d, lines, i, e')
        ensures LastStart(d, front, i, e')
      {
        assert i != |front|;
      }
    }
  }

  lemma KeepsInputSide(d: Decoders, u: Usage, line: string)
    requires forall e | Tells(d, line, e) :: !e.MessageStart?
    ensures var u' := Feed(d, u, line);
            u'.input == u.input && u'.cacheCreation == u.cacheCreation && u'.cacheRead == u.cacheRead
  {
    FeedTells(d, u, line);
    if e :| Tells(d, line, e) && e.MessageDelta? {
      assert e == MessageDelta(e.output);
    }
  }

  lemma KeepsOutput(d: Decoders, u: Usage, line: string)
    requires forall e | Tells(d, line, e) :: !e.MessageDelta?
    ensures Feed(d, u, line).output == u.output
  {
    FeedTells(d, u, line);
    if e :| Tells(d, line, e) && e.MessageStart? {
      assert e == MessageStart(e.input, e.cacheCreation, e.cacheRead);
    }
  }

  lemma {:induction false} OutputStep(d: Decoders, front: seq<string>, last: string, u: Usage)
    requires OutputIs(d, front, u)
    ensures OutputIs(d, front + [last], Feed(d, u, last))
  {
    var lines, u' := front + [last], Feed(d, u, last);
    FeedTells(d, u, last);
    if e :| Tells(d, last, e) && e.MessageDelta? {
      assert e == MessageDelta(e.output);
      assert !NoDelta(d, lines, 0) by {
        assert lines[|front|] == last;
      }
      forall i, e' | LastDelta(d, lines, i, e')
        ensures u'.output == e'.output
      {
        assert lines[|front|] == last;
        TellsOnce(d, last, e, if i == |front| then e' else e);
      }
    } else {
      KeepsOutput(d, u, last);
      assert forall j | 0 <= j < |front| :: lines[j] == front[j];
      assert NoDelta(d, lines, 0) ==> NoDelta(d, front, 0);
      forall i, e' | LastDelta(d, lines, i, e')
        ensures LastDelta(d, front, i, e')
      {
        assert i != |front|;
      }
    }
  }

  lemma {:induction false} FedLines(d: Decoders, lines: seq<string>)
    ensures InputSideIs(d, lines, FeedAll(d, NO_USAGE, lines)) && OutputIs(d, lines, FeedAll(d, NO_USAGE, lines))
  {
    if lines != [] {
      var front, last := lines[..|lines| - 1], lines[|lines| - 1];
      FedLines(d, front);
      assert lines == front + [last] && [last][1..] == [];
      FeedAllAppend(d, NO_USAGE, front, [last]);
      assert FeedAll(d, NO_USAGE, lines) == Feed(d, FeedAll(d, NO_USAGE, front), last);
      InputSideStep(d, front, last, FeedAll(d, NO_USAGE, front));
      OutputStep(d, front, last, FeedAll(d, NO_USAGE, front));
    }
  }

  // What is reported and billed: for an event stream the input-side counts of the last complete line that tells a
  // start and the output count of the last one that tells a running count, each 0 when there is none; for any other
  // response what the decoder makes of the whole body.
  lemma {:induction false} ExtractedIs(d: Decoders, body: string)
    ensures InputSideIs(d, CompleteLines(body), Extracted(true, d, body))
    ensures OutputIs(d, CompleteLines(body), Extracted(true, d, body))
    ensures Extracted(false, d, body) == d.body(body)
  {
    FedLines(d, CompleteLines(body));
  }

  // ---- Whole responses ----

  datatype ReadResult = ReadResult(chunk: string, err: Option<ReadError>)

  function Received(parts: seq<ReadResult>): string {
    if parts == [] then "" else Received(parts[..|parts| - 1]) + parts[|parts| - 1].chunk
  }

  // The index of the first read that came with an error, or the number of reads.
  function FirstErrorAt(parts: seq<ReadResult>): (k: nat)
    ensures k <= |parts|
    ensures forall i | 0 <= i < k :: parts[i].err.None?
    ensures k < |parts| ==> parts[k].err.Some?
  {
    if parts == [] then 0
    else
      var n := |parts| - 1;
      var k := FirstErrorAt(parts[..n]);
      if k < n || parts[n].err.Some? then k else n + 1
  }

  // Everything received up to and including that read, and its error.
  function FirstError(parts: seq<ReadResult>): Option<(string, ReadError)> {
    var k := FirstErrorAt(parts);
    if k == |parts| then None else Some((Received(parts[..k + 1]), parts[k].err.value))
  }

  lemma {:induction false} FirstErrorAtStep(parts: seq<ReadResult>)
    requires parts != []
    ensures var n := |parts| - 1;
            var k := FirstErrorAt(parts[..n]);
            FirstErrorAt(parts) == if k < n || parts[n].err.Some? then k else n + 1
  {
  }

  lemma {:induction false} FirstErrorStep(parts: seq<ReadResult>)
    requires parts != []
    ensures var front, last := FirstError(parts[..|parts| - 1]), parts[|parts| - 1];
            FirstError(parts) == if front.None? && last.err.Some? then Some((Received(parts), last.err.value)) else front
  {
    var n := |parts| - 1;
    var front := parts[..n];
    var k := FirstErrorAt(front);
    FirstErrorAtStep(parts);
    if k < n {
      Slices(parts, n, k);
    } else if parts[n].err.Some? {
      assert parts[..n + 1] == parts;
    }
  }

  lemma Slices(parts: seq<ReadResult>, n: nat, k: nat)
    requires k < n <= |parts|
    ensures parts[..n][..k + 1] == parts[..k + 1] && parts[..n][k] == parts[k]
  {
  }

  // However the body is cut into reads, onDone is called at most once, with the first error and the usage of
  // everything received up to it; the carried partial line is what follows the last newline.
  method Relay(isSSE: bool, decoders: Decoders, parts: seq<ReadResult>) returns (reports: seq<(Usage, ReadError)>, partial: string)
    ensures reports == match FirstError(parts)
                       case None => []
                       case Some((body, err)) => [(Extracted(isSSE, decoders, body), err)]
    ensures isSSE ==> partial == Tail(Received(parts))
  {
    var b := new UsageCapturingBody(isSSE, decoders);
    for i := 0 to |parts|
      invariant b.Valid() && b.isSSE == isSSE && b.decoders == decoders
      invariant b.stream == Received(parts[..i]) && b.ending == FirstError(parts[..i])
    {
      assert parts[..i + 1][..i] == parts[..i];
      FirstErrorStep(parts[..i + 1]);
      b.Read(parts[i].chunk, parts[i].err);
    }
    assert parts[..|parts|] == parts;
    return b.reports, b.partial;
  }
}
