/** Pagination of an approval card for Telegram (kahyad/internal/approval/diff.go, ChunkForTelegram and
    hardSplit). Text is a sequence of runes. */
module Chunk {
  import opened Text

  const TELEGRAM_CHUNK_LIMIT := 4096

  // Where a chunk comes from: whole lines, or a piece of one line that is longer than the limit.
  datatype Part = Lines(lines: seq<string>) | Piece(text: string)
  {
    function Chunk(): string {
      if Piece? then text else Concat(lines)
    }
  }

  function Chunks(parts: seq<Part>): (r: seq<string>)
    ensures |r| == |parts| && forall i | 0 <= i < |parts| :: r[i] == parts[i].Chunk()
  {
    if parts == [] then [] else Chunks(parts[..|parts| - 1]) + [parts[|parts| - 1].Chunk()]
  }

  // ---- What a good pagination is ----

  ghost predicate PartFits(p: Part, limit: nat) {
    && 1 <= |p.Chunk()| <= limit
    && (p.Lines? ==> p.lines != [] && forall i | 0 <= i < |p.lines| :: 1 <= |p.lines[i]| <= limit)
  }

  // Between two neighbours: a chunk made of lines could not have taken the line that follows it.
  ghost predicate Greedy(p: Part, q: Part, limit: nat) {
    p.Lines? && q.Lines? && q.lines != [] ==> |p.Chunk()| + |q.lines[0]| > limit
  }

  ghost predicate GoodPages(parts: seq<Part>, limit: nat) {
    && (forall i | 0 <= i < |parts| :: PartFits(parts[i], limit))
    && (forall i | 0 < i < |parts| :: Greedy(parts[i - 1], parts[i], limit))
  }

  // The pieces of one over-long line.
  function Pieces(s: string, limit: nat): (ps: seq<Part>)
    requires limit > 0
    ensures forall i | 0 <= i < |ps| :: ps[i].Piece? && PartFits(ps[i], limit)
    decreases |s|
  {
    if s == "" then []
    else
      var n := if limit > |s| then |s| else limit;
      [Piece(s[..n])] + Pieces(s[n..], limit)
  }

  lemma {:induction false} PieceFirst(head: string, rest: seq<Part>)
    ensures Concat(Chunks([Piece(head)] + rest)) == head + Concat(Chunks(rest))
  {
    var all := Chunks([Piece(head)] + rest);
    assert all == [head] + Chunks(rest);
    assert all[1..] == Chunks(rest);
  }

  lemma {:induction false} PiecesConcat(s: string, limit: nat)
    requires limit > 0
    ensures Concat(Chunks(Pieces(s, limit))) == s
    decreases |s|
  {
    if s != "" {
      var n := if limit > |s| then |s| else limit;
      PiecesConcat(s[n..], limit);
      PieceFirst(s[..n], Pieces(s[n..], limit));
      assert s == s[..n] + s[n..];
    }
  }

  // All pieces but the last are as long as the limit allows.
  lemma {:induction false} PiecesFull(s: string, limit: nat, i: nat)
    requires limit > 0 && i + 1 < |Pieces(s, limit)|
    ensures |Pieces(s, limit)[i].Chunk()| == limit
    decreases |s|
  {
    if i > 0 {
      PiecesFull(s[limit..], limit, i - 1);
    }
  }

  method HardSplit(s: string, limit: nat) returns (out: seq<string>)
    requires limit > 0
    ensures out == Chunks(Pieces(s, limit))
  {
    var runes := s;
    out := [];
    ghost var done: seq<Part> := [];
    assert done + Pieces(s, limit) == Pieces(s, limit);
    while |runes| > 0
      invariant done + Pieces(runes, limit) == Pieces(s, limit)
      invariant out == Chunks(done)
      decreases |runes|
    {
      var n := if limit > |runes| then |runes| else limit;
      assert Pieces(runes, limit) == [Piece(runes[..n])] + Pieces(runes[n..], limit);
      assert (done + [Piece(runes[..n])])[..|done|] == done;
      out := out + [runes[..n]];
      done := done + [Piece(runes[..n])];
      runes := runes[n..];
    }
    assert done == Pieces(s, limit);
  }

  // ---- The paginator ----

  function Limit(limit: int): (l: nat)
    ensures l > 0
  {
    if limit <= 0 then TELEGRAM_CHUNK_LIMIT else limit
  }

  lemma {:induction false} ChunksAppend(a: seq<Part>, b: seq<Part>)
    ensures Chunks(a + b) == Chunks(a) + Chunks(b)
    decreases |b|
  {
    if b == [] {
      assert a + b == a;
    } else {
      assert (a + b)[..|a + b| - 1] == a + b[..|b| - 1];
      ChunksAppend(a, b[..|b| - 1]);
    }
  }

  lemma GoodAppend(parts: seq<Part>, more: seq<Part>, limit: nat)
    requires GoodPages(parts, limit) && GoodPages(more, limit)
    requires parts != [] && more != [] ==> Greedy(parts[|parts| - 1], more[0], limit)
    ensures GoodPages(parts + more, limit)
  {
    var all := parts + more;
    forall i | 0 < i < |all| ensures Greedy(all[i - 1], all[i], limit) {
      if i < |parts| {
        assert all[i - 1] == parts[i - 1] && all[i] == parts[i];
      } else if i > |parts| {
        assert all[i - 1] == more[i - 1 - |parts|] && all[i] == more[i - |parts|];
      }
    }
  }

  // The lines that fit one chunk, in order.
  function FittingLines(lines: seq<string>, limit: nat): seq<string> {
    if lines == [] then []
    else
      var line := lines[|lines| - 1];
      FittingLines(lines[..|lines| - 1], limit) + (if 1 <= |line| <= limit then [line] else [])
  }

  // The lines the chunks carry whole, in order.
  function WholeLines(parts: seq<Part>): seq<string> {
    if parts == [] then []
    else
      var p := parts[|parts| - 1];
      WholeLines(parts[..|parts| - 1]) + (if p.Lines? then p.lines else [])
  }

  lemma {:induction false} WholeLinesAppend(parts: seq<Part>, more: seq<Part>)
    ensures WholeLines(parts + more) == WholeLines(parts) + WholeLines(more)
    decreases |more|
  {
    if more == [] {
      assert parts + more == parts;
    } else {
      assert (parts + more)[..|parts + more| - 1] == parts + more[..|more| - 1];
      WholeLinesAppend(parts, more[..|more| - 1]);
    }
  }

  lemma {:induction false} PiecesCarryNoLine(ps: seq<Part>)
    requires forall i | 0 <= i < |ps| :: ps[i].Piece?
    ensures WholeLines(ps) == []
  {
    if ps != [] {
      PiecesCarryNoLine(ps[..|ps| - 1]);
    }
  }

  // Nothing is lost or reordered, every chunk has 1..limit runes, a line that fits is never split, and a
  // chunk of lines could not have taken the line after it.
  ghost predicate Describes(parts: seq<Part>, lines: seq<string>, limit: nat) {
    && Concat(Chunks(parts)) == Concat(lines)
    && GoodPages(parts, limit)
    && WholeLines(parts) == FittingLines(lines, limit)
  }

  ghost predicate Paginates(chunks: seq<string>, text: string, limit: nat) {
    exists parts :: chunks == Chunks(parts) && Describes(parts, SplitAfter(text), limit)
  }

  // The chunks made so far and the lines of the open chunk, after the given lines.
  ghost predicate Progress(parts: seq<Part>, open: seq<string>, lines: seq<string>, limit: nat) {
    && GoodPages(parts, limit)
    && (open != [] ==> PartFits(Lines(open), limit))
    && (open != [] && parts != [] ==> Greedy(parts[|parts| - 1], Lines(open), limit))
    && (open == [] && parts != [] ==> parts[|parts| - 1].Piece?)
    && Concat(Chunks(parts)) + Concat(open) == Concat(lines)
    && WholeLines(parts) + open == FittingLines(lines, limit)
  }

  lemma {:induction false} LinesAppend(lines: seq<string>, line: string, limit: nat)
    ensures Concat(lines + [line]) == Concat(lines) + line
    ensures FittingLines(lines + [line], limit) == FittingLines(lines, limit) + (if 1 <= |line| <= limit then [line] else [])
  {
    ConcatAppend(lines, [line]);
    ConcatOne(line);
    assert (lines + [line])[..|lines|] == lines;
  }

  lemma Assoc<T>(a: seq<T>, b: seq<T>, c: seq<T>)
    ensures a + (b + c) == (a + b) + c
  {
  }

  lemma {:induction false} OpenGrows(parts: seq<Part>, open: seq<string>, line: string, limit: nat)
    requires open != [] ==> PartFits(Lines(open), limit)
    requires open != [] && parts != [] ==> Greedy(parts[|parts| - 1], Lines(open), limit)
    requires open == [] && parts != [] ==> parts[|parts| - 1].Piece?
    requires 1 <= |line| && |Concat(open)| + |line| <= limit
    ensures PartFits(Lines(open + [line]), limit)
    ensures parts != [] ==> Greedy(parts[|parts| - 1], Lines(open + [line]), limit)
  {
    LinesAppend(open, line, limit);
  }

  // A line joins the open chunk.
  lemma {:induction false} LineJoins(parts: seq<Part>, open: seq<string>, lines: seq<string>, line: string, limit: nat)
    requires Progress(parts, open, lines, limit)
    requires 1 <= |line| && |Concat(open)| + |line| <= limit
    ensures Progress(parts, open + [line], lines + [line], limit)
  {
    OpenGrows(parts, open, line, limit);
    LinesAppend(lines, line, limit);
    LinesAppend(open, line, limit);
    Assoc(Concat(Chunks(parts)), Concat(open), line);
    Assoc(WholeLines(parts), open, [line]);
  }

  // Closing the open chunk.
  lemma {:induction false} Close(parts: seq<Part>, open: seq<string>, limit: nat)
    requires GoodPages(parts, limit) && open != [] && PartFits(Lines(open), limit)
    requires parts != [] ==> Greedy(parts[|parts| - 1], Lines(open), limit)
    ensures GoodPages(parts + [Lines(open)], limit)
    ensures Concat(Chunks(parts + [Lines(open)])) == Concat(Chunks(parts)) + Concat(open)
    ensures WholeLines(parts + [Lines(open)]) == WholeLines(parts) + open
  {
    GoodAppend(parts, [Lines(open)], limit);
    var all := parts + [Lines(open)];
    assert all[..|parts|] == parts;
    LinesAppend(Chunks(parts), Concat(open), limit);
  }

  // A line that does not fit behind the open chunk starts the next one.
  lemma {:induction false} LineOpens(parts: seq<Part>, open: seq<string>, lines: seq<string>, line: string, limit: nat)
    requires Progress(parts, open, lines, limit) && open != []
    requires 1 <= |line| <= limit && |Concat(open)| + |line| > limit
    ensures Progress(parts + [Lines(open)], [line], lines + [line], limit)
  {
    Close(parts, open, limit);
    LinesAppend(lines, line, limit);
    ConcatOne(line);
  }

  lemma {:induction false} CutPages(parts: seq<Part>, line: string, limit: nat)
    requires limit > 0 && line != "" && GoodPages(parts, limit)
    ensures GoodPages(parts + Pieces(line, limit), limit)
    ensures (parts + Pieces(line, limit))[|parts + Pieces(line, limit)| - 1].Piece?
  {
    var ps := Pieces(line, limit);
    GoodAppend(parts, ps, limit);
    assert (parts + ps)[|parts + ps| - 1] == ps[|ps| - 1];
  }

  lemma {:induction false} CutText(parts: seq<Part>, line: string, limit: nat)
    requires limit > 0
    ensures Concat(Chunks(parts + Pieces(line, limit))) == Concat(Chunks(parts)) + line
    ensures WholeLines(parts + Pieces(line, limit)) == WholeLines(parts)
  {
    var ps := Pieces(line, limit);
    ChunksAppend(parts, ps);
    ConcatAppend(Chunks(parts), Chunks(ps));
    PiecesConcat(line, limit);
    WholeLinesAppend(parts, ps);
    PiecesCarryNoLine(ps);
  }

  // A line that is longer than the limit is cut into pieces of its own.
  lemma {:induction false} LineIsCut(parts: seq<Part>, lines: seq<string>, line: string, limit: nat)
    requires limit > 0 && |line| > limit
    requires GoodPages(parts, limit)
    requires Concat(Chunks(parts)) == Concat(lines) && WholeLines(parts) == FittingLines(lines, limit)
    ensures Progress(parts + Pieces(line, limit), [], lines + [line], limit)
  {
    LinesAppend(lines, line, limit);
    CutPages(parts, line, limit);
    CutText(parts, line, limit);
  }

  lemma NothingYet(limit: nat)
    ensures Progress([], [], [], limit) && Chunks([]) == [] && Concat([]) == ""
  {
  }

  method ChunkForTelegram(rendered: string, limit: int) returns (chunks: seq<string>)
    ensures Paginates(chunks, rendered, if limit > 0 then limit else 4096)
    ensures Concat(chunks) == rendered
    ensures forall i | 0 <= i < |chunks| :: 1 <= |chunks[i]| <= (if limit > 0 then limit else 4096)
  {
    ghost var parts;
    chunks, parts := ChunkLines(SplitAfter(rendered), Limit(limit));
    PagesAreLossless(chunks, rendered, Limit(limit));
  }

  // The loop over the lines, and the chunk that is still open after it.
  method ChunkLines(lines: seq<string>, limit: nat) returns (chunks: seq<string>, ghost parts: seq<Part>)
    requires limit > 0
    ensures chunks == Chunks(parts) && Describes(parts, lines, limit)
  {
    chunks, parts := [], [];
    var cur := "";
    ghost var open: seq<string>, seen: seq<string> := [], [];
    NothingYet(limit);
    for i := 0 to |lines|
      invariant seen == lines[..i]
      invariant Progress(parts, open, seen, limit)
      invariant chunks == Chunks(parts) && cur == Concat(open)
    {
      chunks, cur, parts, open := AddLine(chunks, cur, lines[i], limit, parts, open, seen);
      seen := seen + [lines[i]];
    }
    assert seen == lines;
    chunks, cur, parts := Flush(chunks, cur, limit, parts, open);
  }

  // Closes the open chunk, if there is one.
  method Flush(chunks: seq<string>, cur: string, limit: nat, ghost parts: seq<Part>, ghost open: seq<string>)
    returns (chunks': seq<string>, cur': string, ghost parts': seq<Part>)
    requires chunks == Chunks(parts) && cur == Concat(open)
    requires GoodPages(parts, limit) && (open != [] ==> PartFits(Lines(open), limit))
    requires open != [] && parts != [] ==> Greedy(parts[|parts| - 1], Lines(open), limit)
    ensures chunks' == Chunks(parts') && cur' == ""
    ensures chunks' == chunks + (if cur == "" then [] else [cur])
    ensures GoodPages(parts', limit)
    ensures Concat(Chunks(parts')) == Concat(Chunks(parts)) + Concat(open)
    ensures WholeLines(parts') == WholeLines(parts) + open
    ensures parts' == if open == [] then parts else parts + [Lines(open)]
  {
    chunks', cur', parts' := chunks, "", parts;
    if |cur| > 0 {
      Close(parts, open, limit);
      assert (parts + [Lines(open)])[..|parts|] == parts;
      chunks', parts' := chunks + [cur], parts + [Lines(open)];
    } else {
      assert open == [];
    }
  }

  lemma EmptyLine(parts: seq<Part>, open: seq<string>, seen: seq<string>, limit: nat)
    requires Progress(parts, open, seen, limit)
    ensures Progress(parts, open, seen + [""], limit)
  {
    LinesAppend(seen, "", limit);
  }

  // A line over the limit: the open chunk is closed, and the line's pieces follow.
  method CutLine(chunks: seq<string>, cur: string, line: string, limit: nat,
                 ghost parts: seq<Part>, ghost open: seq<string>, ghost seen: seq<string>)
    returns (chunks': seq<string>, cur': string, ghost parts': seq<Part>)
    requires limit > 0 && |line| > limit
    requires Progress(parts, open, seen, limit) && chunks == Chunks(parts) && cur == Concat(open)
    ensures Progress(parts', [], seen + [line], limit) && chunks' == Chunks(parts') && cur' == ""
  {
    chunks', cur', parts' := Flush(chunks, cur, limit, parts, open);
    var pieces := HardSplit(line, limit);
    LineIsCut(parts', seen, line, limit);
    ChunksAppend(parts', Pieces(line, limit));
    chunks', parts' := chunks' + pieces, parts' + Pieces(line, limit);
  }

  // A line that fits a chunk but not this one any more: the open chunk is closed, and the line opens the next.
  method OpenLine(chunks: seq<string>, cur: string, line: string, limit: nat,
                  ghost parts: seq<Part>, ghost open: seq<string>, ghost seen: seq<string>)
    returns (chunks': seq<string>, cur': string, ghost parts': seq<Part>)
    requires 1 <= |line| <= limit && |cur| + |line| > limit
    requires Progress(parts, open, seen, limit) && chunks == Chunks(parts) && cur == Concat(open)
    ensures Progress(parts', [line], seen + [line], limit) && chunks' == Chunks(parts') && cur' == Concat([line])
  {
    LineOpens(parts, open, seen, line, limit);
    ConcatOne(line);
    chunks', cur', parts' := Flush(chunks, cur, limit, parts, open);
    cur' := cur' + line;
  }

  lemma {:induction false} JoinedLine(parts: seq<Part>, open: seq<string>, seen: seq<string>, line: string, limit: nat)
    requires Progress(parts, open, seen, limit)
    requires 1 <= |line| && |Concat(open)| + |line| <= limit
    ensures Progress(parts, open + [line], seen + [line], limit) && Concat(open + [line]) == Concat(open) + line
  {
    LineJoins(parts, open, seen, line, limit);
    LinesAppend(open, line, limit);
  }

  // One line of the text.
  method AddLine(chunks: seq<string>, cur: string, line: string, limit: nat,
                 ghost parts: seq<Part>, ghost open: seq<string>, ghost seen: seq<string>)
    returns (chunks': seq<string>, cur': string, ghost parts': seq<Part>, ghost open': seq<string>)
    requires limit > 0
    requires Progress(parts, open, seen, limit) && chunks == Chunks(parts) && cur == Concat(open)
    ensures Progress(parts', open', seen + [line], limit) && chunks' == Chunks(parts') && cur' == Concat(open')
  {
    chunks', cur', parts', open' := chunks, cur, parts, open;
    if line == "" {
      EmptyLine(parts, open, seen, limit);
    } else if |line| > limit {
      chunks', cur', parts' := CutLine(chunks, cur, line, limit, parts, open, seen);
      open' := [];
    } else if |cur| + |line| > limit {
      chunks', cur', parts' := OpenLine(chunks, cur, line, limit, parts, open, seen);
      open' := [line];
    } else {
      JoinedLine(parts, open, seen, line, limit);
      open' := open + [line];
      cur' := cur + line;
    }
  }

  // In particular the chunks of a text concatenate to it, and none is empty or over the limit.
  lemma {:induction false} PagesAreLossless(chunks: seq<string>, text: string, limit: nat)
    requires Paginates(chunks, text, limit)
    ensures Concat(chunks) == text
    ensures forall i | 0 <= i < |chunks| :: 1 <= |chunks[i]| <= limit
  {
    SplitAfterConcat(text);
    var parts :| chunks == Chunks(parts) && Describes(parts, SplitAfter(text), limit);
    forall i | 0 <= i < |chunks| ensures 1 <= |chunks[i]| <= limit {
      assert PartFits(parts[i], limit);
    }
  }
}
