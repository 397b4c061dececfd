/** The <hafiza> block (mcp/memory/render.go): a stable top-k selection under a rune budget. A string is a sequence
    of runes and a score is a real number. */
module Render {
  import opened Decimal
  import Text

  datatype Hit = Hit(chunkID: int, path: string, seqNo: int, text: string, score: real, sourceTier: string)

  const DEFAULT_TOP_K := 6
  const MAX_TEXT_RUNES := 400
  const MAX_BLOCK_RUNES := 4000
  const ELLIPSIS := "\U{2026}"

  // ---- The order: score descending, ties as they came ----

  function Insert(h: Hit, sorted: seq<Hit>): seq<Hit> {
    if sorted == [] || sorted[0].score < h.score then [h] + sorted
    else [sorted[0]] + Insert(h, sorted[1..])
  }

  function Ranked(hits: seq<Hit>): seq<Hit> {
    if hits == [] then [] else Insert(hits[|hits| - 1], Ranked(hits[..|hits| - 1]))
  }

  predicate Descending(hits: seq<Hit>) {
    forall i, j | 0 <= i < j < |hits| :: hits[i].score >= hits[j].score
  }

  // The hits with one score, in order.
  function WithScore(hits: seq<Hit>, x: real): seq<Hit> {
    if hits == [] then [] else (if hits[0].score == x then [hits[0]] else []) + WithScore(hits[1..], x)
  }

  lemma {:induction false} WithScoreSplit(a: seq<Hit>, b: seq<Hit>, x: real)
    ensures WithScore(a + b, x) == WithScore(a, x) + WithScore(b, x)
  {
    if a == [] {
      assert a + b == b;
    } else {
      assert (a + b)[1..] == a[1..] + b;
      WithScoreSplit(a[1..], b, x);
    }
  }

  lemma {:induction false} NoneBelow(hits: seq<Hit>, x: real)
    requires forall i | 0 <= i < |hits| :: hits[i].score < x
    ensures WithScore(hits, x) == []
  {
    if hits != [] {
      NoneBelow(hits[1..], x);
    }
  }

  lemma {:induction false} InsertSize(h: Hit, sorted: seq<Hit>)
    ensures |Insert(h, sorted)| == |sorted| + 1
    ensures sorted != [] ==> Insert(h, sorted)[0] == (if sorted[0].score < h.score then h else sorted[0])
  {
    if sorted != [] {
      InsertSize(h, sorted[1..]);
    }
  }

  lemma {:induction false} InsertDescending(h: Hit, sorted: seq<Hit>)
    requires Descending(sorted)
    ensures Descending(Insert(h, sorted))
    ensures forall i | 0 <= i < |Insert(h, sorted)| ::
              Insert(h, sorted)[i].score == h.score || exists j | 0 <= j < |sorted| :: Insert(h, sorted)[i] == sorted[j]
  {
    if sorted != [] && sorted[0].score >= h.score {
      InsertDescending(h, sorted[1..]);
    }
  }

  lemma {:induction false} InsertTies(h: Hit, sorted: seq<Hit>, x: real)
    requires Descending(sorted)
    ensures WithScore(Insert(h, sorted), x) == WithScore(sorted, x) + (if h.score == x then [h] else [])
  {
    if sorted == [] || sorted[0].score < h.score {
      assert ([h] + sorted)[1..] == sorted;
      if h.score == x {
        NoneBelow(sorted, x);
      }
    } else {
      InsertTies(h, sorted[1..], x);
      var rest := Insert(h, sorted[1..]);
      assert ([sorted[0]] + rest)[1..] == rest;
    }
  }

  // The ranking is sorted and stable: within one score the hits keep the order they came in.
  lemma {:induction false} RankedIsStable(hits: seq<Hit>)
    ensures Descending(Ranked(hits)) && |Ranked(hits)| == |hits|
    ensures forall x :: WithScore(Ranked(hits), x) == WithScore(hits, x)
  {
    if hits != [] {
      var front, h := hits[..|hits| - 1], hits[|hits| - 1];
      RankedIsStable(front);
      InsertDescending(h, Ranked(front));
      InsertSize(h, Ranked(front));
      forall x
        ensures WithScore(Ranked(hits), x) == WithScore(hits, x)
      {
        InsertTies(h, Ranked(front), x);
        WithScoreSplit(front, [h], x);
        assert front + [h] == hits;
      }
    }
  }

  lemma {:induction false} FirstOfScore(hits: seq<Hit>, i: nat)
    requires i < |hits|
    ensures WithScore(hits, hits[i].score) != []
    ensures i == 0 ==> WithScore(hits, hits[0].score)[0] == hits[0]
  {
    if i > 0 {
      FirstOfScore(hits[1..], i - 1);
    }
  }

  lemma {:induction false} SomeOfScore(hits: seq<Hit>, x: real) returns (i: nat)
    requires WithScore(hits, x) != []
    ensures i < |hits| && hits[i].score == x
  {
    if hits[0].score == x {
      i := 0;
    } else {
      i := SomeOfScore(hits[1..], x);
      i := i + 1;
    }
  }

  // The best hit is the first one with the best score.
  lemma {:induction false} SameHead(a: seq<Hit>, b: seq<Hit>)
    requires Descending(a) && Descending(b) && a != [] && b != []
    requires forall x :: WithScore(a, x) == WithScore(b, x)
    ensures a[0] == b[0]
  {
    FirstOfScore(a, 0);
    FirstOfScore(b, 0);
    var i := SomeOfScore(b, a[0].score);
    var j := SomeOfScore(a, b[0].score);
  }

  // There is only one such order, whatever algorithm sorts.
  lemma {:induction false} StableOrderUnique(a: seq<Hit>, b: seq<Hit>)
    requires Descending(a) && Descending(b)
    requires forall x :: WithScore(a, x) == WithScore(b, x)
    ensures a == b
  {
    if a == [] || b == [] {
      if a != [] {
        FirstOfScore(a, 0);
      }
      if b != [] {
        FirstOfScore(b, 0);
      }
    } else {
      SameHead(a, b);
      forall x
        ensures WithScore(a[1..], x) == WithScore(b[1..], x)
      {
        var head := if a[0].score == x then [a[0]] else [];
        assert WithScore(a, x) == head + WithScore(a[1..], x);
        assert WithScore(b, x) == head + WithScore(b[1..], x);
        assert WithScore(a[1..], x) == WithScore(a, x)[|head|..];
        assert WithScore(b[1..], x) == WithScore(b, x)[|head|..];
      }
      StableOrderUnique(a[1..], b[1..]);
      assert a == [a[0]] + a[1..] && b == [b[0]] + b[1..];
    }
  }

  // ---- The in-place sort of the private copy ----

  lemma {:induction false} InsertAt(h: Hit, s: seq<Hit>, j: nat)
    requires j <= |s|
    requires forall i | 0 <= i < j :: s[i].score >= h.score
    requires j < |s| ==> s[j].score < h.score
    ensures Insert(h, s) == s[..j] + [h] + s[j..]
  {
    if j == 0 {
      assert s[..0] == [] && s[0..] == s;
    } else {
      InsertAt(h, s[1..], j - 1);
      assert s[..j] == [s[0]] + s[1..][..j - 1] && s[1..][j - 1..] == s[j..];
    }
  }

  // The hits before place j, h, and the hits from place j on, one further.
  lemma Placed(t: seq<Hit>, h: Hit, s: seq<Hit>, j: nat)
    requires j <= |s| && |t| == |s| + 1 && t[j] == h
    requires forall k | 0 <= k < j :: t[k] == s[k]
    requires forall k | j < k <= |s| :: t[k] == s[k - 1]
    ensures t == s[..j] + [h] + s[j..]
  {
  }

  lemma {:induction false} InsertPlace(h: Hit, s: seq<Hit>, j: nat)
    requires Descending(s) && j <= |s|
    requires j > 0 ==> s[j - 1].score >= h.score
    requires j < |s| ==> s[j].score < h.score
    ensures Insert(h, s) == s[..j] + [h] + s[j..]
  {
    InsertAt(h, s, j);
  }

  // Moves a[i] down to its place among the sorted hits before it.
  method Sink(a: array<Hit>, i: nat)
    requires i < a.Length && Descending(a[..i])
    modifies a
    ensures a[..i + 1] == Insert(old(a[i]), old(a[..i]))
    ensures forall k | i < k < a.Length :: a[k] == old(a[k])
  {
    var h, j := a[i], i;
    ghost var s := a[..i];
    while j > 0 && a[j - 1].score < h.score
      invariant 0 <= j <= i
      invariant forall k | 0 <= k < j :: a[k] == s[k]
      invariant forall k | j < k <= i :: a[k] == s[k - 1]
      invariant j < i ==> s[j].score < h.score
      invariant forall k | i < k < a.Length :: a[k] == old(a[k])
    {
      a[j] := a[j - 1];
      j := j - 1;
    }
    a[j] := h;
    assert a[..i + 1] == Insert(h, s) by {
      InsertPlace(h, s, j);
      Placed(a[..i + 1], h, s, j);
    }
  }

  method StableSort(a: array<Hit>)
    modifies a
    ensures a[..] == Ranked(old(a[..]))
  {
    ghost var hits := a[..];
    for i := 0 to a.Length
      invariant a[..i] == Ranked(hits[..i])
      invariant forall k | i <= k < a.Length :: a[k] == hits[k]
    {
      RankedIsStable(hits[..i]);
      assert hits[..i + 1][..i] == hits[..i];
      Sink(a, i);
    }
    assert a[..a.Length] == a[..] && hits[..a.Length] == hits;
  }

  // ---- The block ----

  function TruncateRunes(s: string, max: nat): (r: string)
    ensures |s| <= max ==> r == s
    ensures |s| > max ==> |r| == max + 1 && r[..max] == s[..max] && r[max..] == ELLIPSIS
  {
    if |s| <= max then s else s[..max] + ELLIPSIS
  }

  function Line(h: Hit): string {
    "- [" + h.path + "#" + IntText(h.seqNo) + "] " + TruncateRunes(h.text, MAX_TEXT_RUNES)
  }

  function Lines(hits: seq<Hit>): (lines: seq<string>)
    ensures |lines| == |hits| && forall i | 0 <= i < |hits| :: lines[i] == Line(hits[i])
  {
    seq(|hits|, i requires 0 <= i < |hits| => Line(hits[i]))
  }

  function WrapHafiza(lines: seq<string>): string {
    "<hafiza>\n" + Text.Join(lines) + "\n</hafiza>"
  }

  function TopK(hits: seq<Hit>, k: int): seq<Hit> {
    var n := if k <= 0 then DEFAULT_TOP_K else k;
    var ranked := Ranked(hits);
    if |ranked| > n then ranked[..n] else ranked
  }

  predicate Fits(hits: seq<Hit>) {
    |WrapHafiza(Lines(hits))| <= MAX_BLOCK_RUNES
  }

  predicate LongestFit(kept: seq<Hit>, top: seq<Hit>) {
    kept <= top && (kept != [] ==> Fits(kept)) && forall n | |kept| < n <= |top| :: !Fits(top[..n])
  }

  // Trailing entries are dropped one by one.
  method DropToFit(top: seq<Hit>) returns (block: string, kept: seq<Hit>)
    ensures LongestFit(kept, top)
    ensures block == if kept == [] then "" else WrapHafiza(Lines(kept))
  {
    var n := |top|;
    while n > 0
      invariant 0 <= n <= |top|
      invariant forall m | n < m <= |top| :: !Fits(top[..m])
    {
      var blk := WrapHafiza(Lines(top[..n]));
      if |blk| <= MAX_BLOCK_RUNES {
        return blk, top[..n];
      }
      n := n - 1;
    }
    return "", [];
  }

  // The longest prefix of the stable top k whose block fits, printed one line for each hit kept; nothing at all
  // when not even one fits. The caller's hits are left as they are.
  method RenderKept(hits: array<Hit>, k: int) returns (block: string, kept: seq<Hit>)
    ensures LongestFit(kept, TopK(hits[..], k))
    ensures block == if kept == [] then "" else WrapHafiza(Lines(kept))
  {
    if hits.Length == 0 {
      return "", [];
    }
    var sorted := new Hit[hits.Length](i requires 0 <= i < hits.Length reads hits => hits[i]);
    assert sorted[..] == hits[..];
    StableSort(sorted);
    var top := sorted[..];
    var limit := if k <= 0 then DEFAULT_TOP_K else k;
    if |top| > limit {
      top := top[..limit];
    }
    block, kept := DropToFit(top);
  }

  // ---- What the block is, in the caller's terms ----

  // The printed line of a hit: its path and sequence number, then its text when that has at most 400 runes, and
  // otherwise the first 400 of them and an ellipsis.
  predicate Prints(h: Hit, line: string) {
    if |h.text| <= 400 then line == "- [" + h.path + "#" + IntText(h.seqNo) + "] " + h.text
    else line == "- [" + h.path + "#" + IntText(h.seqNo) + "] " + (h.text[..400] + "\U{2026}")
  }

  // The printed lines of the best hits, at most k of them, or 6 when k is not positive.
  ghost predicate PrintsBest(hits: seq<Hit>, k: int, ranked: seq<Hit>, lines: seq<string>) {
    && Descending(ranked) && |ranked| == |hits| && (forall x :: WithScore(ranked, x) == WithScore(hits, x))
    && |lines| == (var n := if k > 0 then k else 6; if |hits| < n then |hits| else n)
    && forall i | 0 <= i < |lines| :: Prints(ranked[i], lines[i])
  }

  // The block between its two tags around the first n of the lines.
  function BlockOf(lines: seq<string>, n: nat): string
    requires n <= |lines|
  {
    "<hafiza>\n" + Text.Join(lines[..n]) + "\n</hafiza>"
  }

  lemma LineIsPrinted(h: Hit)
    ensures Prints(h, Line(h))
    ensures |Line(h)| <= |h.path| + |IntText(h.seqNo)| + 6 + 401
  {
    if |h.text| > 400 {
      assert TruncateRunes(h.text, 400) == h.text[..400] + "\U{2026}";
    }
  }

  // The block prints the longest beginning of the best hits' lines that fits 4000 runes between the tags, and the
  // hits kept are those that are printed; nothing at all when not even one line fits.
  lemma RenderedIs(hits: seq<Hit>, k: int, block: string, kept: seq<Hit>) returns (ranked: seq<Hit>, lines: seq<string>)
    requires LongestFit(kept, TopK(hits, k)) && block == if kept == [] then "" else WrapHafiza(Lines(kept))
    ensures PrintsBest(hits, k, ranked, lines)
    ensures |kept| <= |lines| && kept == ranked[..|kept|]
    ensures if kept == [] then block == "" else block == BlockOf(lines, |kept|) && |block| <= 4000
    ensures forall n | |kept| < n <= |lines| :: |BlockOf(lines, n)| > 4000
  {
    ranked, lines := Ranked(hits), Lines(TopK(hits, k));
    RankedIsStable(hits);
    forall i | 0 <= i < |lines|
      ensures Prints(ranked[i], lines[i])
    {
      LineIsPrinted(ranked[i]);
    }
    var top := TopK(hits, k);
    forall n | 0 <= n <= |top|
      ensures Lines(top[..n]) == lines[..n]
    {
    }
    assert kept == top[..|kept|];
    forall n | |kept| < n <= |lines|
      ensures |BlockOf(lines, n)| > 4000
    {
      assert !Fits(top[..n]);
      assert Lines(top[..n]) == lines[..n];
    }
  }

  lemma {:induction false} JoinGrows(lines: seq<string>, more: string)
    ensures |Text.Join(lines)| <= |Text.Join(lines + [more])|
  {
    if |lines| > 1 {
      assert (lines + [more])[1..] == lines[1..] + [more];
      JoinGrows(lines[1..], more);
    } else if |lines| == 1 {
      assert (lines + [more])[1..] == [more];
    }
  }

  // Dropping trailing entries one by one finds the longest fitting prefix: a shorter block never is the longer one.
  lemma FitsIsMonotone(hits: seq<Hit>, n: nat)
    requires n < |hits| && Fits(hits[..n + 1])
    ensures Fits(hits[..n])
  {
    assert Lines(hits[..n + 1]) == Lines(hits[..n]) + [Line(hits[n])];
    JoinGrows(Lines(hits[..n]), Line(hits[n]));
  }

  // ---- One printed line for each hit kept ----

  predicate OneLiners(lines: seq<string>) {
    forall i | 0 <= i < |lines| :: Text.NL !in lines[i]
  }

  lemma SplitCons(line: string, rest: string)
    requires Text.NL !in line
    ensures Text.Split(line + [Text.NL] + rest) == [line] + Text.Split(rest)
  {
    Text.LineFirst(line, rest);
  }

  lemma {:induction false} SplitOfJoin(lines: seq<string>)
    requires lines != [] && OneLiners(lines)
    ensures Text.Split(Text.Join(lines)) == lines
  {
    if |lines| == 1 {
      Text.NoLine(lines[0]);
    } else {
      var more := lines[1..];
      assert OneLiners(more);
      SplitOfJoin(more);
      SplitCons(lines[0], Text.Join(more));
    }
  }

  lemma {:induction false} SplitIsOneLiners(s: string)
    ensures OneLiners(Text.Split(s))
    decreases |s|
  {
    Text.TailSpec(s);
    if Text.NL in s {
      var line, rest := Text.Cut(s);
      SplitIsOneLiners(rest);
      assert Text.Split(s) == [line] + Text.Split(rest);
    } else {
      Text.NoLine(s);
    }
  }

  lemma {:induction false} WrapIsJoin(lines: seq<string>)
    requires lines != []
    ensures WrapHafiza(lines) == Text.Join(["<hafiza>"] + lines + ["</hafiza>"])
  {
    JoinEnd(lines, "</hafiza>");
    assert (["<hafiza>"] + lines + ["</hafiza>"])[1..] == lines + ["</hafiza>"];
    assert "<hafiza>" + [Text.NL] == "<hafiza>\n";
    assert [Text.NL] + "</hafiza>" == "\n</hafiza>";
  }

  lemma {:induction false} JoinEnd(lines: seq<string>, last: string)
    requires lines != []
    ensures Text.Join(lines + [last]) == Text.Join(lines) + ([Text.NL] + last)
  {
    if |lines| == 1 {
      assert (lines + [last])[1..] == [last];
    } else {
      JoinEnd(lines[1..], last);
      assert (lines + [last])[1..] == lines[1..] + [last];
    }
  }

  // The block's lines are the opening line, one line for each hit kept and the closing line exactly when no printed
  // hit contains a line break: a path or text with one is not escaped.
  lemma BlockLines(hits: seq<Hit>)
    requires hits != []
    ensures Text.Split(WrapHafiza(Lines(hits))) == ["<hafiza>"] + Lines(hits) + ["</hafiza>"] <==> OneLiners(Lines(hits))
  {
    var lines := Lines(hits);
    var all := ["<hafiza>"] + lines + ["</hafiza>"];
    WrapIsJoin(lines);
    FramedOneLiners(lines);
    if OneLiners(lines) {
      SplitOfJoin(all);
    }
    SplitIsOneLiners(WrapHafiza(lines));
  }

  lemma FramedOneLiners(lines: seq<string>)
    ensures OneLiners(["<hafiza>"] + lines + ["</hafiza>"]) <==> OneLiners(lines)
  {
    var all := ["<hafiza>"] + lines + ["</hafiza>"];
    assert forall i | 0 <= i < |lines| :: all[i + 1] == lines[i];
  }
}
