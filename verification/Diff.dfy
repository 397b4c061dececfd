/** The approval card's line diff (kahyad/internal/approval/diff.go): the longest-common-subsequence table,
    its backtrace, and the unified text rendered from it. */
module Diff {
  import opened Text
  import opened Decimal

  datatype DiffOp = Context | Add | Remove

  datatype DiffLine = DiffLine(op: DiffOp, text: string)

  const MAX_DIFF_CELLS := 4_000_000

  newtype int32 = x: int | -0x8000_0000 <= x < 0x8000_0000

  // ---- What a diff says ----

  // The context and remove lines, in order.
  function OldSide(lines: seq<DiffLine>): seq<string> {
    if lines == [] then []
    else if lines[0].op.Add? then OldSide(lines[1..])
    else [lines[0].text] + OldSide(lines[1..])
  }

  // The context and add lines, in order.
  function NewSide(lines: seq<DiffLine>): seq<string> {
    if lines == [] then []
    else if lines[0].op.Remove? then NewSide(lines[1..])
    else [lines[0].text] + NewSide(lines[1..])
  }

  // The context lines, in order.
  function Kept(lines: seq<DiffLine>): seq<string> {
    if lines == [] then []
    else if lines[0].op.Context? then [lines[0].text] + Kept(lines[1..])
    else Kept(lines[1..])
  }

  lemma {:induction false} SidesAppend(a: seq<DiffLine>, b: seq<DiffLine>)
    ensures OldSide(a + b) == OldSide(a) + OldSide(b)
    ensures NewSide(a + b) == NewSide(a) + NewSide(b)
  {
    if a == [] {
      assert a + b == b;
    } else {
      assert (a + b)[1..] == a[1..] + b;
      SidesAppend(a[1..], b);
    }
  }

  // ---- Common subsequences ----

  // c occurs in s at the strictly increasing positions `at`.
  ghost predicate Embeds(c: seq<string>, s: seq<string>, at: seq<nat>) {
    && |at| == |c|
    && (forall k | 0 <= k < |c| :: at[k] < |s| && s[at[k]] == c[k])
    && (forall k, l | 0 <= k < l < |at| :: at[k] < at[l])
  }

  ghost predicate CommonSubsequence(c: seq<string>, a: seq<string>, b: seq<string>) {
    (exists at :: Embeds(c, a, at)) && (exists at :: Embeds(c, b, at))
  }

  // Length of a longest common subsequence of a[i..] and b[j..].
  function Lcs(a: seq<string>, b: seq<string>, i: nat, j: nat): (n: nat)
    requires i <= |a| && j <= |b|
    ensures n <= |a| - i && n <= |b| - j
    decreases |a| - i + |b| - j
  {
    if i == |a| || j == |b| then 0
    else if a[i] == b[j] then Lcs(a, b, i + 1, j + 1) + 1
    else if Lcs(a, b, i + 1, j) >= Lcs(a, b, i, j + 1) then Lcs(a, b, i + 1, j)
    else Lcs(a, b, i, j + 1)
  }

  // No common subsequence of the two suffixes is longer than Lcs.
  lemma {:induction false} LcsIsUpperBound(a: seq<string>, b: seq<string>, i: nat, j: nat, c: seq<string>, p: seq<nat>, q: seq<nat>)
    requires i <= |a| && j <= |b|
    requires Embeds(c, a, p) && Embeds(c, b, q)
    requires c != [] ==> i <= p[0] && j <= q[0]
    ensures |c| <= Lcs(a, b, i, j)
    decreases |a| - i + |b| - j
  {
    if c != [] {
      if a[i] == b[j] {
        LcsIsUpperBound(a, b, i + 1, j + 1, c[1..], p[1..], q[1..]);
      } else if i < p[0] {
        LcsIsUpperBound(a, b, i + 1, j, c, p, q);
      } else {
        LcsIsUpperBound(a, b, i, j + 1, c, p, q);
      }
    }
  }

  // ---- The backtrace ----

  function Backtrace(a: seq<string>, b: seq<string>, i: nat, j: nat): seq<DiffLine>
    requires i <= |a| && j <= |b|
    decreases |a| - i + |b| - j
  {
    if i < |a| && j < |b| && a[i] == b[j] then [DiffLine(Context, a[i])] + Backtrace(a, b, i + 1, j + 1)
    else if i < |a| && (j == |b| || Lcs(a, b, i + 1, j) >= Lcs(a, b, i, j + 1)) then [DiffLine(Remove, a[i])] + Backtrace(a, b, i + 1, j)
    else if j < |b| then [DiffLine(Add, b[j])] + Backtrace(a, b, i, j + 1)
    else []
  }

  // One line less on either side costs at most one common line, and never gains one.
  lemma {:induction false} LcsSteps(a: seq<string>, b: seq<string>, i: nat, j: nat)
    requires i <= |a| && j <= |b|
    ensures i < |a| ==> Lcs(a, b, i + 1, j) <= Lcs(a, b, i, j) <= Lcs(a, b, i + 1, j) + 1
    ensures j < |b| ==> Lcs(a, b, i, j + 1) <= Lcs(a, b, i, j) <= Lcs(a, b, i, j + 1) + 1
    decreases |a| - i + |b| - j
  {
    if i < |a| {
      LcsSteps(a, b, i + 1, j);
    }
    if j < |b| {
      LcsSteps(a, b, i, j + 1);
    }
    if i < |a| && j < |b| {
      LcsSteps(a, b, i + 1, j + 1);
    }
  }

  // No added line stands directly before a removed one.
  predicate RemovedFirst(lines: seq<DiffLine>) {
    forall k | 0 < k < |lines| && lines[k].op == Remove :: lines[k - 1].op != Add
  }

  lemma AfterAdd(a: seq<string>, b: seq<string>, i: nat, j: nat)
    requires i < |a| && j < |b| && Lcs(a, b, i + 1, j) < Lcs(a, b, i, j + 1)
    ensures var rest := Backtrace(a, b, i, j + 1); rest != [] && rest[0].op != Remove
  {
    LcsSteps(a, b, i, j + 1);
    LcsSteps(a, b, i + 1, j);
  }

  lemma RemovedFirstBehind(line: DiffLine, rest: seq<DiffLine>)
    requires RemovedFirst(rest) && (line.op == Add && rest != [] ==> rest[0].op != Remove)
    ensures RemovedFirst([line] + rest)
  {
    var lines := [line] + rest;
    forall k | 0 < k < |lines| && lines[k].op == Remove
      ensures lines[k - 1].op != Add
    {
      assert lines[k] == rest[k - 1];
      assert k > 1 ==> lines[k - 1] == rest[k - 2];
    }
  }

  // Within a change the removed lines come first.
  lemma {:induction false} RemovedComeFirst(a: seq<string>, b: seq<string>, i: nat, j: nat)
    requires i <= |a| && j <= |b|
    ensures RemovedFirst(Backtrace(a, b, i, j))
    decreases |a| - i + |b| - j
  {
    if i < |a| && j < |b| && a[i] == b[j] {
      RemovedComeFirst(a, b, i + 1, j + 1);
      RemovedFirstBehind(DiffLine(Context, a[i]), Backtrace(a, b, i + 1, j + 1));
    } else if i < |a| && (j == |b| || Lcs(a, b, i + 1, j) >= Lcs(a, b, i, j + 1)) {
      RemovedComeFirst(a, b, i + 1, j);
      RemovedFirstBehind(DiffLine(Remove, a[i]), Backtrace(a, b, i + 1, j));
    } else if j < |b| {
      RemovedComeFirst(a, b, i, j + 1);
      if i < |a| {
        AfterAdd(a, b, i, j);
      } else {
        OnlyAdds(a, b, j + 1);
      }
      RemovedFirstBehind(DiffLine(Add, b[j]), Backtrace(a, b, i, j + 1));
    }
  }

  lemma {:induction false} OnlyAdds(a: seq<string>, b: seq<string>, j: nat)
    requires j <= |b|
    ensures var rest := Backtrace(a, b, |a|, j); rest != [] ==> rest[0].op == Add
  {
  }

  // Context and remove lines spell the old text, context and add lines the new one.
  lemma {:induction false} BacktraceSpells(a: seq<string>, b: seq<string>, i: nat, j: nat)
    requires i <= |a| && j <= |b|
    ensures OldSide(Backtrace(a, b, i, j)) == a[i..]
    ensures NewSide(Backtrace(a, b, i, j)) == b[j..]
    ensures |Kept(Backtrace(a, b, i, j))| == Lcs(a, b, i, j)
    decreases |a| - i + |b| - j
  {
    var lines := Backtrace(a, b, i, j);
    if i < |a| && j < |b| && a[i] == b[j] {
      BacktraceSpells(a, b, i + 1, j + 1);
      assert lines[1..] == Backtrace(a, b, i + 1, j + 1);
    } else if i < |a| && (j == |b| || Lcs(a, b, i + 1, j) >= Lcs(a, b, i, j + 1)) {
      BacktraceSpells(a, b, i + 1, j);
      assert lines[1..] == Backtrace(a, b, i + 1, j);
    } else if j < |b| {
      BacktraceSpells(a, b, i, j + 1);
      assert lines[1..] == Backtrace(a, b, i, j + 1);
    }
  }

  function Shift(p: seq<nat>): (r: seq<nat>)
    ensures |r| == |p| && forall k | 0 <= k < |p| :: r[k] == p[k] + 1
  {
    seq(|p|, k requires 0 <= k < |p| => p[k] + 1)
  }

  lemma SkipEmbeds(c: seq<string>, s: seq<string>, p: seq<nat>, x: string)
    requires Embeds(c, s, p)
    ensures Embeds(c, [x] + s, Shift(p))
  {
  }

  lemma KeepEmbeds(c: seq<string>, s: seq<string>, p: seq<nat>, x: string)
    requires Embeds(c, s, p)
    ensures Embeds([x] + c, [x] + s, [0] + Shift(p))
  {
  }

  // The kept lines occur in both texts a diff spells.
  lemma {:induction false} KeptEmbeds(lines: seq<DiffLine>) returns (p: seq<nat>, q: seq<nat>)
    ensures Embeds(Kept(lines), OldSide(lines), p)
    ensures Embeds(Kept(lines), NewSide(lines), q)
  {
    if lines == [] {
      p, q := [], [];
    } else {
      var x, rest := lines[0].text, lines[1..];
      p, q := KeptEmbeds(rest);
      match lines[0].op
      case Context =>
        KeepEmbeds(Kept(rest), OldSide(rest), p, x);
        KeepEmbeds(Kept(rest), NewSide(rest), q, x);
        p, q := [0] + Shift(p), [0] + Shift(q);
      case Remove =>
        SkipEmbeds(Kept(rest), OldSide(rest), p, x);
        p := Shift(p);
      case Add =>
        SkipEmbeds(Kept(rest), NewSide(rest), q, x);
        q := Shift(q);
    }
  }

  // The diff is correct and minimal: it spells both texts, what it keeps is a common subsequence of them,
  // and no common subsequence is longer.
  lemma {:induction false} DiffIsOptimal(a: seq<string>, b: seq<string>, c: seq<string>)
    requires CommonSubsequence(c, a, b)
    ensures OldSide(Backtrace(a, b, 0, 0)) == a && NewSide(Backtrace(a, b, 0, 0)) == b
    ensures CommonSubsequence(Kept(Backtrace(a, b, 0, 0)), a, b)
    ensures |c| <= |Kept(Backtrace(a, b, 0, 0))|
  {
    BacktraceSpells(a, b, 0, 0);
    var p, q := KeptEmbeds(Backtrace(a, b, 0, 0));
    var p' :| Embeds(c, a, p');
    var q' :| Embeds(c, b, q');
    LcsIsUpperBound(a, b, 0, 0, c, p', q');
  }

  lemma ProductAtLeast(n: nat, m: nat, k: nat)
    requires n >= k && m >= k
    ensures n * m >= k * k
  {
    assert n * m >= k * m;
  }

  // Within the size guard no table entry can overflow 32 bits.
  lemma EntriesFit(n: nat, m: nat)
    requires n * m <= MAX_DIFF_CELLS
    ensures n <= 2000 || m <= 2000
  {
    if n > 2000 && m > 2000 {
      ProductAtLeast(n, m, 2001);
    }
  }

  // The backtrace emits one line and goes on.
  lemma {:induction false} Emit(a: seq<string>, b: seq<string>, i: nat, j: nat, out: seq<DiffLine>, line: DiffLine, i': nat, j': nat)
    requires i <= |a| && j <= |b| && i' <= |a| && j' <= |b|
    requires Backtrace(a, b, i, j) == [line] + Backtrace(a, b, i', j')
    ensures (out + [line]) + Backtrace(a, b, i', j') == out + Backtrace(a, b, i, j)
  {
  }

  ghost predicate Filled(dp: array2<int32>, a: seq<string>, b: seq<string>)
    reads dp
  {
    && dp.Length0 == |a| + 1 && dp.Length1 == |b| + 1
    && forall i, j | 0 <= i <= |a| && 0 <= j <= |b| :: dp[i, j] as int == Lcs(a, b, i, j)
  }

  // The table and its backtrace, as the loops fill and walk it.
  method LcsDiff(old_: seq<string>, new_: seq<string>) returns (out: seq<DiffLine>)
    requires |old_| * |new_| <= MAX_DIFF_CELLS
    ensures out == Backtrace(old_, new_, 0, 0)
  {
    var dp := FillTable(old_, new_);
    ghost var full := Backtrace(old_, new_, 0, 0);
    var i, j;
    out, i, j := Walk(dp, old_, new_);
    while i < |old_|
      invariant i <= |old_| && j <= |new_| && (i == |old_| || j == |new_|)
      invariant out + Backtrace(old_, new_, i, j) == full
    {
      Emit(old_, new_, i, j, out, DiffLine(Remove, old_[i]), i + 1, j);
      out := out + [DiffLine(Remove, old_[i])];
      i := i + 1;
    }
    while j < |new_|
      invariant j <= |new_| && i == |old_|
      invariant out + Backtrace(old_, new_, i, j) == full
    {
      Emit(old_, new_, i, j, out, DiffLine(Add, new_[j]), i, j + 1);
      out := out + [DiffLine(Add, new_[j])];
      j := j + 1;
    }
  }

  // The walk from the top left corner of the table until one side is used up.
  method Walk(dp: array2<int32>, old_: seq<string>, new_: seq<string>) returns (out: seq<DiffLine>, i: nat, j: nat)
    requires Filled(dp, old_, new_)
    ensures i <= |old_| && j <= |new_| && (i == |old_| || j == |new_|)
    ensures out + Backtrace(old_, new_, i, j) == Backtrace(old_, new_, 0, 0)
  {
    ghost var full := Backtrace(old_, new_, 0, 0);
    out := [];
    i, j := 0, 0;
    while i < |old_| && j < |new_|
      invariant i <= |old_| && j <= |new_|
      invariant out + Backtrace(old_, new_, i, j) == full
      decreases |old_| - i + |new_| - j
    {
      if old_[i] == new_[j] {
        Emit(old_, new_, i, j, out, DiffLine(Context, old_[i]), i + 1, j + 1);
        out := out + [DiffLine(Context, old_[i])];
        i := i + 1;
        j := j + 1;
      } else if dp[i + 1, j] >= dp[i, j + 1] {
        Emit(old_, new_, i, j, out, DiffLine(Remove, old_[i]), i + 1, j);
        out := out + [DiffLine(Remove, old_[i])];
        i := i + 1;
      } else {
        Emit(old_, new_, i, j, out, DiffLine(Add, new_[j]), i, j + 1);
        out := out + [DiffLine(Add, new_[j])];
        j := j + 1;
      }
    }
  }

  method FillTable(a: seq<string>, b: seq<string>) returns (dp: array2<int32>)
    requires |a| * |b| <= MAX_DIFF_CELLS
    ensures fresh(dp)
    ensures Filled(dp, a, b)
  {
    EntriesFit(|a|, |b|);
    dp := new int32[|a| + 1, |b| + 1]((_, _) => 0);
    var i: nat := |a|;
    while i > 0
      invariant i <= |a|
      invariant forall k, l | i <= k <= |a| && 0 <= l <= |b| :: dp[k, l] as int == Lcs(a, b, k, l)
      invariant forall k | 0 <= k < i :: dp[k, |b|] == 0
    {
      i := i - 1;
      FillRow(dp, a, b, i);
    }
  }

  // One row of the table, from right to left, given the row below it.
  method FillRow(dp: array2<int32>, a: seq<string>, b: seq<string>, i: nat)
    requires dp.Length0 == |a| + 1 && dp.Length1 == |b| + 1
    requires |a| <= 2000 || |b| <= 2000
    requires i < |a| && dp[i, |b|] == 0
    requires forall k, l | i < k <= |a| && 0 <= l <= |b| :: dp[k, l] as int == Lcs(a, b, k, l)
    modifies dp
    ensures forall l | 0 <= l <= |b| :: dp[i, l] as int == Lcs(a, b, i, l)
    ensures forall k, l | 0 <= k <= |a| && 0 <= l <= |b| && k != i :: dp[k, l] == old(dp[k, l])
  {
    var j: nat := |b|;
    while j > 0
      invariant j <= |b|
      invariant forall l | j <= l <= |b| :: dp[i, l] as int == Lcs(a, b, i, l)
      invariant forall k, l | 0 <= k <= |a| && 0 <= l <= |b| && k != i :: dp[k, l] == old(dp[k, l])
    {
      j := j - 1;
      if a[i] == b[j] {
        dp[i, j] := dp[i + 1, j + 1] + 1;
      } else if dp[i + 1, j] >= dp[i, j + 1] {
        dp[i, j] := dp[i + 1, j];
      } else {
        dp[i, j] := dp[i, j + 1];
      }
    }
  }

  // ---- Lines of a file ----

  function TrimFinalNL(s: string): string {
    if s != "" && s[|s| - 1] == NL then s[..|s| - 1] else s
  }

  function SplitLines(content: string): seq<string> {
    if content == "" then [] else Split(TrimFinalNL(content))
  }

  ghost predicate AddsFinalNL(b: string, a: string) {
    a != "" && a[|a| - 1] != NL && b == a + [NL]
  }

  lemma SplitInjective(a: string, b: string)
    requires Split(a) == Split(b)
    ensures a == b
  {
    SplitJoin(a);
    SplitJoin(b);
  }

  // Two contents are cut into the same lines exactly when they are equal or differ by one final newline
  // after a last line that is not empty.
  lemma SameLinesIff(a: string, b: string)
    ensures SplitLines(a) == SplitLines(b) <==> a == b || AddsFinalNL(a, b) || AddsFinalNL(b, a)
  {
    if a != "" && b != "" {
      if SplitLines(a) == SplitLines(b) {
        SplitInjective(TrimFinalNL(a), TrimFinalNL(b));
        if a[|a| - 1] == NL {
          assert a == TrimFinalNL(a) + [NL];
        }
        if b[|b| - 1] == NL {
          assert b == TrimFinalNL(b) + [NL];
        }
      }
    }
  }

  // ---- The rendered text ----

  function Summary(lines: nat, bytes: nat): string {
    "<" + NatText(lines) + " satır, " + NatText(bytes) + " bayt>"
  }

  // The lines UnifiedDiff renders: the diff, or two summary lines past the size guard.
  function DiffLines(oldContent: string, newContent: string): seq<DiffLine> {
    var a, b := SplitLines(oldContent), SplitLines(newContent);
    if |a| * |b| > MAX_DIFF_CELLS then
      [DiffLine(Remove, Summary(|a|, |oldContent|)), DiffLine(Add, Summary(|b|, |newContent|))]
    else Backtrace(a, b, 0, 0)
  }

  function OpChar(op: DiffOp): char {
    match op
    case Context => ' '
    case Add => '+'
    case Remove => '-'
  }

  // Each line behind its sign; display makes hidden characters visible.
  function Body(lines: seq<DiffLine>, display: string -> string): string {
    if lines == [] then ""
    else Body(lines[..|lines| - 1], display) + [OpChar(lines[|lines| - 1].op)] + display(lines[|lines| - 1].text) + [NL]
  }

  function UnifiedText(path: string, lines: seq<DiffLine>, display: string -> string): string {
    "--- a/" + path + "\n" + "+++ b/" + path + "\n"
    + "@@ -1," + NatText(|OldSide(lines)|) + " +1," + NatText(|NewSide(lines)|) + " @@\n"
    + Body(lines, display)
  }

  method RenderUnifiedDiff(path: string, lines: seq<DiffLine>, display: string -> string) returns (text: string)
    ensures text == UnifiedText(path, lines, display)
  {
    var oldCount, newCount := 0, 0;
    for i := 0 to |lines|
      invariant oldCount == |OldSide(lines[..i])| && newCount == |NewSide(lines[..i])|
    {
      assert lines[..i + 1] == lines[..i] + [lines[i]];
      SidesAppend(lines[..i], [lines[i]]);
      match lines[i].op {
        case Context =>
          oldCount := oldCount + 1;
          newCount := newCount + 1;
        case Remove => oldCount := oldCount + 1;
        case Add => newCount := newCount + 1;
      }
    }
    assert lines[..|lines|] == lines;
    var header := "--- a/" + path + "\n" + "+++ b/" + path + "\n"
                  + "@@ -1," + NatText(oldCount) + " +1," + NatText(newCount) + " @@\n";
    var body := "";
    for i := 0 to |lines|
      invariant body == Body(lines[..i], display)
    {
      assert lines[..i + 1][..i] == lines[..i];
      body := body + [OpChar(lines[i].op)] + display(lines[i].text) + [NL];
    }
    return header + body;
  }

  method UnifiedDiff(path: string, oldContent: string, newContent: string, display: string -> string) returns (text: string)
    ensures text == UnifiedText(path, DiffLines(oldContent, newContent), display)
  {
    var oldLines, newLines := SplitLines(oldContent), SplitLines(newContent);
    var lines;
    if |oldLines| * |newLines| > MAX_DIFF_CELLS {
      lines := [DiffLine(Remove, Summary(|oldLines|, |oldContent|)), DiffLine(Add, Summary(|newLines|, |newContent|))];
    } else {
      lines := LcsDiff(oldLines, newLines);
    }
    text := RenderUnifiedDiff(path, lines, display);
  }

  // The two counts of the hunk header are the line counts of the two contents exactly when the table was
  // small enough to be built; past the guard the header counts the two summary lines instead.
  lemma HeaderCountsIff(oldContent: string, newContent: string)
    ensures var a, b, lines := SplitLines(oldContent), SplitLines(newContent), DiffLines(oldContent, newContent);
            |OldSide(lines)| == |a| && |NewSide(lines)| == |b| <==> |a| * |b| <= MAX_DIFF_CELLS
  {
    var a, b := SplitLines(oldContent), SplitLines(newContent);
    if |a| * |b| <= MAX_DIFF_CELLS {
      BacktraceSpells(a, b, 0, 0);
    } else {
      var lines := DiffLines(oldContent, newContent);
      assert OldSide(lines[1..]) == [] && NewSide(lines[1..]) == [lines[1].text];
    }
  }

  // What a reader of the card can tell apart: within the guard, two edits have the same diff exactly when
  // both sides agree line by line, that is, up to one final newline on either side.
  lemma SameDiffIff(old1: string, new1: string, old2: string, new2: string)
    requires |SplitLines(old1)| * |SplitLines(new1)| <= MAX_DIFF_CELLS
    requires |SplitLines(old2)| * |SplitLines(new2)| <= MAX_DIFF_CELLS
    ensures DiffLines(old1, new1) == DiffLines(old2, new2) <==>
            && (old1 == old2 || AddsFinalNL(old1, old2) || AddsFinalNL(old2, old1))
            && (new1 == new2 || AddsFinalNL(new1, new2) || AddsFinalNL(new2, new1))
  {
    BacktraceSpells(SplitLines(old1), SplitLines(new1), 0, 0);
    BacktraceSpells(SplitLines(old2), SplitLines(new2), 0, 0);
    SameLinesIff(old1, old2);
    SameLinesIff(new1, new2);
  }
}
