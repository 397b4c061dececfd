/** What the bytes of a file edit tell about its contents (kahyad/internal/approval/diff.go,
    kahyad/internal/approval/payload.go): the rendered diff read back, line by line. */
module Card {
  import opened Text
  import opened Decimal
  import opened Diff
  import opened Payload

  type Display = string -> string

  // ---- The rendered text read back ----

  predicate OneLiners(lines: seq<DiffLine>) {
    forall i | 0 <= i < |lines| :: NL !in lines[i].text
  }

  // The display of a line is a line.
  ghost predicate LineWise(display: Display) {
    forall s: string | NL !in s :: NL !in display(s)
  }

  function Signed(line: DiffLine, display: Display): string {
    [OpChar(line.op)] + display(line.text)
  }

  // The signed, displayed lines of a card.
  function Shown(lines: seq<DiffLine>, display: Display): seq<string> {
    if lines == [] then [] else Shown(lines[..|lines| - 1], display) + [Signed(lines[|lines| - 1], display)]
  }

  lemma {:induction false} ShownSize(lines: seq<DiffLine>, display: Display)
    ensures |Shown(lines, display)| == |lines|
    ensures forall i | 0 <= i < |lines| :: Shown(lines, display)[i] == Signed(lines[i], display)
  {
    if lines != [] {
      ShownSize(lines[..|lines| - 1], display);
    }
  }

  lemma {:induction false} AppendLine(text: string, line: string)
    requires Tail(text) == "" && NL !in line
    ensures CompleteLines(text + (line + [NL])) == CompleteLines(text) + [line]
    ensures Tail(text + (line + [NL])) == ""
  {
    LinesAcross(text, line + [NL]);
    LineFirst(line, "");
    NoLine("");
    assert line + [NL] == line + [NL] + "" && "" + (line + [NL]) == line + [NL];
  }

  // The body of a card is its shown lines, each with a newline.
  lemma {:induction false} BodyLines(lines: seq<DiffLine>, display: Display)
    requires OneLiners(lines) && LineWise(display)
    ensures CompleteLines(Body(lines, display)) == Shown(lines, display) && Tail(Body(lines, display)) == ""
  {
    if lines == [] {
      NoLine("");
    } else {
      var front, last := lines[..|lines| - 1], lines[|lines| - 1];
      BodyLines(front, display);
      AppendLine(Body(front, display), Signed(last, display));
      BodyStep(front, last, display);
      assert front + [last] == lines;
    }
  }

  lemma {:induction false} BodyStep(front: seq<DiffLine>, last: DiffLine, display: Display)
    ensures Body(front + [last], display) == Body(front, display) + (Signed(last, display) + [NL])
    ensures Shown(front + [last], display) == Shown(front, display) + [Signed(last, display)]
  {
    assert (front + [last])[..|front|] == front;
  }

  lemma LastOf(a: seq<string>, x: string, b: seq<string>, y: string)
    requires a + [x] == b + [y]
    ensures a == b && x == y
  {
    var s := a + [x];
    assert s[|s| - 1] == x && s[|s| - 1] == y && s[..|s| - 1] == a && s[..|s| - 1] == b;
  }

  lemma {:induction false} SameShownSameBody(a: seq<DiffLine>, b: seq<DiffLine>, display: Display)
    requires Shown(a, display) == Shown(b, display)
    ensures Body(a, display) == Body(b, display)
    decreases |a|
  {
    ShownSize(a, display);
    ShownSize(b, display);
    if a != [] {
      var fa, x, fb, y := a[..|a| - 1], a[|a| - 1], b[..|b| - 1], b[|b| - 1];
      assert fa + [x] == a && fb + [y] == b;
      BodyStep(fa, x, display);
      BodyStep(fb, y, display);
      LastOf(Shown(fa, display), Signed(x, display), Shown(fb, display), Signed(y, display));
      SameShownSameBody(fa, fb, display);
    }
  }

  // The signs alone fix the two counts of the header.
  lemma {:induction false} SameSignsSameCounts(a: seq<DiffLine>, b: seq<DiffLine>)
    requires |a| == |b| && forall i | 0 <= i < |a| :: a[i].op == b[i].op
    ensures |OldSide(a)| == |OldSide(b)| && |NewSide(a)| == |NewSide(b)|
  {
    if a != [] {
      SameSignsSameCounts(a[1..], b[1..]);
    }
  }

  lemma SameSigned(x: DiffLine, y: DiffLine, display: Display)
    requires Signed(x, display) == Signed(y, display)
    ensures x.op == y.op && display(x.text) == display(y.text)
  {
    var s := Signed(x, display);
    assert s[0] == OpChar(x.op) && s[0] == OpChar(y.op);
    assert s[1..] == display(x.text) && s[1..] == display(y.text);
  }

  lemma {:induction false} ShownSigns(a: seq<DiffLine>, b: seq<DiffLine>, display: Display)
    requires Shown(a, display) == Shown(b, display)
    ensures |a| == |b|
    ensures forall i | 0 <= i < |a| :: a[i].op == b[i].op && display(a[i].text) == display(b[i].text)
  {
    ShownSize(a, display);
    ShownSize(b, display);
    forall i | 0 <= i < |a|
      ensures a[i].op == b[i].op && display(a[i].text) == display(b[i].text)
    {
      assert Shown(a, display)[i] == Shown(b, display)[i];
      SameSigned(a[i], b[i], display);
    }
  }

  function Counts(lines: seq<DiffLine>): string {
    "@@ -1," + NatText(|OldSide(lines)|) + " +1," + NatText(|NewSide(lines)|) + " @@"
  }

  function Paths(path: string): string {
    "--- a/" + path + "\n" + "+++ b/" + path + "\n"
  }

  lemma {:induction false} TextParts(path: string, lines: seq<DiffLine>, display: Display)
    ensures UnifiedText(path, lines, display) == Paths(path) + (Counts(lines) + [NL] + Body(lines, display))
  {
    assert " @@\n" == " @@" + [NL];
  }

  lemma DigitsAreOneLine(s: string)
    requires AllDigits(s)
    ensures NL !in s
  {
  }

  lemma CountsAreOneLine(lines: seq<DiffLine>)
    ensures NL !in Counts(lines)
  {
    DigitsAreOneLine(NatText(|OldSide(lines)|));
    DigitsAreOneLine(NatText(|NewSide(lines)|));
  }

  lemma SameRest(p: string, x: string, y: string)
    requires p + x == p + y
    ensures x == y
  {
    assert x == (p + x)[|p|..] && y == (p + y)[|p|..];
  }

  lemma SameBody(a: string, x: string, b: string, y: string)
    requires NL !in a && NL !in b && a + [NL] + x == b + [NL] + y
    ensures a == b && x == y
  {
    FirstNLAfter(a, x);
    FirstNLAfter(b, y);
    var s := a + [NL] + x;
    assert s[..|a|] == a && s[..|a|] == b && s[|a| + 1..] == x && s[|a| + 1..] == y;
  }

  lemma {:induction false} SameShownSameText(path: string, a: seq<DiffLine>, b: seq<DiffLine>, display: Display)
    requires Shown(a, display) == Shown(b, display)
    ensures UnifiedText(path, a, display) == UnifiedText(path, b, display)
  {
    ShownSigns(a, b, display);
    SameSignsSameCounts(a, b);
    SameShownSameBody(a, b, display);
  }

  // Two cards for one path read alike exactly when they show the same signed lines.
  lemma {:induction false} SameTextIff(path: string, a: seq<DiffLine>, b: seq<DiffLine>, display: Display)
    requires OneLiners(a) && OneLiners(b) && LineWise(display)
    ensures UnifiedText(path, a, display) == UnifiedText(path, b, display) <==> Shown(a, display) == Shown(b, display)
  {
    TextParts(path, a, display);
    TextParts(path, b, display);
    if Shown(a, display) == Shown(b, display) {
      SameShownSameText(path, a, b, display);
    }
    if UnifiedText(path, a, display) == UnifiedText(path, b, display) {
      SameRest(Paths(path), Counts(a) + [NL] + Body(a, display), Counts(b) + [NL] + Body(b, display));
      CountsAreOneLine(a);
      CountsAreOneLine(b);
      SameBody(Counts(a), Body(a, display), Counts(b), Body(b, display));
      BodyLines(a, display);
      BodyLines(b, display);
    }
  }

  // ---- File edits ----

  lemma {:induction false} LinesAreOneLiners(s: string)
    ensures forall i | 0 <= i < |Split(s)| :: NL !in Split(s)[i]
    decreases |s|
  {
    TailSpec(s);
    if NL in s {
      var line, rest := Cut(s);
      LinesAreOneLiners(rest);
      assert Split(s) == [line] + Split(rest);
    } else {
      NoLine(s);
    }
  }

  lemma {:induction false} BacktraceOneLiners(a: seq<string>, b: seq<string>, i: nat, j: nat)
    requires i <= |a| && j <= |b|
    requires (forall k | 0 <= k < |a| :: NL !in a[k]) && (forall k | 0 <= k < |b| :: NL !in b[k])
    ensures OneLiners(Backtrace(a, b, i, j))
    decreases |a| - i + |b| - j
  {
    if i < |a| && j < |b| && a[i] == b[j] {
      BacktraceOneLiners(a, b, i + 1, j + 1);
    } else if i < |a| && (j == |b| || Lcs(a, b, i + 1, j) >= Lcs(a, b, i, j + 1)) {
      BacktraceOneLiners(a, b, i + 1, j);
    } else if j < |b| {
      BacktraceOneLiners(a, b, i, j + 1);
    }
  }

  lemma SummaryIsOneLine(n: nat, m: nat)
    ensures NL !in Summary(n, m)
  {
    DigitsAreOneLine(NatText(n));
    DigitsAreOneLine(NatText(m));
  }

  lemma DiffIsOneLiners(oldContent: string, newContent: string)
    ensures OneLiners(DiffLines(oldContent, newContent))
  {
    var a, b := SplitLines(oldContent), SplitLines(newContent);
    LinesAreOneLiners(TrimFinalNL(oldContent));
    LinesAreOneLiners(TrimFinalNL(newContent));
    if |a| * |b| > MAX_DIFF_CELLS {
      SummaryIsOneLine(|a|, |oldContent|);
      SummaryIsOneLine(|b|, |newContent|);
    } else {
      BacktraceOneLiners(a, b, 0, 0);
    }
  }

  datatype Edit = Edit(oldContent: string, newContent: string)

  function EditLines(e: Edit): seq<DiffLine> {
    DiffLines(e.oldContent, e.newContent)
  }

  function EditText(path: string, e: Edit, display: Display): string {
    UnifiedText(path, EditLines(e), display)
  }

  predicate Holds(path: string, e: Edit, display: Display) {
    |EditText(path, e, display)| < 0x8000_0000_0000_0000
  }

  function EditBytes(path: Field, e: Edit, display: Display): string
    requires Holds(path, e, display)
  {
    CanonicalBytes(FileEditOf(path, EditText(path, e, display)))
  }

  // ---- What a reader takes off a card ----

  // The lines behind one of two signs, without it.
  function Behind(shown: seq<string>, one: char, other: char): seq<string> {
    if shown == [] then []
    else
      var front, last := Behind(shown[..|shown| - 1], one, other), shown[|shown| - 1];
      if last != "" && (last[0] == one || last[0] == other) then front + [last[1..]] else front
  }

  function Displayed(lines: seq<string>, display: Display): (shown: seq<string>)
    ensures |shown| == |lines| && forall i | 0 <= i < |lines| :: shown[i] == display(lines[i])
  {
    seq(|lines|, i requires 0 <= i < |lines| => display(lines[i]))
  }

  lemma {:induction false} BehindAppend(shown: seq<string>, last: string, one: char, other: char)
    requires last != ""
    ensures Behind(shown + [last], one, other)
            == Behind(shown, one, other) + (if last[0] == one || last[0] == other then [last[1..]] else [])
  {
    assert (shown + [last])[..|shown|] == shown;
  }

  lemma DisplayedAppend(a: seq<string>, b: seq<string>, display: Display)
    ensures Displayed(a + b, display) == Displayed(a, display) + Displayed(b, display)
  {
  }

  lemma {:induction false} SidesOfOne(line: DiffLine, display: Display)
    ensures Displayed(OldSide([line]), display) == if line.op == Add then [] else [display(line.text)]
    ensures Displayed(NewSide([line]), display) == if line.op == Remove then [] else [display(line.text)]
    ensures Signed(line, display)[1..] == display(line.text)
    ensures Signed(line, display)[0] == match line.op case Context => ' ' case Add => '+' case Remove => '-'
  {
    assert [line][1..] == [];
    assert OldSide([]) == [] && NewSide([]) == [];
  }

  // Behind ' ' or '-' stands the old side, behind ' ' or '+' the new one.
  lemma {:induction false} ShownSides(lines: seq<DiffLine>, display: Display)
    ensures Behind(Shown(lines, display), ' ', '-') == Displayed(OldSide(lines), display)
    ensures Behind(Shown(lines, display), ' ', '+') == Displayed(NewSide(lines), display)
  {
    if lines != [] {
      var front, last := lines[..|lines| - 1], lines[|lines| - 1];
      assert front + [last] == lines;
      ShownSides(front, display);
      SidesAppend(front, [last]);
      SidesOfOne(last, display);
      DisplayedAppend(OldSide(front), OldSide([last]), display);
      DisplayedAppend(NewSide(front), NewSide([last]), display);
      BehindAppend(Shown(front, display), Signed(last, display), ' ', '-');
      BehindAppend(Shown(front, display), Signed(last, display), ' ', '+');
    }
  }

  // A card read back, sign by sign: its header gives the path and how many lines stand behind ' ' or '-' and behind
  // ' ' or '+', and within the guard these are the displayed lines of the old and of the new content.
  lemma {:induction false} CardReads(path: string, e: Edit, display: Display) returns (body: string)
    requires LineWise(display)
    ensures Tail(body) == ""
    ensures var before, after := Behind(CompleteLines(body), ' ', '-'), Behind(CompleteLines(body), ' ', '+');
            && EditText(path, e, display)
               == "--- a/" + path + "\n" + "+++ b/" + path + "\n"
                  + "@@ -1," + NatText(|before|) + " +1," + NatText(|after|) + " @@\n" + body
            && (|SplitLines(e.oldContent)| * |SplitLines(e.newContent)| <= 4_000_000 ==>
                  && before == Displayed(SplitLines(e.oldContent), display)
                  && after == Displayed(SplitLines(e.newContent), display))
            && (|SplitLines(e.oldContent)| * |SplitLines(e.newContent)| > 4_000_000 ==>
                  && before == [display(CountsOf(e.oldContent))]
                  && after == [display(CountsOf(e.newContent))])
  {
    var lines := EditLines(e);
    body := Body(lines, display);
    DiffIsOneLiners(e.oldContent, e.newContent);
    BodyLines(lines, display);
    ShownSides(lines, display);
    if |SplitLines(e.oldContent)| * |SplitLines(e.newContent)| <= 4_000_000 {
      BacktraceSpells(SplitLines(e.oldContent), SplitLines(e.newContent), 0, 0);
    } else {
      SummarySides(CountsOf(e.oldContent), CountsOf(e.newContent));
    }
  }

  // The number of lines and bytes, as the card of a large edit words it.
  function CountsOf(content: string): string {
    "<" + NatText(|SplitLines(content)|) + " satır, " + NatText(|content|) + " bayt>"
  }

  lemma {:induction false} EndedAppend(lines: seq<string>, last: string)
    ensures Concat(Ended(lines + [last])) == Concat(Ended(lines)) + (last + [NL])
  {
    if lines == [] {
      assert [last][1..] == [] && [] + [last] == [last];
      assert Ended([]) == [] && Ended([last]) == [last + [NL]];
      ConcatOne(last + [NL]);
    } else {
      assert (lines + [last])[1..] == lines[1..] + [last];
      EndedAppend(lines[1..], last);
      assert Ended(lines + [last])[1..] == Ended(lines[1..] + [last]) && Ended(lines)[1..] == Ended(lines[1..]);
    }
  }

  // The lines of a content spell it, with a newline after the last one.
  lemma {:induction false} LinesSpell(content: string)
    ensures Concat(Ended(SplitLines(content)))
            == if content == "" || content[|content| - 1] == NL then content else content + [NL]
  {
    if content != "" {
      var t := TrimFinalNL(content);
      SplitAfterConcat(t);
      ConcatAppend(Ended(CompleteLines(t)), [Tail(t)]);
      ConcatOne(Tail(t));
      EndedAppend(CompleteLines(t), Tail(t));
    }
  }

  // What an approval of a file edit fixes: the canonical bytes of two edits of one path are equal exactly when the two
  // diffs show the same signed lines.
  lemma SameBytesIff(path: Field, e: Edit, f: Edit, display: Display)
    requires LineWise(display) && Holds(path, e, display) && Holds(path, f, display)
    ensures EditBytes(path, e, display) == EditBytes(path, f, display) <==>
            Shown(EditLines(e), display) == Shown(EditLines(f), display)
  {
    DiffIsOneLiners(e.oldContent, e.newContent);
    DiffIsOneLiners(f.oldContent, f.newContent);
    SameTextIff(path, EditLines(e), EditLines(f), display);
    if EditBytes(path, e, display) == EditBytes(path, f, display) {
      CanonicalBytesInjective(FileEditOf(path, EditText(path, e, display)), FileEditOf(path, EditText(path, f, display)));
    }
  }

  // The display tells the lines of one diff from those of the other.
  ghost predicate TellsApart(a: seq<DiffLine>, b: seq<DiffLine>, display: Display) {
    forall i, j | 0 <= i < |a| && 0 <= j < |b| && display(a[i].text) == display(b[j].text) :: a[i].text == b[j].text
  }

  lemma {:induction false} ShownApart(a: seq<DiffLine>, b: seq<DiffLine>, display: Display)
    requires TellsApart(a, b, display) && Shown(a, display) == Shown(b, display)
    ensures a == b
  {
    ShownSigns(a, b, display);
    forall i | 0 <= i < |a|
      ensures a[i] == b[i]
    {
      assert display(a[i].text) == display(b[i].text);
    }
  }

  predicate WithinGuard(e: Edit) {
    |SplitLines(e.oldContent)| * |SplitLines(e.newContent)| <= MAX_DIFF_CELLS
  }

  // The same text, up to one newline after its last line.
  ghost predicate SameUpToNL(a: string, b: string) {
    a == b || AddsFinalNL(a, b) || AddsFinalNL(b, a)
  }

  predicate SameSize(a: string, b: string) {
    |SplitLines(a)| == |SplitLines(b)| && |a| == |b|
  }

  // One content is the other one's summary line, spelled out.
  predicate Spells(content: string, other: string) {
    SplitLines(content) == [Summary(|SplitLines(other)|, |other|)]
  }

  // ---- The summary lines past the guard ----

  lemma {:induction false} DigitsThen(x: string, r: string, y: string, s: string)
    requires AllDigits(x) && AllDigits(y) && x + (" " + r) == y + (" " + s)
    ensures x == y && r == s
  {
    DigitsEndBefore(x, " " + r);
    DigitsEndBefore(y, " " + s);
    var t := x + (" " + r);
    assert t[..|x|] == x && t[..|x|] == y;
    assert t[|x| + 1..] == r && t[|x| + 1..] == s;
  }

  // A summary line behind its bracket: a number, a space, the word for lines, a number, a space, the word for bytes.
  lemma {:induction false} SummaryParts(n: nat, m: nat)
    ensures Summary(n, m)[1..] == NatText(n) + (" " + ("satır, " + (NatText(m) + (" " + "bayt>"))))
  {
    var x, y := NatText(n), NatText(m);
    assert " satır, " == " " + "satır, " && " bayt>" == " " + "bayt>";
    Regroup(x, " ", "satır, ", y, " bayt>");
  }

  lemma {:induction false} Regroup(a: string, b: string, c: string, d: string, e: string)
    ensures ("<" + a + (b + c) + d + e)[1..] == a + (b + (c + (d + e)))
  {
    assert ("<" + a + (b + c) + d + e)[1..] == a + (b + c) + d + e;
  }

  // A summary line determines the two counts in it.
  lemma SummaryInjective(n: nat, m: nat, n': nat, m': nat)
    requires Summary(n, m) == Summary(n', m')
    ensures n == n' && m == m'
  {
    SummaryParts(n, m);
    SummaryParts(n', m');
    var r, s := NatText(m) + (" " + "bayt>"), NatText(m') + (" " + "bayt>");
    DigitsThen(NatText(n), "satır, " + r, NatText(n'), "satır, " + s);
    NatTextInjective(n, n');
    SameRest("satır, ", r, s);
    DigitsThen(NatText(m), "bayt>", NatText(m'), "bayt>");
    NatTextInjective(m, m');
  }

  lemma PastGuard(e: Edit, f: Edit)
    requires !WithinGuard(e) && !WithinGuard(f)
    ensures EditLines(e) == EditLines(f) <==>
            SameSize(e.oldContent, f.oldContent) && SameSize(e.newContent, f.newContent)
  {
    var a, b := EditLines(e), EditLines(f);
    if a == b {
      assert a[0].text == b[0].text && a[1].text == b[1].text;
      SummaryInjective(|SplitLines(e.oldContent)|, |e.oldContent|, |SplitLines(f.oldContent)|, |f.oldContent|);
      SummaryInjective(|SplitLines(e.newContent)|, |e.newContent|, |SplitLines(f.newContent)|, |f.newContent|);
    }
  }

  // The diff of two one-line texts.
  lemma OneLineDiff(x: string, y: string)
    ensures Backtrace([x], [y], 0, 0) ==
            if x == y then [DiffLine(Context, x)] else [DiffLine(Remove, x), DiffLine(Add, y)]
  {
    assert Backtrace([x], [y], 1, 1) == [];
    assert Backtrace([x], [y], 1, 0) == [DiffLine(Add, y)];
  }

  lemma SummarySides(x: string, y: string)
    ensures OldSide([DiffLine(Remove, x), DiffLine(Add, y)]) == [x]
    ensures NewSide([DiffLine(Remove, x), DiffLine(Add, y)]) == [y]
  {
    var lines := [DiffLine(Remove, x), DiffLine(Add, y)];
    assert lines[1..] == [DiffLine(Add, y)] && lines[1..][1..] == [];
    assert OldSide([]) == [] && NewSide([]) == [];
    assert OldSide(lines[1..]) == [] && NewSide(lines[1..]) == [y];
  }

  lemma {:induction false} TwoSummaries(a: seq<string>, b: seq<string>, x: string, y: string)
    ensures Backtrace(a, b, 0, 0) == [DiffLine(Remove, x), DiffLine(Add, y)] <==> a == [x] && b == [y] && x != y
  {
    BacktraceSpells(a, b, 0, 0);
    SummarySides(x, y);
    OneLineDiff(x, y);
  }

  lemma AcrossGuard(e: Edit, f: Edit)
    requires WithinGuard(e) && !WithinGuard(f)
    ensures EditLines(e) == EditLines(f) <==>
            && Spells(e.oldContent, f.oldContent) && Spells(e.newContent, f.newContent)
            && !SameSize(f.oldContent, f.newContent)
  {
    var x := Summary(|SplitLines(f.oldContent)|, |f.oldContent|);
    var y := Summary(|SplitLines(f.newContent)|, |f.newContent|);
    TwoSummaries(SplitLines(e.oldContent), SplitLines(e.newContent), x, y);
    if x == y {
      SummaryInjective(|SplitLines(f.oldContent)|, |f.oldContent|, |SplitLines(f.newContent)|, |f.newContent|);
    }
  }

  // When two edits of one path whose different lines are shown differently share their bytes, and so one approval: small ones when
  // they agree up to a final newline on either side, large ones as soon as their line and byte counts agree, and a
  // small one with a large one when it spells out the large one's summary.
  ghost predicate Alike(e: Edit, f: Edit) {
    if WithinGuard(e) && WithinGuard(f) then
      SameUpToNL(e.oldContent, f.oldContent) && SameUpToNL(e.newContent, f.newContent)
    else if !WithinGuard(e) && !WithinGuard(f) then
      SameSize(e.oldContent, f.oldContent) && SameSize(e.newContent, f.newContent)
    else if WithinGuard(e) then
      Spells(e.oldContent, f.oldContent) && Spells(e.newContent, f.newContent) && !SameSize(f.oldContent, f.newContent)
    else
      Spells(f.oldContent, e.oldContent) && Spells(f.newContent, e.newContent) && !SameSize(e.oldContent, e.newContent)
  }

  lemma SameLinesAlike(e: Edit, f: Edit)
    ensures EditLines(e) == EditLines(f) <==> Alike(e, f)
  {
    if WithinGuard(e) && WithinGuard(f) {
      SameDiffIff(e.oldContent, e.newContent, f.oldContent, f.newContent);
    } else if !WithinGuard(e) && !WithinGuard(f) {
      PastGuard(e, f);
    } else if WithinGuard(e) {
      AcrossGuard(e, f);
    } else {
      AcrossGuard(f, e);
    }
  }

  lemma SameApprovalIff(path: Field, e: Edit, f: Edit, display: Display)
    requires LineWise(display) && TellsApart(EditLines(e), EditLines(f), display)
    requires Holds(path, e, display) && Holds(path, f, display)
    ensures EditBytes(path, e, display) == EditBytes(path, f, display) <==> Alike(e, f)
  {
    SameBytesIff(path, e, f, display);
    SameLinesAlike(e, f);
    if Shown(EditLines(e), display) == Shown(EditLines(f), display) {
      ShownApart(EditLines(e), EditLines(f), display);
    }
  }

  // A concrete family: a newline after the last line is invisible, whatever the display.
  lemma FinalNewlineIsInvisible(path: Field, oldContent: string, content: string, display: Display)
    requires content != "" && content[|content| - 1] != NL
    requires WithinGuard(Edit(oldContent, content)) && Holds(path, Edit(oldContent, content), display)
    ensures EditText(path, Edit(oldContent, content + [NL]), display) == EditText(path, Edit(oldContent, content), display)
    ensures EditBytes(path, Edit(oldContent, content + [NL]), display) == EditBytes(path, Edit(oldContent, content), display)
  {
    SameLinesIff(content, content + [NL]);
  }

  // ---- The display the cards use ----

  // Each control character becomes its escape, every other character stays.
  function Escape(control: char -> bool, escape: char -> string, s: string): string {
    if s == "" then ""
    else (if control(s[0]) then escape(s[0]) else [s[0]]) + Escape(control, escape, s[1..])
  }

  // After the Unicode normal form, which is a parameter.
  function DisplayOf(normal: string -> string, control: char -> bool, escape: char -> string): Display {
    (s: string) => Escape(control, escape, normal(s))
  }

  lemma {:induction false} EscapePlain(control: char -> bool, escape: char -> string, s: string)
    requires forall i | 0 <= i < |s| :: !control(s[i])
    ensures Escape(control, escape, s) == s
  {
    if s != "" {
      EscapePlain(control, escape, s[1..]);
      assert [s[0]] + s[1..] == s;
    }
  }

  lemma {:induction false} EscapeAddsNoLine(control: char -> bool, escape: char -> string, s: string)
    requires NL !in s && forall c: char :: NL !in escape(c)
    ensures NL !in Escape(control, escape, s)
  {
    if s != "" {
      EscapeAddsNoLine(control, escape, s[1..]);
    }
  }

  // It keeps lines apart, so the exact condition on what is shown applies to it,
  lemma DisplayIsLineWise(normal: string -> string, control: char -> bool, escape: char -> string)
    requires forall c: char :: NL !in escape(c)
    requires forall s: string | NL !in s :: NL !in normal(s)
    ensures LineWise(DisplayOf(normal, control, escape))
  {
    forall s: string | NL !in s
      ensures NL !in DisplayOf(normal, control, escape)(s)
    {
      EscapeAddsNoLine(control, escape, normal(s));
    }
  }

  // The line has no control character and is in the normal form already.
  predicate PlainLine(normal: string -> string, control: char -> bool, s: string) {
    normal(s) == s && forall i | 0 <= i < |s| :: !control(s[i])
  }

  predicate PlainEdit(normal: string -> string, control: char -> bool, e: Edit) {
    forall i | 0 <= i < |EditLines(e)| :: PlainLine(normal, control, EditLines(e)[i].text)
  }

  lemma PlainTellsApart(normal: string -> string, control: char -> bool, escape: char -> string, e: Edit, f: Edit)
    requires PlainEdit(normal, control, e) && PlainEdit(normal, control, f)
    ensures TellsApart(EditLines(e), EditLines(f), DisplayOf(normal, control, escape))
  {
    var display := DisplayOf(normal, control, escape);
    forall i, j | 0 <= i < |EditLines(e)| && 0 <= j < |EditLines(f)| && display(EditLines(e)[i].text) == display(EditLines(f)[j].text)
      ensures EditLines(e)[i].text == EditLines(f)[j].text
    {
      EscapePlain(control, escape, EditLines(e)[i].text);
      EscapePlain(control, escape, EditLines(f)[j].text);
    }
  }

  // so two plain edits of one path share their bytes, on the cards as they are rendered, exactly when they are alike;
  lemma PlainApprovalIff(path: Field, e: Edit, f: Edit, normal: string -> string, control: char -> bool, escape: char -> string)
    requires forall c: char :: NL !in escape(c)
    requires forall s: string | NL !in s :: NL !in normal(s)
    requires PlainEdit(normal, control, e) && PlainEdit(normal, control, f)
    requires Holds(path, e, DisplayOf(normal, control, escape)) && Holds(path, f, DisplayOf(normal, control, escape))
    ensures var display := DisplayOf(normal, control, escape);
            EditBytes(path, e, display) == EditBytes(path, f, display) <==> Alike(e, f)
  {
    DisplayIsLineWise(normal, control, escape);
    PlainTellsApart(normal, control, escape, e, f);
    SameApprovalIff(path, e, f, DisplayOf(normal, control, escape));
  }

  lemma OneNewLine(text: string)
    requires NL !in text && text != ""
    ensures EditLines(Edit("", text)) == [DiffLine(Add, text)]
  {
    NoLine(text);
    assert SplitLines("") == [] && SplitLines(text) == [text];
    assert Backtrace([], [text], 0, 1) == [];
  }

  predicate PlainLines(normal: string -> string, control: char -> bool, lines: seq<string>) {
    forall i | 0 <= i < |lines| :: PlainLine(normal, control, lines[i])
  }

  lemma {:induction false} PlainDisplayed(lines: seq<string>, normal: string -> string, control: char -> bool, escape: char -> string)
    requires PlainLines(normal, control, lines)
    ensures Displayed(lines, DisplayOf(normal, control, escape)) == lines
  {
    forall i | 0 <= i < |lines|
      ensures Displayed(lines, DisplayOf(normal, control, escape))[i] == lines[i]
    {
      assert PlainLine(normal, control, lines[i]);
      EscapePlain(control, escape, lines[i]);
    }
  }

  // What a reader takes off a card spells the contents, each line with its newline.
  predicate Spelled(e: Edit, body: string) {
    && Concat(Ended(Behind(CompleteLines(body), ' ', '-')))
       == (if e.oldContent == "" || e.oldContent[|e.oldContent| - 1] == NL then e.oldContent else e.oldContent + [NL])
    && Concat(Ended(Behind(CompleteLines(body), ' ', '+')))
       == (if e.newContent == "" || e.newContent[|e.newContent| - 1] == NL then e.newContent else e.newContent + [NL])
  }

  lemma {:induction false} CardSpells(path: string, e: Edit, display: Display) returns (header: string, body: string)
    requires LineWise(display) && |SplitLines(e.oldContent)| * |SplitLines(e.newContent)| <= 4_000_000
    requires Displayed(SplitLines(e.oldContent), display) == SplitLines(e.oldContent)
    requires Displayed(SplitLines(e.newContent), display) == SplitLines(e.newContent)
    ensures EditText(path, e, display) == header + body && Spelled(e, body)
  {
    body := CardReads(path, e, display);
    var before, after := |Behind(CompleteLines(body), ' ', '-')|, |Behind(CompleteLines(body), ' ', '+')|;
    header := "--- a/" + path + "\n" + "+++ b/" + path + "\n" + "@@ -1," + NatText(before) + " +1," + NatText(after) + " @@\n";
    LinesSpell(e.oldContent);
    LinesSpell(e.newContent);
  }

  // and their cards within the guard can be read back: what stands behind ' ' or '-' spells the old content, what
  // stands behind ' ' or '+' the new one;
  lemma {:induction false} PlainCardSpells(path: string, e: Edit, normal: string -> string, control: char -> bool, escape: char -> string)
    returns (header: string, body: string)
    requires forall c: char :: NL !in escape(c)
    requires forall s: string | NL !in s :: NL !in normal(s)
    requires PlainLines(normal, control, SplitLines(e.oldContent)) && PlainLines(normal, control, SplitLines(e.newContent))
    requires |SplitLines(e.oldContent)| * |SplitLines(e.newContent)| <= 4_000_000
    ensures EditText(path, e, DisplayOf(normal, control, escape)) == header + body && Spelled(e, body)
  {
    DisplayIsLineWise(normal, control, escape);
    PlainDisplayed(SplitLines(e.oldContent), normal, control, escape);
    PlainDisplayed(SplitLines(e.newContent), normal, control, escape);
    header, body := CardSpells(path, e, DisplayOf(normal, control, escape));
  }

  // but it does not tell all lines apart: a file with a hidden control character and one that spells out its escape have
  // one approval between them.
  lemma HiddenOrSpelledOut(path: string, c: char, normal: string -> string, control: char -> bool, escape: char -> string)
    requires control(c) && c != NL && escape(c) != "" && NL !in escape(c)
    requires forall i | 0 <= i < |escape(c)| :: !control(escape(c)[i])
    requires normal([c]) == [c] && normal(escape(c)) == escape(c)
    ensures var display := DisplayOf(normal, control, escape);
            EditText(path, Edit("", [c]), display) == EditText(path, Edit("", escape(c)), display)
  {
    var display := DisplayOf(normal, control, escape);
    EscapePlain(control, escape, escape(c));
    assert [c][1..] == "" && Escape(control, escape, [c]) == escape(c) + "";
    OneNewLine([c]);
    OneNewLine(escape(c));
    var a, b := DiffLine(Add, [c]), DiffLine(Add, escape(c));
    assert display([c]) == display(escape(c));
    BodyStep([], a, display);
    BodyStep([], b, display);
    assert [] + [a] == [a] && [] + [b] == [b];
    SameShownSameText(path, [a], [b], display);
  }
}
