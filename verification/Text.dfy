/** Lines of text, as strings.Split, strings.SplitAfter and the stream reader cut them.
    A string is a sequence of characters: bytes or runes, the cutting does not care. */
module Text {
  const NL := '\n'

  // The position of the first newline, or the length of s when there is none.
  function FirstNL(s: string): (i: nat)
    ensures i <= |s|
  {
    if s == "" || s[0] == NL then 0 else 1 + FirstNL(s[1..])
  }

  lemma {:induction false} FirstNLSpec(s: string)
    ensures NL !in s[..FirstNL(s)]
    ensures FirstNL(s) < |s| <==> NL in s
    ensures FirstNL(s) < |s| ==> s[FirstNL(s)] == NL
  {
    if s != "" && s[0] != NL {
      FirstNLSpec(s[1..]);
      assert s[..FirstNL(s)] == [s[0]] + s[1..][..FirstNL(s[1..])];
    }
  }

  // The lines that are ended by a newline, without it.
  function CompleteLines(s: string): seq<string>
    decreases |s|
  {
    var i := FirstNL(s);
    if i == |s| then [] else [s[..i]] + CompleteLines(s[i + 1..])
  }

  // What follows the last newline.
  function Tail(s: string): string
    decreases |s|
  {
    var i := FirstNL(s);
    if i == |s| then s else Tail(s[i + 1..])
  }

  lemma SuffixOfSuffix(s: string, i: nat, rest: string, tail: string)
    requires i < |s| && rest == s[i + 1..]
    requires |tail| <= |rest| && tail == rest[|rest| - |tail|..]
    ensures tail == s[|s| - |tail|..]
    ensures s[|s| - |tail| - 1] == if tail == rest then s[i] else rest[|rest| - |tail| - 1]
  {
    assert |s| == i + 1 + |rest|;
  }

  lemma {:induction false} TailSpec(s: string)
    ensures NL !in Tail(s)
    ensures |Tail(s)| <= |s| && Tail(s) == s[|s| - |Tail(s)|..]
    ensures Tail(s) != s ==> s[|s| - |Tail(s)| - 1] == NL
    decreases |s|
  {
    var i := FirstNL(s);
    FirstNLSpec(s);
    if i == |s| {
      assert s[..i] == s;
    } else {
      var rest := s[i + 1..];
      TailSpec(rest);
      SuffixOfSuffix(s, i, rest, Tail(rest));
    }
  }

  // strings.Split(s, "\n")
  function Split(s: string): seq<string> {
    CompleteLines(s) + [Tail(s)]
  }

  // strings.Join(lines, "\n")
  function Join(lines: seq<string>): string {
    if lines == [] then ""
    else if |lines| == 1 then lines[0]
    else lines[0] + [NL] + Join(lines[1..])
  }

  // The complete lines, each with its newline.
  function Ended(lines: seq<string>): seq<string> {
    if lines == [] then [] else [lines[0] + [NL]] + Ended(lines[1..])
  }

  // strings.SplitAfter(s, "\n")
  function SplitAfter(s: string): seq<string> {
    Ended(CompleteLines(s)) + [Tail(s)]
  }

  function Concat(parts: seq<string>): string {
    if parts == [] then "" else parts[0] + Concat(parts[1..])
  }

  lemma {:induction false} ConcatAppend(a: seq<string>, b: seq<string>)
    ensures Concat(a + b) == Concat(a) + Concat(b)
  {
    if a == [] {
      assert a + b == b;
    } else {
      assert (a + b)[1..] == a[1..] + b;
      ConcatAppend(a[1..], b);
    }
  }

  lemma ConcatOne(s: string)
    ensures Concat([s]) == s
  {
    assert Concat([]) == "";
  }

  lemma {:induction false} FirstNLAfter(line: string, rest: string)
    requires NL !in line
    ensures FirstNL(line + [NL] + rest) == |line|
    ensures FirstNL(line) == |line|
  {
    if line != "" {
      assert (line + [NL] + rest)[1..] == line[1..] + [NL] + rest;
      FirstNLAfter(line[1..], rest);
    }
  }

  // A line that has just been completed is the first one.
  lemma {:induction false} LineFirst(line: string, rest: string)
    requires NL !in line
    ensures CompleteLines(line + [NL] + rest) == [line] + CompleteLines(rest)
    ensures Tail(line + [NL] + rest) == Tail(rest)
  {
    var s := line + [NL] + rest;
    assert s[..|line|] == line && s[|line| + 1..] == rest;
    FirstNLAfter(line, rest);
  }

  lemma {:induction false} NoLine(s: string)
    requires NL !in s
    ensures CompleteLines(s) == [] && Tail(s) == s
  {
    FirstNLSpec(s);
  }

  lemma {:induction false} FirstNLAcross(a: string, b: string)
    requires FirstNL(a) < |a|
    ensures FirstNL(a + b) == FirstNL(a)
    ensures (a + b)[..FirstNL(a)] == a[..FirstNL(a)]
    ensures (a + b)[FirstNL(a) + 1..] == a[FirstNL(a) + 1..] + b
  {
    if a[0] != NL {
      assert (a + b)[1..] == a[1..] + b;
      FirstNLAcross(a[1..], b);
    }
  }

  lemma {:induction false} LinesStep(s: string)
    requires FirstNL(s) < |s|
    ensures var i := FirstNL(s);
            CompleteLines(s) == [s[..i]] + CompleteLines(s[i + 1..]) && Tail(s) == Tail(s[i + 1..])
  {
  }

  lemma {:induction false} LinesStepAcross(a: string, b: string)
    requires FirstNL(a) < |a|
    ensures var line, rest := a[..FirstNL(a)], a[FirstNL(a) + 1..];
            && CompleteLines(a) == [line] + CompleteLines(rest) && Tail(a) == Tail(rest)
            && CompleteLines(a + b) == [line] + CompleteLines(rest + b) && Tail(a + b) == Tail(rest + b)
  {
    FirstNLAcross(a, b);
    LinesStep(a);
    LinesStep(a + b);
  }

  lemma PrependBoth(x: seq<string>, p: seq<string>, q: seq<string>)
    ensures x + (p + q) == x + p + q
  {
  }

  // Cutting a stream anywhere: only the text after the last newline is carried over.
  lemma {:induction false} LinesAcross(a: string, b: string)
    ensures CompleteLines(a + b) == CompleteLines(a) + CompleteLines(Tail(a) + b)
    ensures Tail(a + b) == Tail(Tail(a) + b)
    decreases |a|
  {
    var i := FirstNL(a);
    if i == |a| {
      assert CompleteLines(a) == [] && Tail(a) == a;
    } else {
      var rest := a[i + 1..];
      LinesStepAcross(a, b);
      LinesAcross(rest, b);
      PrependBoth([a[..i]], CompleteLines(rest), CompleteLines(Tail(rest) + b));
    }
  }

  // A text with a newline, cut at the first one.
  lemma Cut(s: string) returns (line: string, rest: string)
    requires NL in s
    ensures s == line + [NL] + rest
    ensures CompleteLines(s) == [line] + CompleteLines(rest)
    ensures Tail(s) == Tail(rest)
    ensures NL !in line && |rest| < |s|
  {
    FirstNLSpec(s);
    var i := FirstNL(s);
    line, rest := s[..i], s[i + 1..];
  }

  // SplitAfter loses nothing.
  lemma {:induction false} SplitAfterConcat(s: string)
    ensures Concat(SplitAfter(s)) == s
    decreases |s|
  {
    if NL !in s {
      ConcatOne(s);
      NoLine(s);
      assert SplitAfter(s) == [s];
    } else {
      var line, rest := Cut(s);
      SplitAfterConcat(rest);
      assert SplitAfter(s) == [line + [NL]] + SplitAfter(rest);
    }
  }

  // Split followed by Join is the identity.
  lemma {:induction false} SplitJoin(s: string)
    ensures Join(Split(s)) == s
    decreases |s|
  {
    if NL !in s {
      NoLine(s);
      assert Split(s) == [s];
    } else {
      var line, rest := Cut(s);
      SplitJoin(rest);
      assert Split(s) == [line] + Split(rest);
    }
  }
}
