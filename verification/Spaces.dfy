/** Words and white space, as strings.TrimSpace and strings.Fields see them. A string is a sequence of runes. */
module Spaces {
  // The white space of the Unicode standard.
  predicate IsSpace(c: char) {
    var x := c as int;
    || 0x9 <= x <= 0xD || x == 0x20 || x == 0x85 || x == 0xA0 || x == 0x1680
    || 0x2000 <= x <= 0x200A || 0x2028 <= x <= 0x2029 || x == 0x202F || x == 0x205F || x == 0x3000
  }

  predicate NoSpace(s: string) {
    forall i | 0 <= i < |s| :: !IsSpace(s[i])
  }

  predicate IsWord(s: string) {
    s != "" && NoSpace(s)
  }

  function WordEnd(s: string): (n: nat)
    ensures n <= |s|
    ensures NoSpace(s[..n])
  {
    if s == "" || IsSpace(s[0]) then 0 else 1 + WordEnd(s[1..])
  }

  // strings.Fields
  function Words(s: string): seq<string>
    decreases |s|
  {
    if s == "" then []
    else if IsSpace(s[0]) then Words(s[1..])
    else [s[..WordEnd(s)]] + Words(s[WordEnd(s)..])
  }

  // strings.Join(words, " ")
  function Spaced(words: seq<string>): string {
    if words == [] then ""
    else if |words| == 1 then words[0]
    else words[0] + " " + Spaced(words[1..])
  }

  function TrimLeft(s: string): string {
    if s != "" && IsSpace(s[0]) then TrimLeft(s[1..]) else s
  }

  function TrimRight(s: string): string {
    if s != "" && IsSpace(s[|s| - 1]) then TrimRight(s[..|s| - 1]) else s
  }

  // strings.TrimSpace
  function TrimSpace(s: string): string {
    TrimRight(TrimLeft(s))
  }

  predicate StartsWithSpace(s: string) {
    s == "" || IsSpace(s[0])
  }

  lemma {:induction false} WordEndBefore(w: string, rest: string)
    requires NoSpace(w) && StartsWithSpace(rest)
    ensures WordEnd(w + rest) == |w|
  {
    if w == "" {
      assert w + rest == rest;
    } else {
      assert (w + rest)[1..] == w[1..] + rest;
      WordEndBefore(w[1..], rest);
    }
  }

  // A word with nothing or a space after it is the first word.
  lemma {:induction false} WordFirst(w: string, rest: string)
    requires IsWord(w) && StartsWithSpace(rest)
    ensures Words(w + rest) == [w] + Words(rest)
  {
    WordEndBefore(w, rest);
    assert (w + rest)[0] == w[0] && (w + rest)[..|w|] == w && (w + rest)[|w|..] == rest;
  }

  lemma {:induction false} WordThenSpace(w: string, rest: string)
    requires IsWord(w)
    ensures Words(w + " " + rest) == [w] + Words(rest)
  {
    WordFirst(w, " " + rest);
    assert (" " + rest)[1..] == rest;
    assert w + " " + rest == w + (" " + rest);
  }

  // A text that starts with a word, cut after it.
  lemma WordCut(s: string) returns (w: string, rest: string)
    requires s != "" && !IsSpace(s[0])
    ensures IsWord(w) && s == w + rest
    ensures Words(s) == [w] + Words(rest)
    ensures StartsWithSpace(rest)
  {
    WordEndStops(s);
    var n := WordEnd(s);
    w, rest := s[..n], s[n..];
  }

  // Space at the end belongs to no word.
  lemma {:induction false} SpaceLast(s: string, c: char)
    requires IsSpace(c)
    ensures Words(s + [c]) == Words(s)
    decreases |s|
  {
    if s == "" {
      assert (s + [c])[1..] == "";
    } else if IsSpace(s[0]) {
      assert (s + [c])[1..] == s[1..] + [c];
      SpaceLast(s[1..], c);
    } else {
      var w, rest := WordCut(s);
      SpaceLast(rest, c);
      WordFirst(w, rest + [c]);
      assert w + (rest + [c]) == s + [c];
    }
  }

  lemma {:induction false} WordEndStops(s: string)
    ensures WordEnd(s) < |s| ==> IsSpace(s[WordEnd(s)])
  {
    if s != "" && !IsSpace(s[0]) {
      WordEndStops(s[1..]);
    }
  }

  lemma {:induction false} TrimLeftWords(s: string)
    ensures Words(TrimLeft(s)) == Words(s)
    ensures TrimLeft(s) != "" ==> !IsSpace(TrimLeft(s)[0])
  {
    if s != "" && IsSpace(s[0]) {
      TrimLeftWords(s[1..]);
    }
  }

  lemma {:induction false} TrimRightWords(s: string)
    ensures Words(TrimRight(s)) == Words(s)
    ensures |TrimRight(s)| <= |s| && TrimRight(s) == s[..|TrimRight(s)|]
  {
    if s != "" && IsSpace(s[|s| - 1]) {
      var t, c := s[..|s| - 1], s[|s| - 1];
      TrimRightWords(t);
      SpaceLast(t, c);
      assert t + [c] == s;
    }
  }

  // Trimming changes no word, and leaves nothing exactly when there was no word.
  lemma {:induction false} TrimWords(s: string)
    ensures Words(TrimSpace(s)) == Words(s)
    ensures TrimSpace(s) == "" <==> Words(s) == []
  {
    TrimLeftWords(s);
    TrimRightWords(TrimLeft(s));
    if TrimSpace(s) != "" {
      assert TrimSpace(s)[0] == TrimLeft(s)[0];
    }
  }

  predicate AllSpace(s: string) {
    forall i | 0 <= i < |s| :: IsSpace(s[i])
  }

  lemma {:induction false} TrimLeftIs(s: string)
    ensures |TrimLeft(s)| <= |s| && s[|s| - |TrimLeft(s)|..] == TrimLeft(s) && AllSpace(s[..|s| - |TrimLeft(s)|])
    ensures TrimLeft(s) != "" ==> !IsSpace(TrimLeft(s)[0])
  {
    if s != "" && IsSpace(s[0]) {
      TrimLeftIs(s[1..]);
      var n := |s| - |TrimLeft(s)|;
      assert s[n..] == s[1..][n - 1..];
      assert s[..n] == [s[0]] + s[1..][..n - 1];
    }
  }

  lemma {:induction false} TrimRightIs(s: string)
    ensures TrimRight(s) <= s && AllSpace(s[|TrimRight(s)|..])
    ensures TrimRight(s) != "" ==> !IsSpace(TrimRight(s)[|TrimRight(s)| - 1])
  {
    if s != "" && IsSpace(s[|s| - 1]) {
      var t := s[..|s| - 1];
      TrimRightIs(t);
      assert s[|TrimRight(t)|..] == t[|TrimRight(t)|..] + [s[|s| - 1]];
    }
  }

  // Trimming takes away the white space at both ends, and nothing else.
  lemma TrimSpaceIs(s: string) returns (left: string, right: string)
    ensures s == left + TrimSpace(s) + right && AllSpace(left) && AllSpace(right)
    ensures var t := TrimSpace(s); t != "" ==> !IsSpace(t[0]) && !IsSpace(t[|t| - 1])
  {
    var t := TrimLeft(s);
    TrimLeftIs(s);
    TrimRightIs(t);
    left, right := s[..|s| - |t|], t[|TrimRight(t)|..];
  }

  // Words put together with single spaces are read back as they were.
  lemma {:induction false} WordsOfSpaced(words: seq<string>)
    requires forall i | 0 <= i < |words| :: IsWord(words[i])
    ensures Words(Spaced(words)) == words
  {
    if |words| == 1 {
      WordFirst(words[0], "");
      assert words[0] + "" == words[0];
    } else if |words| > 1 {
      WordsOfSpaced(words[1..]);
      WordThenSpace(words[0], Spaced(words[1..]));
      assert words == [words[0]] + words[1..];
    }
  }

  // And every word that is read is one.
  lemma {:induction false} WordsAreWords(s: string)
    ensures forall i | 0 <= i < |Words(s)| :: IsWord(Words(s)[i])
    decreases |s|
  {
    if s != "" {
      if IsSpace(s[0]) {
        WordsAreWords(s[1..]);
      } else {
        var w, rest := WordCut(s);
        WordsAreWords(rest);
      }
    }
  }
}
