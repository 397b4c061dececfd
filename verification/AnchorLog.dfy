/** One anchors.log record and how it is read back (kahyad/internal/anchor/repo.go). */
module AnchorLog {
  import opened Wrappers
  import opened Width
  import opened Decimal
  import opened Spaces
  import Text

  datatype AnchorLine = AnchorLine(eventID: int64, digestHex: string, ts: string, hostname: string)

  datatype Malformed = TooFewFields | BadEventID

  // ---- Numbers ----

  // Sscanf's %d into a 64-bit integer: a sign, then at least one digit; what follows is not looked at.
  function ScanInt(s: string): (r: Option<int64>) {
    var signed := s != "" && (s[0] == '-' || s[0] == '+');
    var digits := if signed then s[1..] else s;
    var n := DigitsEnd(digits);
    if n == 0 then None
    else
      var v := Value(digits[..n]);
      var x: int := if signed && s[0] == '-' then -(v as int) else v;
      if Fits(x) then Some(x) else None
  }

  lemma {:induction false} ScanDigits(d: string, v: nat)
    requires d != "" && AllDigits(d) && Value(d) == v && Fits(v)
    ensures ScanInt(d) == Some(v)
  {
    DigitsEndAll(d);
    assert IsDigit(d[0]) && d[..|d|] == d;
  }

  lemma {:induction false} ScanNegative(d: string, v: nat)
    requires d != "" && AllDigits(d) && Value(d) == v && Fits(-(v as int))
    ensures ScanInt("-" + d) == Some(-(v as int))
  {
    DigitsEndAll(d);
    assert ("-" + d)[1..] == d && d[..|d|] == d;
  }

  lemma DigitsAreAWord(d: string)
    requires d != "" && AllDigits(d)
    ensures IsWord(d) && IsWord("-" + d)
  {
  }

  // What is read of any text: an optional sign and the digits after it; without a digit there, or past 64 bits, nothing.
  lemma {:induction false} ScanIs(sign: string, d: string, rest: string, v: nat)
    requires sign == "" || sign == "+" || sign == "-"
    requires AllDigits(d) && (rest != "" ==> !IsDigit(rest[0])) && Value(d) == v
    requires sign == "" && d == "" && rest != "" ==> rest[0] != '-' && rest[0] != '+'
    ensures ScanInt(sign + (d + rest))
            == if d == "" then None
               else if sign == "-" then (if v <= 0x8000_0000_0000_0000 then Some(-(v as int)) else None)
               else (if v <= 0x7FFF_FFFF_FFFF_FFFF then Some(v) else None)
  {
    DigitsEndBefore(d, rest);
    var s := sign + (d + rest);
    if sign == "" {
      assert s == d + rest;
      assert d != "" ==> IsDigit(s[0]) && s[0] == d[0];
    } else {
      assert s[1..] == d + rest;
    }
    assert (d + rest)[..|d|] == d;
  }

  lemma ScanIntText(x: int64)
    ensures ScanInt(IntText(x)) == Some(x)
    ensures IsWord(IntText(x))
  {
    var n: nat := if x < 0 then -(x as int) else x;
    ValueOfNatText(n);
    DigitsAreAWord(NatText(n));
    if x < 0 {
      ScanNegative(NatText(n), n);
    } else {
      ScanDigits(NatText(n), n);
    }
  }

  // ---- Records ----

  function Body(line: AnchorLine): string {
    IntText(line.eventID) + " " + (line.digestHex + " " + (line.ts + " " + line.hostname))
  }

  function FormatAnchorLine(line: AnchorLine): string {
    Body(line) + [Text.NL]
  }

  function Parse(s: string): Result<AnchorLine, Malformed> {
    var fields := Words(s);
    if |fields| < 4 then Err(TooFewFields)
    else match ScanInt(fields[0])
      case None => Err(BadEventID)
      case Some(id) => Ok(AnchorLine(id, fields[1], fields[2], Spaced(fields[3..])))
  }

  // The last line that is not blank, trimmed; "" when there is none.
  function LastNonBlank(lines: seq<string>): string {
    if lines == [] then ""
    else
      var t := TrimSpace(lines[|lines| - 1]);
      if t != "" then t else LastNonBlank(lines[..|lines| - 1])
  }

  // What a log file says last: nothing yet, a record, or something malformed.
  function ReadLast(text: string): Result<Option<AnchorLine>, Malformed> {
    var last := LastNonBlank(Text.Split(text));
    if last == "" then Ok(None)
    else match Parse(last)
      case Ok(line) => Ok(Some(line))
      case Err(e) => Err(e)
  }

  // A missing file (None) reads as one with no line.
  method LastAnchorLine(file: Option<string>) returns (r: Result<Option<AnchorLine>, Malformed>)
    ensures r == ReadLast(match file case None => "" case Some(text) => text)
  {
    if file.None? {
      Text.NoLine("");
      assert Text.Split("") == [""];
      return Ok(None);
    }
    var lines := Text.Split(file.value);
    var last := "";
    for i := 0 to |lines|
      invariant last == LastNonBlank(lines[..i])
    {
      assert lines[..i + 1][..i] == lines[..i];
      var t := TrimSpace(lines[i]);
      if t != "" {
        last := t;
      }
    }
    assert lines[..|lines|] == lines;
    if last == "" {
      return Ok(None);
    }
    var fields := Words(last);
    if |fields| < 4 {
      return Err(TooFewFields);
    }
    var eventID := ScanInt(fields[0]);
    if eventID.None? {
      return Err(BadEventID);
    }
    return Ok(Some(AnchorLine(eventID.value, fields[1], fields[2], Spaced(fields[3..]))));
  }

  // ---- Round trip ----

  // What a pusher writes: one-word digest and time stamp, a host name on one line.
  predicate Written(line: AnchorLine) {
    IsWord(line.digestHex) && IsWord(line.ts) && Text.NL !in line.hostname
  }

  lemma BodyWords(line: AnchorLine)
    requires Written(line)
    ensures Words(Body(line)) == [IntText(line.eventID), line.digestHex, line.ts] + Words(line.hostname)
  {
    var id := IntText(line.eventID);
    ScanIntText(line.eventID);
    var c := line.ts + " " + line.hostname;
    var b := line.digestHex + " " + c;
    WordThenSpace(line.ts, line.hostname);
    WordThenSpace(line.digestHex, c);
    WordThenSpace(id, b);
  }

  // What reading a record back gives: the host name with its spaces evened out.
  function Respaced(line: AnchorLine): AnchorLine {
    line.(hostname := Spaced(Words(line.hostname)))
  }

  // A written record is read back unless its host name is blank, and only then is it malformed.
  lemma ParseBody(line: AnchorLine)
    requires Written(line)
    ensures Parse(TrimSpace(Body(line))) == if Words(line.hostname) == [] then Err(TooFewFields) else Ok(Respaced(line))
    ensures TrimSpace(Body(line)) != ""
  {
    TrimWords(Body(line));
    BodyWords(line);
    ScanIntText(line.eventID);
    assert ([IntText(line.eventID), line.digestHex, line.ts] + Words(line.hostname))[3..] == Words(line.hostname);
  }

  lemma NoSpaceNoNL(s: string)
    requires NoSpace(s)
    ensures Text.NL !in s
  {
  }

  lemma BodyIsOneLine(line: AnchorLine)
    requires Written(line)
    ensures Text.NL !in Body(line)
  {
    ScanIntText(line.eventID);
    NoSpaceNoNL(IntText(line.eventID));
    NoSpaceNoNL(line.digestHex);
    NoSpaceNoNL(line.ts);
  }

  predicate AllWritten(lines: seq<AnchorLine>) {
    forall i | 0 <= i < |lines| :: Written(lines[i])
  }

  // The file after these records were appended to an empty one, in order.
  function Render(lines: seq<AnchorLine>): string {
    if lines == [] then "" else Render(lines[..|lines| - 1]) + FormatAnchorLine(lines[|lines| - 1])
  }

  function Bodies(lines: seq<AnchorLine>): seq<string> {
    if lines == [] then [] else Bodies(lines[..|lines| - 1]) + [Body(lines[|lines| - 1])]
  }

  // A record appended to a file of whole lines is its new last line.
  lemma {:induction false} RecordAppended(text: string, line: AnchorLine)
    requires Written(line) && Text.Tail(text) == ""
    ensures Text.Tail(text + FormatAnchorLine(line)) == ""
    ensures Text.CompleteLines(text + FormatAnchorLine(line)) == Text.CompleteLines(text) + [Body(line)]
  {
    var record := FormatAnchorLine(line);
    Text.LinesAcross(text, record);
    BodyIsOneLine(line);
    Text.LineFirst(Body(line), "");
    Text.NoLine("");
    assert record == Body(line) + [Text.NL] + "" && "" + record == record;
  }

  lemma {:induction false} RenderLines(lines: seq<AnchorLine>)
    requires AllWritten(lines)
    ensures Text.CompleteLines(Render(lines)) == Bodies(lines)
    ensures Text.Tail(Render(lines)) == ""
  {
    if lines == [] {
      Text.NoLine("");
    } else {
      var front, line := lines[..|lines| - 1], lines[|lines| - 1];
      assert AllWritten(front) && Written(line);
      RenderLines(front);
      RecordAppended(Render(front), line);
    }
  }

  // Reading a log that only records were appended to gives the last record appended.
  lemma {:induction false} ReadsLastRecord(lines: seq<AnchorLine>)
    requires AllWritten(lines)
    ensures ReadLast(Render(lines)) ==
            if lines == [] then Ok(None)
            else if Words(lines[|lines| - 1].hostname) == [] then Err(TooFewFields)
            else Ok(Some(Respaced(lines[|lines| - 1])))
  {
    RenderLines(lines);
    LastOfBodies(lines);
    if lines != [] {
      ParseBody(lines[|lines| - 1]);
    }
  }

  lemma {:induction false} LastOfBodies(lines: seq<AnchorLine>)
    requires AllWritten(lines)
    ensures LastNonBlank(Bodies(lines) + [""]) == if lines == [] then "" else TrimSpace(Body(lines[|lines| - 1]))
  {
    var bodies := Bodies(lines);
    assert (bodies + [""])[..|bodies|] == bodies;
    assert TrimSpace("") == "";
    if lines != [] {
      ParseBody(lines[|lines| - 1]);
    }
  }
}
