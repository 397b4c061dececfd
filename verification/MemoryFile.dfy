/** Memory files (mcp/memory/server.go): every write re-adds one agent_derived header around the old body and the
    new content, and a write that cannot be committed is taken back. */
module MemoryFile {
  import opened Wrappers
  import Text

  const DELIM := "---"
  const TIER := "kahya_source_tier: agent_derived"
  const HEADER := ThreeLines(DELIM, TIER, DELIM)
  const SEPARATOR := "\n\n---\n\n"

  // ---- Front matter ----

  function TrimSuffixNL(line: string): string {
    if line != "" && line[|line| - 1] == Text.NL then line[..|line| - 1] else line
  }

  function TrimRightCR(line: string): string {
    if line != "" && line[|line| - 1] == '\r' then TrimRightCR(line[..|line| - 1]) else line
  }

  predicate IsDelim(line: string) {
    TrimRightCR(TrimSuffixNL(line)) == DELIM
  }

  // The first delimiter line from the i-th line on, or the number of lines when there is none.
  function NextDelim(lines: seq<string>, i: nat): (j: nat)
    requires i <= |lines|
    ensures i <= j <= |lines|
    ensures j < |lines| ==> IsDelim(lines[j])
    ensures forall k | i <= k < j :: !IsDelim(lines[k])
    decreases |lines| - i
  {
    if i == |lines| || IsDelim(lines[i]) then i else NextDelim(lines, i + 1)
  }

  function Strip(content: string): string {
    var lines := Text.SplitAfter(content);
    if !IsDelim(lines[0]) then content
    else
      var j := NextDelim(lines, 1);
      if j == |lines| then content else Text.Concat(lines[j + 1..])
  }

  method StripLeadingFrontMatter(content: string) returns (body: string)
    ensures body == Strip(content)
  {
    var lines := Text.SplitAfter(content);
    if !IsDelim(lines[0]) {
      return content;
    }
    var i := 1;
    while i < |lines|
      invariant 1 <= i <= |lines|
      invariant NextDelim(lines, 1) == NextDelim(lines, i)
    {
      if IsDelim(lines[i]) {
        return Text.Concat(lines[i + 1..]);
      }
      i := i + 1;
    }
    return content;
  }

  predicate CarriageReturns(s: string) {
    forall i | 0 <= i < |s| :: s[i] == '\r'
  }

  lemma {:induction false} TrimRightCRIs(line: string)
    ensures TrimRightCR(line) <= line && CarriageReturns(line[|TrimRightCR(line)|..])
    ensures TrimRightCR(line) != "" ==> TrimRightCR(line)[|TrimRightCR(line)| - 1] != '\r'
  {
    if line != "" && line[|line| - 1] == '\r' {
      TrimRightCRIs(line[..|line| - 1]);
    }
  }

  lemma {:induction false} TrimsTo(s: string, crs: string)
    requires (s == "" || s[|s| - 1] != '\r') && CarriageReturns(crs)
    ensures TrimRightCR(s + crs) == s
  {
    if crs == "" {
      assert s + crs == s;
    } else {
      var front := crs[..|crs| - 1];
      assert (s + crs)[..|s + crs| - 1] == s + front;
      assert (s + crs)[|s + crs| - 1] == '\r';
      TrimsTo(s, front);
    }
  }

  // A delimiter line is three dashes, any carriage returns and its newline, if it has one.
  lemma {:induction false} IsDelimIff(line: string)
    ensures IsDelim(line) <==>
            && |line| >= 3 && line[..3] == "---"
            && CarriageReturns(if line[|line| - 1] == '\n' then line[3..|line| - 1] else line[3..])
  {
    var t := TrimSuffixNL(line);
    TrimRightCRIs(t);
    if |line| >= 3 && line[..3] == "---" {
      assert t == "---" + t[3..];
      if CarriageReturns(t[3..]) {
        TrimsTo("---", t[3..]);
      }
    }
    if IsDelim(line) {
      assert t == "---" + t[3..];
    }
  }

  // What is stripped is a block of whole lines between the first two delimiter lines; a file without one, or with
  // one that is not closed, is left as it is.
  lemma StripTakesABlock(content: string)
    ensures var lines := Text.SplitAfter(content);
            if IsDelim(lines[0]) && exists j :: 1 <= j < |lines| && IsDelim(lines[j])
            then content == Text.Concat(lines[..NextDelim(lines, 1) + 1]) + Strip(content)
            else Strip(content) == content
  {
    var lines := Text.SplitAfter(content);
    Text.SplitAfterConcat(content);
    var j := NextDelim(lines, 1);
    if j < |lines| {
      Text.ConcatAppend(lines[..j + 1], lines[j + 1..]);
      assert lines[..j + 1] + lines[j + 1..] == lines;
    }
  }

  lemma SplitAfterLine(line: string, rest: string)
    requires Text.NL !in line
    ensures Text.SplitAfter(line + [Text.NL] + rest) == [line + [Text.NL]] + Text.SplitAfter(rest)
  {
    Text.LineFirst(line, rest);
    assert Text.Ended([line] + Text.CompleteLines(rest)) == [line + [Text.NL]] + Text.Ended(Text.CompleteLines(rest));
  }

  function ThreeLines(a: string, b: string, c: string): string {
    a + [Text.NL] + (b + [Text.NL] + (c + [Text.NL]))
  }

  lemma SplitFirst(line: string, more: string, rest: string)
    requires Text.NL !in line
    ensures Text.SplitAfter(line + [Text.NL] + more + rest) == [line + [Text.NL]] + Text.SplitAfter(more + rest)
  {
    SplitAfterLine(line, more + rest);
    assert line + [Text.NL] + more + rest == line + [Text.NL] + (more + rest);
  }

  lemma SplitThreeLines(a: string, b: string, c: string, rest: string)
    requires Text.NL !in a && Text.NL !in b && Text.NL !in c
    ensures Text.SplitAfter(ThreeLines(a, b, c) + rest) ==
            [a + [Text.NL]] + ([b + [Text.NL]] + ([c + [Text.NL]] + Text.SplitAfter(rest)))
  {
    SplitFirst(a, b + [Text.NL] + (c + [Text.NL]), rest);
    SplitFirst(b, c + [Text.NL], rest);
    SplitAfterLine(c, rest);
  }

  lemma TrimmedLine(line: string)
    requires line != "" && line[|line| - 1] != '\r'
    ensures TrimRightCR(TrimSuffixNL(line + [Text.NL])) == line
  {
    assert (line + [Text.NL])[..|line|] == line;
  }

  // A block between two delimiter lines, with a single line inside, is stripped off whatever follows it.
  lemma StripOneLineBlock(inside: string, body: string)
    requires Text.NL !in inside && inside != "" && inside[|inside| - 1] != '\r' && inside != DELIM
    ensures Strip(ThreeLines(DELIM, inside, DELIM) + body) == body
  {
    var lines := Text.SplitAfter(ThreeLines(DELIM, inside, DELIM) + body);
    SplitThreeLines(DELIM, inside, DELIM, body);
    TrimmedLine(DELIM);
    TrimmedLine(inside);
    assert lines[0] == DELIM + [Text.NL] && lines[1] == inside + [Text.NL] && lines[2] == DELIM + [Text.NL];
    assert NextDelim(lines, 1) == 2;
    assert lines[3..] == Text.SplitAfter(body);
    Text.SplitAfterConcat(body);
  }

  // The round trip: what the tool wrote comes back whole, whatever the body contains.
  lemma StripHeader(body: string)
    ensures Strip(HEADER + body) == body
  {
    assert TIER[0] == 'k';
    StripOneLineBlock(TIER, body);
  }

  // ---- Writes ----

  function NewContent(existing: Option<string>, content: string): string {
    HEADER + if existing.None? then content else Strip(existing.value) + SEPARATOR + content
  }

  // The file after writing the contents one after the other.
  function AfterWrites(existing: Option<string>, contents: seq<string>): Option<string> {
    if contents == [] then existing
    else Some(NewContent(AfterWrites(existing, contents[..|contents| - 1]), contents[|contents| - 1]))
  }

  function Separated(parts: seq<string>): string {
    if parts == [] then ""
    else if |parts| == 1 then parts[0]
    else Separated(parts[..|parts| - 1]) + SEPARATOR + parts[|parts| - 1]
  }

  function Parts(existing: Option<string>, contents: seq<string>): seq<string> {
    (if existing.None? then [] else [Strip(existing.value)]) + contents
  }

  lemma {:induction false} OneMorePart(parts: seq<string>, last: string)
    requires parts != []
    ensures Separated(parts + [last]) == Separated(parts) + SEPARATOR + last
  {
    assert (parts + [last])[..|parts|] == parts;
  }

  // After k writes there is exactly one header, and behind it the stripped original, if there was a file, and the k
  // contents, one separator between two neighbours.
  lemma {:induction false} WritesAddUp(existing: Option<string>, contents: seq<string>)
    requires contents != []
    ensures AfterWrites(existing, contents) == Some(HEADER + Separated(Parts(existing, contents)))
  {
    var front, last := contents[..|contents| - 1], contents[|contents| - 1];
    var before := Parts(existing, front);
    assert Parts(existing, contents) == before + [last];
    if before == [] {
      assert front == [] && existing == None;
    } else {
      OneMorePart(before, last);
      if front != [] {
        WritesAddUp(existing, front);
        StripHeader(Separated(before));
      } else {
        assert before == [Strip(existing.value)];
      }
    }
  }

  // ---- The tool ----

  // Where a call goes wrong. A write that stops half way leaves a truncated file.
  datatype Fault =
    | NoFault | BadPath | ReadFails | MkdirFails | WriteRefused | WriteStops(partial: string)
    | NoRepository | CommitFails | ReindexFails

  // Taking a write back is best effort too.
  datatype Restore = RestoreDone | RestoreFails(left: Option<string>)

  datatype Memory = Memory(files: map<string, string>, committed: map<string, string>, indexed: map<string, string>)

  function Find(files: map<string, string>, path: string): Option<string> {
    if path in files then Some(files[path]) else None
  }

  function PutFile(files: map<string, string>, path: string, now: Option<string>): map<string, string> {
    if now.Some? then files[path := now.value] else files - {path}
  }

  predicate BeforeWrite(fault: Fault) {
    fault == BadPath || fault == ReadFails || fault == MkdirFails || fault == WriteRefused
  }

  predicate BeforeCommit(fault: Fault) {
    fault == NoRepository || fault == CommitFails
  }

  function Write(m: Memory, path: string, content: string, fault: Fault, restore: Restore): (Memory, bool) {
    var was := Find(m.files, path);
    var now := NewContent(was, content);
    if BeforeWrite(fault) then (m, false)
    else if fault.WriteStops? then (m.(files := m.files[path := fault.partial]), false)
    else if BeforeCommit(fault) then
      (m.(files := PutFile(m.files, path, if restore.RestoreFails? then restore.left else was)), false)
    else
      var saved := m.(files := m.files[path := now], committed := m.committed[path := now]);
      if fault == ReindexFails then (saved, false) else (saved.(indexed := m.indexed[path := now]), true)
  }

  lemma EndedLiteral(line: string, ended: string)
    requires |ended| == |line| + 1 && ended[|line|] == '\n' && ended[..|line|] == line
    ensures line + [Text.NL] == ended
  {
  }

  // The header is three lines that declare the tier.
  lemma HeaderIs()
    ensures HEADER == "---\n" + ("kahya_source_tier: agent_derived\n" + "---\n")
  {
    EndedLiteral("---", "---\n");
    EndedLiteral("kahya_source_tier: agent_derived", "kahya_source_tier: agent_derived\n");
  }

  // A write puts the body of the old file and a rule behind it, if there was one, and the new content.
  lemma WrittenText(existing: Option<string>, content: string)
    ensures NewContent(existing, content)
            == HEADER + (if existing.Some? then Strip(existing.value) + "\n\n---\n\n" + content else content)
  {
  }

  // A write succeeds exactly when nothing goes wrong, and then the new text is on disk, committed and indexed alike. It
  // is committed and not indexed exactly when the reindex alone fails; nothing else is ever committed or indexed.
  lemma WriteOutcomes(m: Memory, path: string, content: string, fault: Fault, restore: Restore)
    ensures var (m', ok) := Write(m, path, content, fault, restore);
            var text := NewContent(Find(m.files, path), content);
            && (ok <==> fault == NoFault)
            && (fault == NoFault || fault == ReindexFails ==>
                  m'.files == m.files[path := text] && m'.committed == m.committed[path := text])
            && (fault != NoFault && fault != ReindexFails ==> m'.committed == m.committed)
            && m'.indexed == (if fault == NoFault then m.indexed[path := text] else m.indexed)
            && forall other | other != path :: Find(m'.files, other) == Find(m.files, other)
  {
  }

  lemma PutOver(files: map<string, string>, path: string, over: string, now: Option<string>)
    ensures PutFile(files[path := over], path, now) == PutFile(files, path, now)
  {
  }

  class MemoryServer {
    var files: map<string, string>
    var committed: map<string, string>
    var indexed: map<string, string>

    function View(): Memory
      reads this
    {
      Memory(files, committed, indexed)
    }

    constructor (onDisk: Memory)
      ensures View() == onDisk
    {
      files, committed, indexed := onDisk.files, onDisk.committed, onDisk.indexed;
    }

    // The prior bytes are handed back for a restore.
    method WriteMemoryFile(path: string, content: string, fault: Fault) returns (prev: Option<string>, ok: bool)
      modifies this`files
      ensures ok ==> prev == Find(old(files), path) && files == old(files)[path := NewContent(prev, content)]
      ensures ok <==> !BeforeWrite(fault) && !fault.WriteStops?
      ensures fault.WriteStops? ==> files == old(files)[path := fault.partial]
      ensures BeforeWrite(fault) ==> files == old(files)
    {
      if BeforeWrite(fault) {
        return None, false;
      }
      prev := Find(files, path);
      var body := content;
      if prev.Some? {
        var stripped := StripLeadingFrontMatter(prev.value);
        body := stripped + SEPARATOR + content;
      }
      if fault.WriteStops? {
        files := files[path := fault.partial];
        return prev, false;
      }
      files := files[path := HEADER + body];
      return prev, true;
    }

    // Best effort.
    method RestoreMemoryFile(path: string, prev: Option<string>, restore: Restore)
      modifies this`files
      ensures files == PutFile(old(files), path, if restore.RestoreFails? then restore.left else prev)
    {
      files := PutFile(files, path, if restore.RestoreFails? then restore.left else prev);
    }

    method HandleWrite(path: string, content: string, fault: Fault, restore: Restore) returns (ok: bool)
      modifies this
      ensures (View(), ok) == Write(old(View()), path, content, fault, restore)
    {
      var prev, written := WriteMemoryFile(path, content, fault);
      if !written {
        return false;
      }
      if BeforeCommit(fault) {
        PutOver(old(files), path, files[path], if restore.RestoreFails? then restore.left else prev);
        RestoreMemoryFile(path, prev, restore);
        return false;
      }
      committed := committed[path := files[path]];
      if fault == ReindexFails {
        return false;
      }
      indexed := indexed[path := files[path]];
      return true;
    }
  }

  // Exactly when a failing call leaves the files as they were: it never got to write, or the write could be taken
  // back. A write that stopped half way, a failed restore that left something else, and a failed reindex do not.
  lemma FailedWriteLeaves(m: Memory, path: string, content: string, fault: Fault, restore: Restore)
    requires !Write(m, path, content, fault, restore).1
    ensures Write(m, path, content, fault, restore).0.files == m.files <==>
              || BeforeWrite(fault)
              || (fault.WriteStops? && Find(m.files, path) == Some(fault.partial))
              || (BeforeCommit(fault) && (restore.RestoreDone? || restore.left == Find(m.files, path)))
  {
    var was, m' := Find(m.files, path), Write(m, path, content, fault, restore).0;
    if fault == ReindexFails {
      NewContentIsLonger(was, content);
      assert Find(m'.files, path) != was;
    } else if BeforeCommit(fault) && restore.RestoreFails? {
      assert Find(m'.files, path) == restore.left;
    } else if fault.WriteStops? {
      assert Find(m'.files, path) == Some(fault.partial);
    }
  }

  // A write is never a no-op: the new content is longer than the old file's body and its header together.
  lemma NewContentIsLonger(was: Option<string>, content: string)
    ensures was.Some? ==> NewContent(was, content) != was.value
  {
    if was.Some? && NewContent(was, content) == was.value {
      StripHeader(Strip(was.value) + SEPARATOR + content);
    }
  }

  // Disk and commit agree on a path and keep agreeing, unless a file was left half written or half restored.
  predicate InSync(m: Memory, path: string) {
    path in m.files && path in m.committed && m.files[path] == m.committed[path]
  }

  lemma WriteKeepsSync(m: Memory, path: string, content: string, fault: Fault, restore: Restore, other: string)
    requires !fault.WriteStops? && restore.RestoreDone?
    ensures InSync(m, other) ==> InSync(Write(m, path, content, fault, restore).0, other)
    ensures Write(m, path, content, fault, restore).1 ==> InSync(Write(m, path, content, fault, restore).0, path)
  {
  }

  // ---- Runs of the tool on one file ----

  datatype Call = Call(path: string, content: string, fault: Fault, restore: Restore)

  function RunCalls(m: Memory, calls: seq<Call>): Memory {
    if calls == [] then m
    else
      var c := calls[|calls| - 1];
      Write(RunCalls(m, calls[..|calls| - 1]), c.path, c.content, c.fault, c.restore).0
  }

  predicate Stays(fault: Fault) {
    fault == NoFault || fault == ReindexFails
  }

  // What a call can leave at its path instead of the old file or the new one: a write that stopped half way, or a
  // restore that failed.
  function Damage(fault: Fault, restore: Restore): Option<Option<string>> {
    if fault.WriteStops? then Some(Some(fault.partial))
    else if BeforeCommit(fault) && restore.RestoreFails? then Some(restore.left)
    else None
  }

  // What the file goes back to, the last damage or the file at the start, and the contents added since.
  function Held(m: Memory, calls: seq<Call>, path: string): (Option<string>, seq<string>) {
    if calls == [] then (Find(m.files, path), [])
    else
      var c := calls[|calls| - 1];
      var (base, added) := Held(m, calls[..|calls| - 1], path);
      var damage := Damage(c.fault, c.restore);
      if c.path != path then (base, added)
      else if damage.Some? then (damage.value, [])
      else if Stays(c.fault) then (base, added + [c.content])
      else (base, added)
  }

  lemma FileAfterWrite(m: Memory, c: Call, path: string)
    ensures Find(Write(m, c.path, c.content, c.fault, c.restore).0.files, path) ==
            if c.path != path then Find(m.files, path)
            else if Damage(c.fault, c.restore).Some? then Damage(c.fault, c.restore).value
            else if Stays(c.fault) then Some(NewContent(Find(m.files, path), c.content))
            else Find(m.files, path)
  {
  }

  lemma {:induction false} AfterOneMore(existing: Option<string>, contents: seq<string>, content: string)
    ensures AfterWrites(existing, contents + [content]) == Some(NewContent(AfterWrites(existing, contents), content))
  {
    assert (contents + [content])[..|contents|] == contents;
  }

  // Whatever fails in between, and whatever else is written, a file holds exactly what it goes back to and the
  // contents of the calls since then that got past their commit.
  lemma {:induction false} FileHoldsWhatStayed(m: Memory, calls: seq<Call>, path: string)
    ensures var (base, added) := Held(m, calls, path);
            Find(RunCalls(m, calls).files, path) == AfterWrites(base, added)
  {
    if calls != [] {
      var front, c := calls[..|calls| - 1], calls[|calls| - 1];
      FileHoldsWhatStayed(m, front, path);
      FileAfterWrite(RunCalls(m, front), c, path);
      var (base, added) := Held(m, front, path);
      AfterOneMore(base, added, c.content);
    }
  }

  // Without damage it goes back to the file at the start.
  lemma {:induction false} NoDamage(m: Memory, calls: seq<Call>, path: string)
    requires forall i | 0 <= i < |calls| && calls[i].path == path :: Damage(calls[i].fault, calls[i].restore) == None
    ensures Held(m, calls, path).0 == Find(m.files, path)
  {
    if calls != [] {
      NoDamage(m, calls[..|calls| - 1], path);
    }
  }
}
