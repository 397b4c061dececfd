/** Trash names (mcp/fs/server.go): the first free name of a numbered family. */
module Trash {
  import opened Decimal
  import opened Wrappers

  // The text after the last separator.
  function BaseName(path: string): string {
    if path == "" || path[|path| - 1] == '/' then "" else BaseName(path[..|path| - 1]) + [path[|path| - 1]]
  }

  // Where the extension starts: at the last dot, or at the end when there is none.
  function ExtStart(name: string): (i: nat)
    ensures i <= |name|
  {
    if name == "" then 0
    else if name[|name| - 1] == '.' then |name| - 1
    else
      var i := ExtStart(name[..|name| - 1]);
      if i == |name| - 1 then |name| else i
  }

  // The name itself, then base-1.ext, base-2.ext and so on.
  function Candidate(name: string, i: nat): string {
    if i == 0 then name
    else name[..ExtStart(name)] + ("-" + NatText(i) + name[ExtStart(name)..])
  }

  lemma {:induction false} BaseNameIs(path: string) returns (dir: string)
    ensures path == dir + BaseName(path) && '/' !in BaseName(path)
    ensures dir == "" || dir[|dir| - 1] == '/'
  {
    if path == "" || path[|path| - 1] == '/' {
      dir := path;
    } else {
      dir := BaseNameIs(path[..|path| - 1]);
      assert path == path[..|path| - 1] + [path[|path| - 1]];
    }
  }

  lemma {:induction false} ExtStartIs(name: string)
    ensures var i := ExtStart(name);
            if i == |name| then '.' !in name else name[i] == '.' && '.' !in name[i + 1..]
  {
    if name != "" && name[|name| - 1] != '.' {
      ExtStartIs(name[..|name| - 1]);
    }
  }

  lemma {:induction false} LastDot(stem: string, ext: string)
    requires if ext == "" then '.' !in stem else ext[0] == '.' && '.' !in ext[1..]
    ensures ExtStart(stem + ext) == |stem|
  {
    ExtStartIs(stem + ext);
    if ext != "" {
      assert (stem + ext)[|stem|] == '.';
      DotBehind(stem, ext, ExtStart(stem + ext));
    }
  }

  lemma DotBehind(stem: string, ext: string, i: nat)
    requires ext != "" && ext[0] == '.' && '.' !in ext[1..] && i < |stem + ext|
    ensures i < |stem| ==> '.' in (stem + ext)[i + 1..]
    ensures i > |stem| ==> (stem + ext)[i] != '.'
  {
    if i < |stem| {
      assert (stem + ext)[i + 1..][|stem| - i - 1] == '.';
    } else if i > |stem| {
      assert (stem + ext)[i] == ext[1..][i - |stem| - 1];
    }
  }

  // For a name with its extension from the last dot on: the name itself, then stem-1.ext, stem-2.ext and so on.
  lemma {:induction false} CandidateIs(stem: string, ext: string, i: nat)
    requires if ext == "" then '.' !in stem else ext[0] == '.' && '.' !in ext[1..]
    ensures Candidate(stem + ext, i) == if i == 0 then stem + ext else stem + ("-" + NatText(i) + ext)
  {
    LastDot(stem, ext);
  }

  lemma CandidatesDiffer(name: string, i: nat, j: nat)
    requires i < j
    ensures Candidate(name, i) != Candidate(name, j)
  {
    var stem, ext := name[..ExtStart(name)], name[ExtStart(name)..];
    if i > 0 && Candidate(name, i) == Candidate(name, j) {
      var a, b := "-" + NatText(i) + ext, "-" + NatText(j) + ext;
      assert Candidate(name, i)[|stem|..] == a && Candidate(name, j)[|stem|..] == b;
      assert |NatText(i)| == |NatText(j)|;
      assert a[1..|a| - |ext|] == NatText(i) && b[1..|b| - |ext|] == NatText(j);
      NatTextInjective(i, j);
    }
  }

  // The candidates before the i-th.
  function Tried(name: string, i: nat): set<string> {
    if i == 0 then {} else Tried(name, i - 1) + {Candidate(name, i - 1)}
  }

  lemma {:induction false} NotTried(name: string, i: nat, k: nat)
    requires i <= k
    ensures Candidate(name, k) !in Tried(name, i)
  {
    if i > 0 {
      NotTried(name, i - 1, k);
      CandidatesDiffer(name, i - 1, k);
    }
  }

  lemma {:induction false} TriedSize(name: string, i: nat)
    ensures |Tried(name, i)| == i
  {
    if i > 0 {
      TriedSize(name, i - 1);
      NotTried(name, i - 1, i - 1);
    }
  }

  // All the candidates tried so far are taken: there is room for |taken| of them at most.
  lemma {:induction false} TriedBound(name: string, i: nat, taken: set<string>)
    requires Tried(name, i) <= taken
    ensures i <= |taken|
  {
    TriedSize(name, i);
    SubsetSize(Tried(name, i), taken);
  }

  // The first free candidate from the i-th on.
  function FirstFree(name: string, taken: set<string>, i: nat): (r: nat)
    requires Tried(name, i) <= taken
    ensures Candidate(name, r) !in taken && Tried(name, r) <= taken
    decreases |taken| - i
  {
    TriedBound(name, i, taken);
    if Candidate(name, i) !in taken then i
    else
      TriedBound(name, i + 1, taken);
      FirstFree(name, taken, i + 1)
  }

  // A name nobody has, found within |taken| + 1 candidates, and the first such one.
  function FreshName(name: string, taken: set<string>): (free: string)
    ensures free !in taken
  {
    Candidate(name, FirstFree(name, taken, 0))
  }

  lemma FreshNameIsFirst(name: string, taken: set<string>) returns (r: nat)
    ensures r <= |taken| && FreshName(name, taken) == Candidate(name, r)
    ensures forall i: nat | i < r :: Candidate(name, i) in taken
  {
    r := FirstFree(name, taken, 0);
    TriedBound(name, r, taken);
    forall i: nat | i < r
      ensures Candidate(name, i) in taken
    {
      InTried(name, i, r);
    }
  }

  lemma {:induction false} InTried(name: string, i: nat, k: nat)
    requires i < k
    ensures Candidate(name, i) in Tried(name, k)
  {
    if i < k - 1 {
      InTried(name, i, k - 1);
    }
  }

  method CollisionSafePath(name: string, taken: set<string>) returns (free: string)
    ensures free == FreshName(name, taken)
  {
    if name !in taken {
      return name;
    }
    var i := 1;
    while true
      invariant 1 <= i && Tried(name, i) <= taken
      invariant FirstFree(name, taken, i) == FirstFree(name, taken, 0)
      decreases |taken| - i
    {
      TriedBound(name, i, taken);
      var candidate := Candidate(name, i);
      if candidate !in taken {
        return candidate;
      }
      TriedBound(name, i + 1, taken);
      i := i + 1;
    }
  }
}
