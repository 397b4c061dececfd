/** Writes, deletes and their undos over a file system (mcp/fs/server.go, mcp/fs/undo.go): pre-images are saved in
    git blobs or in copy slots that later writes share, deleted files wait in the trash, and one record per trace
    says how to undo its last operation. Every external call may fail. The hash is a parameter. */
module Fs {
  import opened Wrappers
  import opened Spaces
  import Trash

  type HashFn = string -> string

  // Where a pre-image was put: nowhere, a blob, or the slot of a task directory and a path.
  datatype Saved = Nowhere | Blob(sha: string) | Copy(slot: (string, string))

  datatype Record =
    | WriteRecord(path: string, hadPrev: bool, preHash: string, saved: Saved)
    | DeleteRecord(path: string, trashName: string)

  datatype State = State(
    files: map<string, string>,
    trash: map<string, string>,
    copies: map<(string, string), string>,
    blobs: map<string, string>,
    registry: map<string, Record>)

  // ---- What the outside may do to one call ----

  // hash-object stores the bytes it finds, which need not be those that were read.
  datatype GitAnswer = NoRepo | HashFails | Hashed(sha: string, stored: string)

  // A failed copy leaves anything, or nothing, in its slot.
  datatype CopyAnswer = CopyDone | CopyFails(left: Option<string>)

  datatype WriteEnv = WriteEnv(allowed: bool, readable: bool, git: GitAnswer, copy: CopyAnswer, written: bool)

  datatype MoveFault = NoFault | CannotOpen | CopyStops(partial: string) | CannotRemove

  datatype UndoEnv = UndoEnv(readable: bool, written: bool, cleaned: bool, move: MoveFault)

  function Lookup<K, V>(m: map<K, V>, key: K): Option<V> {
    if key in m then Some(m[key]) else None
  }

  function Put<K, V>(m: map<K, V>, key: K, value: Option<V>): map<K, V> {
    match value
    case Some(v) => m[key := v]
    case None => m - {key}
  }

  // ---- Writing ----

  predicate HasDotDot(s: string) {
    exists i | 0 <= i < |s| - 1 :: s[i] == '.' && s[i + 1] == '.'
  }

  // One safe directory name per task; a task without one shares a placeholder.
  function TaskDirName(task: string): (dir: string)
    ensures dir != "" && dir != "." && dir != ".." && '/' !in dir && '\\' !in dir && !HasDotDot(dir)
  {
    var t := TrimSpace(task);
    if t == "" || t == "." || t == ".." || '/' in t || '\\' in t || HasDotDot(t) then "_unscoped" else t
  }

  // A task name that cannot be a directory of its own.
  predicate Unsafe(t: string) {
    t == "" || t == "." || t == ".." || (exists i | 0 <= i < |t| :: t[i] == '/' || t[i] == '\\')
    || (exists i | 0 <= i < |t| - 1 :: t[i] == '.' && t[i + 1] == '.')
  }

  // Two tasks share a directory exactly when their names are the same up to spaces around them, or both are unsafe,
  // or one is and the other is named like the placeholder.
  lemma TaskDirsCollideIff(a: string, b: string)
    ensures var t, u := TrimSpace(a), TrimSpace(b);
            TaskDirName(a) == TaskDirName(b) <==>
            t == u || (Unsafe(t) && Unsafe(u)) || (Unsafe(t) && u == "_unscoped") || (t == "_unscoped" && Unsafe(u))
    ensures !Unsafe(TrimSpace(a)) ==> TaskDirName(a) == TrimSpace(a)
  {
  }

  function CopyPreImage(s: State, slot: (string, string), data: string, answer: CopyAnswer): (State, bool) {
    match answer
    case CopyDone => (s.(copies := s.copies[slot := data]), true)
    case CopyFails(left) => (s.(copies := Put(s.copies, slot, left)), false)
  }

  // An object that is already stored is not stored again.
  function StoreBlob(s: State, sha: string, stored: string): State {
    if sha in s.blobs then s else s.(blobs := s.blobs[sha := stored])
  }

  function Checkpoint(h: HashFn, s: State, task: string, path: string, env: WriteEnv): (State, Option<Record>) {
    if !env.readable then (s, None)
    else if path !in s.files then (s, Some(WriteRecord(path, false, h(""), Nowhere)))
    else if env.git.Hashed? then
      (StoreBlob(s, env.git.sha, env.git.stored), Some(WriteRecord(path, true, h(s.files[path]), Blob(env.git.sha))))
    else
      var slot := (TaskDirName(task), h(path));
      var (s', done) := CopyPreImage(s, slot, s.files[path], env.copy);
      (s', if done then Some(WriteRecord(path, true, h(s.files[path]), Copy(slot))) else None)
  }

  function HandleWrite(h: HashFn, s: State, trace: string, task: string, path: string, content: string, env: WriteEnv)
    : (State, bool)
  {
    if !env.allowed then (s, false)
    else
      var (s', rec) := Checkpoint(h, s, task, path, env);
      if rec.None? || !env.written then (s', false)
      else (s'.(files := s'.files[path := content], registry := s'.registry[trace := rec.value]), true)
  }

  // ---- Deleting ----

  // Copy into the trash under a free name, then remove: the name when both happened.
  function MoveToTrash(s: State, path: string, fault: MoveFault): (State, Option<string>) {
    if path !in s.files || fault == CannotOpen then (s, None)
    else
      var name := Trash.FreshName(Trash.BaseName(path), s.trash.Keys);
      if fault.CopyStops? then (s.(trash := s.trash[name := fault.partial]), None)
      else
        var copied := s.(trash := s.trash[name := s.files[path]]);
        if fault == CannotRemove then (copied, None) else (copied.(files := s.files - {path}), Some(name))
  }

  function HandleDelete(s: State, trace: string, path: string, allowed: bool, fault: MoveFault): (State, bool) {
    if !allowed then (s, false)
    else
      var (s', name) := MoveToTrash(s, path, fault);
      if name.None? then (s', false)
      else (s'.(registry := s'.registry[trace := DeleteRecord(path, name.value)]), true)
  }

  // ---- Undoing ----

  function PreImage(s: State, saved: Saved, readable: bool): Option<string> {
    if !readable then None
    else match saved
      case Nowhere => None
      case Blob(sha) => if sha == "" then None else Lookup(s.blobs, sha)
      case Copy(slot) => Lookup(s.copies, slot)
  }

  function Forget(s: State, trace: string): State {
    s.(registry := s.registry - {trace})
  }

  function DropCopy(s: State, saved: Saved, removed: bool): State {
    if saved.Copy? && removed then s.(copies := s.copies - {saved.slot}) else s
  }

  function UndoWrite(h: HashFn, s: State, trace: string, env: UndoEnv): (State, bool) {
    if trace !in s.registry || !s.registry[trace].WriteRecord? then (s, false)
    else
      var rec := s.registry[trace];
      if !rec.hadPrev then
        var (s', name) := MoveToTrash(s, rec.path, env.move);
        if name.None? then (s', false) else (Forget(s', trace), true)
      else
        var data := PreImage(s, rec.saved, env.readable);
        if data.None? || h(data.value) != rec.preHash || !env.written then (s, false)
        else (Forget(DropCopy(s.(files := s.files[rec.path := data.value]), rec.saved, env.cleaned), trace), true)
  }

  // The target must not exist; it is created first, and stays if the copy stops half way.
  function Restore(s: State, name: string, path: string, fault: MoveFault): (State, bool) {
    if name !in s.trash || path in s.files || fault == CannotOpen then (s, false)
    else if fault.CopyStops? then (s.(files := s.files[path := fault.partial]), false)
    else
      var copied := s.(files := s.files[path := s.trash[name]]);
      if fault == CannotRemove then (copied, false) else (copied.(trash := s.trash - {name}), true)
  }

  function UndoDelete(s: State, trace: string, fault: MoveFault): (State, bool) {
    if trace !in s.registry || !s.registry[trace].DeleteRecord? then (s, false)
    else
      var (s', ok) := Restore(s, s.registry[trace].trashName, s.registry[trace].path, fault);
      (if ok then Forget(s', trace) else s', ok)
  }

  function PurgeExpired(s: State, trace: string, removed: bool): State {
    if trace !in s.registry then s
    else
      var rec := s.registry[trace];
      Forget(if rec.WriteRecord? then DropCopy(s, rec.saved, removed) else s, trace)
  }

  // ---- Runs ----

  // The calls of the server, and what others do to the files, the blobs and the trash in between.
  datatype Op =
    | Write(trace: string, task: string, path: string, content: string, env: WriteEnv)
    | Delete(trace: string, path: string, allowed: bool, fault: MoveFault)
    | UndoW(trace: string, undo: UndoEnv)
    | UndoD(trace: string, fault: MoveFault)
    | Purge(trace: string, removed: bool)
    | Edit(path: string, now: Option<string>)
    | GitChange(sha: string, now: Option<string>)
    | TrashChange(name: string, now: Option<string>)

  function Do(h: HashFn, s: State, op: Op): (State, bool) {
    match op
    case Write(trace, task, path, content, env) => HandleWrite(h, s, trace, task, path, content, env)
    case Delete(trace, path, allowed, fault) => HandleDelete(s, trace, path, allowed, fault)
    case UndoW(trace, undo) => UndoWrite(h, s, trace, undo)
    case UndoD(trace, fault) => UndoDelete(s, trace, fault)
    case Purge(trace, removed) => (PurgeExpired(s, trace, removed), true)
    case Edit(path, now) => (s.(files := Put(s.files, path, now)), true)
    case GitChange(sha, now) => (s.(blobs := Put(s.blobs, sha, now)), true)
    case TrashChange(name, now) => (s.(trash := Put(s.trash, name, now)), true)
  }

  function Run(h: HashFn, s: State, ops: seq<Op>): State {
    if ops == [] then s else Do(h, Run(h, s, ops[..|ops| - 1]), ops[|ops| - 1]).0
  }

  // ---- What one call does ----

  // Whether the pre-image can be kept: nothing to keep, a blob, or a copy that was made.
  predicate PreImageKept(s: State, path: string, env: WriteEnv) {
    path in s.files && !env.git.Hashed? ==> env.copy == CopyDone
  }

  ghost predicate SameOthers(s: State, s': State, trace: string) {
    forall t | t != trace :: Lookup(s'.registry, t) == Lookup(s.registry, t)
  }

  // What a write leaves in the copy slots and among the blobs: a copy, what a failed copy left, or a stored object.
  predicate SlotsAfter(h: HashFn, s: State, task: string, path: string, env: WriteEnv, s': State) {
    if !env.allowed || !env.readable || path !in s.files then s'.copies == s.copies && s'.blobs == s.blobs
    else match env.git
      case Hashed(sha, stored) =>
        s'.copies == s.copies && s'.blobs == (if sha in s.blobs then s.blobs else s.blobs[sha := stored])
      case _ =>
        && s'.blobs == s.blobs
        && s'.copies == Put(s.copies, (TaskDirName(task), h(path)),
                            match env.copy case CopyDone => Some(s.files[path]) case CopyFails(left) => left)
  }

  // No write without a pre-image: it happens exactly when it is allowed, the old file could be read and kept, and the
  // new one written. The record says where the pre-image is, and a copy holds the very bytes. A write that does not
  // happen changes no file, no record and no trash.
  lemma WriteSucceedsIff(h: HashFn, s: State, trace: string, task: string, path: string, content: string, env: WriteEnv)
    ensures var (s', ok) := HandleWrite(h, s, trace, task, path, content, env);
            && (ok <==> env.allowed && env.readable && PreImageKept(s, path, env) && env.written)
            && s'.trash == s.trash && SameOthers(s, s', trace)
            && (!ok ==> s'.files == s.files && s'.registry == s.registry)
            && (ok ==> s'.files == s.files[path := content] && trace in s'.registry)
            && (ok && path !in s.files ==> s'.registry[trace] == WriteRecord(path, false, h(""), Nowhere))
            && (ok && path in s.files && env.git.Hashed? ==>
                  s'.registry[trace] == WriteRecord(path, true, h(s.files[path]), Blob(env.git.sha)))
            && (ok && path in s.files && !env.git.Hashed? ==>
                  && s'.registry[trace].WriteRecord? && s'.registry[trace].saved.Copy?
                  && s'.registry[trace].hadPrev && s'.registry[trace].preHash == h(s.files[path])
                  && Lookup(s'.copies, s'.registry[trace].saved.slot) == Some(s.files[path]))
            && SlotsAfter(h, s, task, path, env, s')
  {
    CheckpointOutcome(h, s, task, path, env);
  }

  lemma CheckpointOutcome(h: HashFn, s: State, task: string, path: string, env: WriteEnv)
    ensures var (s', rec) := Checkpoint(h, s, task, path, env);
            && s'.files == s.files && s'.trash == s.trash && s'.registry == s.registry
            && (rec.Some? <==> env.readable && PreImageKept(s, path, env))
            && (rec.Some? && path !in s.files ==> rec.value == WriteRecord(path, false, h(""), Nowhere))
            && (rec.Some? && path in s.files && env.git.Hashed? ==>
                  rec.value == WriteRecord(path, true, h(s.files[path]), Blob(env.git.sha)))
            && (rec.Some? && path in s.files && !env.git.Hashed? ==>
                  && rec.value.WriteRecord? && rec.value.saved.Copy?
                  && rec.value.hadPrev && rec.value.preHash == h(s.files[path])
                  && Lookup(s'.copies, rec.value.saved.slot) == Some(s.files[path]))
            && (env.allowed ==> SlotsAfter(h, s, task, path, env, s'))
  {
  }

  // One more entry holds what was copied, also when the move failed after that.
  predicate LeftInTrash(s: State, path: string, fault: MoveFault, trash: map<string, string>) {
    if path !in s.files || fault == CannotOpen then trash == s.trash
    else
      trash == s.trash[Trash.FreshName(Trash.BaseName(path), s.trash.Keys) :=
                         if fault.CopyStops? then fault.partial else s.files[path]]
  }

  // A delete happens exactly when it is allowed, the file is there and nothing fails: its bytes are then in the trash
  // under a name that was free, and the record says so. One that does not happen changes no file and no record.
  lemma DeleteSucceedsIff(s: State, trace: string, path: string, allowed: bool, fault: MoveFault)
    ensures var (s', ok) := HandleDelete(s, trace, path, allowed, fault);
            && (ok <==> allowed && path in s.files && fault == NoFault)
            && SameOthers(s, s', trace)
            && (!ok ==> s'.files == s.files && s'.registry == s.registry)
            && (forall n | n in s.trash :: Lookup(s'.trash, n) == Some(s.trash[n]))
            && (allowed ==> LeftInTrash(s, path, fault, s'.trash)) && (!allowed ==> s' == s)
            && (ok ==>
                  && trace in s'.registry && s'.registry[trace].DeleteRecord? && s'.registry[trace].path == path
                  && var name := s'.registry[trace].trashName;
                     name !in s.trash && s'.trash == s.trash[name := s.files[path]] && s'.files == s.files - {path})
  {
  }

  // What undoing a delete leaves, for each way it can go: back in place with the entry gone, back in place with the
  // entry and the record still there, half of the file in place, or nothing changed.
  lemma UndoDeleteOutcomes(s: State, trace: string, path: string, name: string, fault: MoveFault)
    requires Lookup(s.registry, trace) == Some(DeleteRecord(path, name))
    ensures var (s', ok) := UndoDelete(s, trace, fault);
            if name !in s.trash || path in s.files || fault == CannotOpen then !ok && s' == s
            else match fault
              case CopyStops(partial) => !ok && s' == s.(files := s.files[path := partial])
              case CannotRemove => !ok && s' == s.(files := s.files[path := s.trash[name]])
              case _ =>
                && ok
                && s' == s.(files := s.files[path := s.trash[name]], trash := s.trash - {name}, registry := s.registry - {trace})
  {
  }

  // Undoing the write of a new file is a move to the trash: it happens exactly when the file is there and nothing fails.
  lemma UndoCreation(h: HashFn, s: State, trace: string, path: string, hash: string, saved: Saved, env: UndoEnv)
    requires Lookup(s.registry, trace) == Some(WriteRecord(path, false, hash, saved))
    ensures var (s', ok) := UndoWrite(h, s, trace, env);
            && (ok <==> path in s.files && env.move == NoFault)
            && s'.files == (if ok then s.files - {path} else s.files)
            && s'.registry == (if ok then s.registry - {trace} else s.registry)
            && LeftInTrash(s, path, env.move, s'.trash) && s'.copies == s.copies && s'.blobs == s.blobs
  {
  }

  // A write is undone at most once, and its copy slot is emptied with it when that can be done.
  lemma UndoneOnce(h: HashFn, s: State, trace: string, env: UndoEnv, again: UndoEnv)
    requires trace in s.registry && s.registry[trace].WriteRecord? && UndoWrite(h, s, trace, env).1
    ensures var s' := UndoWrite(h, s, trace, env).0;
            && s'.registry == s.registry - {trace} && UndoWrite(h, s', trace, again) == (s', false)
            && var saved := s.registry[trace].saved;
               s'.copies == if s.registry[trace].hadPrev && saved.Copy? && env.cleaned then s.copies - {saved.slot} else s.copies
  {
    UndoWriteRegistry(h, s, trace, env);
    if !s.registry[trace].hadPrev {
      assert MoveToTrash(s, s.registry[trace].path, env.move).0.copies == s.copies;
    }
  }

  // An expired record can never be undone: it is gone, and the slot that it names is emptied when that can be done.
  // No file, no trash entry and no other record is touched.
  lemma PurgeForgets(h: HashFn, s: State, trace: string, removed: bool, undo: UndoEnv, fault: MoveFault)
    ensures var s' := PurgeExpired(s, trace, removed);
            && s'.registry == s.registry - {trace}
            && s'.files == s.files && s'.trash == s.trash && s'.blobs == s.blobs
            && UndoWrite(h, s', trace, undo) == (s', false) && UndoDelete(s', trace, fault) == (s', false)
            && s'.copies == (if trace in s.registry && s.registry[trace].WriteRecord? && s.registry[trace].saved.Copy? && removed
                             then s.copies - {s.registry[trace].saved.slot} else s.copies)
  {
    if trace !in s.registry {
      assert s.registry - {trace} == s.registry;
    }
  }

  // ---- The record of a trace is that of its last recorded operation ----

  predicate Records(h: HashFn, s: State, op: Op, trace: string) {
    (op.Write? || op.Delete?) && op.trace == trace && Do(h, s, op).1
  }

  function LastRecorded(h: HashFn, s: State, ops: seq<Op>, trace: string): (i: Option<nat>)
    ensures i.Some? ==> i.value < |ops|
  {
    if ops == [] then None
    else
      var front := ops[..|ops| - 1];
      if Records(h, Run(h, s, front), ops[|ops| - 1], trace) then Some(|front|) else LastRecorded(h, s, front, trace)
  }

  // What a recorded operation on this state leaves in the registry.
  predicate RecordFits(h: HashFn, before: State, op: Op, rec: Record) {
    match op
    case Write(_, _, path, _, _) =>
      && rec.WriteRecord? && rec.path == path
      && rec.hadPrev == (path in before.files)
      && (path in before.files ==> rec.preHash == h(before.files[path]))
    case Delete(_, path, _, _) =>
      && path in before.files
      && rec == DeleteRecord(path, Trash.FreshName(Trash.BaseName(path), before.trash.Keys))
    case _ => false
  }

  lemma MoveKeepsRegistry(s: State, path: string, fault: MoveFault)
    ensures MoveToTrash(s, path, fault).0.registry == s.registry
  {
  }

  lemma CheckpointKeepsRegistry(h: HashFn, s: State, task: string, path: string, env: WriteEnv)
    ensures var (s', rec) := Checkpoint(h, s, task, path, env);
            && s'.registry == s.registry && s'.files == s.files && s'.trash == s.trash
            && (rec.Some? ==>
                  && rec.value.WriteRecord? && rec.value.path == path && rec.value.hadPrev == (path in s.files)
                  && (path in s.files ==> rec.value.preHash == h(s.files[path])))
  {
  }

  lemma RecordingFits(h: HashFn, s: State, op: Op)
    requires (op.Write? || op.Delete?) && Do(h, s, op).1
    ensures op.trace in Do(h, s, op).0.registry && RecordFits(h, s, op, Do(h, s, op).0.registry[op.trace])
  {
    if op.Write? {
      CheckpointKeepsRegistry(h, s, op.task, op.path, op.env);
    } else {
      MoveKeepsRegistry(s, op.path, op.fault);
    }
  }

  lemma WriteKeepsOthers(h: HashFn, s: State, op: Op, trace: string)
    requires op.Write? && !Records(h, s, op, trace)
    ensures Lookup(Do(h, s, op).0.registry, trace) == Lookup(s.registry, trace)
  {
    CheckpointKeepsRegistry(h, s, op.task, op.path, op.env);
  }

  lemma DeleteKeepsOthers(h: HashFn, s: State, op: Op, trace: string)
    requires op.Delete? && !Records(h, s, op, trace)
    ensures Lookup(Do(h, s, op).0.registry, trace) == Lookup(s.registry, trace)
  {
    MoveKeepsRegistry(s, op.path, op.fault);
  }

  lemma UndoWriteRegistry(h: HashFn, s: State, trace: string, env: UndoEnv)
    ensures var (s', ok) := UndoWrite(h, s, trace, env);
            s'.registry == if ok then s.registry - {trace} else s.registry
  {
    if trace in s.registry && s.registry[trace].WriteRecord? {
      MoveKeepsRegistry(s, s.registry[trace].path, env.move);
    }
  }

  // Any other step keeps the record or drops it.
  lemma OthersKeepRecord(h: HashFn, s: State, op: Op, trace: string)
    requires !Records(h, s, op, trace)
    ensures trace in Do(h, s, op).0.registry ==>
              trace in s.registry && s.registry[trace] == Do(h, s, op).0.registry[trace]
  {
    match op {
      case Write(_, _, _, _, _) => WriteKeepsOthers(h, s, op, trace);
      case Delete(_, _, _, _) => DeleteKeepsOthers(h, s, op, trace);
      case UndoW(t, undo) => UndoWriteRegistry(h, s, t, undo);
      case _ =>
    }
  }

  // The registry of a run tells, for each trace, what its last recorded operation found.
  lemma {:induction false} RegistryTells(h: HashFn, s: State, ops: seq<Op>, trace: string) returns (i: nat)
    requires s.registry == map[] && trace in Run(h, s, ops).registry
    ensures LastRecorded(h, s, ops, trace) == Some(i)
    ensures (ops[i].Write? || ops[i].Delete?) && ops[i].trace == trace
    ensures RecordFits(h, Run(h, s, ops[..i]), ops[i], Run(h, s, ops).registry[trace])
  {
    var front, op := ops[..|ops| - 1], ops[|ops| - 1];
    var before := Run(h, s, front);
    if Records(h, before, op, trace) {
      RecordingFits(h, before, op);
      i := |front|;
    } else {
      OthersKeepRecord(h, before, op, trace);
      i := RegistryTells(h, s, front, trace);
      assert front[..i] == ops[..i];
    }
  }

  // ---- Undoing a write ----

  // The target goes back to what it was, and nothing else among the files changes.
  predicate PutBack(s: State, s': State, path: string, was: Option<string>) {
    s'.files == Put(s.files, path, was)
  }

  // The target is what it was: gone if it was not there, and otherwise the same bytes, or different ones that have
  // the very same hash. Nothing else among the files changes.
  predicate Restored(h: HashFn, s: State, s': State, path: string, was: Option<string>) {
    match was
    case None => PutBack(s, s', path, None)
    case Some(bytes) => path in s'.files && h(s'.files[path]) == h(bytes) && PutBack(s, s', path, Some(s'.files[path]))
  }

  lemma UndoWriteOfRecord(h: HashFn, s: State, trace: string, env: UndoEnv, before: State, op: Op)
    requires op.Write? && trace in s.registry && RecordFits(h, before, op, s.registry[trace])
    ensures var (s', ok) := UndoWrite(h, s, trace, env);
            && (ok ==> Restored(h, s, s', op.path, Lookup(before.files, op.path)))
            && (!ok ==> s'.files == s.files)
  {
  }

  // Undo is exact or does nothing: over any run of writes, deletes, undos, purges and outside changes, with copy
  // slots shared between traces, an undo that succeeds puts the target back to what it was just before the trace's
  // last recorded write and touches no other file: absent if it was absent, and otherwise bytes with the hash of
  // those that were there. One that fails touches no file.
  lemma {:induction false} UndoWriteIsExact(h: HashFn, s: State, ops: seq<Op>, trace: string, env: UndoEnv)
    requires s.registry == map[]
    ensures var now := Run(h, s, ops);
            var (s', ok) := UndoWrite(h, now, trace, env);
            && (!ok ==> s'.files == now.files)
            && (ok ==>
                  var i := LastRecorded(h, s, ops, trace);
                  && i.Some? && ops[i.value].Write?
                  && Restored(h, now, s', ops[i.value].path, Lookup(Run(h, s, ops[..i.value]).files, ops[i.value].path)))
  {
    var now := Run(h, s, ops);
    if trace in now.registry && now.registry[trace].WriteRecord? {
      var i := RegistryTells(h, s, ops, trace);
      UndoWriteOfRecord(h, now, trace, env, Run(h, s, ops[..i]), ops[i]);
    }
  }

  // After any run a write and its undo at once give the files back; an object that git drops in between makes the undo
  // fail, and the new content stays.
  lemma {:induction false} WriteThenUndoRun(h: HashFn, s: State, ops: seq<Op>, trace: string, task: string, path: string, content: string,
                                            sha: string)
    requires path in Run(h, s, ops).files && sha != "" && sha !in Run(h, s, ops).blobs
    ensures var before := Run(h, s, ops);
            var plain := Write(trace, task, path, content, WriteEnv(true, true, NoRepo, CopyDone, true));
            var hashed := Write(trace, task, path, content, WriteEnv(true, true, Hashed(sha, before.files[path]), CopyDone, true));
            var undo := UndoW(trace, PlainUndo());
            && Run(h, s, ops + [plain]).files == before.files[path := content]
            && Run(h, s, ops + [plain] + [undo]).files == before.files
            && Run(h, s, ops + [hashed] + [undo]).files == before.files
            && Run(h, s, ops + [hashed] + [GitChange(sha, None)] + [undo]).files == before.files[path := content]
  {
    var before := Run(h, s, ops);
    var plain := Write(trace, task, path, content, WriteEnv(true, true, NoRepo, CopyDone, true));
    var hashed := Write(trace, task, path, content, WriteEnv(true, true, Hashed(sha, before.files[path]), CopyDone, true));
    var undo := UndoW(trace, PlainUndo());
    RunMore(h, s, ops, plain);
    RunMore(h, s, ops + [plain], undo);
    RunMore(h, s, ops, hashed);
    RunMore(h, s, ops + [hashed], undo);
    RunMore(h, s, ops + [hashed], GitChange(sha, None));
    RunMore(h, s, ops + [hashed] + [GitChange(sha, None)], undo);
    UndoOfPlain(h, before, plain, trace);
    UndoOfHashed(h, before, hashed, trace, sha);
  }

  lemma {:induction false} RunMore(h: HashFn, s: State, ops: seq<Op>, op: Op)
    ensures Run(h, s, ops + [op]) == Do(h, Run(h, s, ops), op).0
  {
    assert (ops + [op])[..|ops|] == ops;
  }

  lemma UndoOfPlain(h: HashFn, s: State, op: Op, trace: string)
    requires op.Write? && op.trace == trace && op.path in s.files
    requires op.env == WriteEnv(true, true, NoRepo, CopyDone, true)
    ensures var s' := Do(h, s, op).0;
            s'.files == s.files[op.path := op.content] && Do(h, s', UndoW(trace, PlainUndo())).0.files == s.files
  {
    assert s.files[op.path := op.content][op.path := s.files[op.path]] == s.files;
  }

  lemma UndoOfHashed(h: HashFn, s: State, op: Op, trace: string, sha: string)
    requires op.Write? && op.trace == trace && op.path in s.files && sha != "" && sha !in s.blobs
    requires op.env == WriteEnv(true, true, Hashed(sha, s.files[op.path]), CopyDone, true)
    ensures var s' := Do(h, s, op).0;
            && s'.files == s.files[op.path := op.content]
            && Do(h, s', UndoW(trace, PlainUndo())).0.files == s.files
            && Do(h, Do(h, s', GitChange(sha, None)).0, UndoW(trace, PlainUndo())).0.files == s'.files
  {
    assert s.files[op.path := op.content][op.path := s.files[op.path]] == s.files;
  }

  function PlainUndo(): UndoEnv {
    UndoEnv(true, true, true, NoFault)
  }

  // ---- When a write can be undone ----

  function PlaceOf(h: HashFn, op: Op): Saved
    requires op.Write?
  {
    if op.env.git.Hashed? then Blob(op.env.git.sha) else Copy((TaskDirName(op.task), h(op.path)))
  }

  // The bytes that are in that place after the write.
  function SavedBytes(before: State, op: Op): string
    requires op.Write? && op.path in before.files
  {
    match op.env.git
    case Hashed(sha, stored) => if sha in before.blobs then before.blobs[sha] else stored
    case _ => before.files[op.path]
  }

  // A write goes back as long as git saved, under a name, bytes with the hash of those that were read.
  predicate SavedWell(h: HashFn, before: State, op: Op)
    requires op.Write? && op.path in before.files
  {
    h(SavedBytes(before, op)) == h(before.files[op.path]) && (op.env.git.Hashed? ==> op.env.git.sha != "")
  }

  function Held(s: State, saved: Saved): Option<string> {
    match saved
    case Nowhere => None
    case Blob(sha) => Lookup(s.blobs, sha)
    case Copy(slot) => Lookup(s.copies, slot)
  }

  predicate NamesSlot(s: State, trace: string, saved: Saved) {
    trace in s.registry && s.registry[trace].WriteRecord? && s.registry[trace].saved == saved && saved.Copy?
  }

  // The step may change what this place holds: a write copies its own pre-image there, an undo or a purge removes the
  // slot that its record names, or git changes the blob.
  predicate Touches(h: HashFn, s: State, op: Op, saved: Saved) {
    match op
    case Write(_, task, path, _, env) =>
      env.allowed && env.readable && path in s.files && saved == PlaceOf(h, op) && saved.Copy?
    case UndoW(trace, undo) => NamesSlot(s, trace, saved) && undo.cleaned && UndoWrite(h, s, trace, undo).1
    case Purge(trace, removed) => NamesSlot(s, trace, saved) && removed
    case GitChange(sha, _) => saved == Blob(sha)
    case _ => false
  }

  predicate Untouched(h: HashFn, s: State, ops: seq<Op>, i: nat, saved: Saved) {
    forall j | i < j < |ops| :: !Touches(h, Run(h, s, ops[..j]), ops[j], saved)
  }

  lemma WriteKeepsPlace(h: HashFn, s: State, op: Op, saved: Saved)
    requires op.Write? && Held(s, saved).Some? && !Touches(h, s, op, saved)
    ensures Held(Do(h, s, op).0, saved) == Held(s, saved)
  {
  }

  lemma UndoKeepsPlace(h: HashFn, s: State, trace: string, env: UndoEnv, saved: Saved)
    requires !Touches(h, s, UndoW(trace, env), saved)
    ensures Held(UndoWrite(h, s, trace, env).0, saved) == Held(s, saved)
  {
    if trace in s.registry && s.registry[trace].WriteRecord? {
      var moved := MoveToTrash(s, s.registry[trace].path, env.move).0;
      assert moved.copies == s.copies && moved.blobs == s.blobs;
    }
  }

  lemma StepKeepsPlace(h: HashFn, s: State, op: Op, saved: Saved)
    requires Held(s, saved).Some? && !Touches(h, s, op, saved)
    ensures Held(Do(h, s, op).0, saved) == Held(s, saved)
  {
    match op {
      case Write(_, _, _, _, _) => WriteKeepsPlace(h, s, op, saved);
      case UndoW(t, undo) => UndoKeepsPlace(h, s, t, undo, saved);
      case _ =>
    }
  }

  // The record says where the pre-image is, and it is there.
  predicate IsHeld(h: HashFn, s: State, trace: string, before: State, op: Op)
    requires op.Write? && op.path in before.files
  {
    && Lookup(s.registry, trace) == Some(WriteRecord(op.path, true, h(before.files[op.path]), PlaceOf(h, op)))
    && Held(s, PlaceOf(h, op)) == Some(SavedBytes(before, op))
  }

  lemma WriteIsHeld(h: HashFn, s: State, op: Op)
    requires op.Write? && op.path in s.files && Do(h, s, op).1
    ensures IsHeld(h, Do(h, s, op).0, op.trace, s, op)
  {
  }

  lemma {:induction false} HeldSince(h: HashFn, s: State, ops: seq<Op>, trace: string, i: nat)
    requires LastRecorded(h, s, ops, trace) == Some(i) && ops[i].Write? && ops[i].trace == trace
    requires trace in Run(h, s, ops).registry
    requires ops[i].path in Run(h, s, ops[..i]).files && Untouched(h, s, ops, i, PlaceOf(h, ops[i]))
    ensures IsHeld(h, Run(h, s, ops), trace, Run(h, s, ops[..i]), ops[i])
  {
    var front, op := ops[..|ops| - 1], ops[|ops| - 1];
    var before := Run(h, s, front);
    if Records(h, before, op, trace) {
      WriteIsHeld(h, before, op);
    } else {
      OthersKeepRecord(h, before, op, trace);
      assert front[..i] == ops[..i] && front[i] == ops[i];
      assert forall j | i < j < |front| :: front[..j] == ops[..j];
      HeldSince(h, s, front, trace, i);
      StepKeepsPlace(h, before, op, PlaceOf(h, ops[i]));
    }
  }

  lemma HeldIsUndone(h: HashFn, s: State, trace: string, before: State, op: Op)
    requires op.Write? && op.path in before.files && IsHeld(h, s, trace, before, op)
    ensures var (s', ok) := UndoWrite(h, s, trace, PlainUndo());
            && (ok <==> SavedWell(h, before, op))
            && (ok ==> s'.files == s.files[op.path := SavedBytes(before, op)])
  {
  }

  // Exactly when a write can be undone, over any run and without faults: one that made a new file while that file is
  // there, and any other, as long as nothing touched the place of its pre-image since, when the pre-image was saved
  // well. Without a git repository it always was, and the very bytes come back.
  lemma {:induction false} UndoWriteSucceedsIff(h: HashFn, s: State, ops: seq<Op>, trace: string)
    requires s.registry == map[]
    requires trace in Run(h, s, ops).registry && Run(h, s, ops).registry[trace].WriteRecord?
    ensures var now := Run(h, s, ops);
            var (s', ok) := UndoWrite(h, now, trace, PlainUndo());
            var i := LastRecorded(h, s, ops, trace);
            && i.Some? && ops[i.value].Write?
            && var before, op := Run(h, s, ops[..i.value]), ops[i.value];
               if op.path !in before.files then ok <==> op.path in now.files
               else Untouched(h, s, ops, i.value, PlaceOf(h, op)) ==>
                      && (ok <==> SavedWell(h, before, op))
                      && (ok ==> s'.files == now.files[op.path := SavedBytes(before, op)])
  {
    var i := RegistryTells(h, s, ops, trace);
    var before, op := Run(h, s, ops[..i]), ops[i];
    if op.path in before.files && Untouched(h, s, ops, i, PlaceOf(h, op)) {
      HeldSince(h, s, ops, trace, i);
      HeldIsUndone(h, Run(h, s, ops), trace, before, op);
    }
  }

  function PlainWrite(): WriteEnv {
    WriteEnv(true, true, NoRepo, CopyDone, true)
  }

  lemma PlainWriteSlot(h: HashFn, s: State, trace: string, task: string, path: string, content: string)
    requires path in s.files
    ensures var slot := (TaskDirName(task), h(path));
            var (s', ok) := HandleWrite(h, s, trace, task, path, content, PlainWrite());
            && ok && s'.files == s.files[path := content] && s'.copies == s.copies[slot := s.files[path]]
            && s'.registry == s.registry[trace := WriteRecord(path, true, h(s.files[path]), Copy(slot))]
  {
  }

  // Two writes to one path from one task directory share a copy slot: the second shadows the first, whose undo then
  // succeeds exactly when both pre-images have the same hash, and is refused otherwise.
  lemma SharedSlot(h: HashFn, s: State, a: string, b: string, task: string, path: string, y: string, z: string)
    requires path in s.files && a != b
    ensures var once := HandleWrite(h, s, a, task, path, y, PlainWrite()).0;
            var twice := HandleWrite(h, once, b, task, path, z, PlainWrite()).0;
            UndoWrite(h, twice, a, PlainUndo()).1 <==> h(s.files[path]) == h(y)
  {
    PlainWriteSlot(h, s, a, task, path, y);
    var once := HandleWrite(h, s, a, task, path, y, PlainWrite()).0;
    PlainWriteSlot(h, once, b, task, path, z);
  }

  // ---- Undoing a delete ----

  // Every deleted file is in the trash under a name of its own.
  predicate EntriesOk(s: State) {
    && (forall t | t in s.registry && s.registry[t].DeleteRecord? :: s.registry[t].trashName in s.trash)
    && (forall t, u | t in s.registry && u in s.registry && t != u && s.registry[t].DeleteRecord? && s.registry[u].DeleteRecord? ::
          s.registry[t].trashName != s.registry[u].trashName)
  }

  predicate HasEntry(s: State, trace: string, path: string, name: string, data: string) {
    && Lookup(s.registry, trace) == Some(DeleteRecord(path, name))
    && Lookup(s.trash, name) == Some(data)
  }

  // What a move into the trash may do to it: one new entry under a free name.
  lemma {:induction false} MoveAddsEntry(s: State, path: string, fault: MoveFault)
    ensures var (s', name) := MoveToTrash(s, path, fault);
            && (forall n | n in s.trash :: n in s'.trash && s'.trash[n] == s.trash[n])
            && (name.Some? ==>
                  && path in s.files && name.value !in s.trash
                  && name.value == Trash.FreshName(Trash.BaseName(path), s.trash.Keys)
                  && s'.trash == s.trash[name.value := s.files[path]] && s'.files == s.files - {path})
            && (name.None? ==> s'.files == s.files)
  {
  }

  lemma WriteKeepsEntries(h: HashFn, s: State, op: Op)
    requires op.Write? && EntriesOk(s)
    ensures EntriesOk(Do(h, s, op).0) && Do(h, s, op).0.trash == s.trash
  {
    CheckpointKeepsRegistry(h, s, op.task, op.path, op.env);
  }

  lemma DeleteKeepsEntries(s: State, trace: string, path: string, allowed: bool, fault: MoveFault)
    requires EntriesOk(s)
    ensures EntriesOk(HandleDelete(s, trace, path, allowed, fault).0)
  {
    MoveKeepsRegistry(s, path, fault);
    MoveAddsEntry(s, path, fault);
  }

  lemma UndoWriteKeepsEntries(h: HashFn, s: State, trace: string, env: UndoEnv)
    requires EntriesOk(s)
    ensures EntriesOk(UndoWrite(h, s, trace, env).0)
    ensures forall n | n in s.trash :: Lookup(UndoWrite(h, s, trace, env).0.trash, n) == Some(s.trash[n])
  {
    UndoWriteRegistry(h, s, trace, env);
    if trace in s.registry && s.registry[trace].WriteRecord? {
      MoveAddsEntry(s, s.registry[trace].path, env.move);
    }
  }

  lemma UndoDeleteKeepsEntries(s: State, trace: string, fault: MoveFault)
    requires EntriesOk(s)
    ensures EntriesOk(UndoDelete(s, trace, fault).0)
  {
  }

  lemma StepKeepsEntries(h: HashFn, s: State, op: Op)
    requires EntriesOk(s) && !op.TrashChange?
    ensures EntriesOk(Do(h, s, op).0)
  {
    match op {
      case Write(_, _, _, _, _) => WriteKeepsEntries(h, s, op);
      case Delete(trace, path, allowed, fault) => DeleteKeepsEntries(s, trace, path, allowed, fault);
      case UndoW(trace, undo) => UndoWriteKeepsEntries(h, s, trace, undo);
      case UndoD(trace, fault) => UndoDeleteKeepsEntries(s, trace, fault);
      case _ =>
    }
  }

  predicate NobodyElse(ops: seq<Op>) {
    forall i | 0 <= i < |ops| :: !ops[i].TrashChange?
  }

  lemma {:induction false} RunKeepsEntries(h: HashFn, s: State, ops: seq<Op>)
    requires s.registry == map[] && NobodyElse(ops)
    ensures EntriesOk(Run(h, s, ops))
  {
    if ops != [] {
      RunKeepsEntries(h, s, ops[..|ops| - 1]);
      StepKeepsEntries(h, Run(h, s, ops[..|ops| - 1]), ops[|ops| - 1]);
    }
  }

  // No other trace's delete record names this entry.
  predicate SoleOwner(s: State, trace: string, name: string) {
    forall u | u in s.registry && u != trace && s.registry[u].DeleteRecord? :: s.registry[u].trashName != name
  }

  // Nobody else has changed this entry after the i-th operation.
  predicate LeftAlone(ops: seq<Op>, i: nat, name: string) {
    forall j | i < j < |ops| && ops[j].TrashChange? :: ops[j].name != name
  }

  predicate Owns(s: State, trace: string, path: string, name: string, data: string) {
    HasEntry(s, trace, path, name, data) && SoleOwner(s, trace, name)
  }

  lemma DeleteOwns(s: State, op: Op, trace: string, path: string, name: string, data: string)
    requires Owns(s, trace, path, name, data) && op.Delete? && op.trace != trace
    ensures Owns(HandleDelete(s, op.trace, op.path, op.allowed, op.fault).0, trace, path, name, data)
  {
    MoveKeepsRegistry(s, op.path, op.fault);
    MoveAddsEntry(s, op.path, op.fault);
  }

  lemma FailedDeleteOwns(s: State, op: Op, trace: string, path: string, name: string, data: string)
    requires Owns(s, trace, path, name, data) && op.Delete?
    requires !HandleDelete(s, op.trace, op.path, op.allowed, op.fault).1
    ensures Owns(HandleDelete(s, op.trace, op.path, op.allowed, op.fault).0, trace, path, name, data)
  {
    MoveKeepsRegistry(s, op.path, op.fault);
    MoveAddsEntry(s, op.path, op.fault);
  }

  lemma WriteOwns(h: HashFn, s: State, op: Op, trace: string, path: string, name: string, data: string)
    requires Owns(s, trace, path, name, data) && op.Write? && !Records(h, s, op, trace)
    ensures Owns(Do(h, s, op).0, trace, path, name, data)
  {
    CheckpointKeepsRegistry(h, s, op.task, op.path, op.env);
  }

  lemma UndoWriteOwns(h: HashFn, s: State, t: string, env: UndoEnv, trace: string, path: string, name: string, data: string)
    requires Owns(s, trace, path, name, data)
    ensures Owns(UndoWrite(h, s, t, env).0, trace, path, name, data)
  {
    UndoWriteRegistry(h, s, t, env);
    if t in s.registry && s.registry[t].WriteRecord? {
      MoveAddsEntry(s, s.registry[t].path, env.move);
    }
  }

  lemma UndoDeleteOwns(s: State, t: string, fault: MoveFault, trace: string, path: string, name: string, data: string)
    requires Owns(s, trace, path, name, data) && trace in UndoDelete(s, t, fault).0.registry
    ensures Owns(UndoDelete(s, t, fault).0, trace, path, name, data)
  {
  }

  lemma PurgeOwns(s: State, t: string, removed: bool, trace: string, path: string, name: string, data: string)
    requires Owns(s, trace, path, name, data) && t != trace
    ensures Owns(PurgeExpired(s, t, removed), trace, path, name, data)
  {
  }

  // What a trace owns it keeps, as long as its record is there and nobody else changes the entry.
  lemma StepOwns(h: HashFn, s: State, op: Op, trace: string, path: string, name: string, data: string)
    requires Owns(s, trace, path, name, data) && !Records(h, s, op, trace) && trace in Do(h, s, op).0.registry
    requires op.TrashChange? ==> op.name != name
    ensures Owns(Do(h, s, op).0, trace, path, name, data)
  {
    match op {
      case Write(_, _, _, _, _) => WriteOwns(h, s, op, trace, path, name, data);
      case Delete(t, _, _, _) =>
        if t == trace {
          FailedDeleteOwns(s, op, trace, path, name, data);
        } else {
          DeleteOwns(s, op, trace, path, name, data);
        }
      case UndoW(t, undo) => UndoWriteOwns(h, s, t, undo, trace, path, name, data);
      case UndoD(t, fault) => UndoDeleteOwns(s, t, fault, trace, path, name, data);
      case Purge(t, removed) => PurgeOwns(s, t, removed, trace, path, name, data);
      case _ =>
    }
  }

  lemma DeletionIsOwned(h: HashFn, s: State, op: Op)
    requires op.Delete? && Do(h, s, op).1
    ensures op.path in s.files && op.trace in Do(h, s, op).0.registry
    ensures var name := Trash.FreshName(Trash.BaseName(op.path), s.trash.Keys);
            SoleOwner(s, op.trace, name) ==> Owns(Do(h, s, op).0, op.trace, op.path, name, s.files[op.path])
  {
    MoveKeepsRegistry(s, op.path, op.fault);
    MoveAddsEntry(s, op.path, op.fault);
  }

  lemma {:induction false} OwnedSince(h: HashFn, s: State, ops: seq<Op>, trace: string, i: nat, name: string)
    requires LastRecorded(h, s, ops, trace) == Some(i) && ops[i].Delete? && ops[i].trace == trace
    requires trace in Run(h, s, ops).registry
    requires name == Trash.FreshName(Trash.BaseName(ops[i].path), Run(h, s, ops[..i]).trash.Keys)
    requires LeftAlone(ops, i, name) && SoleOwner(Run(h, s, ops[..i]), trace, name)
    ensures ops[i].path in Run(h, s, ops[..i]).files
    ensures Owns(Run(h, s, ops), trace, ops[i].path, name, Run(h, s, ops[..i]).files[ops[i].path])
  {
    var front, op := ops[..|ops| - 1], ops[|ops| - 1];
    var before := Run(h, s, front);
    if Records(h, before, op, trace) {
      DeletionIsOwned(h, before, op);
    } else {
      OthersKeepRecord(h, before, op, trace);
      assert front[..i] == ops[..i] && front[i] == ops[i];
      OwnedSince(h, s, front, trace, i, name);
      StepOwns(h, before, op, trace, ops[i].path, name, Run(h, s, ops[..i]).files[ops[i].path]);
    }
  }

  // The entry of a delete is kept for its undo: nobody else touches it after the delete, and no record of an earlier
  // delete still names it.
  predicate Kept(h: HashFn, s: State, ops: seq<Op>, trace: string, i: nat)
    requires i < |ops| && trace in Run(h, s, ops).registry && Run(h, s, ops).registry[trace].DeleteRecord?
  {
    var name := Run(h, s, ops).registry[trace].trashName;
    LeftAlone(ops, i, name) && SoleOwner(Run(h, s, ops[..i]), trace, name)
  }

  lemma {:induction false} KeptEntry(h: HashFn, s: State, ops: seq<Op>, trace: string) returns (i: nat)
    requires s.registry == map[] && trace in Run(h, s, ops).registry && Run(h, s, ops).registry[trace].DeleteRecord?
    ensures LastRecorded(h, s, ops, trace) == Some(i) && ops[i].Delete?
    ensures var rec := Run(h, s, ops).registry[trace];
            && ops[i].path == rec.path && rec.path in Run(h, s, ops[..i]).files
            && (Kept(h, s, ops, trace, i) ==>
                  Owns(Run(h, s, ops), trace, rec.path, rec.trashName, Run(h, s, ops[..i]).files[rec.path]))
  {
    i := RegistryTells(h, s, ops, trace);
    if Kept(h, s, ops, trace, i) {
      OwnedSince(h, s, ops, trace, i, Run(h, s, ops).registry[trace].trashName);
    }
  }

  // An undone delete puts back what its entry holds, to a free path, and touches no other file. That is exactly the
  // file which the trace's last recorded delete found if and only if the entry still holds those bytes, and it does
  // whenever the entry was kept for it.
  lemma {:induction false} UndoDeleteIsExact(h: HashFn, s: State, ops: seq<Op>, trace: string, fault: MoveFault)
    requires s.registry == map[]
    ensures var now := Run(h, s, ops);
            var (s', ok) := UndoDelete(now, trace, fault);
            ok ==>
              var i := LastRecorded(h, s, ops, trace);
              && i.Some? && ops[i.value].Delete? && ops[i.value].path !in now.files
              && trace in now.registry && now.registry[trace].DeleteRecord?
              && var was := Lookup(Run(h, s, ops[..i.value]).files, ops[i.value].path);
                 var held := Lookup(now.trash, now.registry[trace].trashName);
                 && PutBack(now, s', ops[i.value].path, held)
                 && (PutBack(now, s', ops[i.value].path, was) <==> held == was)
                 && (Kept(h, s, ops, trace, i.value) ==> held == was)
  {
    var now := Run(h, s, ops);
    if trace in now.registry && now.registry[trace].DeleteRecord? {
      var i := KeptEntry(h, s, ops, trace);
      var (s', ok) := UndoDelete(now, trace, fault);
      if ok {
        SamePut(now.files, ops[i].path, Lookup(now.trash, now.registry[trace].trashName),
                Lookup(Run(h, s, ops[..i]).files, ops[i].path));
      }
    }
  }

  lemma SamePut(files: map<string, string>, path: string, x: Option<string>, y: Option<string>)
    requires path !in files
    ensures Put(files, path, x) == Put(files, path, y) <==> x == y
  {
    assert Lookup(Put(files, path, x), path) == x && Lookup(Put(files, path, y), path) == y;
  }

  // And it can be undone as long as its path has not been taken again, however many deletes came after it.
  lemma {:induction false} UndoDeleteSucceedsIff(h: HashFn, s: State, ops: seq<Op>, trace: string)
    requires s.registry == map[]
    requires trace in Run(h, s, ops).registry && Run(h, s, ops).registry[trace].DeleteRecord?
    ensures var now := Run(h, s, ops);
            var i := LastRecorded(h, s, ops, trace);
            && i.Some?
            && (Kept(h, s, ops, trace, i.value) ==>
                  (UndoDelete(now, trace, NoFault).1 <==> now.registry[trace].path !in now.files))
  {
    var i := KeptEntry(h, s, ops, trace);
  }

  // While nobody else changes the trash at all, every entry is kept.
  lemma {:induction false} UntouchedTrashIsKept(h: HashFn, s: State, ops: seq<Op>, trace: string)
    requires s.registry == map[] && NobodyElse(ops)
    requires trace in Run(h, s, ops).registry && Run(h, s, ops).registry[trace].DeleteRecord?
    ensures LastRecorded(h, s, ops, trace).Some? && Kept(h, s, ops, trace, LastRecorded(h, s, ops, trace).value)
  {
    var i := RegistryTells(h, s, ops, trace);
    RunKeepsEntries(h, s, ops[..i]);
  }

  lemma DeleteThenUndo(s: State, trace: string, path: string)
    requires path in s.files
    ensures var gone := HandleDelete(s, trace, path, true, NoFault).0;
            && path !in gone.files
            && UndoDelete(gone, trace, NoFault) == (s.(registry := s.registry - {trace}), true)
  {
    var name := Trash.FreshName(Trash.BaseName(path), s.trash.Keys);
    var gone := HandleDelete(s, trace, path, true, NoFault).0;
    assert gone.trash - {name} == s.trash;
    assert gone.files[path := s.files[path]] == s.files;
    assert gone.registry - {trace} == s.registry - {trace};
  }

  // A restore that stops half way leaves what it had copied at the target, and every retry then fails.
  lemma PartialRestoreSticks(s: State, trace: string, path: string, name: string, data: string, partial: string, again: MoveFault)
    requires HasEntry(s, trace, path, name, data) && path !in s.files
    ensures var (s', ok) := UndoDelete(s, trace, CopyStops(partial));
            !ok && s'.files == s.files[path := partial] && UndoDelete(s', trace, again) == (s', false)
  {
  }

  // A failed undo of a delete touches the target only when it got as far as creating it.
  lemma FailedUndoDelete(s: State, trace: string, fault: MoveFault)
    requires !UndoDelete(s, trace, fault).1
    ensures var s' := UndoDelete(s, trace, fault).0;
            && s'.trash == s.trash && s'.registry == s.registry
            && (s'.files == s.files <==>
                  || trace !in s.registry || !s.registry[trace].DeleteRecord?
                  || s.registry[trace].trashName !in s.trash || s.registry[trace].path in s.files
                  || fault == CannotOpen)
  {
    if trace in s.registry && s.registry[trace].DeleteRecord? {
      var path := s.registry[trace].path;
      var s' := UndoDelete(s, trace, fault).0;
      assert s'.files != s.files ==> path in s'.files;
      if path !in s.files && s.registry[trace].trashName in s.trash && fault != CannotOpen {
        assert path in s'.files;
      }
    }
  }

  // ---- When the entry is not kept ----

  // A fresh name for one file in an empty trash is its own name.
  lemma {:induction false} OwnName(path: string)
    ensures Trash.FreshName(Trash.BaseName(path), {}) == Trash.BaseName(path)
  {
  }

  // One file in the trash, and nothing but delete records in the registry.
  function Trashed(path: string, data: string, traces: map<string, Record>): State {
    State(map[], map[Trash.BaseName(path) := data], map[], map[], traces)
  }

  function Present(path: string, data: string, traces: map<string, Record>): State {
    State(map[path := data], map[], map[], map[], traces)
  }

  function DeletedTo(path: string): Record {
    DeleteRecord(path, Trash.BaseName(path))
  }

  lemma DeletePresent(h: HashFn, path: string, data: string, traces: map<string, Record>, trace: string)
    ensures Do(h, Present(path, data, traces), Delete(trace, path, true, NoFault)).0
            == Trashed(path, data, traces[trace := DeletedTo(path)])
  {
    OwnName(path);
    assert Present(path, data, traces).trash.Keys == {};
    assert map[path := data] - {path} == map[];
  }

  lemma {:induction false} EmptyTrashed(h: HashFn, path: string, data: string, traces: map<string, Record>, now: string)
    ensures Do(h, Do(h, Trashed(path, data, traces), TrashChange(Trash.BaseName(path), None)).0, Edit(path, Some(now))).0
            == Present(path, now, traces)
  {
    assert map[Trash.BaseName(path) := data] - {Trash.BaseName(path)} == map[];
  }

  lemma UndoTrashed(h: HashFn, path: string, data: string, traces: map<string, Record>, trace: string)
    requires trace in traces && traces[trace] == DeletedTo(path)
    ensures UndoDelete(Trashed(path, data, traces), trace, NoFault) == (Present(path, data, traces - {trace}), true)
  {
    assert map[Trash.BaseName(path) := data] - {Trash.BaseName(path)} == map[];
  }

  function MixUp(path: string, a: string, b: string, y: string): seq<Op> {
    [Delete(a, path, true, NoFault), TrashChange(Trash.BaseName(path), None), Edit(path, Some(y)), Delete(b, path, true, NoFault)]
  }

  lemma MixedUp(h: HashFn, path: string, a: string, b: string, x: string, y: string)
    ensures Run(h, Present(path, x, map[]), MixUp(path, a, b, y)) == Trashed(path, y, map[a := DeletedTo(path)][b := DeletedTo(path)])
  {
    var ops := MixUp(path, a, b, y);
    RunOfFour(h, Present(path, x, map[]), ops[0], ops[1], ops[2], ops[3]);
    DeletePresent(h, path, x, map[], a);
    EmptyTrashed(h, path, x, map[a := DeletedTo(path)], y);
    DeletePresent(h, path, y, map[a := DeletedTo(path)], b);
  }

  // The entry must be left alone: when it is emptied and its name is taken by a second delete, undoing the first one
  // brings back the second file.
  lemma EmptiedTrashMixesFilesUp(h: HashFn, path: string, a: string, b: string, x: string, y: string)
    requires a != b && x != y
    ensures UndoDelete(Run(h, Present(path, x, map[]), MixUp(path, a, b, y)), a, NoFault).0.files == map[path := y]
  {
    MixedUp(h, path, a, b, x, y);
    UndoTrashed(h, path, y, map[a := DeletedTo(path)][b := DeletedTo(path)], a);
  }

  // Leaving it alone from the delete on is not enough: after that mix-up, undoing the first delete takes the second
  // one's entry, a third delete gets the name again, and undoing the second brings back the third file.
  lemma StaleRecordTakesEntry(h: HashFn, path: string, a: string, b: string, c: string, x: string, y: string, z: string)
    requires a != b && b != c && a != c && y != z
    ensures var mixed := Run(h, Present(path, x, map[]), MixUp(path, a, b, y));
            var undone := Do(h, mixed, UndoD(a, NoFault)).0;
            var later := Do(h, Do(h, undone, Edit(path, Some(z))).0, Delete(c, path, true, NoFault)).0;
            UndoDelete(later, b, NoFault).1 && UndoDelete(later, b, NoFault).0.files == map[path := z]
  {
    var both := map[a := DeletedTo(path)][b := DeletedTo(path)];
    MixedUp(h, path, a, b, x, y);
    UndoTrashed(h, path, y, both, a);
    assert Do(h, Present(path, y, both - {a}), Edit(path, Some(z))).0 == Present(path, z, both - {a});
    DeletePresent(h, path, z, both - {a}, c);
    UndoTrashed(h, path, z, (both - {a})[c := DeletedTo(path)], b);
  }

  lemma {:induction false} RunOfFour(h: HashFn, s: State, a: Op, b: Op, c: Op, d: Op)
    ensures Run(h, s, [a, b, c, d]) == Do(h, Do(h, Do(h, Do(h, s, a).0, b).0, c).0, d).0
  {
    assert [a, b, c, d][..3] == [a, b, c];
    assert [a, b, c][..2] == [a, b];
    assert [a, b][..1] == [a];
    assert [a][..0] == [];
    assert Run(h, s, []) == s;
    assert Run(h, s, [a]) == Do(h, s, a).0;
    assert Run(h, s, [a, b]) == Do(h, Run(h, s, [a]), b).0;
    assert Run(h, s, [a, b, c]) == Do(h, Run(h, s, [a, b]), c).0;
  }

  // A write outside a repository, undone before anything else happens: the files are as before.
  lemma WriteThenUndo(h: HashFn, s: State, trace: string, task: string, path: string, content: string)
    ensures var (wrote, ok) := HandleWrite(h, s, trace, task, path, content, PlainWrite());
            var (undone, back) := UndoWrite(h, wrote, trace, PlainUndo());
            ok && back && undone.files == s.files && trace !in undone.registry
  {
    var wrote := HandleWrite(h, s, trace, task, path, content, PlainWrite()).0;
    var undone := UndoWrite(h, wrote, trace, PlainUndo()).0;
    if path in s.files {
      assert undone.files == wrote.files[path := s.files[path]];
    } else {
      assert undone.files == wrote.files - {path};
    }
  }

  // ---- Nothing is lost ----

  function Count(m: map<string, string>, data: string): nat {
    |set k | k in m && m[k] == data|
  }

  // How many places hold these bytes.
  function Copies(s: State, data: string): nat {
    Count(s.files, data) + Count(s.trash, data)
  }

  lemma CountInsert(m: map<string, string>, k: string, v: string, data: string)
    requires k !in m
    ensures Count(m[k := v], data) == Count(m, data) + (if v == data then 1 else 0)
  {
    var longer := m[k := v];
    var was := set x | x in m && m[x] == data;
    var now := set x | x in longer && longer[x] == data;
    assert now == if v == data then was + {k} else was;
  }

  lemma CountRemove(m: map<string, string>, k: string, data: string)
    requires k in m
    ensures Count(m - {k}, data) == Count(m, data) - (if m[k] == data then 1 else 0)
  {
    CountInsert(m - {k}, k, m[k], data);
    assert (m - {k})[k := m[k]] == m;
  }

  lemma MoveLosesNothing(s: State, path: string, fault: MoveFault, data: string)
    ensures Copies(s, data) <= Copies(MoveToTrash(s, path, fault).0, data)
    ensures fault == NoFault ==> Copies(s, data) == Copies(MoveToTrash(s, path, fault).0, data)
  {
    if path in s.files && fault != CannotOpen {
      var name := Trash.FreshName(Trash.BaseName(path), s.trash.Keys);
      CountInsert(s.trash, name, if fault.CopyStops? then fault.partial else s.files[path], data);
      CountRemove(s.files, path, data);
    }
  }

  lemma RestoreLosesNothing(s: State, name: string, path: string, fault: MoveFault, data: string)
    ensures Copies(s, data) <= Copies(Restore(s, name, path, fault).0, data)
    ensures fault == NoFault ==> Copies(s, data) == Copies(Restore(s, name, path, fault).0, data)
  {
    if name in s.trash && path !in s.files && fault != CannotOpen {
      CountInsert(s.files, path, if fault.CopyStops? then fault.partial else s.trash[name], data);
      CountRemove(s.trash, name, data);
    }
  }

  // No sequence of deletes and undone deletes, wherever they fail, loses a copy of anything: every content is still
  // in at least as many places, among the files and in the trash, and in exactly as many when nothing fails.
  lemma {:induction false} DeletesLoseNothing(h: HashFn, s: State, ops: seq<Op>, data: string)
    requires forall i | 0 <= i < |ops| :: ops[i].Delete? || ops[i].UndoD?
    ensures Copies(s, data) <= Copies(Run(h, s, ops), data)
    ensures (forall i | 0 <= i < |ops| :: ops[i].fault == NoFault) ==> Copies(s, data) == Copies(Run(h, s, ops), data)
  {
    if ops != [] {
      var front, op := ops[..|ops| - 1], ops[|ops| - 1];
      DeletesLoseNothing(h, s, front, data);
      StepLosesNothing(h, Run(h, s, front), op, data);
    }
  }

  lemma StepLosesNothing(h: HashFn, s: State, op: Op, data: string)
    requires op.Delete? || op.UndoD?
    ensures Copies(s, data) <= Copies(Do(h, s, op).0, data)
    ensures op.fault == NoFault ==> Copies(s, data) == Copies(Do(h, s, op).0, data)
  {
    if op.Delete? {
      MoveLosesNothing(s, op.path, op.fault, data);
    } else if op.trace in s.registry && s.registry[op.trace].DeleteRecord? {
      RestoreLosesNothing(s, s.registry[op.trace].trashName, s.registry[op.trace].path, op.fault, data);
    }
  }

  // No call of the server overwrites an entry of the trash.
  lemma TrashNeverOverwritten(h: HashFn, s: State, op: Op, n: string)
    requires !op.TrashChange? && n in s.trash && n in Do(h, s, op).0.trash
    ensures Do(h, s, op).0.trash[n] == s.trash[n]
  {
    match op {
      case Write(_, task, path, _, env) => CheckpointKeepsRegistry(h, s, task, path, env);
      case Delete(_, path, _, fault) => MoveAddsEntry(s, path, fault);
      case UndoW(t, undo) =>
        if t in s.registry && s.registry[t].WriteRecord? {
          MoveAddsEntry(s, s.registry[t].path, undo.move);
        }
      case _ =>
    }
  }
}
