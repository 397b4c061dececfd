/** The server as the object it is: its registry and the file system around it change in place, exactly as the
    functions of module Fs say (mcp/fs/server.go, mcp/fs/undo.go). */
module FsServer {
  import opened Wrappers
  import opened Fs
  import Trash

  class FsServer {
    const h: HashFn
    var files: map<string, string>
    var trash: map<string, string>
    var copies: map<(string, string), string>
    var blobs: map<string, string>
    var registry: map<string, Record>

    function View(): State
      reads this
    {
      State(files, trash, copies, blobs, registry)
    }

    // A server starts with an empty registry over whatever is on disk.
    constructor (h: HashFn, onDisk: State)
      ensures this.h == h && View() == onDisk.(registry := map[])
    {
      this.h := h;
      files, trash, copies, blobs, registry := onDisk.files, onDisk.trash, onDisk.copies, onDisk.blobs, map[];
    }

    method CopyPreImage(task: string, path: string, data: string, answer: CopyAnswer) returns (slot: Option<(string, string)>)
      modifies this`copies
      ensures var (s, done) := Fs.CopyPreImage(old(View()), (TaskDirName(task), h(path)), data, answer);
              View() == s && slot == if done then Some((TaskDirName(task), h(path))) else None
    {
      var dest := (TaskDirName(task), h(path));
      match answer
      case CopyDone =>
        copies := copies[dest := data];
        return Some(dest);
      case CopyFails(left) =>
        copies := Put(copies, dest, left);
        return None;
    }

    method CheckpointPreImage(task: string, path: string, env: WriteEnv) returns (rec: Option<Record>)
      modifies this`copies, this`blobs
      ensures (View(), rec) == Checkpoint(h, old(View()), task, path, env)
    {
      if !env.readable {
        return None;
      }
      if path !in files {
        return Some(WriteRecord(path, false, h(""), Nowhere));
      }
      var data := files[path];
      if env.git.Hashed? {
        if env.git.sha !in blobs {
          blobs := blobs[env.git.sha := env.git.stored];
        }
        return Some(WriteRecord(path, true, h(data), Blob(env.git.sha)));
      }
      var slot := CopyPreImage(task, path, data, env.copy);
      if slot.None? {
        return None;
      }
      return Some(WriteRecord(path, true, h(data), Copy(slot.value)));
    }

    method HandleWrite(trace: string, task: string, path: string, content: string, env: WriteEnv) returns (ok: bool)
      modifies this
      ensures (View(), ok) == Fs.HandleWrite(h, old(View()), trace, task, path, content, env)
    {
      if !env.allowed {
        return false;
      }
      var rec := CheckpointPreImage(task, path, env);
      if rec.None? || !env.written {
        return false;
      }
      files := files[path := content];
      registry := registry[trace := rec.value];
      return true;
    }

    method MoveToTrash(path: string, fault: MoveFault) returns (name: Option<string>)
      modifies this`files, this`trash
      ensures (View(), name) == Fs.MoveToTrash(old(View()), path, fault)
    {
      var dest := Trash.CollisionSafePath(Trash.BaseName(path), trash.Keys);
      if path !in files || fault == CannotOpen {
        return None;
      }
      if fault.CopyStops? {
        trash := trash[dest := fault.partial];
        return None;
      }
      trash := trash[dest := files[path]];
      if fault == CannotRemove {
        return None;
      }
      files := files - {path};
      return Some(dest);
    }

    method HandleDelete(trace: string, path: string, allowed: bool, fault: MoveFault) returns (ok: bool)
      modifies this
      ensures (View(), ok) == Fs.HandleDelete(old(View()), trace, path, allowed, fault)
    {
      if !allowed {
        return false;
      }
      var name := MoveToTrash(path, fault);
      if name.None? {
        return false;
      }
      registry := registry[trace := DeleteRecord(path, name.value)];
      return true;
    }

    method UndoWrite(trace: string, env: UndoEnv) returns (ok: bool)
      modifies this
      ensures (View(), ok) == Fs.UndoWrite(h, old(View()), trace, env)
    {
      if trace !in registry || !registry[trace].WriteRecord? {
        return false;
      }
      var rec := registry[trace];
      if !rec.hadPrev {
        var name := MoveToTrash(rec.path, env.move);
        if name.None? {
          return false;
        }
        registry := registry - {trace};
        return true;
      }
      var data := PreImage(View(), rec.saved, env.readable);
      if data.None? || h(data.value) != rec.preHash || !env.written {
        return false;
      }
      files := files[rec.path := data.value];
      if rec.saved.Copy? && env.cleaned {
        copies := copies - {rec.saved.slot};
      }
      registry := registry - {trace};
      return true;
    }

    method RestoreFromTrash(name: string, path: string, fault: MoveFault) returns (ok: bool)
      modifies this`files, this`trash
      ensures (View(), ok) == Restore(old(View()), name, path, fault)
    {
      if name !in trash || path in files || fault == CannotOpen {
        return false;
      }
      if fault.CopyStops? {
        files := files[path := fault.partial];
        return false;
      }
      files := files[path := trash[name]];
      if fault == CannotRemove {
        return false;
      }
      trash := trash - {name};
      return true;
    }

    method UndoDelete(trace: string, fault: MoveFault) returns (ok: bool)
      modifies this
      ensures (View(), ok) == Fs.UndoDelete(old(View()), trace, fault)
    {
      if trace !in registry || !registry[trace].DeleteRecord? {
        return false;
      }
      ok := RestoreFromTrash(registry[trace].trashName, registry[trace].path, fault);
      if ok {
        registry := registry - {trace};
      }
    }

    method PurgeExpired(trace: string, removed: bool)
      modifies this
      ensures View() == Fs.PurgeExpired(old(View()), trace, removed)
    {
      if trace !in registry {
        return;
      }
      var rec := registry[trace];
      if rec.WriteRecord? && rec.saved.Copy? && removed {
        copies := copies - {rec.saved.slot};
      }
      registry := registry - {trace};
    }
  }
}
