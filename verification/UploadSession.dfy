/** The server objects of one submission, with the fields they update in place. */
module UploadSession {
  import opened Basics
  import opened Files
  import opened Paths
  import opened WorkspacePaths
  import opened ChunkWriter
  import opened SessionSpec

  class LockTable {
    var keys: set<string>
  }

  class Disk {
    var fs: FileSystem
  }

  class WorkspaceLockGuard {
    const root: Path
    const table: LockTable
    var key: string
    var workspaceSubdir: string
    var outputSubdir: string
    var locked: bool
    var cleanupRegistered: bool

    ghost function View(): Guard
      reads this
    {
      Guard(if locked then Some(key) else None,
            if cleanupRegistered then Some((workspaceSubdir, outputSubdir)) else None)
    }

    constructor (root: Path, table: LockTable)
      ensures this.root == root && this.table == table && View() == Guard(None, None)
    {
      this.root, this.table := root, table;
      key, workspaceSubdir, outputSubdir := "", "", "";
      locked, cleanupRegistered := false, false;
    }

    method Acquire(subdirKey: string) returns (status: Status)
      modifies this`key, this`locked, table
      ensures (View(), table.keys, status) == SessionSpec.Acquire(old(View()), old(table.keys), subdirKey)
    {
      if locked {
        return if subdirKey == key then Ok else FailedPrecondition;
      }
      if subdirKey == "" {
        return InvalidArgument;
      }
      if subdirKey in table.keys {
        return ResourceExhausted;
      }
      table.keys := table.keys + {subdirKey};
      key := subdirKey;
      locked := true;
      return Ok;
    }

    method RegisterCleanupTargets(workspaceSubdir: string, outputSubdir: string)
      modifies this`workspaceSubdir, this`outputSubdir, this`cleanupRegistered
      ensures View() == old(View()).(cleanup := Some((workspaceSubdir, outputSubdir)))
    {
      this.workspaceSubdir := workspaceSubdir;
      this.outputSubdir := outputSubdir;
      cleanupRegistered := true;
    }

    method Release()
      modifies this`key, this`locked, table
      ensures View() == old(View()).(key := None)
      ensures table.keys == old(table.keys) - (if old(View()).key.Some? then {old(View()).key.value} else {})
    {
      if !locked {
        return;
      }
      table.keys := table.keys - {key};
      key := "";
      locked := false;
    }

    method Cleanup(disk: Disk)
      modifies this`cleanupRegistered, disk
      ensures View() == old(View()).(cleanup := None)
      ensures disk.fs == Cleaned(root, old(View()), old(disk.fs))
    {
      if !cleanupRegistered {
        return;
      }
      disk.fs := RemovePath(root, disk.fs, workspaceSubdir);
      if outputSubdir != workspaceSubdir {
        disk.fs := RemovePath(root, disk.fs, outputSubdir);
      }
      cleanupRegistered := false;
    }

    /** The destructor. */
    method Destroy(disk: Disk)
      requires disk != (table as object)
      modifies this`key, this`locked, this`cleanupRegistered, table, disk
      ensures View() == Guard(None, None)
      ensures disk.fs == Cleaned(root, old(View()), old(disk.fs))
      ensures table.keys == old(table.keys) - (if old(View()).key.Some? then {old(View()).key.value} else {})
    {
      Cleanup(disk);
      Release();
    }
  }

  class WorkspaceDownloadSession {
    const root: Path
    const guard: WorkspaceLockGuard
    const disk: Disk
    var paths: Resolved
    var receivedConfig: bool
    var outfileOpen: bool
    var currentFilePath: Path

    ghost function View(): Session
      reads this, guard, guard.table, disk
    {
      Session(if receivedConfig then Some(paths) else None,
              Writer(outfileOpen, currentFilePath, disk.fs), guard.View(), guard.table.keys)
    }

    ghost predicate Valid()
      reads this, guard, guard.table, disk
    {
      IsRoot(root) && ValidWriter(View().writer)
    }

    constructor (root: Path, guard: WorkspaceLockGuard, disk: Disk)
      requires IsRoot(root)
      ensures this.root == root && this.guard == guard && this.disk == disk && Valid()
      ensures View() == Session(None, Writer(false, NO_PATH, disk.fs), guard.View(), guard.table.keys)
    {
      this.root, this.guard, this.disk := root, guard, disk;
      paths := Resolved("", "", NO_PATH, NO_PATH);
      receivedConfig, outfileOpen, currentFilePath := false, false, NO_PATH;
    }

    method HandleConfig(workspaceSubdir: string, outputSubdir: string) returns (status: Status)
      requires Valid()
      modifies this, guard, guard.table
      ensures Valid() && (View(), status) == SessionSpec.HandleConfig(root, old(View()), workspaceSubdir, outputSubdir)
    {
      if receivedConfig {
        return InvalidArgument;
      }
      match ResolveTaskPaths(root, workspaceSubdir, outputSubdir)
      case Escapes =>
        status := PermissionDenied;
      case Accepted(p) =>
        paths := p;
        status := guard.Acquire(p.workspaceKey);
        if status == Ok {
          guard.RegisterCleanupTargets(p.workspaceKey, p.outputKey);
          receivedConfig := true;
        }
    }

    method CloseCurrentFile()
      modifies this`outfileOpen, this`currentFilePath
      ensures View() == old(View()).(writer := Close(old(View()).writer))
    {
      outfileOpen := false;
      currentFilePath := NO_PATH;
    }

    method EnsureOutputFile(target: Path, fileStart: bool) returns (status: Status)
      requires Valid()
      modifies this`outfileOpen, this`currentFilePath, disk
      ensures var (writer, outcome) := ChunkWriter.EnsureOutputFile(old(View()).writer, target, fileStart);
              View() == old(View()).(writer := writer) && status == outcome
    {
      if outfileOpen && !fileStart && target == currentFilePath {
        return Ok;
      }
      CloseCurrentFile();
      if !CanCreate(disk.fs, Parent(target)) {
        return Internal;
      }
      disk.fs := CreateDirectories(disk.fs, Parent(target));
      if target.trailing || target.names in disk.fs.dirs {
        return Internal;
      }
      disk.fs := Truncate(disk.fs, target.names);
      outfileOpen := true;
      currentFilePath := target;
      return Ok;
    }

    method HandleFileChunk(chunk: Chunk) returns (status: Status)
      requires Valid()
      modifies this, disk
      ensures Valid() && (View(), status) == SessionSpec.HandleFileChunk(old(View()), chunk)
    {
      if !receivedConfig {
        return FailedPrecondition;
      }
      if chunk.relativePath == "" {
        return InvalidArgument;
      }
      var target := FileTarget(paths.workspace, chunk.relativePath);
      var inside := IsSubPath(paths.workspace, target);
      if !inside {
        return PermissionDenied;
      }
      status := WriteChunk(target, chunk);
    }

    /** The part of a chunk that touches the disk. */
    method WriteChunk(target: Path, chunk: Chunk) returns (status: Status)
      requires Valid()
      modifies this`outfileOpen, this`currentFilePath, disk
      ensures Valid()
      ensures var w := Write(target, chunk.data, chunk.fileStart, chunk.fileEnd);
              var (writer, outcome) := Put(old(View()).writer, w);
              View() == old(View()).(writer := writer) && status == outcome
    {
      status := EnsureOutputFile(target, chunk.fileStart);
      if status != Ok {
        return;
      }
      disk.fs := Append(disk.fs, currentFilePath.names, chunk.data);
      if chunk.fileEnd {
        CloseCurrentFile();
      }
    }

    method HandleMessage(m: Message) returns (status: Status)
      requires Valid()
      modifies this, guard, guard.table, disk
      ensures Valid() && (View(), status) == SessionSpec.HandleMessage(root, old(View()), m)
    {
      match m
      case Config(w, o) => status := HandleConfig(w, o);
      case FileChunk(c) => status := HandleFileChunk(c);
      case NoPayload => status := InvalidArgument;
    }

    /** The stream loop of one submission. */
    method Run(msgs: seq<Message>, cancelled: seq<bool>) returns (status: Status)
      requires Valid() && |cancelled| == |msgs| + 1
      modifies this, guard, guard.table, disk
      ensures Valid() && (View(), status) == Serve(root, old(View()), msgs, cancelled)
    {
      var i := 0;
      while i < |msgs|
        invariant i <= |msgs| && Valid()
        invariant Serve(root, View(), msgs[i..], cancelled[i..]) == Serve(root, old(View()), msgs, cancelled)
      {
        assert msgs[i..][1..] == msgs[i + 1..] && cancelled[i..][1..] == cancelled[i + 1..];
        if cancelled[i] {
          return Cancelled;
        }
        status := HandleMessage(msgs[i]);
        if status != Ok {
          return;
        }
        i := i + 1;
      }
      if cancelled[i] {
        return Cancelled;
      }
      if !receivedConfig {
        return InvalidArgument;
      }
      CloseCurrentFile();
      return Ok;
    }
  }
}
