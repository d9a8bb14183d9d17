/** What receiving one submission does, message by message: the lock it takes, the files it writes
    and, at the end, the directories it removes. */
module SessionSpec {
  import opened Basics
  import opened Files
  import opened Paths
  import opened WorkspacePaths
  import opened ChunkWriter

  datatype Message = Config(workspaceSubdir: string, outputSubdir: string) | FileChunk(chunk: Chunk) | NoPayload

  /** A submission's lock guard: the key it holds, and what to remove when it goes away. */
  datatype Guard = Guard(key: Option<string>, cleanup: Option<(string, string)>)

  datatype Session = Session(paths: Option<Resolved>, writer: Writer, guard: Guard, locked: set<string>)

  function Acquire(g: Guard, locked: set<string>, key: string): (Guard, set<string>, Status) {
    if g.key.Some? then (g, locked, if key == g.key.value then Ok else FailedPrecondition)
    else if key == "" then (g, locked, InvalidArgument)
    else if key in locked then (g, locked, ResourceExhausted)
    else (g.(key := Some(key)), locked + {key}, Ok)
  }

  function HandleConfig(root: Path, s: Session, workspaceSubdir: string, outputSubdir: string): (r: (Session, Status))
    requires IsRoot(root)
    ensures r.0.writer == s.writer
  {
    if s.paths.Some? then (s, InvalidArgument)
    else
      match ResolveTaskPaths(root, workspaceSubdir, outputSubdir)
      case Escapes => (s, PermissionDenied)
      case Accepted(p) =>
        var (guard, locked, status) := Acquire(s.guard, s.locked, p.workspaceKey);
        if status != Ok then (s.(guard := guard, locked := locked), status)
        else
          var registered := guard.(cleanup := Some((p.workspaceKey, p.outputKey)));
          (Session(Some(p), s.writer, registered, locked), Ok)
  }

  /** Whether the chunk's path may be written, and if so what it writes. */
  function PathStatus(workspace: Path, chunk: Chunk): Status {
    if chunk.relativePath == "" then InvalidArgument
    else if !SubPath(workspace, FileTarget(workspace, chunk.relativePath)) then PermissionDenied
    else Ok
  }

  function WriteOf(workspace: Path, chunk: Chunk): Write {
    Write(FileTarget(workspace, chunk.relativePath), chunk.data, chunk.fileStart, chunk.fileEnd)
  }

  function HandleFileChunk(s: Session, chunk: Chunk): (r: (Session, Status))
    requires ValidWriter(s.writer)
    ensures ValidWriter(r.0.writer)
  {
    if s.paths.None? then (s, FailedPrecondition)
    else
      var status := PathStatus(s.paths.value.workspace, chunk);
      if status != Ok then (s, status)
      else
        var (writer, put) := Put(s.writer, WriteOf(s.paths.value.workspace, chunk));
        (s.(writer := writer), put)
  }

  function HandleMessage(root: Path, s: Session, m: Message): (r: (Session, Status))
    requires IsRoot(root) && ValidWriter(s.writer)
    ensures ValidWriter(r.0.writer)
  {
    match m
    case Config(w, o) => HandleConfig(root, s, w, o)
    case FileChunk(c) => HandleFileChunk(s, c)
    case NoPayload => (s, InvalidArgument)
  }

  /** The message loop; `cancelled[i]` is what the context reports after the i-th read. */
  function Serve(root: Path, s: Session, msgs: seq<Message>, cancelled: seq<bool>): (r: (Session, Status))
    requires IsRoot(root) && ValidWriter(s.writer) && |cancelled| == |msgs| + 1
    ensures ValidWriter(r.0.writer)
    decreases |msgs|
  {
    if cancelled[0] then (s, Cancelled)
    else if msgs == [] then
      if s.paths.None? then (s, InvalidArgument) else (s.(writer := Close(s.writer)), Ok)
    else
      var (t, status) := HandleMessage(root, s, msgs[0]);
      if status != Ok then (t, status) else Serve(root, t, msgs[1..], cancelled[1..])
  }

  function RemovePath(root: Path, fs: FileSystem, relative: string): FileSystem {
    if relative == "" then fs else RemoveAll(fs, LexicallyNormalized(root, Parse(relative)).names)
  }

  function Cleaned(root: Path, g: Guard, fs: FileSystem): FileSystem {
    if g.cleanup.None? then fs
    else
      var (w, o) := g.cleanup.value;
      var t := RemovePath(root, fs, w);
      if o != w then RemovePath(root, t, o) else t
  }
}
