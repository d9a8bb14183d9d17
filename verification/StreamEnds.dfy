/** How a submission's stream ends: which message, or which cancellation, ends it and with which status. */
module StreamEnds {
  import opened Basics
  import opened Files
  import opened Paths
  import opened WorkspacePaths
  import opened ChunkWriter
  import opened SessionSpec

  /** A session as it can be while messages arrive: no lock before the configuration, and a workspace at
      or below the root afterwards. */
  ghost predicate Arriving(root: Path, s: Session) {
    && ValidWriter(s.writer)
    && (s.paths.None? ==> s.guard.key.None?)
    && (s.paths.Some? ==> Below(root, s.paths.value.workspace))
  }

  /** All of these messages are handled, one after the other. */
  ghost predicate Handles(root: Path, s: Session, msgs: seq<Message>)
    requires IsRoot(root) && ValidWriter(s.writer)
    decreases |msgs|
  {
    msgs == [] ||
    (HandleMessage(root, s, msgs[0]).1 == Ok && Handles(root, HandleMessage(root, s, msgs[0]).0, msgs[1..]))
  }

  ghost function Handled(root: Path, s: Session, msgs: seq<Message>): (t: Session)
    requires IsRoot(root) && ValidWriter(s.writer) && Handles(root, s, msgs)
    ensures ValidWriter(t.writer)
    decreases |msgs|
  {
    if msgs == [] then s else Handled(root, HandleMessage(root, s, msgs[0]).0, msgs[1..])
  }

  /** Both directories of the request lead to places at or below the root. */
  ghost predicate StaysInRoot(root: Path, workspaceSubdir: string, outputSubdir: string) {
    && root.names <= WalkFrom(root, WorkspaceSuffix(workspaceSubdir))
    && root.names <= WalkFrom(root, OutputSuffix(workspaceSubdir, outputSubdir))
  }

  /** The chunk's path leads to a place at or below the workspace, which is not spelled with a trailing
      separator, or to exactly the workspace if it is. */
  ghost predicate StaysInWorkspace(workspace: Path, relativePath: string) {
    if workspace.trailing then FileTarget(workspace, relativePath) == workspace
    else workspace.names <= WalkFrom(workspace, Parse(relativePath))
  }

  /** The status a refused configuration gets. */
  ghost function ConfigRefusal(root: Path, s: Session, workspaceSubdir: string, outputSubdir: string): Status {
    if s.paths.Some? then InvalidArgument
    else if !StaysInRoot(root, workspaceSubdir, outputSubdir) then PermissionDenied
    else ResourceExhausted
  }

  /** The status a refused chunk gets. */
  ghost function ChunkRefusal(s: Session, chunk: Chunk): Status {
    if s.paths.None? then FailedPrecondition
    else if chunk.relativePath == "" then InvalidArgument
    else if !StaysInWorkspace(s.paths.value.workspace, chunk.relativePath) then PermissionDenied
    else Internal
  }

  lemma ConfigOutcome(root: Path, s: Session, workspaceSubdir: string, outputSubdir: string)
    requires IsRoot(root) && Arriving(root, s)
    ensures var (t, status) := HandleConfig(root, s, workspaceSubdir, outputSubdir);
            && (status == Ok ==> Arriving(root, t) && t.paths.Some? && t.guard.key == Some(t.paths.value.workspaceKey))
            && (status == Ok <==>
                  && s.paths.None? && StaysInRoot(root, workspaceSubdir, outputSubdir)
                  && ResolveTaskPaths(root, workspaceSubdir, outputSubdir).Accepted?
                  && ResolveTaskPaths(root, workspaceSubdir, outputSubdir).paths.workspaceKey !in s.locked)
            && (status != Ok ==>
                  && status == ConfigRefusal(root, s, workspaceSubdir, outputSubdir)
                  && t == s)
  {
    AcceptedIff(root, workspaceSubdir, outputSubdir);
    if ResolveTaskPaths(root, workspaceSubdir, outputSubdir).Accepted? {
      AcceptedIsBelow(root, workspaceSubdir, outputSubdir);
      KeyNotEmpty(root, ResolveTaskPaths(root, workspaceSubdir, outputSubdir).paths.workspace);
    }
  }

  lemma ChunkOutcome(root: Path, s: Session, chunk: Chunk)
    requires IsRoot(root) && Arriving(root, s)
    ensures var (t, status) := HandleFileChunk(s, chunk);
            && (status == Ok ==>
                  && Arriving(root, t)
                  && s.paths.Some? && chunk.relativePath != ""
                  && StaysInWorkspace(s.paths.value.workspace, chunk.relativePath))
            && (status != Ok ==> status == ChunkRefusal(s, chunk))
  {
    if s.paths.Some? {
      FileAcceptedIff(root, s.paths.value.workspace, chunk.relativePath);
    }
  }

  ghost function Refusal(root: Path, s: Session, m: Message): Status {
    match m
    case Config(w, o) => ConfigRefusal(root, s, w, o)
    case FileChunk(c) => ChunkRefusal(s, c)
    case NoPayload => InvalidArgument
  }

  lemma MessageOutcome(root: Path, s: Session, m: Message)
    requires IsRoot(root) && Arriving(root, s)
    ensures HandleMessage(root, s, m).1 == Ok ==> Arriving(root, HandleMessage(root, s, m).0)
    ensures HandleMessage(root, s, m).1 != Ok ==> HandleMessage(root, s, m).1 == Refusal(root, s, m)
  {
    match m
    case Config(w, o) => ConfigOutcome(root, s, w, o);
    case FileChunk(c) => ChunkOutcome(root, s, c);
    case NoPayload =>
  }

  /** Every stream ends at one place: some messages have been handled without a cancellation, and then
      either the request is seen cancelled, or the stream is over, with a configuration or without, or
      the next message is refused for its own reason. */
  lemma {:induction false} WhereItEnds(root: Path, s: Session, msgs: seq<Message>, cancelled: seq<bool>)
    returns (k: nat)
    requires IsRoot(root) && Arriving(root, s) && |cancelled| == |msgs| + 1
    ensures k <= |msgs| && Handles(root, s, msgs[..k]) && (forall i :: 0 <= i < k ==> !cancelled[i])
    ensures var t, status := Handled(root, s, msgs[..k]), Serve(root, s, msgs, cancelled).1;
            if cancelled[k] then status == Cancelled
            else if k == |msgs| then status == (if t.paths.Some? then Ok else InvalidArgument)
            else !Handles(root, s, msgs[..k + 1]) && status == Refusal(root, t, msgs[k]) != Ok
    decreases |msgs|
  {
    if cancelled[0] || msgs == [] {
      k := 0;
    } else {
      MessageOutcome(root, s, msgs[0]);
      var (t, status) := HandleMessage(root, s, msgs[0]);
      if status != Ok {
        k := 0;
        assert msgs[..1] == [msgs[0]];
      } else {
        var j := WhereItEnds(root, t, msgs[1..], cancelled[1..]);
        k := j + 1;
        FrontOfRest(msgs, j);
        if j < |msgs| - 1 { FrontOfRest(msgs, j + 1); }
        forall i | 0 <= i < k ensures !cancelled[i] {
          if i > 0 { assert cancelled[1..][i - 1] == cancelled[i]; }
        }
      }
    }
  }

  lemma FrontOfRest(msgs: seq<Message>, j: nat)
    requires j < |msgs|
    ensures msgs[..j + 1][0] == msgs[0] && msgs[..j + 1][1..] == msgs[1..][..j]
  {
  }
}
