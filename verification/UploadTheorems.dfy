/** What an accepted upload leaves on the server's disk. */
module UploadTheorems {
  import opened Basics
  import opened Files
  import opened Paths
  import opened WorkspacePaths
  import opened ChunkWriter
  import opened SessionSpec
  import opened UploadClient

  // ----- streams of chunks through the session

  ghost function WritesOf(workspace: Path, chunks: seq<Chunk>): (cs: seq<Write>)
    ensures |cs| == |chunks|
  {
    if chunks == [] then [] else [WriteOf(workspace, chunks[0])] + WritesOf(workspace, chunks[1..])
  }

  ghost predicate PathsOk(workspace: Path, chunks: seq<Chunk>) {
    forall i :: 0 <= i < |chunks| ==> PathStatus(workspace, chunks[i]) == Ok
  }

  function Messages(chunks: seq<Chunk>): (msgs: seq<Message>)
    ensures |msgs| == |chunks|
  {
    if chunks == [] then [] else [FileChunk(chunks[0])] + Messages(chunks[1..])
  }

  ghost predicate NeverCancelled(cancelled: seq<bool>) {
    forall i :: 0 <= i < |cancelled| ==> !cancelled[i]
  }

  /** The chunks a stream carries before any other message. */
  function LeadingChunks(msgs: seq<Message>): seq<Chunk> {
    if msgs == [] || !msgs[0].FileChunk? then [] else [msgs[0].chunk] + LeadingChunks(msgs[1..])
  }

  predicate OnlyChunks(msgs: seq<Message>) {
    forall i :: 0 <= i < |msgs| ==> msgs[i].FileChunk?
  }

  lemma {:induction false} OnlyChunksIff(msgs: seq<Message>)
    ensures OnlyChunks(msgs) <==> msgs == Messages(LeadingChunks(msgs))
  {
    if msgs != [] && msgs[0].FileChunk? {
      OnlyChunksIff(msgs[1..]);
      assert Messages(LeadingChunks(msgs)) == [msgs[0]] + Messages(LeadingChunks(msgs[1..]));
    }
  }

  lemma {:induction false} ChunksSurvive(chunks: seq<Chunk>)
    ensures LeadingChunks(Messages(chunks)) == chunks && OnlyChunks(Messages(chunks))
  {
    if chunks != [] {
      ChunksSurvive(chunks[1..]);
      assert Messages(chunks)[1..] == Messages(chunks[1..]);
    }
  }

  /** What makes the session accept the messages after the configuration. */
  ghost predicate Welcome(workspace: Path, w: Writer, msgs: seq<Message>)
    requires ValidWriter(w)
  {
    && OnlyChunks(msgs) && PathsOk(workspace, LeadingChunks(msgs))
    && Accepts(w, WritesOf(workspace, LeadingChunks(msgs)))
  }

  lemma OnlyChunksStep(msgs: seq<Message>)
    requires msgs != [] && msgs[0].FileChunk?
    ensures OnlyChunks(msgs) <==> OnlyChunks(msgs[1..])
  {
    assert msgs == [msgs[0]] + msgs[1..];
  }

  lemma PathsOkStep(workspace: Path, chunks: seq<Chunk>)
    requires chunks != []
    ensures PathsOk(workspace, chunks) <==> PathStatus(workspace, chunks[0]) == Ok && PathsOk(workspace, chunks[1..])
  {
    assert chunks == [chunks[0]] + chunks[1..];
  }

  lemma AcceptsStep(workspace: Path, w: Writer, chunks: seq<Chunk>)
    requires ValidWriter(w) && chunks != []
    ensures var cs, p := WritesOf(workspace, chunks), Put(w, WriteOf(workspace, chunks[0]));
            && (Accepts(w, cs) <==> p.1 == Ok && Accepts(p.0, WritesOf(workspace, chunks[1..])))
            && (Accepts(w, cs) ==> PutAll(w, cs) == PutAll(p.0, WritesOf(workspace, chunks[1..])))
  {
    var cs := WritesOf(workspace, chunks);
    assert cs[0] == WriteOf(workspace, chunks[0]) && cs[1..] == WritesOf(workspace, chunks[1..]);
  }

  lemma WelcomeStep(workspace: Path, w: Writer, msgs: seq<Message>)
    requires ValidWriter(w) && msgs != [] && msgs[0].FileChunk?
    ensures var p := Put(w, WriteOf(workspace, msgs[0].chunk));
            Welcome(workspace, w, msgs) <==>
            PathStatus(workspace, msgs[0].chunk) == Ok && p.1 == Ok && Welcome(workspace, p.0, msgs[1..])
  {
    var chunks := LeadingChunks(msgs);
    assert chunks[0] == msgs[0].chunk && chunks[1..] == LeadingChunks(msgs[1..]);
    OnlyChunksStep(msgs);
    PathsOkStep(workspace, chunks);
    AcceptsStep(workspace, w, chunks);
  }

  /** After the configuration, a stream is accepted exactly when it is not cancelled, holds nothing
      but chunks with paths inside the workspace, and every write succeeds. */
  lemma {:induction false} ServeChunks(root: Path, s: Session, msgs: seq<Message>, cancelled: seq<bool>)
    requires IsRoot(root) && ValidWriter(s.writer) && |cancelled| == |msgs| + 1 && s.paths.Some?
    ensures Serve(root, s, msgs, cancelled).1 == Ok
            <==> NeverCancelled(cancelled) && Welcome(s.paths.value.workspace, s.writer, msgs)
    ensures Serve(root, s, msgs, cancelled).1 == Ok ==>
            Serve(root, s, msgs, cancelled).0 ==
            s.(writer := Close(PutAll(s.writer, WritesOf(s.paths.value.workspace, LeadingChunks(msgs)))))
    decreases |msgs|
  {
    if msgs != [] && msgs[0].FileChunk? {
      var workspace, c := s.paths.value.workspace, msgs[0].chunk;
      var (t, status) := HandleFileChunk(s, c);
      WelcomeStep(workspace, s.writer, msgs);
      assert NeverCancelled(cancelled) <==> !cancelled[0] && NeverCancelled(cancelled[1..]) by {
        assert cancelled == [cancelled[0]] + cancelled[1..];
      }
      if !cancelled[0] && status == Ok {
        ServeChunks(root, t, msgs[1..], cancelled[1..]);
        assert LeadingChunks(msgs)[1..] == LeadingChunks(msgs[1..]);
        AcceptsStep(workspace, s.writer, LeadingChunks(msgs));
      }
    }
  }

  /** A session before its first message. */
  ghost predicate Fresh(s: Session) {
    s.paths.None? && !s.writer.isOpen && s.guard == Guard(None, None)
  }

  /** Last run wins. An accepted stream is one configuration followed by chunks, and afterwards every
      file holds exactly what its last run of chunks carried; files it does not name are unchanged. */
  lemma LastRunWins(root: Path, s: Session, msgs: seq<Message>, cancelled: seq<bool>) returns (chunks: seq<Chunk>)
    requires IsRoot(root) && Fresh(s) && |cancelled| == |msgs| + 1
    requires Serve(root, s, msgs, cancelled).1 == Ok
    ensures msgs != [] && msgs[0].Config? && msgs[1..] == Messages(chunks)
    ensures var t := Serve(root, s, msgs, cancelled).0;
            && t.paths.Some?
            && ResolveTaskPaths(root, msgs[0].workspaceSubdir, msgs[0].outputSubdir) == Accepted(t.paths.value)
            && forall f: Names :: FileAfter(s.writer.fs, t.writer.fs, WritesOf(t.paths.value.workspace, chunks), f)
  {
    var (u, status) := HandleMessage(root, s, msgs[0]);
    assert msgs[0].Config? && status == Ok;
    ServeChunks(root, u, msgs[1..], cancelled[1..]);
    chunks := LeadingChunks(msgs[1..]);
    OnlyChunksIff(msgs[1..]);
    var cs := WritesOf(u.paths.value.workspace, chunks);
    forall f: Names ensures FileAfter(s.writer.fs, PutAll(u.writer, cs).fs, cs, f) {
      FileAfterAll(u.writer, cs, f);
    }
  }

  /** The configuration of a free workspace inside the root is accepted and takes its lock. */
  lemma ConfigAccepted(root: Path, s: Session, config: Message)
    requires IsRoot(root) && Fresh(s) && config.Config?
    requires ResolveTaskPaths(root, config.workspaceSubdir, config.outputSubdir).Accepted?
    requires ResolveTaskPaths(root, config.workspaceSubdir, config.outputSubdir).paths.workspaceKey !in s.locked
    ensures var p := ResolveTaskPaths(root, config.workspaceSubdir, config.outputSubdir).paths;
            HandleConfig(root, s, config.workspaceSubdir, config.outputSubdir)
            == (Session(Some(p), s.writer, Guard(Some(p.workspaceKey), Some((p.workspaceKey, p.outputKey))),
                        s.locked + {p.workspaceKey}), Ok)
  {
    AcceptedIsBelow(root, config.workspaceSubdir, config.outputSubdir);
    KeyNotEmpty(root, ResolveTaskPaths(root, config.workspaceSubdir, config.outputSubdir).paths.workspace);
  }

  lemma ServeAfterConfig(root: Path, s: Session, u: Session, config: Message, rest: seq<Message>, cancelled: seq<bool>)
    requires IsRoot(root) && ValidWriter(s.writer) && ValidWriter(u.writer)
    requires |cancelled| == |rest| + 2 && !cancelled[0]
    requires HandleMessage(root, s, config) == (u, Ok)
    ensures Serve(root, s, [config] + rest, cancelled) == Serve(root, u, rest, cancelled[1..])
  {
    var msgs := [config] + rest;
    assert msgs[0] == config && msgs[1..] == rest;
  }

  /** A workspace spelled with a trailing separator takes its lock but no file: every chunk fails. */
  lemma TrailingWorkspaceTakesNoFile(root: Path, s: Session, chunk: Chunk)
    requires IsRoot(root) && s.paths.Some? && Below(root, s.paths.value.workspace) && s.paths.value.workspace.trailing
    requires !s.writer.isOpen
    ensures HandleFileChunk(s, chunk).1 != Ok && !HandleFileChunk(s, chunk).0.writer.isOpen
    ensures HandleFileChunk(s, chunk).0.writer.fs.files == s.writer.fs.files
  {
    FileAcceptedIff(root, s.paths.value.workspace, chunk.relativePath);
  }

  /** Everything outside a directory is as it was. */
  ghost predicate SameOutside(dir: Names, before: FileSystem, after: FileSystem) {
    forall f :: !(dir <= f) ==>
      (f in after.files <==> f in before.files) && (f in before.files ==> after.files[f] == before.files[f])
  }

  lemma PutStaysInside(w: Writer, c: Write, dir: Names)
    requires ValidWriter(w) && dir <= c.target.names && (w.isOpen ==> dir <= w.current.names)
    ensures var v := Put(w, c).0;
            (v.isOpen ==> dir <= v.current.names) && SameOutside(dir, w.fs, v.fs)
  {
  }

  /** A chunk, accepted or not, changes no file outside the workspace. */
  lemma ChunkStaysInside(root: Path, s: Session, chunk: Chunk)
    requires IsRoot(root) && ValidWriter(s.writer) && s.paths.Some? && Below(root, s.paths.value.workspace)
    requires s.writer.isOpen ==> s.paths.value.workspace.names <= s.writer.current.names
    ensures var workspace, t := s.paths.value.workspace.names, HandleFileChunk(s, chunk).0;
            && (t.writer.isOpen ==> workspace <= t.writer.current.names)
            && SameOutside(workspace, s.writer.fs, t.writer.fs)
  {
    var workspace := s.paths.value.workspace;
    FileAcceptedIff(root, workspace, chunk.relativePath);
    if PathStatus(workspace, chunk) == Ok {
      PutStaysInside(s.writer, WriteOf(workspace, chunk), workspace.names);
    }
  }
}
