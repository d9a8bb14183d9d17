/** Receiving a submission, as one of many: whatever a stream makes the session do is a run of steps
    of that submission alone. */
module Reception {
  import opened Basics
  import opened Files
  import opened Paths
  import opened WorkspacePaths
  import opened ChunkWriter
  import opened SessionSpec
  import opened Submissions
  import opened Isolation

  /** The session is the submission's own: same paths, same guard, same locks, same files; and its
      open file is inside its workspace. */
  ghost predicate Matches(s: State, t: nat, session: Session) {
    && t in s.tasks
    && session.paths == s.tasks[t].paths && session.guard == s.tasks[t].guard
    && session.locked == s.locked && session.writer.fs.files == s.fs.files
    && ValidWriter(session.writer)
    && (session.writer.isOpen ==>
          session.paths.Some? && session.paths.value.workspace.names <= session.writer.current.names)
  }

  /** What a chunk does to the files: nothing, or it leaves new content in one file at or below the
      workspace. */
  lemma ChunkChangesOneFile(root: Path, session: Session, chunk: Chunk) returns (f: Names, data: seq<Byte>)
    requires IsRoot(root) && ValidWriter(session.writer)
    requires session.paths.Some? ==> Below(root, session.paths.value.workspace)
    ensures var (n, status) := HandleFileChunk(session, chunk);
            && n.paths == session.paths && n.guard == session.guard && n.locked == session.locked
            && (status != Ok ==>
                  n.writer.fs.files == session.writer.fs.files && (n.writer.isOpen ==> n.writer == session.writer))
            && (status == Ok ==>
                  && session.paths.Some? && session.paths.value.workspace.names <= f
                  && n.writer.fs.files == session.writer.fs.files[f := data]
                  && (n.writer.isOpen ==> n.writer.current.names == f))
  {
    f, data := [], [];
    if session.paths.Some? {
      var workspace := session.paths.value.workspace;
      FileAcceptedIff(root, workspace, chunk.relativePath);
      var w := WriteOf(workspace, chunk);
      if PathStatus(workspace, chunk) == Ok && ChunkWriter.Put(session.writer, w).1 == Ok {
        PutFiles(session.writer, w);
        f := w.target.names;
        data := ChunkWriter.Put(session.writer, w).0.fs.files[f];
      }
    }
  }

  /** Every chunk is an upload step of its submission, or leaves all files alone. */
  lemma ChunkIsUpload(root: Path, s: State, t: nat, session: Session, chunk: Chunk) returns (steps: seq<(nat, Action)>)
    requires IsRoot(root) && Inv(root, s) && Matches(s, t, session) && s.tasks[t].phase.Receiving?
    ensures Run(root, s, steps) && (steps == [] || (|steps| == 1 && steps[0].0 == t && steps[0].1.Upload?))
    ensures var n := After(root, s, steps);
            Matches(n, t, HandleFileChunk(session, chunk).0) && n.tasks[t].phase.Receiving?
  {
    assert TaskOk(root, s.tasks[t]);
    var f, data := ChunkChangesOneFile(root, session, chunk);
    if HandleFileChunk(session, chunk).1 == Ok {
      OneStep(root, s, t, Upload(f, data));
      steps := [(t, Upload(f, data))];
    } else {
      steps := [];
    }
  }

  /** Handling any message is at most one step, which also ends the reception if a configuration is
      refused. */
  lemma MessageIsStep(root: Path, s: State, t: nat, session: Session, m: Message) returns (steps: seq<(nat, Action)>)
    requires IsRoot(root) && Inv(root, s) && Matches(s, t, session) && s.tasks[t].phase.Receiving?
    ensures Run(root, s, steps) && (steps == [] || (|steps| == 1 && steps[0].0 == t))
    ensures var (n, r) := (After(root, s, steps), HandleMessage(root, session, m));
            && Matches(n, t, r.0)
            && (n.tasks[t].phase.Receiving? || (n.tasks[t].phase.Destructing? && r.1 != Ok))
  {
    match m
    case Config(w, o) =>
      OneStep(root, s, t, Configure(w, o));
      steps := [(t, Configure(w, o))];
    case FileChunk(c) =>
      steps := ChunkIsUpload(root, s, t, session, c);
    case NoPayload =>
      steps := [];
  }

  ghost predicate StepsOf(t: nat, steps: seq<(nat, Action)>) {
    forall i :: 0 <= i < |steps| ==> steps[i].0 == t
  }

  lemma EndIsStep(root: Path, s: State, t: nat, session: Session, ok: bool) returns (steps: seq<(nat, Action)>)
    requires IsRoot(root) && Matches(s, t, session)
    requires s.tasks[t].phase.Receiving? || (s.tasks[t].phase.Destructing? && !ok)
    requires ok ==> session.paths.Some?
    ensures Run(root, s, steps) && StepsOf(t, steps)
    ensures var n := After(root, s, steps);
            Matches(n, t, session) && (if ok then n.tasks[t].phase.Executing? else n.tasks[t].phase.Destructing?)
  {
    if s.tasks[t].phase.Receiving? {
      OneStep(root, s, t, EndReceive(ok));
      steps := [(t, EndReceive(ok))];
    } else {
      steps := [];
    }
  }

  /** Whatever arrives, and whenever the request is cancelled, receiving is a run of the submission's
      own steps that leaves the files, the locks and the guard as the session leaves them, and goes
      on to execution exactly if the session ends with Ok. */
  lemma {:induction false} ReceptionIsRun(root: Path, s: State, t: nat, session: Session,
                                          msgs: seq<Message>, cancelled: seq<bool>)
    returns (steps: seq<(nat, Action)>)
    requires IsRoot(root) && Inv(root, s) && Matches(s, t, session) && s.tasks[t].phase.Receiving?
    requires |cancelled| == |msgs| + 1
    ensures Run(root, s, steps) && StepsOf(t, steps)
    ensures var (n, r) := (After(root, s, steps), Serve(root, session, msgs, cancelled));
            && Matches(n, t, r.0)
            && (if r.1 == Ok then n.tasks[t].phase.Executing? else n.tasks[t].phase.Destructing?)
    decreases |msgs|
  {
    if cancelled[0] || msgs == [] {
      var r := Serve(root, session, msgs, cancelled);
      steps := EndIsStep(root, s, t, session, r.1 == Ok);
    } else {
      var first := MessageIsStep(root, s, t, session, msgs[0]);
      var n, r := After(root, s, first), HandleMessage(root, session, msgs[0]);
      Submissions.RunKeepsInv(root, s, first);
      var rest: seq<(nat, Action)>;
      if r.1 == Ok {
        rest := ReceptionIsRun(root, n, t, r.0, msgs[1..], cancelled[1..]);
      } else {
        rest := EndIsStep(root, n, t, r.0, false);
      }
      RunAppend(root, s, first, rest);
      steps := first + rest;
    }
  }

  /** A whole stream, accepted or not, leaves every directory apart from the workspace as it was. */
  lemma {:induction false} StreamSparesOthers(root: Path, session: Session, msgs: seq<Message>,
                                              cancelled: seq<bool>, dir: Names)
    requires IsRoot(root) && ValidWriter(session.writer) && |cancelled| == |msgs| + 1 && session.paths.Some?
    requires Below(root, session.paths.value.workspace) && Apart(session.paths.value.workspace.names, dir)
    ensures SameBelow(session.writer.fs, Serve(root, session, msgs, cancelled).0.writer.fs, dir)
    decreases |msgs|
  {
    if !cancelled[0] && msgs != [] && msgs[0].FileChunk? {
      var f, data := ChunkChangesOneFile(root, session, msgs[0].chunk);
      var (n, status) := HandleFileChunk(session, msgs[0].chunk);
      if status == Ok {
        if dir <= f { Comparable(session.paths.value.workspace.names, dir, f); }
        StreamSparesOthers(root, n, msgs[1..], cancelled[1..], dir);
      }
    }
  }
}
