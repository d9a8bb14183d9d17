/** The upload round trip: what the client sends, the server stores. */
module RoundTrip {
  import opened Basics
  import opened Files
  import opened Paths
  import opened WorkspacePaths
  import opened ChunkWriter
  import opened SessionSpec
  import opened UploadClient
  import opened UploadSession
  import opened UploadTheorems
  import opened FileBlocks

  // ----- the files of an upload

  /** A relative path spelled in normal form. */
  ghost predicate NormalFile(f: UploadFile) {
    var p := Parse(f.relativePath);
    f.content.Some? && !p.absolute && !p.trailing && p.names != [] && Place(true, p.names)
  }

  ghost function NamesOf(f: UploadFile): Names {
    Parse(f.relativePath).names
  }

  ghost predicate Uploadable(files: seq<UploadFile>) {
    && (forall i :: 0 <= i < |files| ==> NormalFile(files[i]))
    && (forall i, j :: 0 <= i < j < |files| ==> Apart(NamesOf(files[i]), NamesOf(files[j])))
  }

  /** What the workspace should hold: the non-empty files. */
  ghost function Image(workspace: Names, files: seq<UploadFile>): map<Names, seq<Byte>> {
    if files == [] then map[]
    else
      var front, f := Image(workspace, files[..|files| - 1]), files[|files| - 1];
      if f.content == Some([]) || f.content.None? then front
      else front[workspace + NamesOf(f) := f.content.value]
  }

  /** Every file that will be written can be created on the disk as it is. */
  ghost predicate NoConflict(fs: FileSystem, workspace: Names, files: seq<UploadFile>) {
    forall i :: 0 <= i < |files| && files[i].content != Some([]) ==> Fits(fs, workspace + NamesOf(files[i]))
  }

  lemma FileTargetOf(root: Path, workspace: Path, f: UploadFile)
    requires IsRoot(root) && Below(root, workspace) && !workspace.trailing && NormalFile(f)
    ensures f.relativePath != ""
    ensures FileTarget(workspace, f.relativePath) == FilePath(workspace.names + NamesOf(f))
    ensures SubPath(workspace, FileTarget(workspace, f.relativePath))
  {
    var p := Parse(f.relativePath);
    var joined := workspace.names + p.names;
    FileAcceptedIff(root, workspace, f.relativePath);
    assert Place(true, joined);
    NormalIsWalk(Join(workspace, p));
    PlaceWalks(true, joined);
    assert p.names[|p.names| - 1] in p.names;
  }

  lemma {:induction false} ImageKeys(workspace: Names, files: seq<UploadFile>, f: Names)
    requires f in Image(workspace, files)
    ensures exists i :: 0 <= i < |files| && f == workspace + NamesOf(files[i])
  {
    var last := |files| - 1;
    if f != workspace + NamesOf(files[last]) {
      ImageKeys(workspace, files[..last], f);
      var i :| 0 <= i < |files[..last]| && f == workspace + NamesOf(files[..last][i]);
      assert f == workspace + NamesOf(files[i]);
    }
  }

  lemma ApartBelow(workspace: Names, a: Names, b: Names)
    ensures Apart(workspace + a, workspace + b) <==> Apart(a, b)
  {
    forall x: Names, y: Names ensures workspace + x <= workspace + y <==> x <= y {
      if workspace + x <= workspace + y {
        forall i | 0 <= i < |x| ensures i < |y| && x[i] == y[i] {
          assert (workspace + x)[|workspace| + i] == (workspace + y)[|workspace| + i];
        }
      }
    }
  }

  lemma {:induction false} WritesAppend(workspace: Path, a: seq<Chunk>, b: seq<Chunk>)
    ensures WritesOf(workspace, a + b) == WritesOf(workspace, a) + WritesOf(workspace, b)
  {
    if a == [] {
      assert a + b == b;
    } else {
      assert (a + b)[0] == a[0] && (a + b)[1..] == a[1..] + b;
      WritesAppend(workspace, a[1..], b);
    }
  }

  // ----- all the files

  /** The files on disk are what was there before and the image of the files written; a further file
      can be created exactly if it could be before. */
  ghost predicate Holds(fs: FileSystem, before: FileSystem, workspace: Names, files: seq<UploadFile>) {
    && fs.files == before.files + Image(workspace, files)
    && (forall g: Names :: g != [] && ApartFromAll(workspace, files, g) ==> (Fits(fs, g) <==> Fits(before, g)))
  }

  ghost predicate ApartFromAll(workspace: Names, files: seq<UploadFile>, g: Names) {
    forall i :: 0 <= i < |files| ==> Apart(workspace + NamesOf(files[i]), g)
  }

  lemma ApartFromFront(workspace: Names, files: seq<UploadFile>, g: Names)
    requires files != [] && ApartFromAll(workspace, files, g)
    ensures ApartFromAll(workspace, files[..|files| - 1], g) && Apart(workspace + NamesOf(files[|files| - 1]), g)
  {
  }

  lemma LastIsApart(workspace: Names, files: seq<UploadFile>)
    requires files != [] && Uploadable(files)
    ensures ApartFromAll(workspace, files[..|files| - 1], workspace + NamesOf(files[|files| - 1]))
  {
    var last := |files| - 1;
    forall i | 0 <= i < last ensures Apart(workspace + NamesOf(files[..last][i]), workspace + NamesOf(files[last])) {
      ApartBelow(workspace, NamesOf(files[i]), NamesOf(files[last]));
    }
  }

  lemma HoldsCreated(fs: FileSystem, before: FileSystem, workspace: Names, files: seq<UploadFile>)
    requires files != [] && Uploadable(files) && Holds(fs, before, workspace, files[..|files| - 1])
    requires files[|files| - 1].content.Some? && files[|files| - 1].content.value != []
    requires workspace + NamesOf(files[|files| - 1]) != []
    ensures var f := files[|files| - 1];
            Holds(Created(fs, workspace + NamesOf(f), f.content.value), before, workspace, files)
  {
    var f := files[|files| - 1];
    var name := workspace + NamesOf(f);
    var after := Created(fs, name, f.content.value);
    forall g: Names | g != [] && ApartFromAll(workspace, files, g) ensures Fits(after, g) <==> Fits(before, g) {
      ApartFromFront(workspace, files, g);
      FitsAfter(fs, name, f.content.value, g);
    }
  }

  lemma HoldsSame(fs: FileSystem, before: FileSystem, workspace: Names, files: seq<UploadFile>)
    requires files != [] && Holds(fs, before, workspace, files[..|files| - 1])
    requires files[|files| - 1].content == Some([])
    ensures Holds(fs, before, workspace, files)
  {
    forall g: Names | g != [] && ApartFromAll(workspace, files, g) ensures Fits(fs, g) <==> Fits(before, g) {
      ApartFromFront(workspace, files, g);
    }
  }

  /** One more file, written after the ones before it. */
  lemma NextFileWrites(v: Writer, before: FileSystem, root: Path, workspace: Path, files: seq<UploadFile>, size: nat)
    returns (cs: seq<Write>)
    requires size > 0 && IsRoot(root) && Below(root, workspace) && !workspace.trailing
    requires files != [] && Uploadable(files)
    requires ValidWriter(v) && Holds(v.fs, before, workspace.names, files[..|files| - 1])
    ensures var f := files[|files| - 1];
            && NormalFile(f) && cs == WritesOf(workspace, FileChunks(f, size))
            && (Accepts(v, cs) <==> f.content == Some([]) || Fits(before, workspace.names + NamesOf(f)))
    ensures Accepts(v, cs) ==> Holds(PutAll(v, cs).fs, before, workspace.names, files)
  {
    var f := files[|files| - 1];
    assert NormalFile(f);
    cs := WritesOf(workspace, FileChunks(f, size));
    FileTargetOf(root, workspace, f);
    ChunksAreBlock(workspace, f.relativePath, f.content.value, size, true);
    if f.content.value != [] {
      LastIsApart(workspace.names, files);
      BlockWrites(v, workspace.names + NamesOf(f), f.content.value, size);
      HoldsCreated(v.fs, before, workspace.names, files);
    } else {
      HoldsSame(v.fs, before, workspace.names, files);
    }
  }

  lemma NoConflictFront(fs: FileSystem, workspace: Names, files: seq<UploadFile>)
    requires files != []
    ensures var last := |files| - 1;
            NoConflict(fs, workspace, files) <==>
            && NoConflict(fs, workspace, files[..last])
            && (files[last].content == Some([]) || Fits(fs, workspace + NamesOf(files[last])))
  {
    var last := |files| - 1;
    assert files == files[..last] + [files[last]];
  }

  lemma FrontThenLast(w: Writer, workspace: Path, files: seq<UploadFile>, size: nat)
    requires size > 0 && files != [] && ValidWriter(w)
    ensures var front, f := files[..|files| - 1], files[|files| - 1];
            var a, b := WritesOf(workspace, AllChunks(front, size)), WritesOf(workspace, FileChunks(f, size));
            var cs := WritesOf(workspace, AllChunks(files, size));
            && (Accepts(w, cs) <==> Accepts(w, a) && Accepts(PutAll(w, a), b))
            && (Accepts(w, cs) ==> PutAll(w, cs) == PutAll(PutAll(w, a), b))
  {
    var front, f := files[..|files| - 1], files[|files| - 1];
    assert files == front + [f];
    LastFile(front, f, size);
    WritesAppend(workspace, AllChunks(front, size), FileChunks(f, size));
    PutAppend(w, WritesOf(workspace, AllChunks(front, size)), WritesOf(workspace, FileChunks(f, size)));
  }

  /** All the chunks of all the files are accepted exactly when nothing is in the way of any. */
  lemma {:induction false} AllFilesWrite(w: Writer, root: Path, workspace: Path, files: seq<UploadFile>, size: nat)
    requires size > 0 && IsRoot(root) && Below(root, workspace) && !workspace.trailing
    requires Uploadable(files) && ValidWriter(w)
    ensures var cs := WritesOf(workspace, AllChunks(files, size));
            && (Accepts(w, cs) <==> NoConflict(w.fs, workspace.names, files))
            && (Accepts(w, cs) ==> Holds(PutAll(w, cs).fs, w.fs, workspace.names, files))
    decreases |files|
  {
    if files == [] {
      assert w.fs.files + map[] == w.fs.files;
    } else {
      var front := files[..|files| - 1];
      AllFilesWrite(w, root, workspace, front, size);
      NoConflictFront(w.fs, workspace.names, files);
      FrontThenLast(w, workspace, files, size);
      var a := WritesOf(workspace, AllChunks(front, size));
      if Accepts(w, a) {
        var c := NextFileWrites(PutAll(w, a), w.fs, root, workspace, files, size);
      }
    }
  }

  lemma {:induction false} AllPathsOk(root: Path, workspace: Path, files: seq<UploadFile>, size: nat)
    requires size > 0 && IsRoot(root) && Below(root, workspace) && !workspace.trailing
    requires forall i :: 0 <= i < |files| ==> NormalFile(files[i])
    ensures PathsOk(workspace, AllChunks(files, size))
  {
    if files != [] {
      FileTargetOf(root, workspace, files[0]);
      PathsOfFile(workspace, files[0].relativePath, files[0].content.value, size, true);
      AllPathsOk(root, workspace, files[1..], size);
    }
  }

  lemma {:induction false} PathsOfFile(workspace: Path, path: string, content: seq<Byte>, size: nat, first: bool)
    requires size > 0 && path != "" && SubPath(workspace, FileTarget(workspace, path))
    ensures PathsOk(workspace, ChunksOf(path, content, size, first))
    decreases |content|
  {
    if |content| >= size {
      PathsOfFile(workspace, path, content[size..], size, false);
    }
  }

  lemma ServeFiles(root: Path, u: Session, files: seq<UploadFile>, size: nat, cancelled: seq<bool>)
    requires size > 0 && IsRoot(root) && u.paths.Some? && ValidWriter(u.writer)
    requires Below(root, u.paths.value.workspace) && !u.paths.value.workspace.trailing
    requires Uploadable(files) && NeverCancelled(cancelled) && |cancelled| == |AllChunks(files, size)| + 1
    ensures var workspace := u.paths.value.workspace.names;
            var (t, status) := Serve(root, u, Messages(AllChunks(files, size)), cancelled);
            && (status == Ok <==> NoConflict(u.writer.fs, workspace, files))
            && (status == Ok ==> t.writer.fs.files == u.writer.fs.files + Image(workspace, files))
  {
    var workspace := u.paths.value.workspace;
    var chunks := AllChunks(files, size);
    AllFilesWrite(u.writer, root, workspace, files, size);
    AllPathsOk(root, workspace, files, size);
    ChunksSurvive(chunks);
    ServeChunks(root, u, Messages(chunks), cancelled);
  }

  /** The resolved paths of an accepted configuration. */
  ghost function PathsOf(root: Path, config: Message): Resolved
    requires IsRoot(root) && config.Config?
    requires ResolveTaskPaths(root, config.workspaceSubdir, config.outputSubdir).Accepted?
  {
    ResolveTaskPaths(root, config.workspaceSubdir, config.outputSubdir).paths
  }

  /** A configuration the server will accept files for: inside the root, not spelled with a trailing
      separator, and with a free key. */
  ghost predicate Usable(root: Path, s: Session, config: Message)
    requires IsRoot(root)
  {
    && config.Config? && ResolveTaskPaths(root, config.workspaceSubdir, config.outputSubdir).Accepted?
    && !PathsOf(root, config).workspace.trailing && PathsOf(root, config).workspaceKey !in s.locked
  }

  /** Upload round trip. The client's configuration and chunks, for any files with normal relative
      paths none of which lies below another, for any chunk size and whatever is on the disk, are
      accepted exactly when nothing on the disk is in the way of a non-empty file; the disk then
      gains exactly the non-empty files, with identical bytes. */
  lemma UploadRoundTrip(
      root: Path, s: Session, config: Message, files: seq<UploadFile>, size: nat, cancelled: seq<bool>)
    requires size > 0 && IsRoot(root) && Fresh(s) && Usable(root, s, config)
    requires Uploadable(files) && NeverCancelled(cancelled)
    requires |cancelled| == |AllChunks(files, size)| + 2
    ensures var workspace := PathsOf(root, config).workspace.names;
            var (t, status) := Serve(root, s, [config] + Messages(AllChunks(files, size)), cancelled);
            && (status == Ok <==> NoConflict(s.writer.fs, workspace, files))
            && (status == Ok ==> t.writer.fs.files == s.writer.fs.files + Image(workspace, files))
  {
    ConfigAccepted(root, s, config);
    AcceptedIsBelow(root, config.workspaceSubdir, config.outputSubdir);
    var u := HandleMessage(root, s, config).0;
    ServeFiles(root, u, files, size, cancelled[1..]);
    ServeAfterConfig(root, s, u, config, Messages(AllChunks(files, size)), cancelled);
  }

  lemma ImageStep(workspace: Names, files: seq<UploadFile>)
    requires files != []
    ensures var front, f := files[..|files| - 1], files[|files| - 1];
            Image(workspace, files)
            == if f.content.None? || f.content.value == [] then Image(workspace, front)
               else Image(workspace, front)[workspace + NamesOf(f) := f.content.value]
  {
  }

  lemma FrontIsUploadable(files: seq<UploadFile>)
    requires files != [] && Uploadable(files)
    ensures Uploadable(files[..|files| - 1])
  {
    var front := files[..|files| - 1];
    forall i, j | 0 <= i < j < |front| ensures Apart(NamesOf(front[i]), NamesOf(front[j])) {
      assert Apart(NamesOf(files[i]), NamesOf(files[j]));
    }
  }

  lemma NamesDiffer(workspace: Names, files: seq<UploadFile>, i: nat, j: nat)
    requires Uploadable(files) && i < j < |files|
    ensures workspace + NamesOf(files[i]) != workspace + NamesOf(files[j])
  {
    ApartBelow(workspace, NamesOf(files[i]), NamesOf(files[j]));
  }

  lemma LastNotInFront(workspace: Names, files: seq<UploadFile>)
    requires files != [] && Uploadable(files)
    ensures workspace + NamesOf(files[|files| - 1]) !in Image(workspace, files[..|files| - 1])
  {
    var last := |files| - 1;
    forall j | 0 <= j < last ensures workspace + NamesOf(files[..last][j]) != workspace + NamesOf(files[last]) {
      NamesDiffer(workspace, files, j, last);
    }
    if workspace + NamesOf(files[last]) in Image(workspace, files[..last]) {
      ImageKeys(workspace, files[..last], workspace + NamesOf(files[last]));
    }
  }

  /** The image names each file once, with its own bytes, and no empty file. */
  lemma {:induction false} ImageOf(workspace: Names, files: seq<UploadFile>, i: nat)
    requires Uploadable(files) && i < |files|
    ensures var f := workspace + NamesOf(files[i]);
            if files[i].content == Some([]) then f !in Image(workspace, files)
            else f in Image(workspace, files) && Some(Image(workspace, files)[f]) == files[i].content
    decreases |files|
  {
    var last := |files| - 1;
    ImageStep(workspace, files);
    assert NormalFile(files[i]);
    if i < last {
      FrontIsUploadable(files);
      ImageOf(workspace, files[..last], i);
      NamesDiffer(workspace, files, i, last);
    } else {
      LastNotInFront(workspace, files);
    }
  }

  // ----- when nothing is in the way

  /** No file lies at, above or below the workspace, and no directory below it. */
  ghost predicate Vacant(fs: FileSystem, workspace: Names) {
    && (forall f :: f in fs.files ==> Apart(f, workspace))
    && (forall d :: d in fs.dirs && workspace <= d ==> d == workspace)
  }

  /** In a vacant workspace there never is: every upload succeeds. */
  lemma VacantHasNoConflict(fs: FileSystem, workspace: Names, files: seq<UploadFile>)
    requires Vacant(fs, workspace) && forall i :: 0 <= i < |files| ==> NormalFile(files[i])
    ensures NoConflict(fs, workspace, files)
  {
    forall i | 0 <= i < |files| ensures Fits(fs, workspace + NamesOf(files[i])) {
      assert NormalFile(files[i]);
      var name := workspace + NamesOf(files[i]);
      forall p | p in Prefixes(name[..|name| - 1]) ensures p !in fs.files {
        assert p <= name;
        Comparable(p, workspace, name);
      }
      assert workspace <= name && name != workspace;
    }
  }

  // ----- workspaces that take no file

  lemma PlainNameIsNormal(name: string)
    requires IsName(name) && name != DOT && name != DOTDOT
    ensures NormalFile(UploadFile(name, Some([]))) && NamesOf(UploadFile(name, Some([]))) == [name]
  {
    assert Render([name], false) == name + "" == name;
    ParseRender([name], false);
  }

  /** A workspace that the server has accepted and locked can take a file, on some disk, if and only
      if it is not spelled with a trailing separator. */
  lemma TakesFilesIff(root: Path, s: Session)
    requires IsRoot(root) && s.paths.Some? && Below(root, s.paths.value.workspace) && !s.writer.isOpen
    ensures (exists fs, chunk :: HandleFileChunk(s.(writer := Writer(false, NO_PATH, fs)), chunk).1 == Ok)
            <==> !s.paths.value.workspace.trailing
  {
    var workspace := s.paths.value.workspace;
    if workspace.trailing {
      forall fs, chunk ensures HandleFileChunk(s.(writer := Writer(false, NO_PATH, fs)), chunk).1 != Ok {
        TrailingWorkspaceTakesNoFile(root, s.(writer := Writer(false, NO_PATH, fs)), chunk);
      }
    } else {
      var fs := FileSystem(map[], {});
      var w := Writer(false, NO_PATH, fs);
      var f := UploadFile("f", Some([]));
      PlainNameIsNormal("f");
      FileTargetOf(root, workspace, f);
      FirstPut(w, workspace.names + ["f"], [], true, true);
      assert HandleFileChunk(s.(writer := w), Chunk([], "f", true, true)).1 == Ok;
    }
  }

  // ----- a file that cannot be read

  /** A file the client cannot open ends the upload with a clean end of stream, so the server takes
      what came before it for the whole: it accepts exactly when nothing is in the way of those
      files, and the disk then gains the ones before the first unreadable file. */
  lemma UnreadableFileTruncates(
      root: Path, s: Session, config: Message, files: seq<UploadFile>, size: nat, cancelled: seq<bool>)
    requires size > 0 && IsRoot(root) && Fresh(s) && Usable(root, s, config)
    requires Uploadable(files[..FirstUnreadable(files)]) && NeverCancelled(cancelled)
    requires |cancelled| == |AllChunks(files[..FirstUnreadable(files)], size)| + 2
    ensures var readable, workspace := files[..FirstUnreadable(files)], PathsOf(root, config).workspace.names;
            var (t, status) := Serve(root, s, [config] + Messages(AllChunks(readable, size)), cancelled);
            && (status == Ok <==> NoConflict(s.writer.fs, workspace, readable))
            && (status == Ok ==> t.writer.fs.files == s.writer.fs.files + Image(workspace, readable))
  {
    UploadRoundTrip(root, s, config, files[..FirstUnreadable(files)], size, cancelled);
  }

  /** The server's session over a stream that was not cancelled. */
  method Receive(session: WorkspaceDownloadSession, config: Message, sent: seq<Chunk>, ghost files: seq<UploadFile>)
    returns (server: Status)
    requires session.Valid() && Fresh(session.View()) && Usable(session.root, session.View(), config)
    requires Uploadable(files) && sent == AllChunks(files, CHUNK_SIZE)
    modifies session, session.guard, session.guard.table, session.disk
    ensures var workspace := PathsOf(session.root, config).workspace.names;
            && (server == Ok <==> NoConflict(old(session.disk.fs), workspace, files))
            && (server == Ok ==> session.disk.fs.files == old(session.disk.fs.files) + Image(workspace, files))
  {
    ghost var start := session.View();
    var cancelled := seq(|sent| + 2, _ => false);
    UploadRoundTrip(session.root, start, config, files, CHUNK_SIZE, cancelled);
    server := session.Run([config] + Messages(sent), cancelled);
  }

  /** The client's stream, and then the server's session over what was sent, for a stream that holds.
      The client notices an unreadable file; the server does not. */
  method Submit(stream: TaskStream, config: Message, files: seq<UploadFile>, progress: UploadProgress,
                session: WorkspaceDownloadSession) returns (client: UploadStatus, server: Status)
    requires session.Valid() && Fresh(session.View()) && Usable(session.root, session.View(), config)
    requires stream.sent == [] && Uploadable(files[..FirstUnreadable(files)])
    requires |AllChunks(files[..FirstUnreadable(files)], CHUNK_SIZE)| <= stream.budget
    modifies stream, progress, session, session.guard, session.guard.table, session.disk
    ensures var readable, workspace := files[..FirstUnreadable(files)], PathsOf(session.root, config).workspace.names;
            && (client == Uploaded <==> Readable(files))
            && (server == Ok <==> NoConflict(old(session.disk.fs), workspace, readable))
            && (server == Ok ==> session.disk.fs.files == old(session.disk.fs.files) + Image(workspace, readable))
  {
    client := StreamWorkspaceFiles(stream, files, progress);
    server := Receive(session, config, stream.sent, files[..FirstUnreadable(files)]);
  }
}
