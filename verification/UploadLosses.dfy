/** When an accepted upload loses data: a file keeps only its last run of chunks. */
module UploadLosses {
  import opened Basics
  import opened Files
  import opened Paths
  import opened WorkspacePaths
  import opened ChunkWriter
  import opened SessionSpec
  import opened UploadClient
  import opened UploadTheorems
  import opened FileBlocks
  import opened RoundTrip

  /** Everything written to a file, in order. */
  function SentTo(cs: seq<Write>, f: Names): seq<Byte> {
    if cs == [] then []
    else SentTo(cs[..|cs| - 1], f) + (if cs[|cs| - 1].target.names == f then cs[|cs| - 1].data else [])
  }

  /** No write to the file before its last run carries anything. */
  ghost predicate NothingBefore(cs: seq<Write>, f: Names) {
    LastTo(cs, f) > 0 ==>
      forall i :: 0 <= i < RunBegin(cs, LastTo(cs, f) - 1) && cs[i].target.names == f ==> cs[i].data == []
  }

  lemma Slices(cs: seq<Write>, k: nat, n: nat)
    requires k <= n < |cs|
    ensures cs[..n][..k] == cs[..k] && cs[..n][k..] == cs[k..n] == cs[k..][..n - k] && cs[k..][n - k] == cs[n]
  {
  }

  lemma {:induction false} SentSplit(cs: seq<Write>, k: nat, f: Names)
    requires k <= |cs|
    ensures SentTo(cs, f) == SentTo(cs[..k], f) + SentTo(cs[k..], f)
    decreases |cs|
  {
    if k == |cs| {
      assert cs[..k] == cs && cs[k..] == [];
    } else {
      var n := |cs| - 1;
      SentSplit(cs[..n], k, f);
      Slices(cs, k, n);
      var last := if cs[n].target.names == f then cs[n].data else [];
      Associate(SentTo(cs[..k], f), SentTo(cs[k..n], f), last);
    }
  }

  lemma Associate(x: seq<Byte>, y: seq<Byte>, z: seq<Byte>)
    ensures (x + y) + z == x + (y + z)
  {
  }

  lemma {:induction false} SentOfRun(cs: seq<Write>, f: Names)
    requires forall i :: 0 <= i < |cs| ==> cs[i].target.names == f
    ensures SentTo(cs, f) == Data(cs)
    decreases |cs|
  {
    if cs != [] { SentOfRun(cs[..|cs| - 1], f); }
  }

  lemma {:induction false} SentEmptyIff(cs: seq<Write>, f: Names)
    ensures SentTo(cs, f) == [] <==> forall i :: 0 <= i < |cs| && cs[i].target.names == f ==> cs[i].data == []
    decreases |cs|
  {
    if cs != [] {
      SentEmptyIff(cs[..|cs| - 1], f);
      assert cs == cs[..|cs| - 1] + [cs[|cs| - 1]];
    }
  }

  lemma {:induction false} RunHasOneTarget(cs: seq<Write>, i: nat, j: nat)
    requires i < |cs| && RunBegin(cs, i) <= j <= i
    ensures cs[j].target == cs[i].target
    decreases i
  {
    if j < i {
      assert !StartsRun(cs, i);
      RunHasOneTarget(cs, i - 1, j);
    }
  }

  lemma SentSplitTwice(cs: seq<Write>, k: nat, n: nat, f: Names)
    requires k <= n <= |cs|
    ensures SentTo(cs, f) == SentTo(cs[..k], f) + SentTo(cs[k..n], f) + SentTo(cs[n..], f)
  {
    SentSplit(cs, n, f);
    SentSplit(cs[..n], k, f);
    assert cs[..n][..k] == cs[..k] && cs[..n][k..] == cs[k..n];
  }

  lemma SentOfLastRun(cs: seq<Write>, f: Names)
    requires LastTo(cs, f) > 0
    ensures SentTo(cs[RunBegin(cs, LastTo(cs, f) - 1)..LastTo(cs, f)], f) == LastRun(cs, f)
  {
    var n := LastTo(cs, f);
    var k := RunBegin(cs, n - 1);
    var run := cs[k..n];
    forall i | 0 <= i < |run| ensures run[i].target.names == f {
      RunHasOneTarget(cs, n - 1, k + i);
    }
    SentOfRun(run, f);
  }

  lemma NothingAfterLast(cs: seq<Write>, f: Names)
    ensures SentTo(cs[LastTo(cs, f)..], f) == []
  {
    SentEmptyIff(cs[LastTo(cs, f)..], f);
  }

  /** What was sent to a file is what came before its last run, and that run. */
  lemma SentIsBeforeAndLastRun(cs: seq<Write>, f: Names)
    requires LastTo(cs, f) > 0
    ensures SentTo(cs, f) == SentTo(cs[..RunBegin(cs, LastTo(cs, f) - 1)], f) + LastRun(cs, f)
  {
    SentSplitTwice(cs, RunBegin(cs, LastTo(cs, f) - 1), LastTo(cs, f), f);
    SentOfLastRun(cs, f);
    NothingAfterLast(cs, f);
  }

  /** A file keeps everything sent to it if and only if nothing was sent to it before its last run. */
  lemma KeepsAllIff(cs: seq<Write>, f: Names)
    requires LastTo(cs, f) > 0
    ensures LastRun(cs, f) == SentTo(cs, f) <==> NothingBefore(cs, f)
  {
    var before := cs[..RunBegin(cs, LastTo(cs, f) - 1)];
    SentIsBeforeAndLastRun(cs, f);
    SentEmptyIff(before, f);
    assert LastRun(cs, f) == SentTo(cs, f) ==> |SentTo(before, f)| == 0;
    assert SentTo(before, f) == [] ==> SentTo(cs, f) == [] + LastRun(cs, f);
  }

  ghost predicate HoldsAllSent(fs: FileSystem, cs: seq<Write>) {
    forall f: Names :: LastTo(cs, f) > 0 ==> f in fs.files && fs.files[f] == SentTo(cs, f)
  }

  /** An accepted stream loses nothing, for any file, if and only if every chunk for a file before
      that file's last run is empty. */
  lemma NothingLostIff(root: Path, s: Session, msgs: seq<Message>, cancelled: seq<bool>) returns (chunks: seq<Chunk>)
    requires IsRoot(root) && Fresh(s) && |cancelled| == |msgs| + 1
    requires Serve(root, s, msgs, cancelled).1 == Ok
    ensures msgs != [] && msgs[1..] == Messages(chunks)
    ensures var t := Serve(root, s, msgs, cancelled).0;
            && t.paths.Some?
            && var cs := WritesOf(t.paths.value.workspace, chunks);
               HoldsAllSent(t.writer.fs, cs) <==> forall f: Names :: NothingBefore(cs, f)
  {
    chunks := LastRunWins(root, s, msgs, cancelled);
    var t := Serve(root, s, msgs, cancelled).0;
    var cs := WritesOf(t.paths.value.workspace, chunks);
    forall f: Names | LastTo(cs, f) > 0
      ensures f in t.writer.fs.files && t.writer.fs.files[f] == LastRun(cs, f)
      ensures LastRun(cs, f) == SentTo(cs, f) <==> NothingBefore(cs, f)
    {
      assert FileAfter(s.writer.fs, t.writer.fs, cs, f);
      KeepsAllIff(cs, f);
    }
  }

  // ----- a stream that loses data

  /** Three chunks for two files, the first file in two pieces with the other in between. */
  function Switching(a: string, b: string, x: seq<Byte>, y: seq<Byte>, z: seq<Byte>): seq<Chunk> {
    [Chunk(x, a, true, false), Chunk(y, b, true, true), Chunk(z, a, false, true)]
  }

  lemma SwitchingWrites(w: Writer, f: Names, g: Names, x: seq<Byte>, y: seq<Byte>, z: seq<Byte>)
    requires ValidWriter(w) && f != [] && g != [] && Apart(f, g) && Fits(w.fs, f) && Fits(w.fs, g)
    ensures var cs := [Write(FilePath(f), x, true, false), Write(FilePath(g), y, true, true),
                       Write(FilePath(f), z, false, true)];
            && Accepts(w, cs) && f in PutAll(w, cs).fs.files && PutAll(w, cs).fs.files[f] == z
  {
    var c0, c1, c2 := Write(FilePath(f), x, true, false), Write(FilePath(g), y, true, true),
                      Write(FilePath(f), z, false, true);
    FirstPut(w, f, x, true, false);
    FitsAfter(w.fs, f, x, g);
    var w1 := Put(w, c0).0;
    FirstPut(w1, g, y, true, true);
    var w2 := Put(w1, c1).0;
    FitsAfter(w1.fs, g, y, f);
    FitsAgain(w.fs, f, x);
    FirstPut(w2, f, z, false, true);
    PutOne(w2, c2);
    assert [c1, c2][1..] == [c2] && [c0, c1, c2][1..] == [c1, c2];
    assert Accepts(w1, [c1, c2]) && PutAll(w1, [c1, c2]) == PutAll(w2, [c2]);
  }

  lemma FitsAgain(fs: FileSystem, f: Names, content: seq<Byte>)
    requires Fits(fs, f)
    ensures Fits(Created(fs, f, content), f)
  {
  }

  lemma SwitchingPaths(root: Path, workspace: Path, fa: UploadFile, fb: UploadFile,
                       x: seq<Byte>, y: seq<Byte>, z: seq<Byte>)
    requires IsRoot(root) && Below(root, workspace) && !workspace.trailing && NormalFile(fa) && NormalFile(fb)
    ensures var f, g := workspace.names + NamesOf(fa), workspace.names + NamesOf(fb);
            var chunks := Switching(fa.relativePath, fb.relativePath, x, y, z);
            && PathsOk(workspace, chunks)
            && WritesOf(workspace, chunks) == [Write(FilePath(f), x, true, false), Write(FilePath(g), y, true, true),
                                               Write(FilePath(f), z, false, true)]
  {
    FileTargetOf(root, workspace, fa);
    FileTargetOf(root, workspace, fb);
    var chunks := Switching(fa.relativePath, fb.relativePath, x, y, z);
    WritesOfThree(workspace, chunks[0], chunks[1], chunks[2]);
    assert chunks == [chunks[0], chunks[1], chunks[2]];
  }

  lemma WritesOfThree(workspace: Path, a: Chunk, b: Chunk, c: Chunk)
    ensures WritesOf(workspace, [a, b, c]) == [WriteOf(workspace, a), WriteOf(workspace, b), WriteOf(workspace, c)]
  {
    assert [a, b, c][1..] == [b, c] && [b, c][1..] == [c] && [c][1..] == [];
    assert WritesOf(workspace, [c]) == [WriteOf(workspace, c)];
    assert WritesOf(workspace, [b, c]) == [WriteOf(workspace, b)] + [WriteOf(workspace, c)];
  }

  lemma ServeSwitching(root: Path, u: Session, fa: UploadFile, fb: UploadFile,
                       x: seq<Byte>, y: seq<Byte>, z: seq<Byte>, cancelled: seq<bool>)
    requires |cancelled| == 4 && NeverCancelled(cancelled)
    requires IsRoot(root) && ValidWriter(u.writer) && u.paths.Some?
    requires Below(root, u.paths.value.workspace) && !u.paths.value.workspace.trailing
    requires NormalFile(fa) && NormalFile(fb) && Apart(NamesOf(fa), NamesOf(fb))
    requires Fits(u.writer.fs, u.paths.value.workspace.names + NamesOf(fa))
    requires Fits(u.writer.fs, u.paths.value.workspace.names + NamesOf(fb))
    ensures var f := u.paths.value.workspace.names + NamesOf(fa);
            var chunks := Switching(fa.relativePath, fb.relativePath, x, y, z);
            var (t, status) := Serve(root, u, Messages(chunks), cancelled);
            status == Ok && f in t.writer.fs.files && t.writer.fs.files[f] == z
  {
    var workspace := u.paths.value.workspace;
    var chunks := Switching(fa.relativePath, fb.relativePath, x, y, z);
    ApartBelow(workspace.names, NamesOf(fa), NamesOf(fb));
    SwitchingPaths(root, workspace, fa, fb, x, y, z);
    SwitchingWrites(u.writer, workspace.names + NamesOf(fa), workspace.names + NamesOf(fb), x, y, z);
    ChunksSurvive(chunks);
    ServeChunks(root, u, Messages(chunks), cancelled);
  }

  /** Data is lost whenever a stream comes back to a file: the server accepts the three chunks, and
      of the first file only the last piece is left. */
  lemma SwitchingLosesData(root: Path, s: Session, config: Message, fa: UploadFile, fb: UploadFile,
                           x: seq<Byte>, y: seq<Byte>, z: seq<Byte>, cancelled: seq<bool>)
    requires |cancelled| == 5 && NeverCancelled(cancelled)
    requires IsRoot(root) && Fresh(s) && Usable(root, s, config)
    requires NormalFile(fa) && NormalFile(fb) && Apart(NamesOf(fa), NamesOf(fb))
    requires Fits(s.writer.fs, PathsOf(root, config).workspace.names + NamesOf(fa))
    requires Fits(s.writer.fs, PathsOf(root, config).workspace.names + NamesOf(fb))
    ensures var f := PathsOf(root, config).workspace.names + NamesOf(fa);
            var msgs := [config] + Messages(Switching(fa.relativePath, fb.relativePath, x, y, z));
            var (t, status) := Serve(root, s, msgs, cancelled);
            status == Ok && f in t.writer.fs.files && t.writer.fs.files[f] == z
  {
    var chunks := Switching(fa.relativePath, fb.relativePath, x, y, z);
    ConfigAccepted(root, s, config);
    AcceptedIsBelow(root, config.workspaceSubdir, config.outputSubdir);
    var u := HandleMessage(root, s, config).0;
    ServeSwitching(root, u, fa, fb, x, y, z, cancelled[1..]);
    ServeAfterConfig(root, s, u, config, Messages(chunks), cancelled);
  }
}
