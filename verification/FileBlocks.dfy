/** Writing single files: what can be created, what the chunks of one file create, and what that
    leaves possible for others. */
module FileBlocks {
  import opened Basics
  import opened Files
  import opened Paths
  import opened WorkspacePaths
  import opened ChunkWriter
  import opened SessionSpec
  import opened UploadClient
  import opened UploadTheorems

  function FilePath(f: Names): Path {
    Path(true, f, false)
  }

  /** A file of this name can be created: no file is in the way of its directories, and no directory
      of the same name is there. */
  ghost predicate Fits(fs: FileSystem, f: Names) {
    f != [] && CanCreate(fs, f[..|f| - 1]) && f !in fs.dirs
  }

  ghost function Created(fs: FileSystem, f: Names, content: seq<Byte>): FileSystem
    requires f != []
  {
    FileSystem(fs.files[f := content], fs.dirs + Prefixes(f[..|f| - 1]))
  }

  /** Creating one file is neither help nor hindrance to another that is not nested with it. */
  lemma FitsAfter(fs: FileSystem, f: Names, content: seq<Byte>, g: Names)
    requires f != [] && g != [] && Apart(f, g)
    ensures Fits(Created(fs, f, content), g) <==> Fits(fs, g)
  {
    var aboveF, aboveG := Prefixes(f[..|f| - 1]), Prefixes(g[..|g| - 1]);
    assert forall p :: p in aboveF ==> p <= f;
    assert forall p :: p in aboveG ==> p <= g;
  }

  /** A write that does not continue the open file succeeds exactly when its file can be created,
      and then the file holds nothing but the write. */
  lemma FirstPut(w: Writer, f: Names, data: seq<Byte>, fileStart: bool, fileEnd: bool)
    requires ValidWriter(w) && f != [] && (fileStart || !w.isOpen || w.current != FilePath(f))
    ensures Put(w, Write(FilePath(f), data, fileStart, fileEnd)).1 == Ok <==> Fits(w.fs, f)
    ensures Fits(w.fs, f) ==>
              Put(w, Write(FilePath(f), data, fileStart, fileEnd)).0
              == Writer(!fileEnd, if fileEnd then NO_PATH else FilePath(f), Created(w.fs, f, data))
  {
    assert [] + data == data;
    assert f !in Prefixes(f[..|f| - 1]);
    assert w.fs.files[f := []][f := data] == w.fs.files[f := data];
  }

  ghost function Block(target: Path, content: seq<Byte>, size: nat, first: bool): seq<Write>
    requires size > 0
    decreases |content|
  {
    if content == [] then []
    else if |content| < size then [Write(target, content, first, true)]
    else [Write(target, content[..size], first, false)] + Block(target, content[size..], size, false)
  }

  lemma {:induction false} ChunksAreBlock(workspace: Path, path: string, content: seq<Byte>, size: nat, first: bool)
    requires size > 0
    ensures WritesOf(workspace, ChunksOf(path, content, size, first))
            == Block(FileTarget(workspace, path), content, size, first)
    decreases |content|
  {
    if |content| >= size {
      ChunksAreBlock(workspace, path, content[size..], size, false);
      var c := Chunk(content[..size], path, first, false);
      assert ([c] + ChunksOf(path, content[size..], size, false))[1..] == ChunksOf(path, content[size..], size, false);
    }
  }

  /** Continuing on the open file appends, chunk by chunk, whatever the size of the last one. */
  lemma {:induction false} BlockAppends(w: Writer, content: seq<Byte>, size: nat)
    requires size > 0 && ValidWriter(w) && w.isOpen
    ensures Accepts(w, Block(w.current, content, size, false))
    ensures var v := PutAll(w, Block(w.current, content, size, false));
            && v.fs == w.fs.(files := w.fs.files[w.current.names := w.fs.files[w.current.names] + content])
            && (v.isOpen ==> v.current == w.current)
    decreases |content|
  {
    var name := w.current.names;
    if content == [] {
      assert w.fs.files[name] + [] == w.fs.files[name];
      assert w.fs.files == w.fs.files[name := w.fs.files[name]];
    } else if |content| < size {
      var b := Block(w.current, content, size, false);
      assert b[1..] == [];
    } else {
      var b := Block(w.current, content, size, false);
      var v := Put(w, b[0]).0;
      assert b[1..] == Block(w.current, content[size..], size, false);
      BlockAppends(v, content[size..], size);
      assert w.fs.files[name] + content[..size] + content[size..] == w.fs.files[name] + content;
    }
  }

  lemma ShortBlockWrites(w: Writer, f: Names, content: seq<Byte>, size: nat)
    requires ValidWriter(w) && f != [] && content != [] && |content| < size
    ensures Accepts(w, Block(FilePath(f), content, size, true)) <==> Fits(w.fs, f)
    ensures Fits(w.fs, f) ==>
              PutAll(w, Block(FilePath(f), content, size, true)).fs == Created(w.fs, f, content)
  {
    FirstPut(w, f, content, true, true);
    PutOne(w, Write(FilePath(f), content, true, true));
  }

  lemma BlockStep(w: Writer, target: Path, content: seq<Byte>, size: nat)
    requires 0 < size <= |content| && ValidWriter(w)
    ensures var p := Put(w, Write(target, content[..size], true, false));
            var rest := Block(target, content[size..], size, false);
            var b := Block(target, content, size, true);
            && (Accepts(w, b) <==> p.1 == Ok && Accepts(p.0, rest))
            && (Accepts(w, b) ==> PutAll(w, b) == PutAll(p.0, rest))
  {
    assert Block(target, content, size, true)[1..] == Block(target, content[size..], size, false);
  }

  /** The chunks of a non-empty file are accepted exactly when the file can be created, and create it
      with exactly its bytes. */
  lemma BlockWrites(w: Writer, f: Names, content: seq<Byte>, size: nat)
    requires size > 0 && ValidWriter(w) && f != [] && content != []
    ensures Accepts(w, Block(FilePath(f), content, size, true)) <==> Fits(w.fs, f)
    ensures Fits(w.fs, f) ==>
              PutAll(w, Block(FilePath(f), content, size, true)).fs == Created(w.fs, f, content)
  {
    if |content| < size {
      ShortBlockWrites(w, f, content, size);
    } else {
      BlockStep(w, FilePath(f), content, size);
      FirstPut(w, f, content[..size], true, false);
      if Fits(w.fs, f) {
        BlockAppends(Writer(true, FilePath(f), Created(w.fs, f, content[..size])), content[size..], size);
        Rejoin(w.fs.files, f, content, size);
      }
    }
  }

  lemma Rejoin(files: map<Names, seq<Byte>>, f: Names, content: seq<Byte>, size: nat)
    requires size <= |content|
    ensures files[f := content[..size]][f := content[..size] + content[size..]] == files[f := content]
  {
    assert content[..size] + content[size..] == content;
  }
}
