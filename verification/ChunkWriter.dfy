/** The server's side of an upload: chunks are appended to a file that is reopened, and so
    truncated, whenever the target changes, a chunk starts a file, or the last one ended one. */
module ChunkWriter {
  import opened Basics
  import opened Files
  import opened Paths
  import opened WorkspacePaths

  datatype Chunk = Chunk(data: seq<Byte>, relativePath: string, fileStart: bool, fileEnd: bool)

  datatype Status =
    | Ok | InvalidArgument | FailedPrecondition | PermissionDenied | Internal | ResourceExhausted | Cancelled

  /** A chunk whose path has been resolved. */
  datatype Write = Write(target: Path, data: seq<Byte>, fileStart: bool, fileEnd: bool)

  /** The open output file, if any, and the file system it writes to. */
  datatype Writer = Writer(isOpen: bool, current: Path, fs: FileSystem)

  const NO_PATH := Path(false, [], false)

  function Close(w: Writer): Writer {
    w.(isOpen := false, current := NO_PATH)
  }

  /** The directory that has to exist before the target is opened. */
  function Parent(target: Path): Names {
    if target.trailing || target.names == [] then target.names else target.names[..|target.names| - 1]
  }

  function EnsureOutputFile(w: Writer, target: Path, fileStart: bool): (Writer, Status) {
    if w.isOpen && !fileStart && target == w.current then (w, Ok)
    else
      var closed := Close(w);
      if !CanCreate(closed.fs, Parent(target)) then (closed, Internal)
      else
        var fs := CreateDirectories(closed.fs, Parent(target));
        if target.trailing || target.names in fs.dirs then (closed.(fs := fs), Internal)
        else (Writer(true, target, Truncate(fs, target.names)), Ok)
  }

  ghost predicate ValidWriter(w: Writer) {
    w.isOpen ==> w.current.names in w.fs.files
  }

  function Put(w: Writer, c: Write): (r: (Writer, Status))
    requires ValidWriter(w)
    ensures ValidWriter(r.0)
  {
    var (v, status) := EnsureOutputFile(w, c.target, c.fileStart);
    if status != Ok then (v, status)
    else
      var written := v.(fs := Append(v.fs, v.current.names, c.data));
      (if c.fileEnd then Close(written) else written, Ok)
  }

  /** All of the writes succeed, one after the other. */
  ghost predicate Accepts(w: Writer, cs: seq<Write>)
    requires ValidWriter(w)
    decreases |cs|
  {
    cs == [] || (Put(w, cs[0]).1 == Ok && Accepts(Put(w, cs[0]).0, cs[1..]))
  }

  ghost function PutAll(w: Writer, cs: seq<Write>): (r: Writer)
    requires ValidWriter(w) && Accepts(w, cs)
    ensures ValidWriter(r)
    decreases |cs|
  {
    if cs == [] then w else PutAll(Put(w, cs[0]).0, cs[1..])
  }

  lemma {:induction false} PutAppend(w: Writer, a: seq<Write>, b: seq<Write>)
    requires ValidWriter(w)
    ensures Accepts(w, a + b) <==> Accepts(w, a) && Accepts(PutAll(w, a), b)
    ensures Accepts(w, a + b) ==> PutAll(w, a + b) == PutAll(PutAll(w, a), b)
    decreases |a|
  {
    if a == [] {
      assert a + b == b;
    } else {
      assert (a + b)[0] == a[0] && (a + b)[1..] == a[1..] + b;
      if Put(w, a[0]).1 == Ok {
        PutAppend(Put(w, a[0]).0, a[1..], b);
      }
    }
  }

  lemma PutOne(w: Writer, c: Write)
    requires ValidWriter(w)
    ensures Accepts(w, [c]) <==> Put(w, c).1 == Ok
    ensures Accepts(w, [c]) ==> PutAll(w, [c]) == Put(w, c).0
  {
    assert [c][1..] == [];
  }

  lemma PutSnoc(w: Writer, cs: seq<Write>, front: seq<Write>, last: Write)
    requires ValidWriter(w) && Accepts(w, cs) && cs == front + [last]
    ensures Accepts(w, front) && Put(PutAll(w, front), last).1 == Ok
    ensures PutAll(w, cs) == Put(PutAll(w, front), last).0
  {
    PutAppend(w, front, [last]);
    PutOne(PutAll(w, front), last);
  }

  lemma FrontAndLast(cs: seq<Write>)
    requires cs != []
    ensures cs == cs[..|cs| - 1] + [cs[|cs| - 1]]
  {
  }

  lemma PutLast(w: Writer, cs: seq<Write>)
    requires ValidWriter(w) && cs != [] && Accepts(w, cs)
    ensures Accepts(w, cs[..|cs| - 1])
    ensures Put(PutAll(w, cs[..|cs| - 1]), cs[|cs| - 1]).1 == Ok
    ensures PutAll(w, cs) == Put(PutAll(w, cs[..|cs| - 1]), cs[|cs| - 1]).0
  {
    FrontAndLast(cs);
    PutSnoc(w, cs, cs[..|cs| - 1], cs[|cs| - 1]);
  }

  // ----- the last run of writes to a file is what it holds

  /** Runs are cut where the target changes, before a file start and after a file end. */
  ghost predicate StartsRun(cs: seq<Write>, i: nat)
    requires i < |cs|
  {
    i == 0 || cs[i].fileStart || cs[i - 1].fileEnd || cs[i - 1].target != cs[i].target
  }

  ghost function RunBegin(cs: seq<Write>, i: nat): (k: nat)
    requires i < |cs|
    ensures k <= i && StartsRun(cs, k)
    ensures forall j :: k < j <= i ==> !StartsRun(cs, j)
  {
    if StartsRun(cs, i) then i else RunBegin(cs, i - 1)
  }

  /** One past the last write to a file, or zero. */
  ghost function LastTo(cs: seq<Write>, f: Names): (n: nat)
    ensures n <= |cs|
    ensures n > 0 ==> cs[n - 1].target.names == f
    ensures forall j :: n <= j < |cs| ==> cs[j].target.names != f
  {
    if cs == [] then 0
    else if cs[|cs| - 1].target.names == f then |cs|
    else LastTo(cs[..|cs| - 1], f)
  }

  function Data(cs: seq<Write>): seq<Byte> {
    if cs == [] then [] else Data(cs[..|cs| - 1]) + cs[|cs| - 1].data
  }

  /** What the last run of writes to a file carried. */
  ghost function LastRun(cs: seq<Write>, f: Names): seq<Byte>
    requires LastTo(cs, f) > 0
  {
    var n := LastTo(cs, f);
    Data(cs[RunBegin(cs, n - 1)..n])
  }

  ghost predicate FileAfter(before: FileSystem, after: FileSystem, cs: seq<Write>, f: Names) {
    if LastTo(cs, f) == 0 then
      (f in after.files <==> f in before.files) && (f in before.files ==> after.files[f] == before.files[f])
    else f in after.files && after.files[f] == LastRun(cs, f)
  }

  lemma {:induction false} RunBeginPrefix(cs: seq<Write>, n: nat, i: nat)
    requires i < n <= |cs|
    ensures RunBegin(cs[..n], i) == RunBegin(cs, i)
    decreases i
  {
    if !StartsRun(cs, i) { RunBeginPrefix(cs, n, i - 1); }
  }

  /** What one accepted write does to the files. */
  lemma PutFiles(w: Writer, c: Write)
    requires ValidWriter(w) && Put(w, c).1 == Ok
    ensures var v := Put(w, c).0;
            var continues := w.isOpen && !c.fileStart && c.target == w.current;
            && v.isOpen == !c.fileEnd
            && (v.isOpen ==> v.current == c.target)
            && v.fs.files
               == w.fs.files[c.target.names := (if continues then w.fs.files[c.target.names] else []) + c.data]
  {
  }

  /** After some accepted writes, the output file is open on the last target unless the last write
      ended its file. */
  lemma OpenAfter(w: Writer, cs: seq<Write>)
    requires ValidWriter(w) && cs != [] && Accepts(w, cs)
    ensures var v := PutAll(w, cs);
            && v.isOpen == !cs[|cs| - 1].fileEnd
            && (v.isOpen ==> v.current == cs[|cs| - 1].target)
  {
    PutLast(w, cs);
    PutFiles(PutAll(w, cs[..|cs| - 1]), cs[|cs| - 1]);
  }

  /** Extending the writes by one to the same file extends its last run, or starts a new one. */
  lemma LastRunExtends(cs: seq<Write>, f: Names)
    requires cs != [] && cs[|cs| - 1].target.names == f
    ensures LastTo(cs, f) == |cs|
    ensures StartsRun(cs, |cs| - 1) ==> LastRun(cs, f) == cs[|cs| - 1].data
    ensures !StartsRun(cs, |cs| - 1) ==>
              && LastTo(cs[..|cs| - 1], f) == |cs| - 1
              && LastRun(cs, f) == LastRun(cs[..|cs| - 1], f) + cs[|cs| - 1].data
  {
    var n := |cs| - 1;
    var k := RunBegin(cs, n);
    assert cs[k..n + 1][..n - k] == cs[k..n];
    assert Data(cs[k..n + 1]) == Data(cs[k..n]) + cs[n].data;
    if StartsRun(cs, n) {
      assert cs[k..n] == [];
    } else {
      assert RunBegin(cs, n) == RunBegin(cs, n - 1);
      RunBeginPrefix(cs, n, n - 1);
      assert cs[..n][k..n] == cs[k..n];
    }
  }

  /** The run that ends before n is the same run in any prefix that contains it. */
  lemma RunOfPrefix(cs: seq<Write>, m: nat, n: nat)
    requires 0 < n <= m <= |cs|
    ensures RunBegin(cs[..m], n - 1) == RunBegin(cs, n - 1)
    ensures cs[..m][RunBegin(cs, n - 1)..n] == cs[RunBegin(cs, n - 1)..n]
  {
    RunBeginPrefix(cs, m, n - 1);
  }

  lemma OthersUntouched(cs: seq<Write>, f: Names)
    requires cs != [] && cs[|cs| - 1].target.names != f && LastTo(cs, f) > 0
    ensures LastTo(cs[..|cs| - 1], f) == LastTo(cs, f)
    ensures LastRun(cs, f) == LastRun(cs[..|cs| - 1], f)
  {
    var m, n := |cs| - 1, LastTo(cs, f);
    assert n == LastTo(cs[..m], f);
    RunOfPrefix(cs, m, n);
  }

  lemma SameFileStep(before: FileSystem, v: Writer, cs: seq<Write>, f: Names)
    requires ValidWriter(v) && cs != []
    requires var last := cs[|cs| - 1]; last.target.names == f && Put(v, last).1 == Ok
    requires |cs| == 1 ==> !v.isOpen
    requires |cs| > 1 ==> v.isOpen == !cs[|cs| - 2].fileEnd && (v.isOpen ==> v.current == cs[|cs| - 2].target)
    requires FileAfter(before, v.fs, cs[..|cs| - 1], f)
    ensures FileAfter(before, Put(v, cs[|cs| - 1]).0.fs, cs, f)
  {
    PutFiles(v, cs[|cs| - 1]);
    LastRunExtends(cs, f);
  }

  lemma OtherFileStep(before: FileSystem, v: Writer, cs: seq<Write>, f: Names)
    requires ValidWriter(v) && cs != []
    requires var last := cs[|cs| - 1]; last.target.names != f && Put(v, last).1 == Ok
    requires FileAfter(before, v.fs, cs[..|cs| - 1], f)
    ensures FileAfter(before, Put(v, cs[|cs| - 1]).0.fs, cs, f)
  {
    PutFiles(v, cs[|cs| - 1]);
    if LastTo(cs, f) > 0 {
      OthersUntouched(cs, f);
    }
  }

  /** The writer refines "last run wins": after accepted writes, every file holds what the last run
      of writes to it carried, or what it held before if there was none. */
  lemma {:induction false} FileAfterAll(w: Writer, cs: seq<Write>, f: Names)
    requires ValidWriter(w) && !w.isOpen && Accepts(w, cs)
    ensures FileAfter(w.fs, PutAll(w, cs).fs, cs, f)
    decreases |cs|
  {
    if cs != [] {
      var front := cs[..|cs| - 1];
      PutLast(w, cs);
      FileAfterAll(w, front, f);
      if front != [] { OpenAfter(w, front); }
      if cs[|cs| - 1].target.names == f {
        SameFileStep(w.fs, PutAll(w, front), cs, f);
      } else {
        OtherFileStep(w.fs, PutAll(w, front), cs, f);
      }
    }
  }
}
