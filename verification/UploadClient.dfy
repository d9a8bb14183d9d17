/** The client's side of an upload: files are read in fixed-size pieces and streamed as chunks. */
module UploadClient {
  import opened Basics
  import opened Files
  import opened ChunkWriter
  import opened SessionSpec

  const CHUNK_SIZE: nat := 1024 * 1024

  /** A file to upload; its content is unknown if it cannot be opened. */
  datatype UploadFile = UploadFile(relativePath: string, content: Option<seq<Byte>>)

  datatype UploadStatus = Uploaded | CannotOpen | StreamBroken

  /** The chunks of one file: a read that fills the buffer does not see the end of the file, so the
      last chunk is marked only if it is short, and an empty file has no chunk at all. */
  function ChunksOf(path: string, content: seq<Byte>, size: nat, first: bool): seq<Chunk>
    requires size > 0
    decreases |content|
  {
    if content == [] then []
    else if |content| < size then [Chunk(content, path, first, true)]
    else [Chunk(content[..size], path, first, false)] + ChunksOf(path, content[size..], size, false)
  }

  function FileChunks(f: UploadFile, size: nat): seq<Chunk>
    requires size > 0
  {
    if f.content.None? then [] else ChunksOf(f.relativePath, f.content.value, size, true)
  }

  function AllChunks(files: seq<UploadFile>, size: nat): seq<Chunk>
    requires size > 0
  {
    if files == [] then [] else FileChunks(files[0], size) + AllChunks(files[1..], size)
  }

  predicate Readable(files: seq<UploadFile>) {
    forall i :: 0 <= i < |files| ==> files[i].content.Some?
  }

  /** Where the first file that cannot be opened is, or the end. */
  function FirstUnreadable(files: seq<UploadFile>): (k: nat)
    ensures k <= |files| && (k < |files| ==> files[k].content.None?)
    ensures forall i :: 0 <= i < k ==> files[i].content.Some?
  {
    if files == [] || files[0].content.None? then 0 else 1 + FirstUnreadable(files[1..])
  }

  function Bytes(chunks: seq<Chunk>): nat {
    if chunks == [] then 0 else |chunks[0].data| + Bytes(chunks[1..])
  }

  /** The request stream: it breaks after some number of messages. */
  class TaskStream {
    var sent: seq<Chunk>
    var budget: nat

    method Send(c: Chunk) returns (ok: bool)
      modifies this
      ensures ok == (old(budget) > 0)
      ensures sent == old(sent) + (if ok then [c] else [])
      ensures budget == old(budget) - (if ok then 1 else 0)
    {
      ok := budget > 0;
      if ok {
        sent := sent + [c];
        budget := budget - 1;
      }
    }
  }

  class UploadProgress {
    var bytesSent: nat
  }

  lemma NextChunk(path: string, left: seq<Byte>, size: nat, first: bool)
    requires size > 0 && left != []
    ensures var n := if |left| < size then |left| else size;
            ChunksOf(path, left, size, first)
            == [Chunk(left[..n], path, first, |left| < size)] + ChunksOf(path, left[n..], size, false)
  {
    if |left| < size {
      assert left[..|left|] == left && left[|left|..] == [];
    }
  }

  lemma Sending(sent: seq<Chunk>, all: seq<Chunk>, k: nat, c: Chunk, rest: seq<Chunk>)
    requires k <= |all| && all[k..] == [c] + rest
    ensures k < |all| && all[k + 1..] == rest && sent + all[..k] + [c] == sent + all[..k + 1]
  {
    assert all[k] == all[k..][0] && all[k..][1..] == rest;
  }

  /** One file; `left` is what the input stream has not delivered yet. */
  method StreamFile(stream: TaskStream, path: string, content: seq<Byte>, size: nat, progress: UploadProgress)
    returns (ok: bool)
    requires size > 0
    modifies stream, progress
    ensures ok <==> |ChunksOf(path, content, size, true)| <= old(stream.budget)
    ensures ok ==> stream.sent == old(stream.sent) + ChunksOf(path, content, size, true)
    ensures ok ==> stream.budget == old(stream.budget) - |ChunksOf(path, content, size, true)|
    ensures ok ==> progress.bytesSent == old(progress.bytesSent) + |content|
    ensures !ok ==> stream.budget == 0
    ensures !ok ==> stream.sent == old(stream.sent) + ChunksOf(path, content, size, true)[..old(stream.budget)]
  {
    var left := content;
    var firstChunk := true;
    var eof := false;
    ghost var k: nat := 0;
    ghost var all := ChunksOf(path, content, size, true);
    while !eof
      invariant eof ==> left == []
      invariant k <= |all| && all[k..] == ChunksOf(path, left, size, firstChunk)
      invariant stream.sent == old(stream.sent) + all[..k] && stream.budget == old(stream.budget) - k
      invariant progress.bytesSent + |left| == old(progress.bytesSent) + |content|
      decreases |left|, !eof
    {
      var n := if |left| < size then |left| else size;
      eof := |left| < size;
      if n == 0 {
        break;
      }
      var c := Chunk(left[..n], path, firstChunk, eof);
      NextChunk(path, left, size, firstChunk);
      Sending(old(stream.sent), all, k, c, ChunksOf(path, left[n..], size, false));
      progress.bytesSent := progress.bytesSent + n;
      ok := stream.Send(c);
      if !ok {
        return;
      }
      k := k + 1;
      left := left[n..];
      firstChunk := false;
    }
    assert all[..k] == all;
    ok := true;
  }

  lemma NextFile(files: seq<UploadFile>, i: nat, size: nat)
    requires i < |files| && size > 0
    ensures AllChunks(files[i..], size) == FileChunks(files[i], size) + AllChunks(files[i + 1..], size)
  {
    assert files[i..][1..] == files[i + 1..];
  }

  /** All the files, in order: every chunk of every file up to the first one that cannot be opened,
      unless the stream breaks, and then a prefix of them. */
  method StreamWorkspaceFiles(stream: TaskStream, files: seq<UploadFile>, progress: UploadProgress)
    returns (status: UploadStatus)
    modifies stream, progress
    ensures var readable := files[..FirstUnreadable(files)];
            && (status == StreamBroken <==> |AllChunks(readable, CHUNK_SIZE)| > old(stream.budget))
            && old(stream.sent) <= stream.sent <= old(stream.sent) + AllChunks(readable, CHUNK_SIZE)
            && (status != StreamBroken ==>
                  && (status == Uploaded <==> Readable(files))
                  && stream.sent == old(stream.sent) + AllChunks(readable, CHUNK_SIZE)
                  && progress.bytesSent == old(progress.bytesSent) + Bytes(AllChunks(readable, CHUNK_SIZE)))
    ensures status == Uploaded ==> stream.sent == old(stream.sent) + AllChunks(files, CHUNK_SIZE)
  {
    ghost var sent, budget, bytes := stream.sent, stream.budget, progress.bytesSent;
    ghost var done: seq<Chunk> := [];
    ghost var readable := files[..FirstUnreadable(files)];
    ghost var all := AllChunks(readable, CHUNK_SIZE);
    for i := 0 to |files|
      invariant i <= |readable|
      invariant all == done + AllChunks(readable[i..], CHUNK_SIZE)
      invariant |done| <= budget && stream.sent == sent + done && stream.budget == budget - |done|
      invariant progress.bytesSent == bytes + Bytes(done)
    {
      var f := files[i];
      if f.content.None? {
        Between(sent, done, [], [], 0);
        assert readable[i..] == [] && all == done;
        return CannotOpen;
      }
      ghost var mine, rest := FileChunks(f, CHUNK_SIZE), AllChunks(readable[i + 1..], CHUNK_SIZE);
      NextFile(readable, i, CHUNK_SIZE);
      var ok := StreamFile(stream, f.relativePath, f.content.value, CHUNK_SIZE, progress);
      if !ok {
        Between(sent, done, mine, rest, budget - |done|);
        return StreamBroken;
      }
      Between(sent, done, mine, rest, |mine|);
      BytesAppend(done, mine);
      BytesOfFile(f.relativePath, f.content.value, CHUNK_SIZE, true);
      done := done + mine;
    }
    Between(sent, done, [], [], 0);
    assert readable[|files|..] == [] && all == done && readable == files;
    return Uploaded;
  }

  lemma Between(sent: seq<Chunk>, done: seq<Chunk>, mine: seq<Chunk>, rest: seq<Chunk>, k: nat)
    requires k <= |mine|
    ensures done + (mine + rest) == (done + mine) + rest && (sent + done) + mine == sent + (done + mine)
    ensures sent <= sent + done + mine[..k] <= sent + (done + (mine + rest))
  {
  }

  lemma {:induction false} BytesAppend(a: seq<Chunk>, b: seq<Chunk>)
    ensures Bytes(a + b) == Bytes(a) + Bytes(b)
  {
    if a == [] {
      assert a + b == b;
    } else {
      assert (a + b)[0] == a[0] && (a + b)[1..] == a[1..] + b;
      BytesAppend(a[1..], b);
    }
  }

  /** The chunks of a file, one by one: all of the buffer's size but the last, which may be shorter; each
      with its own piece of the content; the first and only the first marked as the file's start, and the
      last and only the last marked as its end, if it is short. */
  lemma {:induction false} ChunkShapes(path: string, content: seq<Byte>, size: nat, first: bool, i: nat)
    requires size > 0 && i < |ChunksOf(path, content, size, first)|
    ensures var cs := ChunksOf(path, content, size, first);
            && i * size < |content|
            && cs[i].data == content[i * size..if (i + 1) * size <= |content| then (i + 1) * size else |content|]
            && cs[i].relativePath == path
            && (cs[i].fileStart <==> first && i == 0)
            && (cs[i].fileEnd <==> i == |cs| - 1 && |cs[i].data| < size)
            && (i < |cs| - 1 ==> |cs[i].data| == size)
    decreases |content|
  {
    var cs := ChunksOf(path, content, size, first);
    if |content| >= size {
      var rest := ChunksOf(path, content[size..], size, false);
      assert cs == [Chunk(content[..size], path, first, false)] + rest;
      if i > 0 {
        ChunkShapes(path, content[size..], size, false, i - 1);
        assert cs[i] == rest[i - 1];
        OneChunkOn(content, size, i);
      }
    }
  }

  lemma OneChunkOn(content: seq<Byte>, size: nat, i: nat)
    requires size > 0 && i > 0 && size <= |content| && (i - 1) * size < |content| - size
    ensures i * size == (i - 1) * size + size && (i + 1) * size == i * size + size
    ensures var rest := content[size..];
            rest[(i - 1) * size..if i * size <= |rest| then i * size else |rest|]
            == content[i * size..if (i + 1) * size <= |content| then (i + 1) * size else |content|]
  {
    assert i * size == (i - 1) * size + size;
    assert (i + 1) * size == i * size + size;
  }

  /** A buffer is one mebibyte. */
  lemma ChunksAreMebibytes(path: string, content: seq<Byte>, i: nat)
    requires i < |ChunksOf(path, content, CHUNK_SIZE, true)|
    ensures var cs := ChunksOf(path, content, CHUNK_SIZE, true);
            0 < |cs[i].data| <= 1_048_576 && (i < |cs| - 1 ==> |cs[i].data| == 1_048_576)
  {
    ChunkShapes(path, content, CHUNK_SIZE, true, i);
  }

  lemma AllStep(files: seq<UploadFile>, f: UploadFile, rest: seq<UploadFile>, size: nat)
    requires size > 0 && files == [f] + rest
    ensures AllChunks(files, size) == FileChunks(f, size) + AllChunks(rest, size)
  {
    assert files[1..] == rest;
  }

  /** The chunks of the last file come last. */
  lemma {:induction false} LastFile(front: seq<UploadFile>, f: UploadFile, size: nat)
    requires size > 0
    ensures AllChunks(front + [f], size) == AllChunks(front, size) + FileChunks(f, size)
    decreases |front|
  {
    if front == [] {
      AllStep(front + [f], f, [], size);
    } else {
      assert front + [f] == [front[0]] + (front[1..] + [f]);
      AllStep(front + [f], front[0], front[1..] + [f], size);
      LastFile(front[1..], f, size);
      Between([], FileChunks(front[0], size), AllChunks(front[1..], size), FileChunks(f, size), 0);
    }
  }

  /** No byte of a file is lost or sent twice. */
  lemma {:induction false} BytesOfFile(path: string, content: seq<Byte>, size: nat, first: bool)
    requires size > 0
    ensures Bytes(ChunksOf(path, content, size, first)) == |content|
    decreases |content|
  {
    if |content| >= size {
      BytesOfFile(path, content[size..], size, false);
      var c := Chunk(content[..size], path, first, false);
      assert ([c] + ChunksOf(path, content[size..], size, false))[1..] == ChunksOf(path, content[size..], size, false);
    } else if content != [] {
      assert [Chunk(content, path, first, true)][1..] == [];
    }
  }
}
