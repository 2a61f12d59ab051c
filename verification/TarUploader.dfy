/** Cutting an archive into parts: the file-like object a tar is written to
    (CloudTarUploader), the chunk size (CloudUploadController) and the padded copy of a
    file that may shrink while it is read (barman/cloud.py). */
module TarUploader {
  import opened Wrappers
  import opened MultipartUpload

  datatype Part = Part(number: nat, body: Bytes)

  /** What the uploader of one archive holds, and what it has asked of the cloud interface. */
  datatype Tar = Tar(
    chunkSize: nat,
    buffer: Option<Bytes>,
    counter: nat,
    size: nat,
    sent: seq<Part>,
    complete: Option<nat>)

  function NewTar(chunkSize: nat): Tar { Tar(chunkSize, None, 0, 0, [], None) }

  function Buffered(t: Tar): Bytes { if t.buffer.Some? then t.buffer.value else [] }

  /** Once an error was reported the interface ignores the part, but it is counted. */
  function Flushed(t: Tar, error: bool): Tar
    requires t.buffer.Some?
  {
    t.(buffer := None, counter := t.counter + 1,
       sent := if error then t.sent else t.sent + [Part(t.counter + 1, t.buffer.value)])
  }

  function Written(t: Tar, data: Bytes, error: bool): Tar {
    var u := if t.buffer.Some? && |t.buffer.value| > t.chunkSize then Flushed(t, error) else t;
    u.(buffer := Some(Buffered(u) + data), size := u.size + |data|)
  }

  function WrittenAll(t: Tar, writes: seq<Bytes>): Tar {
    if writes == [] then t else Written(WrittenAll(t, writes[..|writes| - 1]), writes[|writes| - 1], false)
  }

  /** Closing flushes what is buffered and asks for completion with the part count.
      Without anything written there is no buffer to flush and closing fails. */
  function Closed(t: Tar, error: bool): Result<Tar, string> {
    if t.buffer.None? then Err("no buffer")
    else
      var u := Flushed(t, error);
      Ok(u.(complete := if error then u.complete else Some(u.counter)))
  }

  class CloudTarUploader {
    const chunkSize: nat
    var buffer: Option<Bytes>
    var counter: nat
    var size: nat
    var sent: seq<Part>
    var complete: Option<nat>

    function View(): Tar
      reads this
    {
      Tar(chunkSize, buffer, counter, size, sent, complete)
    }

    constructor (chunkSize: nat)
      ensures View() == NewTar(chunkSize)
    {
      this.chunkSize := chunkSize;
      buffer, counter, size, sent, complete := None, 0, 0, [], None;
    }

    method Write(data: Bytes, error: bool)
      modifies this
      ensures View() == Written(old(View()), data, error)
    {
      if buffer.Some? && |buffer.value| > chunkSize {
        Flush(error);
      }
      if buffer.None? {
        buffer := Some([]);
      }
      buffer := Some(buffer.value + data);
      size := size + |data|;
    }

    method Flush(error: bool)
      requires buffer.Some?
      modifies this
      ensures View() == Flushed(old(View()), error)
    {
      counter := counter + 1;
      if !error {
        sent := sent + [Part(counter, buffer.value)];
      }
      buffer := None;
    }

    method Close(error: bool) returns (ok: bool)
      modifies this
      ensures ok <==> old(buffer).Some?
      ensures ok ==> Closed(old(View()), error) == Ok(View())
      ensures !ok ==> View() == old(View())
    {
      if buffer.None? {
        return false;
      }
      Flush(error);
      if !error {
        complete := Some(counter);
      }
      return true;
    }
  }

  // ---------------------------------------------------------------- chunking

  function Bodies(parts: seq<Part>): seq<Bytes> { seq(|parts|, i requires 0 <= i < |parts| => parts[i].body) }

  /** Part numbers are 1, 2, ...; parts hold more than the chunk size and at most one write more. */
  predicate Chunks(parts: seq<Part>, chunkSize: nat, longest: nat) {
    forall i :: 0 <= i < |parts| ==>
      parts[i].number == i + 1 && chunkSize < |parts[i].body| <= chunkSize + longest
  }

  predicate NoLonger(writes: seq<Bytes>, longest: nat) { forall i :: 0 <= i < |writes| ==> |writes[i]| <= longest }

  lemma ConcatOneMore(bodies: seq<Bytes>, body: Bytes)
    ensures Concat(bodies + [body]) == Concat(bodies) + body
  {
    assert (bodies + [body])[..|bodies|] == bodies;
  }

  /** Whatever is written and however it is split into writes, the parts sent so far and the
      buffer are the bytes written, in order, and every part sent is over the chunk size. */
  lemma {:induction false} WritesAreChunked(chunkSize: nat, writes: seq<Bytes>, longest: nat)
    requires NoLonger(writes, longest)
    ensures var t := WrittenAll(NewTar(chunkSize), writes);
      && Concat(Bodies(t.sent)) + Buffered(t) == Concat(writes)
      && Chunks(t.sent, chunkSize, longest) && |Buffered(t)| <= chunkSize + longest
      && t.counter == |t.sent| && t.size == |Concat(writes)| && t.complete.None?
      && (t.buffer.Some? <==> writes != [])
      && t.chunkSize == chunkSize
  {
    if writes != [] {
      var init, data := writes[..|writes| - 1], writes[|writes| - 1];
      WritesAreChunked(chunkSize, init, longest);
      WriteIsChunked(WrittenAll(NewTar(chunkSize), init), data, chunkSize, longest, Concat(init));
    }
  }

  lemma WriteIsChunked(t: Tar, data: Bytes, chunkSize: nat, longest: nat, before: Bytes)
    requires Concat(Bodies(t.sent)) + Buffered(t) == before && t.size == |before| && |data| <= longest
    requires Chunks(t.sent, chunkSize, longest) && |Buffered(t)| <= chunkSize + longest
    requires t.counter == |t.sent| && t.chunkSize == chunkSize
    ensures var u := Written(t, data, false);
      && Concat(Bodies(u.sent)) + Buffered(u) == before + data && u.size == |before| + |data|
      && Chunks(u.sent, chunkSize, longest) && |Buffered(u)| <= chunkSize + longest
      && u.counter == |u.sent| && u.buffer.Some?
  {
    if t.buffer.Some? && |t.buffer.value| > t.chunkSize {
      FlushMovesBuffer(t);
      assert Concat(Bodies(Flushed(t, false).sent)) + ([] + data) == before + data;
    } else {
      assert Concat(Bodies(t.sent)) + (Buffered(t) + data) == before + data;
    }
  }

  lemma FlushMovesBuffer(t: Tar)
    requires t.buffer.Some?
    ensures Concat(Bodies(Flushed(t, false).sent)) == Concat(Bodies(t.sent)) + t.buffer.value
  {
    assert Bodies(Flushed(t, false).sent) == Bodies(t.sent) + [t.buffer.value];
    ConcatOneMore(Bodies(t.sent), t.buffer.value);
  }

  /** An archive that was written to and closed: completion is asked for with the exact number
      of parts; joined in part order they are the bytes written; only the last may be small. */
  lemma ClosedArchive(chunkSize: nat, writes: seq<Bytes>, longest: nat)
    requires NoLonger(writes, longest)
    ensures var r := Closed(WrittenAll(NewTar(chunkSize), writes), false);
      && (r.Ok? <==> writes != [])
      && (r.Ok? ==>
           && r.value.complete == Some(|r.value.sent|) && r.value.sent != []
           && Concat(Bodies(r.value.sent)) == Concat(writes)
           && Chunks(r.value.sent[..|r.value.sent| - 1], chunkSize, longest)
           && r.value.sent[|r.value.sent| - 1].number == |r.value.sent|
           && |r.value.sent[|r.value.sent| - 1].body| <= chunkSize + longest)
  {
    var t := WrittenAll(NewTar(chunkSize), writes);
    WritesAreChunked(chunkSize, writes, longest);
    if writes != [] {
      FlushMovesBuffer(t);
      var sent := Flushed(t, false).sent;
      assert sent[..|sent| - 1] == t.sent;
    }
  }

  // ---------------------------------------------------------------- how many parts

  lemma OneMore(n: nat, c: nat)
    ensures (n + 1) * c == n * c + c
  {
  }

  lemma {:induction false} ChunksAddUp(parts: seq<Part>, chunkSize: nat, longest: nat)
    requires Chunks(parts, chunkSize, longest)
    ensures |Concat(Bodies(parts))| >= |parts| * (chunkSize + 1)
  {
    if parts != [] {
      var init := parts[..|parts| - 1];
      ChunksAddUp(init, chunkSize, longest);
      assert Bodies(parts) == Bodies(init) + [parts[|parts| - 1].body];
      ConcatOneMore(Bodies(init), parts[|parts| - 1].body);
      OneMore(|init|, chunkSize + 1);
    }
  }

  /** An archive of fewer than limit * (chunk size + 1) bytes has at most `limit` parts. */
  lemma FewEnoughParts(chunkSize: nat, writes: seq<Bytes>, longest: nat, limit: nat)
    requires NoLonger(writes, longest) && writes != [] && |Concat(writes)| < limit * (chunkSize + 1)
    ensures |Closed(WrittenAll(NewTar(chunkSize), writes), false).value.sent| <= limit
  {
    var t := WrittenAll(NewTar(chunkSize), writes);
    WritesAreChunked(chunkSize, writes, longest);
    ChunksAddUp(t.sent, chunkSize, longest);
    if |t.sent| >= limit {
      assert |t.sent| * (chunkSize + 1) >= limit * (chunkSize + 1) by { MulMonotone(limit, |t.sent|, chunkSize + 1); }
    }
  }

  lemma MulMonotone(a: nat, b: nat, c: nat)
    requires a <= b
    ensures a * c <= b * c
  {
  }

  /** The chunk size for archives of up to `maxArchiveSize` bytes, where the provider takes
      `maxChunks` chunks of at least `minChunk` bytes. */
  function ChunkSize(maxArchiveSize: nat, maxChunks: nat, minChunk: nat, requested: Option<nat>): nat
    requires maxChunks > 0
  {
    var calculated := 2 * (maxArchiveSize / maxChunks);
    var least := if calculated > minChunk then calculated else minChunk;
    if requested.Some? && requested.value > least then requested.value else least
  }

  /** The chunk size is the largest of the three it is chosen from. */
  lemma ChunkSizeIsLargest(a: nat, m: nat, minChunk: nat, requested: Option<nat>)
    requires m > 0
    ensures var c := ChunkSize(a, m, minChunk, requested);
      && c >= 2 * (a / m) && c >= minChunk && (requested.Some? ==> c >= requested.value)
      && (c == 2 * (a / m) || c == minChunk || requested == Some(c))
  {
  }

  /** Every part but the last is larger than the least size the provider takes, and than the size
      that was asked for. */
  lemma PartsReachMinimum(a: nat, m: nat, minChunk: nat, requested: Option<nat>, writes: seq<Bytes>, longest: nat, i: nat)
    requires m > 0 && NoLonger(writes, longest) && writes != []
    ensures var r := Closed(WrittenAll(NewTar(ChunkSize(a, m, minChunk, requested)), writes), false);
      r.Ok? && (i < |r.value.sent| - 1 ==>
        |r.value.sent[i].body| > minChunk && (requested.Some? ==> |r.value.sent[i].body| > requested.value))
  {
    var c := ChunkSize(a, m, minChunk, requested);
    ChunkSizeIsLargest(a, m, minChunk, requested);
    ClosedArchive(c, writes, longest);
    hide ChunkSize;
    var sent := Closed(WrittenAll(NewTar(c), writes), false).value.sent;
    var whole := sent[..|sent| - 1];
    if i < |whole| { assert whole[i] == sent[i] && |whole[i].body| > c; }
  }

  /** With q = floor(A / M) >= 1, an archive may outgrow the requested size A by (q - 1) * M
      bytes and still fit in the provider's M parts. */
  lemma ArchiveFitsProvider(a: nat, m: nat, minChunk: nat, requested: Option<nat>, writes: seq<Bytes>, longest: nat)
    requires m > 0 && a / m >= 1 && NoLonger(writes, longest) && writes != []
    requires |Concat(writes)| <= a + (a / m - 1) * m
    ensures var c := ChunkSize(a, m, minChunk, requested);
      |Closed(WrittenAll(NewTar(c), writes), false).value.sent| <= m
  {
    var c := ChunkSize(a, m, minChunk, requested);
    assert c >= 2 * (a / m);
    RoomToOutgrow(a, m, a / m, c);
    FewEnoughParts(c, writes, longest, m);
  }

  lemma RoomToOutgrow(a: nat, m: nat, q: nat, c: nat)
    requires m > 0 && q == a / m && q >= 1 && c >= 2 * q
    ensures a + (q - 1) * m < m * (c + 1)
  {
    var p := q * m;
    assert a < p + m by { assert a == m * q + a % m; }
    assert (q - 1) * m == p - m;
    assert 2 * q * m == 2 * p;
    MulMonotone(2 * q, c + 1, m);
  }

  // ---------------------------------------------------------------- the uploader in the protocol

  /** The uploader of key `k` in the protocol is in the state the class describes. */
  predicate Represents(s: State, k: Key, t: Tar) {
    && k in s.uploaders && s.chunkSize == t.chunkSize && s.uploaders[k].buffer == t.buffer
    && s.uploaders[k].counter == t.counter && s.uploaders[k].bodies == Bodies(t.sent)
  }

  /** A write is the protocol's write, after a submission exactly when the buffer is over the
      chunk size; the submission queues the buffer under the next part number. */
  lemma WriteFollowsProtocol(s: State, k: Key, t: Tar, data: Bytes)
    requires Represents(s, k, t) && !s.uploaders[k].closing && !s.uploaders[k].completed
    ensures !(t.buffer.Some? && |t.buffer.value| > t.chunkSize) ==>
      Enabled(s, Write(k, data)) && Represents(Apply(s, Write(k, data)), k, Written(t, data, s.error))
    ensures t.buffer.Some? && |t.buffer.value| > t.chunkSize && !s.error && |s.queue| < |s.workers| ==>
      Enabled(s, Submit(k)) && Enabled(Apply(s, Submit(k)), Write(k, data))
      && Represents(Apply(Apply(s, Submit(k)), Write(k, data)), k, Written(t, data, false))
      && Apply(s, Submit(k)).queue == s.queue + [UploadPart(PartId(k, t.counter + 1), t.buffer.value)]
    ensures t.buffer.Some? && |t.buffer.value| > t.chunkSize && s.error ==>
      Enabled(s, SkipSubmit(k)) && Enabled(Apply(s, SkipSubmit(k)), Write(k, data))
      && Represents(Apply(Apply(s, SkipSubmit(k)), Write(k, data)), k, Written(t, data, true))
  {
    if t.buffer.Some? && |t.buffer.value| > t.chunkSize {
      assert Bodies(Flushed(t, false).sent) == Bodies(t.sent) + [t.buffer.value];
    }
  }

  /** Closing is the protocol's closing step and then the submission of what is buffered, or,
      after an error, its silent loss. */
  lemma CloseFollowsProtocol(s: State, k: Key, t: Tar)
    requires Represents(s, k, t) && !s.uploaders[k].closing && !s.uploaders[k].completed && t.buffer.Some?
    ensures Enabled(s, StartClose(k)) && Represents(Apply(s, StartClose(k)), k, t)
    ensures !s.error && |s.queue| < |s.workers| ==>
      Enabled(Apply(s, StartClose(k)), Submit(k))
      && Represents(Apply(Apply(s, StartClose(k)), Submit(k)), k, Flushed(t, false))
    ensures s.error ==>
      Enabled(Apply(s, StartClose(k)), SkipSubmit(k))
      && Represents(Apply(Apply(s, StartClose(k)), SkipSubmit(k)), k, Flushed(t, true))
  {
    assert Bodies(Flushed(t, false).sent) == Bodies(t.sent) + [t.buffer.value];
  }

  /** Then completion can be queued exactly when as many parts are recorded as the closed archive
      counts, and what is queued asks for those; after an error it never is. */
  lemma CompletionFollowsProtocol(s: State, k: Key, t: Tar)
    requires t.buffer.Some? && Represents(s, k, Flushed(t, s.error)) && s.uploaders[k].closing && !s.uploaders[k].completed
    requires |s.queue| < |s.workers|
    ensures Closed(t, s.error).Ok?
    ensures Enabled(s, QueueComplete(k)) <==>
      !s.error && Closed(t, s.error).value.complete == Some(t.counter + 1) && |PartsOf(s.partsDb, k)| >= t.counter + 1
    ensures Enabled(s, QueueComplete(k)) ==>
      Apply(s, QueueComplete(k)).queue == s.queue + [Complete(k, PartsOf(s.partsDb, k))]
      && Apply(s, QueueComplete(k)).uploaders[k].completed
  {
  }

  // ---------------------------------------------------------------- copying a file that shrinks

  function Min(a: nat, b: nat): nat { if a <= b then a else b }

  function Zeroes(n: nat): (r: Bytes)
    ensures |r| == n && forall i :: 0 <= i < n ==> r[i] == 0
  {
    seq(n, i => 0)
  }

  /** A file being read: a short read means its end. */
  class Source {
    const content: Bytes
    var position: nat

    constructor (content: Bytes)
      ensures this.content == content && position == 0
    {
      this.content := content;
      position := 0;
    }

    method Read(n: nat) returns (data: Bytes)
      requires position <= |content|
      modifies this
      ensures position == Min(old(position) + n, |content|) && data == content[old(position)..position]
    {
      var end := Min(position + n, |content|);
      data := content[position..end];
      position := end;
    }
  }

  /** The first `length` bytes, with zeroes where the content is too short. */
  function Padded(content: Bytes, length: nat): Bytes {
    if |content| >= length then content[..length] else content + Zeroes(length - |content|)
  }

  const BUFSIZE: nat := 16 * 1024

  /** The copy of a member always has the length its tar header announces, however the file
      has changed since: longer files are cut, shorter ones padded with zeroes. */
  method CopyPadTruncate(src: Source, length: nat) returns (dst: Bytes)
    requires src.position == 0
    modifies src
    ensures dst == Padded(src.content, length)
    ensures |dst| == length
    ensures forall i :: 0 <= i < length ==> dst[i] == if i < |src.content| then src.content[i] else 0
  {
    dst := [];
    if length == 0 {
      return;
    }
    var blocks, remainder := length / BUFSIZE, length % BUFSIZE;
    for i := 0 to blocks
      invariant src.position == Min(i * BUFSIZE, |src.content|)
      invariant dst == Padded(src.content, i * BUFSIZE)
    {
      dst := CopyBlock(src, dst, i * BUFSIZE, BUFSIZE);
    }
    if remainder != 0 {
      dst := CopyBlock(src, dst, blocks * BUFSIZE, remainder);
    }
  }

  method CopyBlock(src: Source, dst: Bytes, done: nat, n: nat) returns (r: Bytes)
    requires src.position == Min(done, |src.content|) && dst == Padded(src.content, done)
    modifies src
    ensures src.position == Min(done + n, |src.content|) && r == Padded(src.content, done + n)
  {
    var buf := src.Read(n);
    r := dst + buf;
    if |buf| < n {
      r := r + Zeroes(n - |buf|);
    }
    assert r == Padded(src.content, done + n);
  }

  const BLOCKSIZE: nat := 512

  /** A member is followed by zeroes up to a whole number of blocks. */
  function MemberBytes(content: Bytes, size: nat): Bytes {
    Padded(content, size) + Zeroes((BLOCKSIZE - size % BLOCKSIZE) % BLOCKSIZE)
  }

  /** The offset kept for the next member is the number of bytes written for this one. */
  method AddFile(src: Source, size: nat, offset: nat) returns (written: Bytes, next: nat)
    requires src.position == 0 && offset % BLOCKSIZE == 0
    modifies src
    ensures written == MemberBytes(src.content, size)
    ensures next == offset + |written| && next % 512 == 0
    ensures size <= |written| < size + 512
    ensures forall i :: 0 <= i < |written| ==> written[i] == if i < size && i < |src.content| then src.content[i] else 0
  {
    written := CopyPadTruncate(src, size);
    var blocks, remainder := size / BLOCKSIZE, size % BLOCKSIZE;
    if remainder > 0 {
      written := written + Zeroes(BLOCKSIZE - remainder);
      blocks := blocks + 1;
    }
    next := offset + blocks * BLOCKSIZE;
  }
}
