/** Reading a compressed cloud object as if it were not compressed
    (DecompressingStreamingIO, barman/cloud.py). */
module StreamingIO {
  import opened Sequences
  import opened MultipartUpload

  /** What a streaming decompressor puts out for the input so far only ever gets longer. */
  ghost predicate Streaming(decompress: Bytes -> Bytes) {
    forall a, b :: decompress(a) <= decompress(a + b)
  }

  /** A chunked decompressor: told the input chunk by chunk, it returns the new output. */
  class Decompressor {
    const all: Bytes -> Bytes
    var fed: Bytes
    var put: nat

    ghost predicate Valid()
      reads this
    {
      Streaming(all) && put == |all(fed)|
    }

    constructor (all: Bytes -> Bytes)
      requires Streaming(all) && all([]) == []
      ensures Valid() && fed == [] && this.all == all
    {
      this.all := all;
      fed, put := [], 0;
    }

    method Decompress(chunk: Bytes) returns (data: Bytes)
      requires Valid()
      modifies this
      ensures Valid() && fed == old(fed) + chunk && all(fed) == all(old(fed)) + data
    {
      assert all(fed) <= all(fed + chunk);
      fed := fed + chunk;
      data := all(fed)[put..];
      put := |all(fed)|;
    }
  }

  /** The response of the provider. A `steady` one reads short only at its end. */
  class Response {
    const content: Bytes
    const steady: bool
    var position: nat
    /** Whether the last read returned fewer bytes than it was asked for. */
    ghost var cameShort: bool

    ghost predicate Valid()
      reads this
    {
      position <= |content|
    }

    constructor (content: Bytes, steady: bool)
      ensures Valid() && position == 0 && this.content == content && this.steady == steady
    {
      this.content, this.steady := content, steady;
      position, cameShort := 0, false;
    }

    /** Up to n bytes; `luck` is how many an unsteady response happens to have ready. */
    method Read(n: nat, luck: nat) returns (data: Bytes)
      requires Valid()
      modifies this
      ensures Valid() && old(position) <= position && |data| <= n
      ensures data == content[old(position)..position]
      ensures cameShort <==> |data| < n
      ensures steady && |data| < n ==> position == |content|
    {
      var end := if position + n <= |content| then position + n else |content|;
      if !steady && position + luck < end {
        end := position + luck;
      }
      data := content[position..end];
      position, cameShort := end, |data| < n;
    }
  }

  const COMPRESSED_CHUNK_SIZE: nat := 65536

  /** The slices `bytes[:n]` and `bytes[n:]`, where a negative n counts from the end. */
  function Cut(bytes: Bytes, n: int): (k: nat)
    ensures k <= |bytes|
  {
    if n >= |bytes| then |bytes| else if n >= 0 then n else if |bytes| + n >= 0 then |bytes| + n else 0
  }

  method SplitAt(bytes: Bytes, n: int) returns (first: Bytes, rest: Bytes)
    ensures first == bytes[..Cut(bytes, n)] && rest == bytes[Cut(bytes, n)..]
  {
    return bytes[..Cut(bytes, n)], bytes[Cut(bytes, n)..];
  }

  /** From one position to another in chunks of the size asked for, or to the end. */
  predicate WholeChunks(from: nat, to: nat, length: nat) {
    to == length || (from <= to && (to - from) % COMPRESSED_CHUNK_SIZE == 0)
  }

  class DecompressingStreamingIO {
    const response: Response
    const decompressor: Decompressor
    var buffer: Bytes
    /** Everything that reads have returned so far. */
    ghost var returned: Bytes

    /** What was consumed, decompressed, is what was returned followed by the local buffer. */
    ghost predicate Valid()
      reads this, response, decompressor
    {
      && response.Valid() && decompressor.Valid()
      && decompressor.fed == response.content[..response.position]
      && returned + buffer == decompressor.all(decompressor.fed)
    }

    constructor (response: Response, decompressor: Decompressor)
      requires response.Valid() && response.position == 0
      requires decompressor.Valid() && decompressor.fed == [] && decompressor.all([]) == []
      ensures Valid() && returned == [] && this.response == response && this.decompressor == decompressor
    {
      this.response, this.decompressor := response, decompressor;
      buffer, returned := [], [];
    }

    method ReadFromBuffer(n: int) returns (data: Bytes)
      modifies this`buffer
      ensures data == old(buffer)[..Cut(old(buffer), n)] && buffer == old(buffer)[Cut(old(buffer), n)..]
      ensures data + buffer == old(buffer)
      ensures n >= 0 ==> |data| == n || (|data| < n && buffer == [])
    {
      if n <= |buffer| {
        data, buffer := SplitAt(buffer, n);
      } else {
        data := buffer;
        buffer := [];
      }
    }

    /** Reads and decompresses chunks until there are n bytes or the response reads short. */
    method Fill(n: int, start: Bytes, luck: seq<nat>, ghost before: Bytes) returns (data: Bytes)
      requires response.Valid() && decompressor.Valid()
      requires decompressor.fed == response.content[..response.position]
      requires before + start == decompressor.all(decompressor.fed)
      modifies response, decompressor
      ensures response.Valid() && decompressor.Valid()
      ensures decompressor.fed == response.content[..response.position]
      ensures before + data == decompressor.all(decompressor.fed)
      ensures |data| < n ==> response.cameShort
      ensures |data| < n && response.steady ==> response.position == |response.content|
      ensures response.steady ==> WholeChunks(old(response.position), response.position, |response.content|)
      ensures |start| >= n ==> data == start && response.position == old(response.position)
    {
      hide Streaming;
      data := start;
      var short := false;
      var calls := 0;
      while |data| < n && !short
        invariant response.Valid() && decompressor.Valid()
        invariant decompressor.fed == response.content[..response.position]
        invariant before + data == decompressor.all(decompressor.fed)
        invariant short ==> response.cameShort
        invariant short && response.steady ==> response.position == |response.content|
        invariant response.steady ==> WholeChunks(old(response.position), response.position, |response.content|)
        invariant |start| >= n ==> data == start && response.position == old(response.position)
        decreases |response.content| - response.position, if short then 0 else 1
      {
        var chunk := response.Read(COMPRESSED_CHUNK_SIZE, if calls < |luck| then luck[calls] else 0);
        var more := decompressor.Decompress(chunk);
        Associative(before, data, more);
        data := data + more;
        short := |chunk| < COMPRESSED_CHUNK_SIZE;
        calls := calls + 1;
      }
    }

    /** For n >= 0: returns n bytes of the decompressed stream, the next ones, unless the response
        itself reads short; then all that could be decompressed has been returned. A negative n,
        the default included, cuts the local buffer twice from the end: nothing is read, what the
        first cut takes off is lost, and the stream is broken unless the buffer was empty. */
    method Read(n: int, luck: seq<nat>) returns (data: Bytes)
      requires Valid()
      modifies this, response, decompressor
      ensures Valid() <==> n >= 0 || old(buffer) == []
      ensures n >= 0 ==> returned == old(returned) + data && |data| <= n
      ensures n <= |old(buffer)| ==> response.position == old(response.position)
      ensures response.steady ==> WholeChunks(old(response.position), response.position, |response.content|)
      ensures 0 <= |data| < n ==> response.cameShort
      ensures 0 <= |data| < n ==> returned == decompressor.all(response.content[..response.position])
      ensures |data| < n && response.steady ==> returned == decompressor.all(response.content)
      ensures n < 0 ==> var left := old(buffer)[..Cut(old(buffer), n)];
        data == left[..Cut(left, n)] && buffer == left[Cut(left, n)..] && returned == old(returned) + data
    {
      hide Streaming;
      ghost var before, held := returned, buffer;
      data := ReadFromBuffer(n);
      if |data| == n {
        Associative(before, data, buffer);
        returned := before + data;
        return;
      }
      if n < 0 {
        // No chunk is wanted: the loop ends before it starts.
        ghost var lost := buffer;
        var left := data;
        data, buffer := SplitAt(left, n);
        returned := before + data;
        NegativeReadLoses(before, held, left, lost, data, buffer);
        return;
      }
      var uncompressed := Fill(n, data, luck, before);
      assert response.position == |response.content| ==> response.content[..response.position] == response.content;
      data, buffer := SplitAt(uncompressed, n);
      Associative(before, data, buffer);
      returned := before + data;
    }
  }

  /** What was taken off the end is missing from the stream. */
  lemma NegativeReadLoses(before: Bytes, held: Bytes, left: Bytes, lost: Bytes, data: Bytes, rest: Bytes)
    requires held == left + lost && left == data + rest
    ensures (before + data) + rest == before + held <==> lost == []
  {
    assert |(before + data) + rest| == |before| + |left|;
    if lost == [] { assert (before + data) + rest == before + (data + rest); }
  }

  /** What reads have returned so far is the beginning of the decompressed object, and when the
      whole response is consumed and the buffer is empty, it is the decompressed object. */
  lemma ReturnedIsAPrefix(all: Bytes -> Bytes, content: Bytes, position: nat, returned: Bytes, buffer: Bytes)
    requires Streaming(all) && position <= |content| && returned + buffer == all(content[..position])
    ensures returned <= all(content)
    ensures position == |content| && buffer == [] ==> returned == all(content)
  {
    assert content == content[..position] + content[position..];
    assert all(content[..position]) <= all(content[..position] + content[position..]);
    assert returned == (returned + buffer)[..|returned|];
    if position == |content| && buffer == [] {
      assert content[..position] == content;
    }
  }

  /** Three bytes that were not compressed: one is read, and then, with the default argument, the rest
      is asked for. Nothing is returned, and of the two buffered bytes the last one is gone. */
  method NegativeReadAfterARead() returns (io: DecompressingStreamingIO, first: Bytes, second: Bytes)
    ensures first == [1] && second == [] && io.returned == [1] && io.buffer == [2]
    ensures io.response.position == |io.response.content| && io.response.content == [1, 2, 3]
    ensures !io.Valid()
  {
    var same := (bytes: Bytes) => bytes;
    assert Streaming(same);
    var response := new Response([1, 2, 3], true);
    var decompressor := new Decompressor(same);
    io := new DecompressingStreamingIO(response, decompressor);
    first := io.Read(1, []);
    assert response.position == 3 && response.content[..3] == [1, 2, 3];
    assert first + io.buffer == [1, 2, 3];
    assert |first| == 1 && io.buffer == (first + io.buffer)[1..];
    second := io.Read(-1, []);
  }
}
