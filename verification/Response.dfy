/** Splitting a reply into frames (usb/usb.go, `chunkFunc` and `FormatResponse`) and its inverse. */
module Response {
  import opened Bytes
  import opened Frames
  import opened Transport

  // ---------- chunkFunc ----------

  /** Number of chunks: one for empty data, otherwise the integer ceiling of |data| / size. */
  function ChunkCount(length: nat, size: nat): nat
    requires size > 0
  {
    if length <= size then 1 else (length + size - 1) / size
  }

  lemma ChunkCountBounds(length: nat, size: nat)
    requires size > 0
    ensures var n := ChunkCount(length, size);
      n > 0 && (n - 1) * size <= length <= n * size && (length > 0 ==> (n - 1) * size < length)
  {
    if length > size {
      var q := (length + size - 1) / size;
      assert length + size - 1 == q * size + (length + size - 1) % size;
      assert (q - 1) * size == q * size - size;
    }
  }

  lemma ChunkBounds(length: nat, size: nat, k: nat)
    requires size > 0 && k < ChunkCount(length, size)
    ensures 0 <= k * size <= length
    ensures k + 1 < ChunkCount(length, size) ==> (k + 1) * size <= length
    ensures k + 1 == ChunkCount(length, size) ==> length <= (k + 1) * size
    ensures (k + 1) * size == k * size + size
    ensures length > 0 ==> k * size < length
  {
    ChunkCountBounds(length, size);
    var n := ChunkCount(length, size);
    assert k * size <= (n - 1) * size;
    if k + 1 < n {
      assert (k + 1) * size <= (n - 1) * size;
    }
  }

  /** The k-th chunk: `size` bytes from k * size on, fewer only at the end of the data. */
  function Chunk(data: seq<byte>, size: nat, k: nat): (c: seq<byte>)
    requires size > 0 && k < ChunkCount(|data|, size)
    ensures |c| <= size
    ensures k + 1 < ChunkCount(|data|, size) ==> |c| == size
    ensures data != [] ==> c != []
  {
    ChunkBounds(|data|, size, k);
    data[k * size..Min((k + 1) * size, |data|)]
  }

  predicate IsChunking(data: seq<byte>, size: nat, chunks: seq<seq<byte>>)
    requires size > 0
  {
    && |chunks| == ChunkCount(|data|, size)
    && forall k :: 0 <= k < |chunks| ==> chunks[k] == Chunk(data, size, k)
  }

  method ChunkFunc(data: seq<byte>, size: nat) returns (ret: seq<seq<byte>>)
    requires size > 0 || data == []
    ensures size > 0 ==> IsChunking(data, size, ret)
    ensures data == [] ==> ret == [[]]
  {
    if |data| <= size {
      return [data];
    }
    var chunks := (|data| + size - 1) / size;
    ret := [];
    var start, finish := 0, size;
    for idx := 0 to chunks
      invariant |ret| == idx
      invariant start == idx * size && finish == start + size
      invariant forall k :: 0 <= k < idx ==> ret[k] == Chunk(data, size, k)
    {
      ChunkBounds(|data|, size, idx);
      if idx + 1 == chunks {
        finish := |data|;
      }
      ret := ret + [data[start..finish]];
      start := start + size;
      finish := start + size;
    }
  }

  /** Chunking loses nothing and adds nothing. */
  lemma ChunksConcatenate(data: seq<byte>, size: nat, chunks: seq<seq<byte>>)
    requires size > 0 && IsChunking(data, size, chunks)
    ensures Concat(chunks) == data
  {
    ChunkBounds(|data|, size, |chunks| - 1);
    ChunkPrefix(data, size, chunks, |chunks|);
    assert chunks[..|chunks|] == chunks;
  }

  lemma {:induction false} ChunkPrefix(data: seq<byte>, size: nat, chunks: seq<seq<byte>>, n: nat)
    requires size > 0 && IsChunking(data, size, chunks) && n <= |chunks|
    ensures 0 <= Min(n * size, |data|) && Concat(chunks[..n]) == data[..Min(n * size, |data|)]
  {
    if n > 0 {
      ChunkPrefix(data, size, chunks, n - 1);
      ChunkBounds(|data|, size, n - 1);
      assert chunks[..n][..n - 1] == chunks[..n - 1];
      assert chunks[..n][n - 1] == Chunk(data, size, n - 1);
    }
  }

  // ---------- the frames of a response ----------

  function FrameCount(length: nat): nat {
    1 + Needed(length)
  }

  /** The 16-bit length field of a response; longer data wraps it. */
  function Announced(data: seq<byte>): (length: uint16)
    ensures length <= |data|
    ensures |data| < 0x1_0000 ==> length == |data|
  {
    |data| % 0x1_0000
  }

  /** The data followed by the zero bytes that fill up its last frame. */
  function Padded(data: seq<byte>): (p: seq<byte>)
    ensures |p| == Carried(FrameCount(|data|))
  {
    data + Zeros(Carried(FrameCount(|data|)) - |data|)
  }

  function ResponseFrame(channel: uint16, data: seq<byte>, k: nat): (f: seq<byte>)
    requires k < FrameCount(|data|)
    ensures Sized(f)
  {
    if k == 0
    then Marshal(HIDFrame(channel, HID_FRAME_TAG, 0, Announced(data), Padded(data)[..INIT_DATA]))
    else Marshal(HIDFrameNext(channel, HID_FRAME_TAG, k % 0x1_0000, Padded(data)[Carried(k)..Carried(k + 1)]))
  }

  /** What `FormatResponse` puts on the wire: the padded data, cut at 57, 116, 175, ... */
  function ResponseFrames(channel: uint16, data: seq<byte>): (fs: seq<seq<byte>>)
    ensures |fs| == FrameCount(|data|)
    ensures forall k :: 0 <= k < |fs| ==> fs[k] == ResponseFrame(channel, data, k)
  {
    seq(FrameCount(|data|), k requires 0 <= k < FrameCount(|data|) => ResponseFrame(channel, data, k))
  }

  /** Go's `copy` into a zeroed fixed-size array. */
  function CopyInto(size: nat, chunk: seq<byte>): (a: seq<byte>)
    ensures |a| == size
  {
    if |chunk| <= size then chunk + Zeros(size - |chunk|) else chunk[..size]
  }

  lemma NextChunkIsPaddedSlice(data: seq<byte>, k: nat)
    requires |data| > INIT_DATA && k < ChunkCount(|data| - INIT_DATA, NEXT_DATA)
    ensures ChunkCount(|data| - INIT_DATA, NEXT_DATA) == Needed(|data|)
    ensures Carried(k + 2) <= |Padded(data)|
    ensures CopyInto(NEXT_DATA, Chunk(data[INIT_DATA..], NEXT_DATA, k)) == Padded(data)[Carried(k + 1)..Carried(k + 2)]
  {
    var rest := data[INIT_DATA..];
    ChunkBounds(|rest|, NEXT_DATA, k);
    assert Chunk(rest, NEXT_DATA, k) == rest[k * NEXT_DATA..Min((k + 1) * NEXT_DATA, |rest|)];
  }

  lemma FirstFrameIs(channel: uint16, data: seq<byte>)
    ensures Marshal(HIDFrame(channel, HID_FRAME_TAG, 0, Announced(data), CopyInto(INIT_DATA, data[..Min(INIT_DATA, |data|)]))) ==
            ResponseFrame(channel, data, 0)
  {
    assert CopyInto(INIT_DATA, data[..Min(INIT_DATA, |data|)]) == Padded(data)[..INIT_DATA];
  }

  lemma NextFrameIs(channel: uint16, data: seq<byte>, k: nat)
    requires |data| > INIT_DATA && k < ChunkCount(|data| - INIT_DATA, NEXT_DATA)
    ensures k + 1 < FrameCount(|data|)
    ensures Marshal(HIDFrameNext(channel, HID_FRAME_TAG, (k + 1) % 0x1_0000,
                                 CopyInto(NEXT_DATA, Chunk(data[INIT_DATA..], NEXT_DATA, k)))) ==
            ResponseFrame(channel, data, k + 1)
  {
    NextChunkIsPaddedSlice(data, k);
  }

  lemma NextFrameCount(length: nat)
    requires length > INIT_DATA
    ensures ChunkCount(length - INIT_DATA, NEXT_DATA) == FrameCount(length) - 1
  {
  }

  method FormatResponse(channel: uint16, data: seq<byte>) returns (ret: seq<seq<byte>>)
    ensures ret == ResponseFrames(channel, data)
  {
    FirstFrameIs(channel, data);
    if |data| <= INIT_DATA {
      var hf := HIDFrame(channel, HID_FRAME_TAG, 0, |data|, CopyInto(INIT_DATA, data));
      assert data[..|data|] == data;
      return [Marshal(hf)];
    }
    var firstChunk := data[..INIT_DATA];
    var rest := data[INIT_DATA..];
    var chunks := ChunkFunc(rest, NEXT_DATA);
    var hf := HIDFrame(channel, HID_FRAME_TAG, 0, (|rest| + |firstChunk|) % 0x1_0000, CopyInto(INIT_DATA, firstChunk));
    var next := FormatNext(channel, chunks, data);
    ret := [Marshal(hf)] + next;
  }

  /** The loop of `FormatResponse` over the chunks after the first frame. */
  method FormatNext(channel: uint16, chunks: seq<seq<byte>>, ghost data: seq<byte>) returns (ret: seq<seq<byte>>)
    requires |data| > INIT_DATA && IsChunking(data[INIT_DATA..], NEXT_DATA, chunks)
    ensures |ret| == FrameCount(|data|) - 1
    ensures forall k :: 0 <= k < |ret| ==> ret[k] == ResponseFrame(channel, data, k + 1)
  {
    NextFrameCount(|data|);
    assert |chunks| == FrameCount(|data|) - 1;
    ret := [];
    for i := 0 to |chunks|
      invariant |ret| == i
      invariant forall k :: 0 <= k < i ==> ret[k] == ResponseFrame(channel, data, k + 1)
    {
      NextFrameIs(channel, data, i);
      var hf := HIDFrameNext(channel, HID_FRAME_TAG, (i + 1) % 0x1_0000, CopyInto(NEXT_DATA, chunks[i]));
      ret := ret + [Marshal(hf)];
    }
  }

  // ---------- round trip ----------

  /** Every field of a response frame, read back from the wire. */
  lemma ResponseFields(channel: uint16, data: seq<byte>, k: nat)
    requires k < FrameCount(|data|)
    ensures var f := ResponseFrame(channel, data, k);
      && Channel(f) == channel && Tag(f) == HID_FRAME_TAG && Index(f) == k % 0x1_0000
      && (k == 0 ==> Length(f) == Announced(data) && InitPayload(f) == Padded(data)[..INIT_DATA])
      && (k > 0 ==> NextPayload(f) == Padded(data)[Carried(k)..Carried(k + 1)])
  {
    if k == 0 {
      MarshalRoundTrip(HIDFrame(channel, HID_FRAME_TAG, 0, Announced(data), Padded(data)[..INIT_DATA]));
    } else {
      MarshalRoundTrip(HIDFrameNext(channel, HID_FRAME_TAG, k % 0x1_0000, Padded(data)[Carried(k)..Carried(k + 1)]));
    }
  }

  /** The k-th byte of the zero-padded data. */
  function PaddedByte(data: seq<byte>, k: nat): byte {
    if k < |data| then data[k] else 0
  }

  /** The first frame of a response on raw bytes. */
  lemma FirstFrameBytes(channel: uint16, data: seq<byte>)
    ensures var f, length := ResponseFrame(channel, data, 0), |data| % 65536;
      && f[..7] == [channel / 256, channel % 256, 0x05, 0, 0, length / 256, length % 256]
      && forall j :: 7 <= j < 64 ==> f[j] == PaddedByte(data, j - 7)
  {
    var f := ResponseFrame(channel, data, 0);
    var rest := Padded(data)[..INIT_DATA];
    OpeningLayout(channel / 256, channel % 256, 0x05, 0, 0, Announced(data) / 256, Announced(data) % 256, rest);
  }

  /** The k-th frame on raw bytes, for every k after the first. */
  lemma NextFrameBytes(channel: uint16, data: seq<byte>, k: nat)
    requires 0 < k < FrameCount(|data|)
    ensures var f, index := ResponseFrame(channel, data, k), k % 65536;
      && f[..5] == [channel / 256, channel % 256, 0x05, index / 256, index % 256]
      && forall j :: 5 <= j < 64 ==> f[j] == PaddedByte(data, 57 + 59 * (k - 1) + (j - 5))
  {
    var f, index := ResponseFrame(channel, data, k), k % 65536;
    var rest := Padded(data)[Carried(k)..Carried(k + 1)];
    NextLayout(channel / 256, channel % 256, 0x05, index / 256, index % 256, rest);
    assert f == [channel / 256, channel % 256, 0x05, index / 256, index % 256] + rest;
    forall j | 5 <= j < 64
      ensures f[j] == PaddedByte(data, 57 + 59 * (k - 1) + (j - 5))
    {
      assert f[j] == rest[j - 5] == Padded(data)[Carried(k) + (j - 5)];
    }
  }

  /** The first frames of a response, up to the one that completes the announced length, are a chain. */
  lemma ResponseChain(channel: uint16, data: seq<byte>, n: nat)
    requires channel != 0
    requires n <= FrameCount(Announced(data)) <= FrameCount(|data|)
    ensures Chain(ResponseFrames(channel, data)[..n])
  {
    var fs := ResponseFrames(channel, data)[..n];
    forall k | 0 <= k < n
      ensures Link(fs, k)
    {
      ResponseLink(channel, data, fs, k);
    }
  }

  lemma ResponseLink(channel: uint16, data: seq<byte>, fs: seq<seq<byte>>, k: nat)
    requires channel != 0
    requires k < |fs| <= FrameCount(Announced(data)) <= FrameCount(|data|)
    requires fs == ResponseFrames(channel, data)[..|fs|]
    ensures Link(fs, k)
  {
    assert fs[0] == ResponseFrame(channel, data, 0) && fs[k] == ResponseFrame(channel, data, k);
    ResponseFields(channel, data, 0);
    ResponseFields(channel, data, k);
    SmallIndex(Announced(data), k);
  }

  lemma SmallIndex(length: uint16, k: nat)
    requires k < FrameCount(length)
    ensures k % 0x1_0000 == k
    ensures k > 0 ==> Carried(k) < length
  {
  }

  lemma NeededMonotone(a: nat, b: nat)
    requires a <= b
    ensures Needed(a) <= Needed(b)
  {
  }

  lemma {:induction false} ResponsePayloads(channel: uint16, data: seq<byte>, n: nat)
    requires 0 < n <= FrameCount(|data|)
    ensures Payloads(ResponseFrames(channel, data)[..n]) == Padded(data)[..Carried(n)]
  {
    var all := ResponseFrames(channel, data);
    var fs := all[..n];
    assert fs[n - 1] == ResponseFrame(channel, data, n - 1);
    ResponseFields(channel, data, n - 1);
    if n > 1 {
      ResponsePayloads(channel, data, n - 1);
      assert fs[..n - 1] == all[..n - 1];
      SliceJoin(Padded(data), Carried(n - 1), Carried(n));
    }
  }

  lemma SliceJoin<T>(s: seq<T>, a: nat, b: nat)
    requires a <= b <= |s|
    ensures s[..a] + s[a..b] == s[..b]
  {
  }

  /** The state of a receiving session after n frames of a response. */
  lemma ResponsePrefix(channel: uint16, data: seq<byte>, n: nat)
    requires channel != 0
    requires 0 < n <= FrameCount(Announced(data))
    requires FrameCount(Announced(data)) <= FrameCount(|data|)
    ensures var length := Announced(data);
      Feed(FRESH, ResponseFrames(channel, data)[..n]) ==
      SessionState(channel, n - 1, Padded(data)[..Min(length, Carried(n))], Beyond(Padded(data)[..Carried(n)], length),
                   Carried(n) < length, length)
  {
    var fs, p := ResponseFrames(channel, data)[..n], Padded(data)[..Carried(n)];
    ResponseChain(channel, data, n);
    ChainIsAbsorbed(fs);
    ChainSized(fs);
    ResponsePayloads(channel, data, n);
    ResponseEnds(channel, data, fs);
    AssembledIs(fs, channel, n - 1, p, Announced(data));
    TakeTake(Padded(data), Carried(n), Min(Announced(data), Carried(n)));
  }

  /** Channel, announced length and last index of the first frames of a response. */
  lemma ResponseEnds(channel: uint16, data: seq<byte>, fs: seq<seq<byte>>)
    requires 0 < |fs| <= FrameCount(Announced(data)) <= FrameCount(|data|)
    requires fs == ResponseFrames(channel, data)[..|fs|]
    ensures Sized(fs[0]) && Channel(fs[0]) == channel && Length(fs[0]) == Announced(data)
    ensures Sized(fs[|fs| - 1]) && Index(fs[|fs| - 1]) == |fs| - 1
  {
    assert fs[0] == ResponseFrame(channel, data, 0) && fs[|fs| - 1] == ResponseFrame(channel, data, |fs| - 1);
    ResponseFields(channel, data, 0);
    ResponseFields(channel, data, |fs| - 1);
    SmallIndex(Announced(data), |fs| - 1);
  }

  lemma TakeTake<T>(s: seq<T>, a: nat, b: nat)
    requires b <= a <= |s|
    ensures s[..a][..b] == s[..b]
  {
  }

  lemma PaddedPrefix(data: seq<byte>, n: nat)
    requires n <= |data|
    ensures Padded(data)[..n] == data[..n]
  {
  }

  /** Once the announced length is complete, the remaining frames change nothing. */
  lemma PrefixDone(channel: uint16, data: seq<byte>, n: nat)
    requires channel != 0 && FrameCount(Announced(data)) <= n <= FrameCount(|data|)
    ensures var s := Feed(FRESH, ResponseFrames(channel, data)[..n]);
      !s.shouldReadMore && s.channelID == channel && s.data == data[..Announced(data)]
  {
    var all, enough := ResponseFrames(channel, data), FrameCount(Announced(data));
    ResponsePrefix(channel, data, enough);
    PaddedPrefix(data, Announced(data));
    FinishedStays(all, enough, n);
  }

  lemma FinishedStays(all: seq<seq<byte>>, m: nat, n: nat)
    requires m <= n <= |all|
    requires var s := Feed(FRESH, all[..m]); Open(s) && !s.shouldReadMore
    ensures Feed(FRESH, all[..n]) == Feed(FRESH, all[..m])
  {
    assert all[..n] == all[..m] + all[m..n];
    FeedAppend(FRESH, all[..m], all[m..n]);
    FinishedIsFinal(Feed(FRESH, all[..m]), all[m..n]);
  }

  /** After n frames the receiver wants more exactly when n is short of what the announced length needs. */
  lemma PrefixWants(channel: uint16, data: seq<byte>, n: nat)
    requires channel != 0 && n <= FrameCount(|data|)
    ensures Feed(FRESH, ResponseFrames(channel, data)[..n]).shouldReadMore <==> n < FrameCount(Announced(data))
  {
    NeededMonotone(Announced(data), |data|);
    if n >= FrameCount(Announced(data)) {
      PrefixDone(channel, data, n);
    } else if n > 0 {
      ResponsePrefix(channel, data, n);
    }
  }

  /**
    * Framing round trip for every length: the receiver ends with the data cut at |data| mod 2^16,
    * having wanted more after every proper prefix of the frames that this many bytes need.
    */
  lemma ResponseRoundTrip(channel: uint16, data: seq<byte>)
    requires channel != 0
    ensures var s := Feed(FRESH, ResponseFrames(channel, data));
      s.data == data[..Announced(data)] && !s.shouldReadMore && s.channelID == channel
    ensures forall n :: 0 <= n <= |ResponseFrames(channel, data)| ==>
      (Feed(FRESH, ResponseFrames(channel, data)[..n]).shouldReadMore <==> n < FrameCount(Announced(data)))
  {
    var all := ResponseFrames(channel, data);
    forall n | 0 <= n <= |all|
      ensures Feed(FRESH, all[..n]).shouldReadMore <==> n < FrameCount(Announced(data))
    {
      PrefixWants(channel, data, n);
    }
    NeededMonotone(Announced(data), |data|);
    PrefixDone(channel, data, |all|);
    assert all[..|all|] == all;
  }
}
