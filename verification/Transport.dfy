/**
  * What a transport session does with a stream of raw reports (usb/usb.go, `Session`).
  *
  * The specification is a closed form of one read; `Usb.Session` is the step-by-step code and is
  * proved against it. The theorems here are about arbitrary input streams.
  */
module Transport {
  import opened Bytes
  import opened Frames

  /** `tail` is what truncation left behind in the buffer's array, past the end of `data`. */
  datatype SessionState = SessionState(
    channelID: uint16,
    lastIndex: uint16,
    data: seq<byte>,
    tail: seq<byte>,
    shouldReadMore: bool,
    amountToRead: uint16)

  /** A reassembled message as its reader gets it: a slice whose array goes on with the discarded tail. */
  datatype Packet = Packet(message: seq<byte>, tail: seq<byte>)

  /** A session that has not seen its first frame. */
  const FRESH := SessionState(0, 0, [], [], true, 0)

  predicate Open(s: SessionState) {
    s.channelID != 0
  }

  /** `ReadData` returns no error. The first frame's index is free; later ones succeed modulo 2^16. */
  predicate Accepts(s: SessionState, buf: seq<byte>) {
    && Sized(buf) && Tag(buf) == HID_FRAME_TAG && Channel(buf) != 0
    && (Open(s) ==>
          && s.shouldReadMore
          && Channel(buf) == s.channelID
          && Index(buf) == (s.lastIndex + 1) % 0x1_0000)
  }

  /** `ReadData` returns no error, yet the frame is thrown away: its index has wrapped to 0. */
  predicate Stalls(s: SessionState, buf: seq<byte>) {
    Accepts(s, buf) && Open(s) && Index(buf) == 0
  }

  predicate Absorbs(s: SessionState, buf: seq<byte>) {
    Accepts(s, buf) && !Stalls(s, buf)
  }

  /** On raw bytes: a fresh session takes exactly the 64-byte reports with tag 0x05 on a nonzero channel. */
  lemma FreshAcceptsIff(buf: seq<byte>)
    ensures Accepts(FRESH, buf) <==> |buf| == 64 && buf[2] == 0x05 && !(buf[0] == 0 && buf[1] == 0)
  {
    if |buf| == 64 {
      assert buf[0..2] == [buf[0], buf[1]];
    }
  }

  /** On raw bytes: an open session takes exactly the successor report on its own channel. */
  lemma OpenAcceptsIff(s: SessionState, buf: seq<byte>)
    requires Open(s)
    ensures Accepts(s, buf) <==>
      && |buf| == 64 && buf[2] == 0x05 && s.shouldReadMore
      && buf[0] as int * 256 + buf[1] == s.channelID
      && buf[3] as int * 256 + buf[4] == (s.lastIndex + 1) % 65536
  {
    if |buf| == 64 {
      assert buf[0..2] == [buf[0], buf[1]] && buf[3..5] == [buf[3], buf[4]];
    }
  }

  /** The session after `ReadData(buf)`: the payload is appended and cut at the announced length. */
  function After(s: SessionState, buf: seq<byte>): SessionState {
    if !Absorbs(s, buf) then s
    else
      var amount := if Open(s) then s.amountToRead else Length(buf);
      var all := s.data + if Open(s) then NextPayload(buf) else InitPayload(buf);
      SessionState(Channel(buf), Index(buf), all[..Min(amount, |all|)], Beyond(all, amount), |all| < amount, amount)
  }

  /** The part of the written bytes that is cut off once the announced length is reached. */
  function Beyond(all: seq<byte>, length: nat): seq<byte> {
    if |all| < length then [] else all[length..]
  }

  function Feed(s: SessionState, bufs: seq<seq<byte>>): SessionState {
    if bufs == [] then s
    else After(Feed(s, bufs[..|bufs| - 1]), bufs[|bufs| - 1])
  }

  /** The inputs that changed the session, in order. */
  function Absorbed(s: SessionState, bufs: seq<seq<byte>>): seq<seq<byte>> {
    if bufs == [] then []
    else
      var before := bufs[..|bufs| - 1];
      Absorbed(s, before) + if Absorbs(Feed(s, before), bufs[|bufs| - 1]) then [bufs[|bufs| - 1]] else []
  }

  // ---------- what the absorbed frames look like ----------

  /** Length of the payload carried by an opening frame and n - 1 continuations. */
  function Carried(n: nat): int {
    57 + 59 * (n - 1)
  }

  /** Continuation frames that a message of the given length needs after its opening frame. */
  function Needed(length: nat): (n: nat)
    ensures length <= Carried(n + 1)
    ensures n > 0 ==> Carried(n) < length
  {
    if length <= 57 then 0 else (length - 57 + 58) / 59
  }

  /** One nonzero channel, consecutive indices that do not wrap, and no frame past the last needed. */
  predicate Chain(fs: seq<seq<byte>>) {
    forall k :: 0 <= k < |fs| ==> Link(fs, k)
  }

  predicate Link(fs: seq<seq<byte>>, k: nat)
    requires k < |fs|
  {
    && Sized(fs[0]) && Sized(fs[k])
    && Tag(fs[k]) == HID_FRAME_TAG
    && Channel(fs[k]) == Channel(fs[0]) != 0
    && Index(fs[k]) == Index(fs[0]) + k
    && (k > 0 ==> Carried(k) < Length(fs[0]))
  }

  function Payloads(fs: seq<seq<byte>>): (p: seq<byte>)
    requires forall f :: f in fs ==> Sized(f)
    ensures fs != [] ==> |p| == Carried(|fs|)
  {
    if fs == [] then []
    else if |fs| == 1 then InitPayload(fs[0])
    else Payloads(fs[..|fs| - 1]) + NextPayload(fs[|fs| - 1])
  }

  /** The session as a function of the absorbed frames alone. */
  function Assembled(fs: seq<seq<byte>>): SessionState
    requires Chain(fs)
  {
    if fs == [] then FRESH
    else
      var last := |fs| - 1;
      assert Link(fs, 0) && Link(fs, last);
      var length := Length(fs[0]);
      ChainSized(fs);
      SessionState(Channel(fs[0]), Index(fs[last]), Payloads(fs)[..Min(length, Carried(|fs|))],
                   Beyond(Payloads(fs), length), Carried(|fs|) < length, length)
  }

  lemma ChainSized(fs: seq<seq<byte>>)
    requires Chain(fs)
    ensures forall f :: f in fs ==> Sized(f)
  {
    forall f | f in fs
      ensures Sized(f)
    {
      var k :| 0 <= k < |fs| && fs[k] == f;
      assert Link(fs, k);
    }
  }

  lemma ChainPrefix(fs: seq<seq<byte>>, n: nat)
    requires Chain(fs) && n <= |fs|
    ensures Chain(fs[..n])
  {
    forall k | 0 <= k < n
      ensures Link(fs[..n], k)
    {
      assert Link(fs, k);
    }
  }

  /** Absorbing one more frame extends the chain and the assembled session with it. */
  lemma AssembleStep(fs: seq<seq<byte>>, buf: seq<byte>)
    requires Chain(fs)
    requires Absorbs(Assembled(fs), buf)
    ensures Chain(fs + [buf])
    ensures After(Assembled(fs), buf) == Assembled(fs + [buf])
  {
    if fs == [] {
      AssembleFirst(buf);
      assert fs + [buf] == [buf];
    } else {
      ChainExtends(fs, buf);
      AssembleNext(fs, buf);
    }
  }

  lemma AssembleFirst(buf: seq<byte>)
    requires Absorbs(FRESH, buf)
    ensures Chain([buf]) && After(FRESH, buf) == Assembled([buf])
  {
    assert Link([buf], 0);
    ChainSized([buf]);
    AssembledIs([buf], Channel(buf), Index(buf), InitPayload(buf), Length(buf));
    assert [] + InitPayload(buf) == InitPayload(buf);
  }

  lemma AssembleNext(fs: seq<seq<byte>>, buf: seq<byte>)
    requires Chain(fs) && fs != [] && Chain(fs + [buf])
    requires Absorbs(Assembled(fs), buf)
    ensures After(Assembled(fs), buf) == Assembled(fs + [buf])
  {
    var gs := fs + [buf];
    assert Link(fs, 0) && Link(gs, |fs|);
    ChainSized(fs);
    ChainSized(gs);
    assert gs[..|fs|] == fs && gs[|fs|] == buf;
    assert Payloads(fs)[..Carried(|fs|)] == Payloads(fs);
    AssembledIs(gs, Channel(buf), Index(buf), Payloads(fs) + NextPayload(buf), Length(fs[0]));
  }

  lemma AssembledIs(fs: seq<seq<byte>>, channel: uint16, last: uint16, payloads: seq<byte>, length: uint16)
    requires Chain(fs) && fs != []
    requires Sized(fs[0]) && Channel(fs[0]) == channel && Length(fs[0]) == length
    requires Sized(fs[|fs| - 1]) && Index(fs[|fs| - 1]) == last
    requires (forall f :: f in fs ==> Sized(f)) && Payloads(fs) == payloads
    ensures Assembled(fs) == SessionState(channel, last, payloads[..Min(length, |payloads|)], Beyond(payloads, length), |payloads| < length, length)
  {
  }

  lemma ChainExtends(fs: seq<seq<byte>>, buf: seq<byte>)
    requires Chain(fs) && fs != []
    requires Absorbs(Assembled(fs), buf)
    ensures Chain(fs + [buf])
  {
    var gs := fs + [buf];
    forall k | 0 <= k < |gs|
      ensures Link(gs, k)
    {
      assert Link(fs, 0) && Link(fs, |fs| - 1);
      if k < |fs| {
        assert Link(fs, k);
      }
    }
  }

  /**
    * Accepted-frame characterisation, for every input stream: whatever is thrown at a session, the
    * inputs that took effect form a chain and the session is exactly what that chain assembles to.
    */
  lemma {:induction false} FeedCharacterisation(bufs: seq<seq<byte>>)
    ensures Chain(Absorbed(FRESH, bufs))
    ensures Feed(FRESH, bufs) == Assembled(Absorbed(FRESH, bufs))
  {
    if bufs != [] {
      var before, buf := bufs[..|bufs| - 1], bufs[|bufs| - 1];
      FeedCharacterisation(before);
      var fs := Absorbed(FRESH, before);
      if Absorbs(Assembled(fs), buf) {
        AssembleStep(fs, buf);
      } else {
        assert fs + [] == fs;
      }
    }
  }

  /** Conversely every chain is absorbed whole: the characterisation is exact. */
  lemma {:induction false} ChainIsAbsorbed(fs: seq<seq<byte>>)
    requires Chain(fs)
    ensures Absorbed(FRESH, fs) == fs
    ensures Feed(FRESH, fs) == Assembled(fs)
  {
    if fs != [] {
      var last := |fs| - 1;
      var before := fs[..last];
      ChainPrefix(fs, last);
      ChainIsAbsorbed(before);
      assert fs == before + [fs[last]];
      LastLinkAbsorbs(fs);
      AssembleStep(before, fs[last]);
    }
  }

  lemma LastLinkAbsorbs(fs: seq<seq<byte>>)
    requires Chain(fs) && fs != [] && Chain(fs[..|fs| - 1])
    ensures Absorbs(Assembled(fs[..|fs| - 1]), fs[|fs| - 1])
  {
    var last := |fs| - 1;
    assert Link(fs, last);
    if last > 0 {
      assert Link(fs, last - 1) && Link(fs[..last], last - 1);
    }
  }

  /** Feeding is incremental. */
  lemma {:induction false} FeedAppend(s: SessionState, a: seq<seq<byte>>, b: seq<seq<byte>>)
    ensures Feed(s, a + b) == Feed(Feed(s, a), b)
  {
    if b == [] {
      assert a + b == a;
    } else {
      assert (a + b)[..|a + b| - 1] == a + b[..|b| - 1];
      FeedAppend(s, a, b[..|b| - 1]);
    }
  }

  /** A finished session never changes again. */
  lemma {:induction false} FinishedIsFinal(s: SessionState, bufs: seq<seq<byte>>)
    requires Open(s) && !s.shouldReadMore
    ensures Feed(s, bufs) == s
  {
    if bufs != [] {
      FinishedIsFinal(s, bufs[..|bufs| - 1]);
    }
  }

  // ---------- consequences: length, index and the silently dropped error ----------

  /** While more data is wanted the buffer is full frames only, and short of the announced length. */
  lemma WantingInvariant(bufs: seq<seq<byte>>)
    ensures var s, fs := Feed(FRESH, bufs), Absorbed(FRESH, bufs);
      Open(s) && s.shouldReadMore ==>
        && fs != [] && Sized(fs[0])
        && |s.data| == 57 + 59 * (s.lastIndex - Index(fs[0])) < s.amountToRead
    ensures |Absorbed(FRESH, bufs)| <= 1111
  {
    FeedCharacterisation(bufs);
    var fs := Absorbed(FRESH, bufs);
    if fs != [] {
      assert Link(fs, 0) && Link(fs, |fs| - 1);
    }
  }

  /**
    * A finished session took exactly the frames its length needs, so the bytes written are the whole
    * payload of that many frames: the message and the discarded tail of the last one.
    */
  lemma FinishedFrames(bufs: seq<seq<byte>>)
    ensures var s, fs := Feed(FRESH, bufs), Absorbed(FRESH, bufs);
      !s.shouldReadMore ==>
        && |s.data| == s.amountToRead
        && |fs| == 1 + Needed(s.amountToRead)
        && |s.data| + |s.tail| == Carried(|fs|)
  {
    FeedCharacterisation(bufs);
    var fs := Absorbed(FRESH, bufs);
    if !Feed(FRESH, bufs).shouldReadMore {
      assert Link(fs, 0) && Link(fs, |fs| - 1);
      ChainSized(fs);
      NeededIs(Length(fs[0]), |fs|);
    }
  }

  lemma NeededIs(length: nat, n: nat)
    requires n > 0 && length <= Carried(n) && (n > 1 ==> Carried(n - 1) < length)
    ensures n == 1 + Needed(length)
  {
  }

  /** From a first index of at most 64425 the wrapped index 0 is never the expected one. */
  lemma NoStallBelow(bufs: seq<seq<byte>>, buf: seq<byte>)
    requires var fs := Absorbed(FRESH, bufs); fs != [] && Sized(fs[0]) && Index(fs[0]) <= 64425
    ensures !Stalls(Feed(FRESH, bufs), buf)
  {
    WantingInvariant(bufs);
    NoStallFrom(Feed(FRESH, bufs), Index(Absorbed(FRESH, bufs)[0]), buf);
  }

  lemma NoStallFrom(s: SessionState, first: uint16, buf: seq<byte>)
    requires first <= 64425
    requires Open(s) && s.shouldReadMore ==> 57 + 59 * (s.lastIndex - first) < s.amountToRead
    ensures !Stalls(s, buf)
  {
    if Open(s) && s.shouldReadMore {
      NoWrap(first, s.lastIndex, s.amountToRead);
    }
  }

  lemma NoWrap(first: uint16, last: uint16, length: uint16)
    requires first <= 64425 && 57 + 59 * (last - first) < length
    ensures (last + 1) % 0x1_0000 != 0
  {
  }

  function Filler(f0: seq<byte>, n: nat): (fs: seq<seq<byte>>)
    requires Sized(f0) && Index(f0) + n <= 0xFFFF
    ensures |fs| == n
  {
    seq(n, k requires 0 <= k < n => Marshal(HIDFrameNext(Channel(f0), HID_FRAME_TAG, Index(f0) + k + 1, Zeros(NEXT_DATA))))
  }

  /** Index 0 is not the expected successor of any frame the opening frame needs. */
  predicate RoomForIndices(f0: seq<byte>)
    requires Sized(f0)
  {
    Index(f0) + Needed(Length(f0)) <= 0xFFFF
  }

  /**
    * A session can be completed exactly when its last needed index still fits 16 bits. Past that
    * point the dropped error of `readFrame` leaves it waiting for ever, whatever the host sends.
    */
  lemma CompletableIff(f0: seq<byte>)
    requires Accepts(FRESH, f0)
    ensures (exists bufs :: !Feed(FRESH, [f0] + bufs).shouldReadMore) <==> RoomForIndices(f0)
  {
    if RoomForIndices(f0) {
      var rest := Filler(f0, Needed(Length(f0)));
      FillerCompletes(f0, rest);
      assert !Feed(FRESH, [f0] + rest).shouldReadMore;
    }
    forall bufs | !Feed(FRESH, [f0] + bufs).shouldReadMore
      ensures RoomForIndices(f0)
    {
      CompletedHasRoom(f0, bufs);
    }
  }

  lemma FillerCompletes(f0: seq<byte>, rest: seq<seq<byte>>)
    requires Accepts(FRESH, f0) && RoomForIndices(f0)
    requires rest == Filler(f0, Needed(Length(f0)))
    ensures !Feed(FRESH, [f0] + rest).shouldReadMore
  {
    var fs := [f0] + rest;
    forall k | 0 <= k < |fs|
      ensures Link(fs, k)
    {
      if k > 0 {
        MarshalRoundTrip(HIDFrameNext(Channel(f0), HID_FRAME_TAG, Index(f0) + k, Zeros(NEXT_DATA)));
        assert fs[k] == rest[k - 1];
      }
    }
    ChainIsAbsorbed(fs);
  }

  lemma CompletedHasRoom(f0: seq<byte>, bufs: seq<seq<byte>>)
    requires Accepts(FRESH, f0)
    requires !Feed(FRESH, [f0] + bufs).shouldReadMore
    ensures RoomForIndices(f0)
  {
    var fs := Absorbed(FRESH, [f0] + bufs);
    FirstAbsorbed(f0, bufs);
    FeedCharacterisation([f0] + bufs);
    assert Link(fs, 0) && Link(fs, |fs| - 1);
  }

  lemma {:induction false} FirstAbsorbed(f0: seq<byte>, bufs: seq<seq<byte>>)
    requires Accepts(FRESH, f0)
    ensures var fs := Absorbed(FRESH, [f0] + bufs); fs != [] && fs[0] == f0
  {
    var all := [f0] + bufs;
    if bufs == [] {
      assert all[..0] == [];
      assert Feed(FRESH, all[..0]) == FRESH && Absorbed(FRESH, all[..0]) == [];
    } else {
      assert all[..|all| - 1] == [f0] + bufs[..|bufs| - 1];
      FirstAbsorbed(f0, bufs[..|bufs| - 1]);
    }
  }

  const STALL_OPEN := HIDFrame(1, HID_FRAME_TAG, 0xFFFF, 58, Zeros(INIT_DATA))
  const STALL_NEXT := HIDFrameNext(1, HID_FRAME_TAG, 0, Zeros(NEXT_DATA))

  lemma StallFields()
    ensures var f0, f1 := Marshal(STALL_OPEN), Marshal(STALL_NEXT);
      && Channel(f0) == Channel(f1) == 1 && Tag(f0) == Tag(f1) == HID_FRAME_TAG
      && Index(f0) == 0xFFFF && Index(f1) == 0 && Length(f0) == 58
  {
    MarshalRoundTrip(STALL_OPEN);
    MarshalRoundTrip(STALL_NEXT);
  }

  /** An opening frame of index 65535 and length 58: its successor is accepted, dropped, and nothing helps. */
  lemma StallExample(bufs: seq<seq<byte>>)
    ensures var f0, f1 := Marshal(STALL_OPEN), Marshal(STALL_NEXT);
      && Accepts(Feed(FRESH, [f0]), f1) && Feed(FRESH, [f0, f1]) == Feed(FRESH, [f0])
      && Feed(FRESH, [f0] + bufs).shouldReadMore
  {
    var f0: seq<byte>, f1: seq<byte> := Marshal(STALL_OPEN), Marshal(STALL_NEXT);
    StallFields();
    assert [f0][..0] == [];
    assert [f0, f1][..1] == [f0];
    assert Feed(FRESH, [f0]) == After(FRESH, f0);
    assert !RoomForIndices(f0);
    if !Feed(FRESH, [f0] + bufs).shouldReadMore {
      CompletedHasRoom(f0, bufs);
    }
  }
}
