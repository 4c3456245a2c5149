/** The two 64-byte HID frame layouts and their big-endian encoding (usb/usb.go). */
module Frames {
  import opened Bytes

  const FRAME_SIZE := 64
  const INIT_DATA := 57
  const NEXT_DATA := 59
  const HID_FRAME_TAG: byte := 0x05

  /** `HIDFrame` opens a message and announces its length; `HIDFrameNext` continues one. */
  datatype Frame =
    | HIDFrame(channelID: uint16, tag: byte, packetIndex: uint16, dataLength: uint16, data: seq<byte>)
    | HIDFrameNext(channelID: uint16, tag: byte, packetIndex: uint16, data: seq<byte>)
  {
    predicate WellSized() {
      |data| == if HIDFrame? then INIT_DATA else NEXT_DATA
    }

    predicate Validates() {
      tag == HID_FRAME_TAG && channelID != 0
    }

    function DataLength(): uint16 {
      if HIDFrame? then dataLength else 0
    }
  }

  function Marshal(f: Frame): (buf: seq<byte>)
    requires f.WellSized()
    ensures |buf| == FRAME_SIZE
  {
    PutUint16(f.channelID) + [f.tag] + PutUint16(f.packetIndex) +
    (if f.HIDFrame? then PutUint16(f.dataLength) else []) + f.data
  }

  // ---------- fields of a raw 64-byte report ----------

  predicate Sized(buf: seq<byte>) {
    |buf| == FRAME_SIZE
  }

  function Channel(buf: seq<byte>): uint16
    requires Sized(buf)
  {
    GetUint16(buf[0..2])
  }

  function Tag(buf: seq<byte>): byte
    requires Sized(buf)
  {
    buf[2]
  }

  function Index(buf: seq<byte>): uint16
    requires Sized(buf)
  {
    GetUint16(buf[3..5])
  }

  /** The announced message length; meaningful in an opening frame only. */
  function Length(buf: seq<byte>): uint16
    requires Sized(buf)
  {
    GetUint16(buf[5..7])
  }

  function InitPayload(buf: seq<byte>): (d: seq<byte>)
    requires Sized(buf)
    ensures |d| == INIT_DATA
  {
    buf[7..]
  }

  function NextPayload(buf: seq<byte>): (d: seq<byte>)
    requires Sized(buf)
    ensures |d| == NEXT_DATA
  {
    buf[5..]
  }

  /** Reads a report in one of the two layouts; anything but 64 bytes is refused. */
  function Unmarshal(opening: bool, buf: seq<byte>): (f: Option<Frame>)
    ensures f.Some? ==> f.value.WellSized()
  {
    if |buf| > FRAME_SIZE || |buf| == 0 then None       // explicit length check
    else if |buf| < FRAME_SIZE then None                // short read inside binary.Read
    else if opening then Some(HIDFrame(Channel(buf), Tag(buf), Index(buf), Length(buf), InitPayload(buf)))
    else Some(HIDFrameNext(Channel(buf), Tag(buf), Index(buf), NextPayload(buf)))
  }

  /** Every field has its place on the wire, and reading a written frame gives the frame back. */
  lemma MarshalRoundTrip(f: Frame)
    requires f.WellSized()
    ensures Unmarshal(f.HIDFrame?, Marshal(f)) == Some(f)
    ensures Marshal(f)[..5] ==
      [f.channelID / 256, f.channelID % 256, f.tag, f.packetIndex / 256, f.packetIndex % 256]
    ensures Marshal(f)[5..] == if f.HIDFrame? then [f.dataLength / 256, f.dataLength % 256] + f.data else f.data
  {
    var buf := Marshal(f);
    Uint16RoundTrip(f.channelID, [0, 0]);
    Uint16RoundTrip(f.packetIndex, [0, 0]);
    assert buf[0..2] == PutUint16(f.channelID);
    assert buf[3..5] == PutUint16(f.packetIndex);
    if f.HIDFrame? {
      Uint16RoundTrip(f.dataLength, [0, 0]);
      assert buf[5..7] == PutUint16(f.dataLength);
      assert buf[7..] == f.data;
    } else {
      assert buf[5..] == f.data;
    }
  }

  /** The fields sit at fixed bytes, and no two reports decode to the same frame. */
  lemma UnmarshalRoundTrip(opening: bool, buf: seq<byte>)
    requires Sized(buf)
    ensures Unmarshal(opening, buf).Some? && Marshal(Unmarshal(opening, buf).value) == buf
    ensures var channel, index := buf[0] as int * 256 + buf[1], buf[3] as int * 256 + buf[4];
      Unmarshal(opening, buf).value ==
        if opening then HIDFrame(channel, buf[2], index, buf[5] as int * 256 + buf[6], buf[7..])
        else HIDFrameNext(channel, buf[2], index, buf[5..])
  {
    Uint16RoundTrip(0, buf[0..2]);
    Uint16RoundTrip(0, buf[3..5]);
    Uint16RoundTrip(0, buf[5..7]);
    assert buf == buf[0..2] + [buf[2]] + buf[3..5] + buf[5..7] + buf[7..];
    assert buf == buf[0..2] + [buf[2]] + buf[3..5] + [] + buf[5..];
  }

  // ---------- the layouts, byte by byte ----------

  /** An opening report: channel, tag, index and length big-endian, then 57 bytes of data. */
  lemma OpeningLayout(c1: byte, c0: byte, t: byte, i1: byte, i0: byte, l1: byte, l0: byte, rest: seq<byte>)
    requires |rest| == 57
    ensures var f := HIDFrame(c1 as int * 256 + c0, t, i1 as int * 256 + i0, l1 as int * 256 + l0, rest);
      Unmarshal(true, [c1, c0, t, i1, i0, l1, l0] + rest) == Some(f) && Marshal(f) == [c1, c0, t, i1, i0, l1, l0] + rest
  {
    var buf := [c1, c0, t, i1, i0, l1, l0] + rest;
    assert buf[0..2] == [c1, c0] && buf[3..5] == [i1, i0] && buf[5..7] == [l1, l0] && buf[7..] == rest;
    UnmarshalRoundTrip(true, buf);
  }

  /** A continuation report: channel, tag and index big-endian, then 59 bytes of data. */
  lemma NextLayout(c1: byte, c0: byte, t: byte, i1: byte, i0: byte, rest: seq<byte>)
    requires |rest| == 59
    ensures var f := HIDFrameNext(c1 as int * 256 + c0, t, i1 as int * 256 + i0, rest);
      Unmarshal(false, [c1, c0, t, i1, i0] + rest) == Some(f) && Marshal(f) == [c1, c0, t, i1, i0] + rest
  {
    var buf := [c1, c0, t, i1, i0] + rest;
    assert buf[0..2] == [c1, c0] && buf[3..5] == [i1, i0] && buf[5..] == rest;
    UnmarshalRoundTrip(false, buf);
  }
}
