/** The transport session as the firmware runs it (usb/usb.go), proved against `Transport`. */
module Usb {
  import opened Bytes
  import opened Frames
  import opened Transport
  import Response

  /** `ReadFrame` returns no error: any frame opens a session, and an open one takes the successor. */
  predicate TakesFrame(s: SessionState, frame: Frame) {
    Open(s) ==> s.shouldReadMore && frame.channelID == s.channelID && frame.packetIndex == (s.lastIndex + 1) % 0x1_0000
  }

  /** The session with the frame's payload appended and cut at the announced length. */
  function Written(s: SessionState, frame: Frame): SessionState {
    var amount := if frame.HIDFrame? then frame.dataLength else s.amountToRead;
    var all := s.data + frame.data;
    SessionState(frame.channelID, frame.packetIndex, all[..Min(amount, |all|)], Beyond(all, amount),
                 |all| < amount && (frame.HIDFrame? || s.shouldReadMore), amount)
  }

  function AfterFrame(s: SessionState, frame: Frame): SessionState {
    if !TakesFrame(s, frame) || (Open(s) && frame.packetIndex == 0) then s else Written(s, frame)
  }

  /** The data field of `bytes.Buffer` is `data`; `tail` is the written part of its array past it. */
  class Session {
    var channelID: uint16
    var lastReadFrameIndex: uint16
    var data: seq<byte>
    var tail: seq<byte>
    var shouldReadMore: bool
    var amountToRead: uint16

    ghost function State(): SessionState
      reads this
    {
      SessionState(channelID, lastReadFrameIndex, data, tail, shouldReadMore, amountToRead)
    }

    constructor ()
      ensures State() == FRESH
    {
      channelID, lastReadFrameIndex, data, tail, shouldReadMore, amountToRead := 0, 0, [], [], true, 0;
    }

    /** A session started on its first report, or nothing when that report is refused. */
    static method NewSession(buf: seq<byte>) returns (s: Session, ok: bool)
      ensures fresh(s)
      ensures ok == Accepts(FRESH, buf)
      ensures s.State() == After(FRESH, buf)
    {
      s := new Session();
      ok := s.ReadData(buf);
    }

    method ReadData(buf: seq<byte>) returns (ok: bool)
      modifies this
      ensures ok == Accepts(old(State()), buf)
      ensures State() == After(old(State()), buf)
    {
      var dest := Unmarshal(channelID == 0, buf);
      if dest.None? {
        return false;
      }
      if !dest.value.Validates() {
        return false;
      }
      ok := ReadFrame(dest.value);
    }

    /** Any frame may be offered, of either layout and unvalidated. */
    method ReadFrame(frame: Frame) returns (ok: bool)
      requires frame.WellSized()
      modifies this
      ensures ok == TakesFrame(old(State()), frame)
      ensures State() == AfterFrame(old(State()), frame)
    {
      if channelID == 0 {
        ok := Absorb(frame);
        return;
      }
      if !shouldReadMore {
        return false;
      }
      if channelID != frame.channelID {
        return false;
      }
      if (frame.packetIndex - lastReadFrameIndex) % 0x1_0000 != 1 {
        return false;
      }
      var _ := Absorb(frame);  // the caller never sees this result
      return true;
    }

    /** The unexported `readFrame`. */
    method Absorb(frame: Frame) returns (ok: bool)
      requires frame.WellSized()
      modifies this
      ensures ok <==> !(Open(old(State())) && frame.packetIndex == 0)
      ensures State() == if ok then Written(old(State()), frame) else old(State())
    {
      if channelID != 0 && frame.packetIndex == 0 {
        return false;
      }
      channelID := frame.channelID;
      lastReadFrameIndex := frame.packetIndex;
      data, tail := data + frame.data, [];
      if frame.HIDFrame? {
        shouldReadMore := !(frame.DataLength() <= INIT_DATA);
        amountToRead := frame.DataLength();
      }
      if |data| >= amountToRead {
        shouldReadMore := false;
        data, tail := data[..amountToRead], data[amountToRead..];
      }
      return true;
    }

    method FormatResponse(resp: seq<byte>) returns (frames: seq<seq<byte>>)
      ensures frames == Response.ResponseFrames(channelID, resp)
    {
      frames := Response.FormatResponse(channelID, resp);
    }
  }
}
