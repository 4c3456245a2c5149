/**
  * Both directions of the wire. The host reads the device's outbound frames with the same transport
  * session the device uses, so what the host learns can be stated as decoded replies.
  */
module Duplex {
  import Apdu
  import opened Bytes
  import opened Frames
  import opened Transport
  import opened Response
  import opened Rx
  import opened MessageLoop

  datatype Reply = Reply(channel: uint16, data: seq<byte>)

  function NotAllowed(channel: uint16): Reply {
    Reply(channel, Apdu.PackageResponse([], Apdu.COMMAND_NOT_ALLOWED))
  }

  /** The frames that carry a list of replies. */
  function Wire(rs: seq<Reply>): seq<seq<byte>> {
    if rs == [] then []
    else Wire(rs[..|rs| - 1]) + ResponseFrames(rs[|rs| - 1].channel, rs[|rs| - 1].data)
  }

  function Data(rs: seq<Reply>): (ds: seq<seq<byte>>)
    ensures |ds| == |rs|
  {
    seq(|rs|, i requires 0 <= i < |rs| => rs[i].data)
  }

  lemma {:induction false} WireAppend(a: seq<Reply>, b: seq<Reply>)
    ensures Wire(a + b) == Wire(a) + Wire(b)
  {
    if b == [] {
      assert a + b == a;
    } else {
      var before, r := b[..|b| - 1], b[|b| - 1];
      assert (a + b)[..|a + b| - 1] == a + before;
      WireAppend(a, before);
      Assoc(Wire(a), Wire(before), ResponseFrames(r.channel, r.data));
    }
  }

  lemma WireOne(r: Reply)
    ensures Wire([r]) == ResponseFrames(r.channel, r.data)
  {
    assert [r][..0] == [];
    assert Wire([r][..0]) == [];
  }

  lemma {:induction false} WireOfRefusals(channel: uint16, n: nat)
    ensures Wire(Repeat(NotAllowed(channel), n)) == Repeat(Refusal(channel)[0], n)
  {
    if n > 0 {
      var rs := Repeat(NotAllowed(channel), n);
      assert rs[..n - 1] == Repeat(NotAllowed(channel), n - 1);
      WireOfRefusals(channel, n - 1);
      assert Repeat(Refusal(channel)[0], n - 1) + Refusal(channel) == Repeat(Refusal(channel)[0], n);
    }
  }

  /** A refusal is the two bytes 69 86, alone in one frame on the session's channel. */
  lemma RefusalBytes(channel: uint16)
    ensures NotAllowed(channel) == Reply(channel, [0x69, 0x86])
    ensures Refusal(channel) == [[channel / 256, channel % 256, 0x05, 0, 0, 0, 2, 0x69, 0x86] + Zeros(55)]
  {
    var data := [0x69, 0x86];
    Apdu.StatusBytes([]);
    FirstFrameBytes(channel, data);
    var f := ResponseFrame(channel, data, 0);
    assert f == f[..7] + f[7..];
    assert f[7..] == data + Zeros(55);
    assert f == [channel / 256, channel % 256, 0x05, 0, 0, 0, 2, 0x69, 0x86] + Zeros(55);
    assert Refusal(channel) == [f];
  }

  // ---------- the host's reader ----------

  /** The host keeps every message it assembles and sends nothing back. */
  function Collect(log: seq<seq<byte>>, packet: Packet): Outcome<seq<seq<byte>>> {
    Done(log + [packet.message], None)
  }

  function HostReads(frames: seq<seq<byte>>): RxState<seq<seq<byte>>> {
    Run(Collect, Idle([], []), frames)
  }

  function Quiet(r: Reply): Transmission {
    Transmission(r.channel, r.data, Repeat([], Needed(|r.data|)))
  }

  predicate Sendable(r: Reply) {
    r.channel != 0 && |r.data| < 0x1_0000
  }

  predicate AllSendable(rs: seq<Reply>) {
    forall i :: 0 <= i < |rs| ==> Sendable(rs[i])
  }

  lemma QuietWellFormed(r: Reply)
    requires Sendable(r)
    ensures WellFormed(Quiet(r))
  {
    forall k | 0 <= k < |Quiet(r).noise|
      ensures IsNoise(r.channel, k + 1, Quiet(r).noise[k])
    {
      assert Quiet(r).noise[k] == [];
    }
  }

  lemma {:induction false} QuietInputs(r: Reply, n: nat)
    requires Sendable(r) && n <= Needed(|r.data|) && WellFormed(Quiet(r))
    ensures InputsThrough(Quiet(r), n) == ResponseFrames(r.channel, r.data)[..n + 1]
    ensures NoiseBefore(Quiet(r), n) == 0
  {
    var frames := ResponseFrames(r.channel, r.data);
    assert frames[n] == ResponseFrame(r.channel, r.data, n);
    TakeSnoc(frames, n);
    if n > 0 {
      QuietInputs(r, n - 1);
      assert Quiet(r).noise[n - 1] == [];
    }
  }

  lemma TakeSnoc<T>(s: seq<T>, n: nat)
    requires n < |s|
    ensures s[..n] + ([] + [s[n]]) == s[..n + 1]
    ensures s[..|s|] == s
  {
  }

  /** Without noise the inputs of a transmission are just its frames. */
  lemma QuietIsFrames(r: Reply)
    requires Sendable(r)
    ensures WellFormed(Quiet(r)) && Inputs(Quiet(r)) == ResponseFrames(r.channel, r.data)
    ensures NoiseBefore(Quiet(r), |Quiet(r).noise|) == 0
  {
    QuietWellFormed(r);
    QuietInputs(r, Needed(|r.data|));
    TakeSnoc(ResponseFrames(r.channel, r.data), 0);
  }

  lemma QuietExchange(log: seq<seq<byte>>, t: Transmission)
    requires WellFormed(t) && NoiseBefore(t, |t.noise|) == 0
    ensures Exchange(Collect, Idle([], log), t) == Idle([], log + [t.message])
  {
    assert [] + Repeat(Refusal(t.channel)[0], 0) == [];
  }

  lemma HostReadsOne(log: seq<seq<byte>>, r: Reply)
    requires Sendable(r)
    ensures Run(Collect, Idle([], log), ResponseFrames(r.channel, r.data)) == Idle([], log + [r.data])
  {
    QuietIsFrames(r);
    TransmissionIsExchange(Collect, Idle([], log), Quiet(r));
    QuietExchange(log, Quiet(r));
  }

  lemma HostReadsMore(frames: seq<seq<byte>>, log: seq<seq<byte>>, r: Reply)
    requires HostReads(frames) == Idle([], log) && Sendable(r)
    ensures HostReads(frames + ResponseFrames(r.channel, r.data)) == Idle([], log + [r.data])
  {
    RunAppend(Collect, Idle([], []), frames, ResponseFrames(r.channel, r.data));
    HostReadsOne(log, r);
  }

  lemma DataSnoc(rs: seq<Reply>, r: Reply)
    ensures Data(rs + [r]) == Data(rs) + [r.data]
  {
  }

  /** Whatever list of replies is put on the wire, the host reads exactly that list. */
  lemma {:induction false} HostReadsReplies(rs: seq<Reply>)
    requires AllSendable(rs)
    ensures HostReads(Wire(rs)) == Idle([], Data(rs))
  {
    if rs != [] {
      var before, r := rs[..|rs| - 1], rs[|rs| - 1];
      assert rs == before + [r];
      assert Sendable(r) && AllSendable(before);
      HostReadsReplies(before);
      HostReadsMore(Wire(before), Data(before), r);
      DataSnoc(before, r);
    }
  }

  // ---------- a whole conversation ----------

  datatype Tally<+A> = Tally(app: A, replies: seq<Reply>)

  /** Replies the message loop owes for a list of transmissions; None if the application panics. */
  function Owed<A>(handle: Handle<A>, app: A, ts: seq<Transmission>): Option<Tally<A>>
    requires AllWellFormed(ts)
  {
    if ts == [] then Some(Tally(app, []))
    else
      match Owed(handle, app, ts[..|ts| - 1])
      case None => None
      case Some(tally) => Charge(handle, tally, ts[|ts| - 1])
  }

  function Charge<A>(handle: Handle<A>, tally: Tally<A>, t: Transmission): Option<Tally<A>> {
    match handle(tally.app, Framed(t.message))
    case Panic => None
    case Done(app, resp) => Some(Tally(app, tally.replies + Added(t, resp)))
  }

  /** The replies one transmission adds. */
  function Added(t: Transmission, resp: Option<seq<byte>>): seq<Reply> {
    Repeat(NotAllowed(t.channel), NoiseBefore(t, |t.noise|)) +
    (if resp.None? then [] else [Reply(t.channel, resp.value)])
  }

  lemma WireOfAdded(t: Transmission, resp: Option<seq<byte>>)
    ensures Wire(Added(t, resp)) ==
      Repeat(Refusal(t.channel)[0], NoiseBefore(t, |t.noise|)) +
      (if resp.None? then [] else ResponseFrames(t.channel, resp.value))
  {
    var refusals := Repeat(NotAllowed(t.channel), NoiseBefore(t, |t.noise|));
    var tail := if resp.None? then [] else [Reply(t.channel, resp.value)];
    WireAppend(refusals, tail);
    WireOfRefusals(t.channel, NoiseBefore(t, |t.noise|));
    if resp.Some? {
      WireOne(Reply(t.channel, resp.value));
    }
  }

  lemma ExchangePays<A>(handle: Handle<A>, out: seq<seq<byte>>, tally: Tally<A>, t: Transmission)
    requires WellFormed(t) && Charge(handle, tally, t).Some?
    ensures Exchange(handle, Idle(out + Wire(tally.replies), tally.app), t) ==
      Idle(out + Wire(Charge(handle, tally, t).value.replies), Charge(handle, tally, t).value.app)
  {
    var resp := handle(tally.app, Framed(t.message)).response;
    WireOfAdded(t, resp);
    WireAppend(tally.replies, Added(t, resp));
    Regroup(out, Wire(tally.replies), Repeat(Refusal(t.channel)[0], NoiseBefore(t, |t.noise|)),
            if resp.None? then [] else ResponseFrames(t.channel, resp.value));
  }

  lemma Regroup<T>(a: seq<T>, b: seq<T>, c: seq<T>, d: seq<T>)
    ensures a + b + c + d == a + (b + (c + d))
  {
  }

  lemma {:induction false} LoopPaysOwed<A>(handle: Handle<A>, out: seq<seq<byte>>, app: A, ts: seq<Transmission>)
    requires AllWellFormed(ts)
    requires Owed(handle, app, ts).Some?
    ensures var tally := Owed(handle, app, ts).value;
      Loop(handle, Idle(out, app), ts) == Idle(out + Wire(tally.replies), tally.app)
  {
    if ts == [] {
      assert out + Wire([]) == out;
    } else {
      var before := ts[..|ts| - 1];
      LoopPaysOwed(handle, out, app, before);
      ExchangePays(handle, out, Owed(handle, app, before).value, ts[|ts| - 1]);
    }
  }

  /**
    * For every application and every list of noisy transmissions, the host's reader recovers exactly
    * the replies the message loop owes, in order, and the device is idle again.
    */
  lemma Conversation<A>(handle: Handle<A>, app: A, ts: seq<Transmission>)
    requires AllWellFormed(ts)
    requires Owed(handle, app, ts).Some?
    requires AllSendable(Owed(handle, app, ts).value.replies)
    ensures var tally := Owed(handle, app, ts).value;
      var device := Run(handle, Idle([], app), AllInputs(ts));
      && device == Idle(Wire(tally.replies), tally.app)
      && HostReads(device.outbound) == Idle([], Data(tally.replies))
  {
    var rs := Owed(handle, app, ts).value.replies;
    RxRefinesLoop(handle, Idle([], app), ts);
    LoopPaysOwed(handle, [], app, ts);
    assert [] + Wire(rs) == Wire(rs);
    HostReadsReplies(rs);
  }

  /** One message through any noise: the host reads 69 86 for each refused report and then the reply. */
  lemma OneMessage<A>(handle: Handle<A>, app: A, t: Transmission, after: A, reply: seq<byte>)
    requires WellFormed(t) && |reply| < 0x1_0000
    requires handle(app, Framed(t.message)) == Done(after, Some(reply))
    ensures var device := Run(handle, Idle([], app), Inputs(t));
      && device == Idle(device.outbound, after)
      && HostReads(device.outbound) == Idle([], Repeat([0x69, 0x86], NoiseBefore(t, |t.noise|)) + [reply])
  {
    var rs, n := Added(t, Some(reply)), NoiseBefore(t, |t.noise|);
    TransmissionIsExchange(handle, Idle([], app), t);
    WireOfAdded(t, Some(reply));
    assert [] + Repeat(Refusal(t.channel)[0], n) == Repeat(Refusal(t.channel)[0], n);
    RefusalBytes(t.channel);
    HostReadsReplies(rs);
    assert Data(rs) == Repeat([0x69, 0x86], n) + [reply];
  }

  // ---------- arbitrary input ----------

  /** The replies one call owes: a refusal, the application's answer, or nothing. */
  function StepReplies<A>(handle: Handle<A>, st: RxState<A>, buf: seq<byte>): seq<Reply> {
    if st.faulted then []
    else if st.session.Some? && !Accepts(st.session.value, buf) then [NotAllowed(st.session.value.channelID)]
    else if Delivered(st, buf) == [] || !Sized(buf) then []
    else match handle(st.app, Delivered(st, buf)[0])
      case Panic => []
      case Done(_, None) => []
      case Done(_, Some(resp)) => [Reply(Channel(buf), resp)]
  }

  function Ledger<A>(handle: Handle<A>, st: RxState<A>, bufs: seq<seq<byte>>): seq<Reply> {
    if bufs == [] then []
    else
      var before := bufs[..|bufs| - 1];
      Ledger(handle, st, before) + StepReplies(handle, Run(handle, st, before), bufs[|bufs| - 1])
  }

  lemma StepWrites<A>(handle: Handle<A>, st: RxState<A>, buf: seq<byte>)
    requires Settled(st)
    ensures FirmwareRx(handle, st, buf).outbound == st.outbound + Wire(StepReplies(handle, st, buf))
    ensures forall r :: r in StepReplies(handle, st, buf) ==> r.channel != 0
  {
    assert st.outbound + Wire([]) == st.outbound;
    if !st.faulted {
      RxLifecycle(handle, st, buf);
      if st.session.Some? && !Accepts(st.session.value, buf) {
        WireOne(NotAllowed(st.session.value.channelID));
      } else if Delivered(st, buf) != [] && handle(st.app, Delivered(st, buf)[0]).Done? {
        var resp := handle(st.app, Delivered(st, buf)[0]).response;
        if resp.Some? {
          WireOne(Reply(Channel(buf), resp.value));
        }
      }
    }
  }

  /** Whatever the input, even up to a fault, the outbound stream is the frames of the ledger. */
  lemma {:induction false} OutboundIsLedger<A>(handle: Handle<A>, st: RxState<A>, bufs: seq<seq<byte>>)
    requires Settled(st)
    ensures Run(handle, st, bufs).outbound == st.outbound + Wire(Ledger(handle, st, bufs))
    ensures forall r :: r in Ledger(handle, st, bufs) ==> r.channel != 0
  {
    if bufs == [] {
      assert st.outbound + Wire([]) == st.outbound;
    } else {
      var before, buf := bufs[..|bufs| - 1], bufs[|bufs| - 1];
      OutboundIsLedger(handle, st, before);
      RunSettled(handle, st, before);
      var mid := Run(handle, st, before);
      StepWrites(handle, mid, buf);
      WireOnto(st.outbound, Ledger(handle, st, before), StepReplies(handle, mid, buf));
    }
  }

  lemma WireOnto(out: seq<seq<byte>>, a: seq<Reply>, b: seq<Reply>)
    ensures out + Wire(a) + Wire(b) == out + Wire(a + b)
  {
    WireAppend(a, b);
  }

  /** So for every input stream the host reads back exactly one reply per refused or answered report. */
  lemma HostReadsLedger<A>(handle: Handle<A>, app: A, bufs: seq<seq<byte>>)
    requires forall r :: r in Ledger(handle, Idle([], app), bufs) ==> |r.data| < 0x1_0000
    ensures HostReads(Run(handle, Idle([], app), bufs).outbound) == Idle([], Data(Ledger(handle, Idle([], app), bufs)))
  {
    var rs := Ledger(handle, Idle([], app), bufs);
    OutboundIsLedger(handle, Idle([], app), bufs);
    assert [] + Wire(rs) == Wire(rs);
    HostReadsReplies(rs);
  }
}
