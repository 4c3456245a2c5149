/**
  * `Rx` as a message loop. A host sends whole messages, each cut into frames, and may throw any
  * amount of reports that do not continue the open message in between; the device behaves as if it
  * read the messages one by one.
  */
module MessageLoop {
  import opened Bytes
  import opened Frames
  import opened Transport
  import opened Response
  import opened Rx

  /** `noise[k]` is injected between frame k and frame k + 1. */
  datatype Transmission = Transmission(channel: uint16, message: seq<byte>, noise: seq<seq<seq<byte>>>)

  /** The report is the k-th frame of some message on this channel. */
  predicate Continues(channel: uint16, k: nat, buf: seq<byte>) {
    Sized(buf) && Tag(buf) == HID_FRAME_TAG && Channel(buf) == channel && Index(buf) == k
  }

  predicate WellFormed(t: Transmission) {
    && t.channel != 0
    && |t.message| < 0x1_0000
    && |t.noise| == Needed(|t.message|)
    && forall k :: 0 <= k < |t.noise| ==> IsNoise(t.channel, k + 1, t.noise[k])
  }

  /** None of these reports continues the message with frame k. */
  predicate IsNoise(channel: uint16, k: nat, bufs: seq<seq<byte>>) {
    forall i :: 0 <= i < |bufs| ==> !Continues(channel, k, bufs[i])
  }

  predicate AllWellFormed(ts: seq<Transmission>) {
    forall t :: t in ts ==> WellFormed(t)
  }

  function NoiseBefore(t: Transmission, n: nat): nat
    requires n <= |t.noise|
  {
    if n == 0 then 0 else NoiseBefore(t, n - 1) + |t.noise[n - 1]|
  }

  /** Everything the host sends up to and including frame n. */
  function InputsThrough(t: Transmission, n: nat): seq<seq<byte>>
    requires WellFormed(t) && n <= |t.noise|
  {
    if n == 0 then [ResponseFrame(t.channel, t.message, 0)]
    else InputsThrough(t, n - 1) + (t.noise[n - 1] + [ResponseFrame(t.channel, t.message, n)])
  }

  function Inputs(t: Transmission): seq<seq<byte>>
    requires WellFormed(t)
  {
    InputsThrough(t, |t.noise|)
  }

  /** A framed message as it arrives: the zero padding of its last frame lies past it. */
  function Framed(message: seq<byte>): Packet {
    Packet(message, Zeros(Carried(FrameCount(|message|)) - |message|))
  }

  /** The simple loop: refusals for the noise, then the framed reply to the message. */
  function Exchange<A>(handle: Handle<A>, st: RxState<A>, t: Transmission): RxState<A>
    requires WellFormed(t)
  {
    if st.faulted then st
    else
      var refused := st.outbound + Repeat(Refusal(t.channel)[0], NoiseBefore(t, |t.noise|));
      match handle(st.app, Framed(t.message))
      case Panic => RxState(Some(Complete(t)), refused, st.app, true)
      case Done(app, resp) =>
        Idle(if resp.None? then refused else refused + ResponseFrames(t.channel, resp.value), app)
  }

  function Loop<A>(handle: Handle<A>, st: RxState<A>, ts: seq<Transmission>): RxState<A>
    requires AllWellFormed(ts)
  {
    if ts == [] then st else Exchange(handle, Loop(handle, st, ts[..|ts| - 1]), ts[|ts| - 1])
  }

  function AllInputs(ts: seq<Transmission>): seq<seq<byte>>
    requires AllWellFormed(ts)
  {
    if ts == [] then [] else AllInputs(ts[..|ts| - 1]) + Inputs(ts[|ts| - 1])
  }

  // ---------- the session while a message is in flight ----------

  function InFlight(t: Transmission, n: nat): SessionState
    requires WellFormed(t) && n <= |t.noise|
  {
    SessionState(t.channel, n, Padded(t.message)[..Min(|t.message|, Carried(n + 1))],
                 Beyond(Padded(t.message)[..Carried(n + 1)], |t.message|), Carried(n + 1) < |t.message|, |t.message|)
  }

  function Complete(t: Transmission): SessionState
    requires WellFormed(t)
  {
    InFlight(t, |t.noise|)
  }

  lemma CompleteIsWhole(t: Transmission)
    requires WellFormed(t)
    ensures Packet(Complete(t).data, Complete(t).tail) == Framed(t.message) && !Complete(t).shouldReadMore
    ensures forall n :: 0 <= n < |t.noise| ==> InFlight(t, n).shouldReadMore
  {
  }

  /** Frame n takes the session from one in-flight state to the next. */
  lemma FrameStep(t: Transmission, n: nat)
    requires WellFormed(t) && n <= |t.noise|
    ensures var s, f := if n == 0 then FRESH else InFlight(t, n - 1), ResponseFrame(t.channel, t.message, n);
      Accepts(s, f) && After(s, f) == InFlight(t, n)
  {
    FrameAccepted(t, n);
    InFlightIsFed(t, n);
    if n > 0 {
      InFlightIsFed(t, n - 1);
    }
    var all := ResponseFrames(t.channel, t.message);
    assert all[..n + 1][..n] == all[..n] && all[..n + 1][n] == ResponseFrame(t.channel, t.message, n);
  }

  lemma InFlightIsFed(t: Transmission, n: nat)
    requires WellFormed(t) && n <= |t.noise|
    ensures Feed(FRESH, ResponseFrames(t.channel, t.message)[..n + 1]) == InFlight(t, n)
  {
    PrefixExact(t.channel, t.message, n + 1);
  }

  lemma PrefixExact(channel: uint16, message: seq<byte>, n: nat)
    requires channel != 0 && |message| < 0x1_0000 && 0 < n <= FrameCount(|message|)
    ensures Feed(FRESH, ResponseFrames(channel, message)[..n]) ==
      SessionState(channel, n - 1, Padded(message)[..Min(|message|, Carried(n))], Beyond(Padded(message)[..Carried(n)], |message|),
                   Carried(n) < |message|, |message|)
  {
    ResponsePrefix(channel, message, n);
  }

  lemma FrameAccepted(t: Transmission, n: nat)
    requires WellFormed(t) && n <= |t.noise|
    ensures Accepts(if n == 0 then FRESH else InFlight(t, n - 1), ResponseFrame(t.channel, t.message, n))
  {
    ResponseFields(t.channel, t.message, n);
  }

  lemma NoiseStep<A>(handle: Handle<A>, st: RxState<A>, t: Transmission, n: nat, buf: seq<byte>)
    requires WellFormed(t) && n < |t.noise|
    requires st.session == Some(InFlight(t, n)) && !st.faulted
    requires !Continues(t.channel, n + 1, buf)
    ensures FirmwareRx(handle, st, buf) == st.(outbound := st.outbound + Refusal(t.channel))
  {
    CompleteIsWhole(t);
    assert !Accepts(InFlight(t, n), buf);
  }

  lemma RefusalSnoc(out: seq<seq<byte>>, channel: uint16, m: nat)
    ensures out + Repeat(Refusal(channel)[0], m) + Refusal(channel) == out + Repeat(Refusal(channel)[0], m + 1)
  {
    assert Repeat(Refusal(channel)[0], m) + Refusal(channel) == Repeat(Refusal(channel)[0], m + 1);
  }

  /** Noise is answered, one refusal each, and nothing else happens. */
  lemma {:induction false} NoiseIsRefused<A>(handle: Handle<A>, st: RxState<A>, t: Transmission, n: nat, bufs: seq<seq<byte>>)
    requires WellFormed(t) && n < |t.noise|
    requires st.session == Some(InFlight(t, n)) && !st.faulted
    requires IsNoise(t.channel, n + 1, bufs)
    ensures Run(handle, st, bufs) == st.(outbound := st.outbound + Repeat(Refusal(t.channel)[0], |bufs|))
  {
    if bufs == [] {
      assert st.outbound + Repeat(Refusal(t.channel)[0], 0) == st.outbound;
    } else {
      var m := |bufs| - 1;
      NoiseIsRefused(handle, st, t, n, bufs[..m]);
      NoiseStep(handle, Run(handle, st, bufs[..m]), t, n, bufs[m]);
      RefusalSnoc(st.outbound, t.channel, m);
    }
  }

  /** The device while the n-th frame of a message has just been taken, the message unfinished. */
  lemma {:induction false} MidMessage<A>(handle: Handle<A>, st: RxState<A>, t: Transmission, n: nat)
    requires WellFormed(t) && n < |t.noise|
    requires st.session.None? && !st.faulted
    ensures Run(handle, st, InputsThrough(t, n)) ==
      st.(session := Some(InFlight(t, n)), outbound := st.outbound + Repeat(Refusal(t.channel)[0], NoiseBefore(t, n)))
    decreases n, 1
  {
    FrameStep(t, n);
    CompleteIsWhole(t);
    if n == 0 {
      RunOne(handle, st, ResponseFrame(t.channel, t.message, 0));
      assert st.outbound + Repeat(Refusal(t.channel)[0], 0) == st.outbound;
    } else {
      UpToFrame(handle, st, t, n);
    }
  }

  /** Reaching frame n > 0: everything before it has been refused or taken in. */
  lemma {:induction false} UpToFrame<A>(handle: Handle<A>, st: RxState<A>, t: Transmission, n: nat)
    requires WellFormed(t) && 0 < n <= |t.noise|
    requires st.session.None? && !st.faulted
    ensures Run(handle, st, InputsThrough(t, n)) == FirmwareRx(handle,
      st.(session := Some(InFlight(t, n - 1)), outbound := st.outbound + Repeat(Refusal(t.channel)[0], NoiseBefore(t, n))),
      ResponseFrame(t.channel, t.message, n))
    decreases n, 0
  {
    MidMessage(handle, st, t, n - 1);
    var start, noise, f := InputsThrough(t, n - 1), t.noise[n - 1], ResponseFrame(t.channel, t.message, n);
    var mid := Run(handle, st, start);
    NoiseIsRefused(handle, mid, t, n - 1, noise);
    RepeatedRefusals(st.outbound, t, n);
    RunSplit(handle, st, start, noise, f);
  }

  lemma RepeatedRefusals(out: seq<seq<byte>>, t: Transmission, n: nat)
    requires 0 < n <= |t.noise|
    ensures var r := Refusal(t.channel)[0];
      out + Repeat(r, NoiseBefore(t, n - 1)) + Repeat(r, |t.noise[n - 1]|) == out + Repeat(r, NoiseBefore(t, n))
  {
    RepeatAppend(Refusal(t.channel)[0], NoiseBefore(t, n - 1), |t.noise[n - 1]|);
  }

  lemma RunSplit<A>(handle: Handle<A>, st: RxState<A>, a: seq<seq<byte>>, b: seq<seq<byte>>, f: seq<byte>)
    ensures Run(handle, st, a + (b + [f])) == FirmwareRx(handle, Run(handle, Run(handle, st, a), b), f)
  {
    var mid := Run(handle, st, a);
    RunAppend(handle, st, a, b + [f]);
    RunAppend(handle, mid, b, [f]);
    RunOne(handle, Run(handle, mid, b), f);
  }

  /** The frame that completes a message hands it over. */
  lemma LastFrame<A>(handle: Handle<A>, st: RxState<A>, t: Transmission)
    requires WellFormed(t) && !st.faulted
    requires st.session == if |t.noise| == 0 then None else Some(InFlight(t, |t.noise| - 1))
    ensures FirmwareRx(handle, st, ResponseFrame(t.channel, t.message, |t.noise|)) ==
      match handle(st.app, Framed(t.message))
      case Panic => RxState(Some(Complete(t)), st.outbound, st.app, true)
      case Done(app, resp) => Idle(if resp.None? then st.outbound else st.outbound + ResponseFrames(t.channel, resp.value), app)
  {
    FrameStep(t, |t.noise|);
    CompleteIsWhole(t);
  }

  /** One transmission, noise and all, is one exchange. */
  lemma TransmissionIsExchange<A>(handle: Handle<A>, st: RxState<A>, t: Transmission)
    requires WellFormed(t)
    requires st.session.None? || st.faulted
    ensures Run(handle, st, Inputs(t)) == Exchange(handle, st, t)
    ensures var st' := Exchange(handle, st, t); st'.session.None? || st'.faulted
  {
    var n := |t.noise|;
    if st.faulted {
      FaultIsFinal(handle, st, Inputs(t));
    } else if n == 0 {
      RunOne(handle, st, ResponseFrame(t.channel, t.message, 0));
      LastFrame(handle, st, t);
      assert st.outbound + Repeat(Refusal(t.channel)[0], 0) == st.outbound;
    } else {
      UpToFrame(handle, st, t, n);
      LastFrame(handle,
        st.(session := Some(InFlight(t, n - 1)), outbound := st.outbound + Repeat(Refusal(t.channel)[0], NoiseBefore(t, n))), t);
    }
  }

  lemma {:induction false} FaultIsFinal<A>(handle: Handle<A>, st: RxState<A>, bufs: seq<seq<byte>>)
    requires st.faulted
    ensures Run(handle, st, bufs) == st
  {
    if bufs != [] {
      FaultIsFinal(handle, st, bufs[..|bufs| - 1]);
    }
  }

  /** `Rx` refines the message loop, for every list of transmissions and every application. */
  lemma {:induction false} RxRefinesLoop<A>(handle: Handle<A>, st: RxState<A>, ts: seq<Transmission>)
    requires AllWellFormed(ts)
    requires st.session.None? || st.faulted
    ensures Run(handle, st, AllInputs(ts)) == Loop(handle, st, ts)
    ensures var st' := Loop(handle, st, ts); st'.session.None? || st'.faulted
  {
    if ts != [] {
      var before, t := ts[..|ts| - 1], ts[|ts| - 1];
      RxRefinesLoop(handle, st, before);
      RunAppend(handle, st, AllInputs(before), Inputs(t));
      TransmissionIsExchange(handle, Loop(handle, st, before), t);
    }
  }

  // ---------- what reaches the application ----------

  lemma {:induction false} NoiseDeliversNothing<A>(handle: Handle<A>, st: RxState<A>, t: Transmission, n: nat, bufs: seq<seq<byte>>)
    requires WellFormed(t) && n < |t.noise|
    requires st.session == Some(InFlight(t, n)) && !st.faulted
    requires IsNoise(t.channel, n + 1, bufs)
    ensures Deliveries(handle, st, bufs) == []
  {
    if bufs != [] {
      var m := |bufs| - 1;
      NoiseDeliversNothing(handle, st, t, n, bufs[..m]);
      NoiseIsRefused(handle, st, t, n, bufs[..m]);
      NoiseIsQuiet(Run(handle, st, bufs[..m]), t, n, bufs[m]);
    }
  }

  lemma NoiseIsQuiet<A>(st: RxState<A>, t: Transmission, n: nat, buf: seq<byte>)
    requires WellFormed(t) && n < |t.noise|
    requires st.session == Some(InFlight(t, n)) && !st.faulted
    requires !Continues(t.channel, n + 1, buf)
    ensures Delivered(st, buf) == []
  {
    CompleteIsWhole(t);
    assert !Accepts(InFlight(t, n), buf);
  }

  /** What a frame of a message delivers: nothing, or the message if it is the last. */
  function Yield(t: Transmission, n: nat): seq<Packet>
    requires WellFormed(t) && n <= |t.noise|
  {
    if n < |t.noise| then [] else [Framed(t.message)]
  }

  lemma FrameYields<A>(st: RxState<A>, t: Transmission, n: nat)
    requires WellFormed(t) && n <= |t.noise| && !st.faulted
    requires st.session == if n == 0 then None else Some(InFlight(t, n - 1))
    ensures Delivered(st, ResponseFrame(t.channel, t.message, n)) == Yield(t, n)
  {
    FrameStep(t, n);
    CompleteIsWhole(t);
  }

  /** Inputs up to frame n deliver what that frame delivers: nothing before the last. */
  lemma {:induction false} ThroughDelivers<A>(handle: Handle<A>, st: RxState<A>, t: Transmission, n: nat, bufs: seq<seq<byte>>)
    requires WellFormed(t) && n <= |t.noise|
    requires st.session.None? && !st.faulted
    requires bufs == InputsThrough(t, n)
    ensures Deliveries(handle, st, bufs) == Yield(t, n)
  {
    if n == 0 {
      FirstDelivers(handle, st, t);
    } else {
      var before := InputsThrough(t, n - 1);
      ThroughDelivers(handle, st, t, n - 1, before);
      MidSession(handle, st, t, n - 1, before);
      NextDelivers(handle, st, t, n, before, bufs);
    }
  }

  lemma MidSession<A>(handle: Handle<A>, st: RxState<A>, t: Transmission, n: nat, bufs: seq<seq<byte>>)
    requires WellFormed(t) && n < |t.noise|
    requires st.session.None? && !st.faulted
    requires bufs == InputsThrough(t, n)
    ensures var mid := Run(handle, st, bufs); mid.session == Some(InFlight(t, n)) && !mid.faulted
  {
    MidMessage(handle, st, t, n);
  }

  lemma FirstDelivers<A>(handle: Handle<A>, st: RxState<A>, t: Transmission)
    requires WellFormed(t) && st.session.None? && !st.faulted
    ensures Deliveries(handle, st, [ResponseFrame(t.channel, t.message, 0)]) == Yield(t, 0)
  {
    DeliveriesOne(handle, st, ResponseFrame(t.channel, t.message, 0));
    FrameYields(st, t, 0);
  }

  /** From frame n - 1 taken and nothing delivered, noise and frame n deliver what that frame does. */
  lemma NextDelivers<A>(handle: Handle<A>, st: RxState<A>, t: Transmission, n: nat, before: seq<seq<byte>>, all: seq<seq<byte>>)
    requires WellFormed(t) && 0 < n <= |t.noise|
    requires all == before + (t.noise[n - 1] + [ResponseFrame(t.channel, t.message, n)])
    requires Deliveries(handle, st, before) == []
    requires var mid := Run(handle, st, before); mid.session == Some(InFlight(t, n - 1)) && !mid.faulted
    ensures Deliveries(handle, st, all) == Yield(t, n)
  {
    NoiseThenFrame(handle, Run(handle, st, before), t, n);
    DeliverLast(handle, st, all, before, t.noise[n - 1], ResponseFrame(t.channel, t.message, n), Yield(t, n));
  }

  lemma NoiseThenFrame<A>(handle: Handle<A>, mid: RxState<A>, t: Transmission, n: nat)
    requires WellFormed(t) && 0 < n <= |t.noise|
    requires mid.session == Some(InFlight(t, n - 1)) && !mid.faulted
    ensures Deliveries(handle, mid, t.noise[n - 1]) == []
    ensures Delivered(Run(handle, mid, t.noise[n - 1]), ResponseFrame(t.channel, t.message, n)) == Yield(t, n)
  {
    var noise := t.noise[n - 1];
    NoiseDeliversNothing(handle, mid, t, n - 1, noise);
    NoiseIsRefused(handle, mid, t, n - 1, noise);
    FrameYields(mid.(outbound := mid.outbound + Repeat(Refusal(t.channel)[0], |noise|)), t, n);
  }

  lemma DeliverLast<A>(handle: Handle<A>, st: RxState<A>, all: seq<seq<byte>>, a: seq<seq<byte>>, b: seq<seq<byte>>, f: seq<byte>, ps: seq<Packet>)
    requires all == a + (b + [f])
    requires Deliveries(handle, st, a) == [] && Deliveries(handle, Run(handle, st, a), b) == []
    requires Delivered(Run(handle, Run(handle, st, a), b), f) == ps
    ensures Deliveries(handle, st, all) == ps
  {
    var mid := Run(handle, st, a);
    DeliveriesAppend(handle, st, a, b + [f]);
    DeliveriesAppend(handle, mid, b, [f]);
    DeliveriesOne(handle, Run(handle, mid, b), f);
  }

  lemma TransmissionDelivers<A>(handle: Handle<A>, st: RxState<A>, t: Transmission)
    requires WellFormed(t)
    requires st.session.None? && !st.faulted
    ensures Deliveries(handle, st, Inputs(t)) == [Framed(t.message)]
  {
    ThroughDelivers(handle, st, t, |t.noise|, Inputs(t));
  }

  function AllFramed(ts: seq<Transmission>): (ps: seq<Packet>)
    ensures |ps| == |ts|
  {
    seq(|ts|, i requires 0 <= i < |ts| => Framed(ts[i].message))
  }

  /** However noisy, a list of transmissions hands the application exactly its messages, in order. */
  lemma {:induction false} TransmissionsDeliver<A>(handle: Handle<A>, st: RxState<A>, ts: seq<Transmission>)
    requires AllWellFormed(ts)
    requires st.session.None? && !Loop(handle, st, ts).faulted
    ensures Deliveries(handle, st, AllInputs(ts)) == AllFramed(ts)
  {
    if ts != [] {
      var before, t := ts[..|ts| - 1], ts[|ts| - 1];
      assert ts == before + [t];
      AliveBefore(handle, st, ts);
      TransmissionsDeliver(handle, st, before);
      DeliverNext(handle, st, before, t, AllInputs(ts));
      FramedSnoc(before, t);
    }
  }

  lemma AliveBefore<A>(handle: Handle<A>, st: RxState<A>, ts: seq<Transmission>)
    requires AllWellFormed(ts) && ts != [] && !Loop(handle, st, ts).faulted
    ensures !Loop(handle, st, ts[..|ts| - 1]).faulted
  {
  }

  lemma DeliverNext<A>(handle: Handle<A>, st: RxState<A>, ts: seq<Transmission>, t: Transmission, all: seq<seq<byte>>)
    requires AllWellFormed(ts) && WellFormed(t) && all == AllInputs(ts) + Inputs(t)
    requires st.session.None? && !Loop(handle, st, ts).faulted
    ensures Deliveries(handle, st, all) == Deliveries(handle, st, AllInputs(ts)) + [Framed(t.message)]
  {
    RxRefinesLoop(handle, st, ts);
    DeliveriesAppend(handle, st, AllInputs(ts), Inputs(t));
    TransmissionDelivers(handle, Loop(handle, st, ts), t);
  }

  lemma FramedSnoc(ts: seq<Transmission>, t: Transmission)
    ensures AllFramed(ts + [t]) == AllFramed(ts) + [Framed(t.message)]
  {
  }
}
