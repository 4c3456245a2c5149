/**
  * The two USB receive handlers: firmware/wallera.go and cmd/wallera-linux/main.go.
  *
  * Both are stated for an arbitrary application, given as the function `handle` from its state and a
  * message, with what lies past it in its buffer, to its next state and reply. The outbound channel is the append-only sequence `outbound`.
  */
module Rx {
  import Apdu
  import opened Bytes
  import opened Frames
  import opened Transport
  import opened Response

  /** What handing one message to the application does; a Go panic ends the program. */
  datatype Outcome<+A> =
    | Done(app: A, response: Option<seq<byte>>)
    | Panic

  datatype RxState<+A> = RxState(
    session: Option<SessionState>,
    outbound: seq<seq<byte>>,
    app: A,
    faulted: bool)

  type Handle<!A> = (A, Packet) -> Outcome<A>

  /** The single frame that answers a refused report. */
  function Refusal(channel: uint16): seq<seq<byte>> {
    ResponseFrames(channel, Apdu.PackageResponse([], Apdu.COMMAND_NOT_ALLOWED))
  }

  /** The tail shared by both handlers: a finished session is handed over and answered. */
  function Finish<A>(handle: Handle<A>, st: RxState<A>, s: SessionState): RxState<A> {
    if s.shouldReadMore then st.(session := Some(s))
    else match handle(st.app, Packet(s.data, s.tail))
      case Panic => st.(session := Some(s), faulted := true)
      case Done(app, None) => st.(session := None, app := app)
      case Done(app, Some(resp)) =>
        st.(session := None, app := app, outbound := st.outbound + ResponseFrames(s.channelID, resp))
  }

  /** One firmware `Rx` call. */
  function FirmwareRx<A>(handle: Handle<A>, st: RxState<A>, buf: seq<byte>): RxState<A> {
    if st.faulted then st
    else match st.session
      case None =>
        if !Accepts(FRESH, buf) then st.(faulted := true)
        else Finish(handle, st, After(FRESH, buf))
      case Some(s) =>
        var st1 := if Accepts(s, buf) then st else st.(outbound := st.outbound + Refusal(s.channelID));
        Finish(handle, st1, After(s, buf))
  }

  /** One `Rx` call of the Linux build: a report for an open session is always answered by a refusal. */
  function LinuxRx<A>(handle: Handle<A>, st: RxState<A>, buf: seq<byte>): RxState<A> {
    if st.faulted then st
    else match st.session
      case None =>
        if !Accepts(FRESH, buf) then st.(faulted := true)
        else Finish(handle, st, After(FRESH, buf))
      case Some(s) =>
        var s' := After(s, buf);
        st.(session := Some(s'), outbound := st.outbound + Refusal(s'.channelID))
  }

  function Run<A>(handle: Handle<A>, st: RxState<A>, bufs: seq<seq<byte>>): RxState<A> {
    if bufs == [] then st
    else FirmwareRx(handle, Run(handle, st, bufs[..|bufs| - 1]), bufs[|bufs| - 1])
  }

  function RunLinux<A>(handle: Handle<A>, st: RxState<A>, bufs: seq<seq<byte>>): RxState<A> {
    if bufs == [] then st
    else LinuxRx(handle, RunLinux(handle, st, bufs[..|bufs| - 1]), bufs[|bufs| - 1])
  }

  function Idle<A>(outbound: seq<seq<byte>>, app: A): RxState<A> {
    RxState(None, outbound, app, false)
  }

  lemma {:induction false} RunAppend<A>(handle: Handle<A>, st: RxState<A>, a: seq<seq<byte>>, b: seq<seq<byte>>)
    ensures Run(handle, st, a + b) == Run(handle, Run(handle, st, a), b)
  {
    if b == [] {
      assert a + b == a;
    } else {
      assert (a + b)[..|a + b| - 1] == a + b[..|b| - 1];
      RunAppend(handle, st, a, b[..|b| - 1]);
    }
  }

  lemma RunOne<A>(handle: Handle<A>, st: RxState<A>, buf: seq<byte>)
    ensures Run(handle, st, [buf]) == FirmwareRx(handle, st, buf)
  {
    assert [buf][..0] == [];
    assert Run(handle, st, [buf][..0]) == st;
  }

  // ---------- lifecycle ----------

  /** Between two firmware calls there is no session, or one that is open and still wants data. */
  predicate Settled<A>(st: RxState<A>) {
    !st.faulted && st.session.Some? ==> Open(st.session.value) && st.session.value.shouldReadMore
  }

  /** The message, if any, that this call hands to the application. */
  function Delivered<A>(st: RxState<A>, buf: seq<byte>): seq<Packet> {
    if st.faulted || (st.session.None? && !Accepts(FRESH, buf)) then []
    else
      var s := After(if st.session.Some? then st.session.value else FRESH, buf);
      if s.shouldReadMore then [] else [Packet(s.data, s.tail)]
  }

  /**
    * Every call from a settled state leaves a settled state and does exactly one of four things:
    * fault, refuse (one refusal, nothing else), take a frame in silence, or finish a message
    * (one application call, its reply alone on the wire, back to idle).
    */
  lemma RxLifecycle<A>(handle: Handle<A>, st: RxState<A>, buf: seq<byte>)
    requires Settled(st) && !st.faulted
    ensures Settled(FirmwareRx(handle, st, buf))
    ensures st.session.None? && !Accepts(FRESH, buf) ==>
              FirmwareRx(handle, st, buf) == st.(faulted := true)
    ensures st.session.Some? && !Accepts(st.session.value, buf) ==>
              FirmwareRx(handle, st, buf) == st.(outbound := st.outbound + Refusal(st.session.value.channelID))
    ensures var s := if st.session.Some? then st.session.value else FRESH;
      Accepts(s, buf) && Delivered(st, buf) == [] ==>
        FirmwareRx(handle, st, buf) == st.(session := Some(After(s, buf)))
    ensures Delivered(st, buf) != [] ==>
      |Delivered(st, buf)| == 1 && Sized(buf) && Answered(handle, st, FirmwareRx(handle, st, buf), Delivered(st, buf)[0], Channel(buf))
  {
  }

  /** One message was handed over: a panic, or back to idle with the reply alone appended. */
  ghost predicate Answered<A>(handle: Handle<A>, st: RxState<A>, st': RxState<A>, packet: Packet, channel: uint16) {
    match handle(st.app, packet)
    case Panic => st'.faulted && st'.outbound == st.outbound
    case Done(app, resp) =>
      st' == Idle(st.outbound + if resp.None? then [] else ResponseFrames(channel, resp.value), app)
  }

  lemma {:induction false} RunSettled<A>(handle: Handle<A>, st: RxState<A>, bufs: seq<seq<byte>>)
    requires Settled(st)
    ensures Settled(Run(handle, st, bufs))
  {
    if bufs != [] {
      var before := bufs[..|bufs| - 1];
      RunSettled(handle, st, before);
      if !Run(handle, st, before).faulted {
        RxLifecycle(handle, Run(handle, st, before), bufs[|bufs| - 1]);
      }
    }
  }

  // ---------- the application sees exactly the delivered messages ----------

  function Deliveries<A>(handle: Handle<A>, st: RxState<A>, bufs: seq<seq<byte>>): seq<Packet> {
    if bufs == [] then []
    else
      var before := bufs[..|bufs| - 1];
      Deliveries(handle, st, before) + Delivered(Run(handle, st, before), bufs[|bufs| - 1])
  }

  /** The application alone, driven by a list of messages; None once it has panicked. */
  function Serve<A>(handle: Handle<A>, app: A, messages: seq<Packet>): Option<A> {
    if messages == [] then Some(app)
    else match Serve(handle, app, messages[..|messages| - 1])
      case None => None
      case Some(a) =>
        match handle(a, messages[|messages| - 1])
        case Panic => None
        case Done(a', _) => Some(a')
  }

  lemma ServeSnoc<A>(handle: Handle<A>, app: A, messages: seq<Packet>, p: Packet)
    ensures Serve(handle, app, messages + [p]) ==
      match Serve(handle, app, messages)
      case None => None
      case Some(a) => (match handle(a, p) case Panic => None case Done(a', _) => Some(a'))
  {
    assert (messages + [p])[..|messages|] == messages;
  }

  /** For every input stream that does not fault, the application is where its messages alone put it. */
  lemma {:induction false} RunServes<A>(handle: Handle<A>, st: RxState<A>, bufs: seq<seq<byte>>)
    requires Settled(st)
    requires !Run(handle, st, bufs).faulted
    ensures Serve(handle, st.app, Deliveries(handle, st, bufs)) == Some(Run(handle, st, bufs).app)
  {
    if bufs != [] {
      var before, buf := bufs[..|bufs| - 1], bufs[|bufs| - 1];
      RunServes(handle, st, before);
      RunSettled(handle, st, before);
      ServeStep(handle, st.app, Deliveries(handle, st, before), Run(handle, st, before), buf);
    }
  }

  lemma ServeStep<A>(handle: Handle<A>, app: A, ps: seq<Packet>, mid: RxState<A>, buf: seq<byte>)
    requires Settled(mid) && !mid.faulted && !FirmwareRx(handle, mid, buf).faulted
    requires Serve(handle, app, ps) == Some(mid.app)
    ensures Serve(handle, app, ps + Delivered(mid, buf)) == Some(FirmwareRx(handle, mid, buf).app)
  {
    RxLifecycle(handle, mid, buf);
    var d := Delivered(mid, buf);
    if d == [] {
      assert ps + d == ps;
    } else {
      assert d == [d[0]];
      ServeSnoc(handle, app, ps, d[0]);
    }
  }

  lemma {:induction false} DeliveriesAppend<A>(handle: Handle<A>, st: RxState<A>, a: seq<seq<byte>>, b: seq<seq<byte>>)
    ensures Deliveries(handle, st, a + b) == Deliveries(handle, st, a) + Deliveries(handle, Run(handle, st, a), b)
  {
    if b == [] {
      assert a + b == a;
    } else {
      var n := |b| - 1;
      assert (a + b)[..|a + b| - 1] == a + b[..n];
      DeliveriesAppend(handle, st, a, b[..n]);
      RunAppend(handle, st, a, b[..n]);
      Assoc(Deliveries(handle, st, a), Deliveries(handle, Run(handle, st, a), b[..n]),
            Delivered(Run(handle, st, a + b[..n]), b[n]));
    }
  }

  lemma DeliveriesOne<A>(handle: Handle<A>, st: RxState<A>, buf: seq<byte>)
    ensures Deliveries(handle, st, [buf]) == Delivered(st, buf)
  {
    assert [buf][..0] == [];
    assert Run(handle, st, [buf][..0]) == st && Deliveries(handle, st, [buf][..0]) == [];
  }

  /** Deliveries only grow: what the i-th report delivers follows what came before it. */
  lemma DeliveryInOrder<A>(handle: Handle<A>, st: RxState<A>, bufs: seq<seq<byte>>, i: nat)
    requires i < |bufs|
    requires Delivered(Run(handle, st, bufs[..i]), bufs[i]) != []
    ensures var all, k := Deliveries(handle, st, bufs), |Deliveries(handle, st, bufs[..i])|;
      && k < |all| && all[..k] == Deliveries(handle, st, bufs[..i])
      && Delivered(Run(handle, st, bufs[..i]), bufs[i]) == [all[k]]
  {
    var upTo := bufs[..i + 1];
    assert bufs == upTo + bufs[i + 1..] && upTo[..i] == bufs[..i];
    DeliveriesAppend(handle, st, upTo, bufs[i + 1..]);
  }

  // ---------- what a delivered message looks like in memory ----------

  /** An open session of a run is a fresh one that has been fed some of the reports. */
  lemma {:induction false} SessionIsFed<A>(handle: Handle<A>, st: RxState<A>, bufs: seq<seq<byte>>)
    requires st.session.None?
    ensures var s := Run(handle, st, bufs).session; s.Some? ==> exists fed :: Feed(FRESH, fed) == s.value
  {
    if bufs != [] {
      var before, buf := bufs[..|bufs| - 1], bufs[|bufs| - 1];
      SessionIsFed(handle, st, before);
      var s := Run(handle, st, before).session;
      if s.Some? {
        var fed :| Feed(FRESH, fed) == s.value;
        FeedOneMore(fed, buf);
      } else {
        FeedOneMore([], buf);
      }
    }
  }

  lemma FeedOneMore(fed: seq<seq<byte>>, buf: seq<byte>)
    ensures Feed(FRESH, fed + [buf]) == After(Feed(FRESH, fed), buf)
  {
    assert (fed + [buf])[..|fed|] == fed;
  }

  /**
    * For every input stream, a delivered message comes with exactly the rest of the frames that carried
    * it: written bytes fill those frames, and the tail is the end of the report that completed it.
    */
  lemma DeliveredInMemory<A>(handle: Handle<A>, st: RxState<A>, bufs: seq<seq<byte>>, buf: seq<byte>)
    requires st.session.None?
    ensures var mid := Run(handle, st, bufs);
      Delivered(mid, buf) != [] ==>
        var p := Delivered(mid, buf)[0];
        && |p.message| + |p.tail| == Carried(1 + Needed(|p.message|))
        && Sized(buf) && |p.tail| <= |buf| && p.tail == buf[|buf| - |p.tail|..]
  {
    var mid := Run(handle, st, bufs);
    RunSettled(handle, st, bufs);
    SessionIsFed(handle, st, bufs);
    if Delivered(mid, buf) != [] {
      if mid.session.Some? {
        var fed :| Feed(FRESH, fed) == mid.session.value;
        FinishedInMemory(fed, buf);
      } else {
        FinishedInMemory([], buf);
      }
    }
  }

  lemma FinishedInMemory(fed: seq<seq<byte>>, buf: seq<byte>)
    requires var s := Feed(FRESH, fed); s.shouldReadMore && (Open(s) || s == FRESH)
    requires !After(Feed(FRESH, fed), buf).shouldReadMore
    ensures var s := After(Feed(FRESH, fed), buf);
      && |s.data| + |s.tail| == Carried(1 + Needed(|s.data|))
      && Sized(buf) && |s.tail| <= |buf| && s.tail == buf[|buf| - |s.tail|..]
  {
    FeedOneMore(fed, buf);
    FinishedFrames(fed + [buf]);
    StillWanting(fed);
    TailIsFrameEnd(Feed(FRESH, fed), buf);
  }

  lemma StillWanting(fed: seq<seq<byte>>)
    ensures var s := Feed(FRESH, fed); Open(s) && s.shouldReadMore ==> |s.data| < s.amountToRead
  {
    WantingInvariant(fed);
  }

  lemma TailIsFrameEnd(s: SessionState, buf: seq<byte>)
    requires Absorbs(s, buf) && !After(s, buf).shouldReadMore
    requires if Open(s) then |s.data| < s.amountToRead else s.data == []
    ensures var tail := After(s, buf).tail; |tail| <= |buf| && tail == buf[|buf| - |tail|..]
  {
    var payload := if Open(s) then NextPayload(buf) else InitPayload(buf);
    var amount := if Open(s) then s.amountToRead else Length(buf);
    assert (s.data + payload)[amount..] == payload[amount - |s.data|..];
  }

  // ---------- firmware against Linux ----------

  /** From a settled state the two handlers do the same exactly when no open session takes the report. */
  lemma HandlersAgreeIff<A>(handle: Handle<A>, st: RxState<A>, buf: seq<byte>)
    requires Settled(st) && !st.faulted
    ensures FirmwareRx(handle, st, buf) == LinuxRx(handle, st, buf) <==>
            (st.session.Some? ==> !Accepts(st.session.value, buf))
  {
    if st.session.Some? {
      var s := st.session.value;
      var fw, lx := FirmwareRx(handle, st, buf), LinuxRx(handle, st, buf);
      assert |Refusal(s.channelID)| == 1;
      if Accepts(s, buf) {
        assert lx.outbound != st.outbound;
      }
    }
  }

  /** A report that, met without a session, is refused or carries a whole message. */
  predicate SingleFrame(buf: seq<byte>) {
    Sized(buf) ==> Length(buf) <= INIT_DATA
  }

  /** On every stream of single-frame messages both handlers pass through the same states. */
  lemma {:induction false} HandlersAgreeOnSingleFrames<A>(handle: Handle<A>, st: RxState<A>, bufs: seq<seq<byte>>)
    requires st.session.None?
    requires forall buf :: buf in bufs ==> SingleFrame(buf)
    ensures Run(handle, st, bufs) == RunLinux(handle, st, bufs)
    ensures !Run(handle, st, bufs).faulted ==> Run(handle, st, bufs).session.None?
  {
    if bufs != [] {
      var before, buf := bufs[..|bufs| - 1], bufs[|bufs| - 1];
      HandlersAgreeOnSingleFrames(handle, st, before);
      assert SingleFrame(buf);
    }
  }
}
