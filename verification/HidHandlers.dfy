/** The receive handlers as objects, in the form of firmware/wallera.go and cmd/wallera-linux/main.go. */
module HidHandlers {
  import Apdu
  import opened Bytes
  import opened Transport
  import opened Response
  import opened Rx
  import opened Usb

  /** The USB side of the firmware handler: the open session and the outbound channel. */
  class Port {
    var outbound: seq<seq<byte>>
    var session: Session?

    constructor ()
      ensures outbound == [] && session == null
    {
      outbound, session := [], null;
    }

    /** Pushes frames to the unbuffered channel one at a time. */
    method Send(chunks: seq<seq<byte>>)
      modifies this`outbound
      ensures outbound == old(outbound) + chunks
    {
      for i := 0 to |chunks|
        invariant outbound == old(outbound) + chunks[..i]
      {
        outbound := outbound + [chunks[i]];
      }
    }

    ghost function SessionState(): Option<Transport.SessionState>
      reads this, session
    {
      if session == null then None else Some(session.State())
    }

    /** The first half of `Rx`: the report opens a session, or goes to the open one and may be refused. */
    method Receive(buf: seq<byte>) returns (ok: bool)
      modifies this, session
      ensures session == null || session == old(session) || fresh(session)
      ensures ok <==> old(session) != null || Accepts(FRESH, buf)
      ensures !ok ==> session == null
      ensures ok ==> SessionState() == Some(After(if old(session) == null then FRESH else old(session.State()), buf))
      ensures outbound ==
        if old(session) != null && !Accepts(old(session.State()), buf)
        then old(outbound) + Refusal(old(session.channelID)) else old(outbound)
    {
      if session == null {
        var s;
        s, ok := Session.NewSession(buf);
        if ok {
          session := s;
        }
      } else {
        var accepted := session.ReadData(buf);
        if !accepted {
          var chunks := session.FormatResponse(Apdu.PackageResponse([], Apdu.COMMAND_NOT_ALLOWED));
          Send(chunks);
        }
        ok := true;
      }
    }

    /** The last part of `Rx`: the reply, if any, goes out on the session's channel and ends it. */
    method Answer(resp: Option<seq<byte>>)
      requires session != null
      modifies this
      ensures session == null
      ensures outbound ==
        if resp.None? then old(outbound) else old(outbound) + ResponseFrames(old(session.channelID), resp.value)
    {
      if resp.None? {
        session := null;
        return;
      }
      var chunks := session.FormatResponse(resp.value);
      Send(chunks);
      session := null;
    }
  }

  /** The firmware handler over an application given as a function. */
  class FirmwareHandler<A> {
    const handle: Handle<A>
    const port: Port
    var app: A
    var faulted: bool

    ghost function State(): RxState<A>
      reads this, port, port.session
    {
      RxState(port.SessionState(), port.outbound, app, faulted)
    }

    constructor (handle: Handle<A>, app: A)
      ensures this.handle == handle && fresh(port)
      ensures State() == Idle([], app)
    {
      var p := new Port();
      this.handle, this.app, port, faulted := handle, app, p, false;
    }

    method Rx(buf: seq<byte>)
      requires !faulted
      modifies this, port, port.session
      ensures State() == FirmwareRx(handle, old(State()), buf)
      ensures port.session == null || port.session == old(port.session) || fresh(port.session)
    {
      var ok := port.Receive(buf);
      if !ok {
        faulted := true;
        return;
      }
      if port.session.shouldReadMore {
        return;
      }
      match handle(app, Packet(port.session.data, port.session.tail)) {
        case Panic =>
          faulted := true;
        case Done(a, resp) =>
          app := a;
          port.Answer(resp);
      }
    }
  }

  class LinuxHandler<A> {
    const handle: Handle<A>
    var app: A
    var outbound: seq<seq<byte>>
    var session: Session?
    var faulted: bool

    ghost function State(): RxState<A>
      reads this, session
    {
      RxState(if session == null then None else Some(session.State()), outbound, app, faulted)
    }

    constructor (handle: Handle<A>, app: A)
      ensures this.handle == handle
      ensures State() == Idle([], app)
    {
      this.handle, this.app := handle, app;
      outbound, session, faulted := [], null, false;
    }

    method Rx(buf: seq<byte>)
      requires !faulted
      modifies this, session
      ensures State() == LinuxRx(handle, old(State()), buf)
      ensures session == null || session == old(session) || fresh(session)
    {
      if session == null {
        var s, ok := Session.NewSession(buf);
        if !ok {
          faulted := true;
          return;
        }
        session := s;
      } else {
        var _ := session.ReadData(buf);
        var chunks := session.FormatResponse(Apdu.PackageResponse([], Apdu.COMMAND_NOT_ALLOWED));
        outbound := outbound + chunks;
        return;
      }
      if session.shouldReadMore {
        return;
      }
      match handle(app, Packet(session.data, session.tail)) {
        case Panic =>
          faulted := true;
        case Done(a, resp) =>
          app := a;
          if resp.None? {
            session := null;
            return;
          }
          var chunks := session.FormatResponse(resp.value);
          outbound := outbound + chunks;
          session := null;
      }
    }
  }
}
