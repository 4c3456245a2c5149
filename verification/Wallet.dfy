/**
  * The whole wallet as objects: USB port, routing, the Cosmos application and its token, which in the
  * TEE build reaches through the monitor to the applet (firmware/main.go, firmware/wallera.go).
  */
module Wallet {
  import Apdu
  import opened Bytes
  import opened Cosmos
  import opened CosmosObjects
  import opened Device
  import opened HidHandlers
  import opened Router
  import opened Rx
  import opened TokenObjects
  import opened Transport

  /** The signature session held by a booted registry. */
  function SessionIn(r: Registry<State>): State {
    if APP_ID in r.appMap then r.appMap[APP_ID].state else None
  }

  /** The message is routed to the application and its token cannot serve it. */
  predicate UnservedMessage(dev: Device, st: State, p: Packet) {
    var (cla, ins) := Header(dev.parses, p.message);
    cla == APP_ID && Unserved(dev.env, st, ins, p)
  }

  /** The report completes such a message. */
  predicate UnservedReport(dev: Device, st: RxState<Registry<State>>, buf: seq<byte>) {
    Delivered(st, buf) != [] && UnservedMessage(dev, SessionIn(st.app), Delivered(st, buf)[0])
  }

  /** Some report of the stream completes one. */
  predicate UnservedWithin(dev: Device, st: RxState<Registry<State>>, bufs: seq<seq<byte>>) {
    exists i :: 0 <= i < |bufs| && UnservedReport(dev, Run(Serving(dev), st, bufs[..i]), bufs[i])
  }

  class WalletObject {
    const dev: Device
    const port: Port
    const cosmos: CosmosObject
    var faulted: bool

    ghost predicate Ready()
      reads cosmos.token.Monitors()
    {
      dev.env == cosmos.env && dev.env.token == cosmos.token.Suite() && cosmos.token.Ready()
    }

    predicate Stopped()
      reads cosmos.token.Monitors()
    {
      cosmos.token.Stopped()
    }

    ghost function State(): RxState<Registry<State>>
      reads this, port, port.session, cosmos
    {
      RxState(port.SessionState(), port.outbound, With(dev, cosmos.currentSignatureSession), faulted)
    }

    constructor (parses: seq<byte> -> bool, env: Env, token: Token)
      ensures dev == Device(parses, env) && cosmos.env == env && cosmos.token == token
      ensures fresh(port) && fresh(cosmos)
      ensures State() == Idle([], Boot(dev))
    {
      var p := new Port();
      var c := new CosmosObject(env, token);
      dev, port, cosmos, faulted := Device(parses, env), p, c, false;
      BootIsWith(Device(parses, env));
    }

    /** `Handler.Handle` with the Cosmos application registered. */
    method Handle(p: Packet) returns (response: seq<byte>, crashed: bool)
      requires Ready()
      modifies cosmos`currentSignatureSession, cosmos.token.Monitors()
      ensures Stopped() <==> cosmos.token.Loud() && UnservedMessage(dev, old(cosmos.currentSignatureSession), p)
      ensures !Stopped() ==> Ready()
      ensures crashed ==> cosmos.currentSignatureSession == old(cosmos.currentSignatureSession)
      ensures !Stopped() ==>
        match Serving(dev)(With(dev, old(cosmos.currentSignatureSession)), p)
        case Panic => crashed
        case Done(r, resp) => !crashed && r == With(dev, cosmos.currentSignatureSession) && resp == Some(response)
    {
      ServingIsStep(dev, cosmos.currentSignatureSession, p);
      var (appID, command) := Header(dev.parses, p.message);
      if appID != APP_ID || (command != GET_VERSION && command != SIGN_SECP256K1 && command != GET_ADDR_SECP256K1) {
        return Apdu.PackageResponse([], Apdu.CLA_NOT_SUPPORTED), false;
      }
      var body, code, c := cosmos.HandleCommand(command, p);
      return Apdu.PackageResponse(body, code), c;
    }

    /** One firmware `Rx` call, down to the applet. */
    method Rx(buf: seq<byte>)
      requires !faulted && Ready()
      modifies this, port, port.session, cosmos`currentSignatureSession, cosmos.token.Monitors()
      ensures port.session == null || port.session == old(port.session) || fresh(port.session)
      ensures Stopped() <==> cosmos.token.Loud() && UnservedReport(dev, old(State()), buf)
      ensures !Stopped() ==> Ready() && State() == FirmwareRx(Serving(dev), old(State()), buf)
    {
      var ok := port.Receive(buf);
      if !ok {
        faulted := true;
        return;
      }
      if port.session.shouldReadMore {
        return;
      }
      HandOver();
    }

    /** The rest of `Rx` once the session is complete: one application call, its reply, back to idle. */
    method HandOver()
      requires !faulted && Ready()
      requires port.session != null && !port.session.shouldReadMore
      modifies this, port, cosmos`currentSignatureSession, cosmos.token.Monitors()
      ensures port.session == null || port.session == old(port.session)
      ensures Stopped() <==>
        (cosmos.token.Loud() &&
         UnservedMessage(dev, old(cosmos.currentSignatureSession), Packet(old(port.session.data), old(port.session.tail))))
      ensures !Stopped() ==> Ready() && State() == Finish(Serving(dev), old(State()), old(port.session.State()))
    {
      var response, crashed := Handle(Packet(port.session.data, port.session.tail));
      if crashed {
        faulted := true;
        return;
      }
      port.Answer(Some(response));
    }

    /**
      * Every stream of reports: the secure monitor stops if and only if failures are loud and some report
      * completes a message that the token cannot serve; otherwise the wallet is exactly the value-level
      * device, and ready for more.
      */
    method RunAll(bufs: seq<seq<byte>>)
      requires Ready()
      modifies this, port, port.session, cosmos`currentSignatureSession, cosmos.token.Monitors()
      ensures Stopped() <==> cosmos.token.Loud() && UnservedWithin(dev, old(State()), bufs)
      ensures !Stopped() ==> Ready() && State() == Run(Serving(dev), old(State()), bufs)
    {
      ghost var st := State();
      for i := 0 to |bufs|
        invariant Ready() && !Stopped()
        invariant port.session == null || port.session == old(port.session) || fresh(port.session)
        invariant State() == Run(Serving(dev), st, bufs[..i])
        invariant cosmos.token.Loud() ==> ServedUpTo(dev, st, bufs, i)
      {
        RunOneMore(dev, st, bufs, i);
        if !faulted {
          Rx(bufs[i]);
          if Stopped() {
            return;
          }
        }
      }
      assert bufs[..|bufs|] == bufs;
    }
  }

  /** None of the first n reports completes an unserved message. */
  predicate ServedUpTo(dev: Device, st: RxState<Registry<State>>, bufs: seq<seq<byte>>, n: nat)
    requires n <= |bufs|
  {
    forall k :: 0 <= k < n ==> !UnservedReport(dev, Run(Serving(dev), st, bufs[..k]), bufs[k])
  }

  /** One more report of a stream; a faulted device ignores it. */
  lemma RunOneMore(dev: Device, st: RxState<Registry<State>>, bufs: seq<seq<byte>>, i: nat)
    requires i < |bufs|
    ensures Run(Serving(dev), st, bufs[..i + 1]) == FirmwareRx(Serving(dev), Run(Serving(dev), st, bufs[..i]), bufs[i])
    ensures Run(Serving(dev), st, bufs[..i]).faulted ==>
      && Run(Serving(dev), st, bufs[..i + 1]) == Run(Serving(dev), st, bufs[..i])
      && !UnservedReport(dev, Run(Serving(dev), st, bufs[..i]), bufs[i])
    ensures UnservedReport(dev, Run(Serving(dev), st, bufs[..i]), bufs[i]) ==> UnservedWithin(dev, st, bufs)
  {
    assert bufs[..i + 1][..i] == bufs[..i];
  }
}
