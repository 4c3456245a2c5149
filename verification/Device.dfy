/**
  * The booted device: the router with the Cosmos application registered (firmware/main.go), and what
  * every run of it says about signatures.
  */
module Device {
  import Apdu
  import opened Bytes
  import opened Frames
  import opened Transport
  import opened Response
  import opened Rx
  import opened Router
  import opened Cosmos
  import opened Derivation
  import opened Tokens

  datatype Device = Device(parses: seq<byte> -> bool, env: Env)

  function Boot(dev: Device): Registry<State> {
    AfterRegister(EmptyRegistry(), [CosmosApp(dev.env, None)])
  }

  /** `Handler.Handle` as a function from registry and message. */
  function Serving(dev: Device): Handle<Registry<State>> {
    (r: Registry<State>, p: Packet) => RouteTo(dev.parses, r, p)
  }

  /** The booted registry with the given signature session. */
  function With(dev: Device, st: State): Registry<State> {
    Registry(map[APP_ID := CosmosApp(dev.env, st)],
             {(APP_ID, GET_VERSION), (APP_ID, SIGN_SECP256K1), (APP_ID, GET_ADDR_SECP256K1)})
  }

  lemma BootIsWith(dev: Device)
    ensures Boot(dev) == With(dev, None)
  {
    var app := CosmosApp(dev.env, None);
    var apps := [app];
    assert Distinct(EmptyRegistry<State>(), apps);
    AdmittedIs(EmptyRegistry<State>(), apps, 1);
    assert apps[..1] == apps && apps[..0] == [];
    assert Install(EmptyRegistry<State>(), apps[..0]) == EmptyRegistry<State>();
    assert Pairs(app) == With(dev, None).commandAppMap by {
      assert app.commands == [GET_VERSION, SIGN_SECP256K1, GET_ADDR_SECP256K1];
    }
    assert EmptyRegistry<State>().commandAppMap + Pairs(app) == Pairs(app);
  }

  /** One message to the device, on the signature session alone. */
  function Step(dev: Device, st: State, p: Packet): AppOutcome<State> {
    var (cla, ins) := Header(dev.parses, p.message);
    if cla == APP_ID && (ins == GET_VERSION || ins == SIGN_SECP256K1 || ins == GET_ADDR_SECP256K1)
    then Cosmos.Handle(dev.env, st, ins, p)
    else Answer(st, [], Apdu.CLA_NOT_SUPPORTED)
  }

  lemma ServingIsStep(dev: Device, st: State, p: Packet)
    ensures Serving(dev)(With(dev, st), p) ==
      match Step(dev, st, p)
      case Crash => Panic
      case Answer(st', body, code) => Done(With(dev, st'), Some(Apdu.PackageResponse(body, code)))
  {
    var (cla, ins) := Header(dev.parses, p.message);
    var r := With(dev, st);
    if cla == APP_ID && (APP_ID, ins) in r.commandAppMap {
      assert RouteTo(dev.parses, r, p) == Call(r, APP_ID, ins, p);
      match Step(dev, st, p) {
        case Crash =>
        case Answer(st', _, _) =>
          assert r.appMap[APP_ID := CosmosApp(dev.env, st')] == With(dev, st').appMap;
      }
    }
  }

  // ---------- signing history ----------

  /** The message is a sign command with this descriptor. */
  predicate IsSign(dev: Device, m: seq<byte>, descr: byte) {
    Header(dev.parses, m) == (APP_ID, SIGN_SECP256K1) && |m| >= MIN_DATA_LEN && m[2] == descr
  }

  /** Position of the init packet whose session is open after these messages. */
  function Opening(dev: Device, ps: seq<Packet>): (j: Option<nat>)
    ensures j.Some? ==> j.value < |ps|
  {
    if ps == [] then None
    else
      var n := |ps| - 1;
      if IsSign(dev, ps[n].message, SIGN_INIT) then Some(n)
      else if IsSign(dev, ps[n].message, SIGN_LAST) then None
      else Opening(dev, ps[..n])
  }

  /** It is the most recent init, with no other init and no last packet after it. */
  lemma {:induction false} OpeningIff(dev: Device, ps: seq<Packet>, j: nat)
    ensures Opening(dev, ps) == Some(j) <==>
      && j < |ps| && IsSign(dev, ps[j].message, SIGN_INIT)
      && forall k :: j < k < |ps| ==> !IsSign(dev, ps[k].message, SIGN_INIT) && !IsSign(dev, ps[k].message, SIGN_LAST)
  {
    if ps != [] {
      var n := |ps| - 1;
      OpeningIff(dev, ps[..n], j);
      assert forall k :: 0 <= k < n ==> ps[..n][k] == ps[k];
    }
  }

  /** The add payloads after position j, in order. */
  function Added(dev: Device, ps: seq<Packet>, j: nat): seq<byte> {
    if |ps| <= j + 1 then []
    else
      var n := |ps| - 1;
      Added(dev, ps[..n], j) + if IsSign(dev, ps[n].message, SIGN_ADD) then ps[n].message[5..] else []
  }

  /** The signature session, read off the message history alone. */
  function SessionOf(dev: Device, ps: seq<Packet>): State {
    match Opening(dev, ps)
    case None => None
    case Some(j) => Some(SignSession(InitPath(ps[j]).value, Added(dev, ps, j)))
  }

  lemma HistoryStep(dev: Device, before: seq<Packet>, p: Packet)
    requires Step(dev, SessionOf(dev, before), p).Answer?
    ensures Step(dev, SessionOf(dev, before), p).state == SessionOf(dev, before + [p])
  {
    var ps := before + [p];
    assert ps[..|before|] == before && ps[|before|] == p;
    if IsSign(dev, p.message, SIGN_INIT) {
      assert Added(dev, ps, |before|) == [];
    } else if !IsSign(dev, p.message, SIGN_LAST) && Opening(dev, before).Some? {
      var j := Opening(dev, before).value;
      assert Added(dev, ps, j) == Added(dev, before, j) + if IsSign(dev, p.message, SIGN_ADD) then p.message[5..] else [];
      if !IsSign(dev, p.message, SIGN_ADD) {
        assert Added(dev, ps, j) == Added(dev, before, j);
      }
    }
  }

  /** After every run of messages the device's session is what the history says, whatever else was sent. */
  lemma {:induction false} SessionIsHistory(dev: Device, ps: seq<Packet>)
    requires Serve(Serving(dev), Boot(dev), ps).Some?
    ensures Serve(Serving(dev), Boot(dev), ps) == Some(With(dev, SessionOf(dev, ps)))
  {
    if ps == [] {
      BootIsWith(dev);
    } else {
      var before, p := ps[..|ps| - 1], ps[|ps| - 1];
      SessionIsHistory(dev, before);
      ServingIsStep(dev, SessionOf(dev, before), p);
      assert ps == before + [p];
      HistoryStep(dev, before, p);
    }
  }

  /** What a last packet is answered after a history: the signature of that history's payload. */
  function LastReply(dev: Device, before: seq<Packet>, m: seq<byte>): seq<byte>
    requires |m| >= MIN_DATA_LEN
  {
    match SessionOf(dev, before)
    case None => Apdu.PackageResponse([], Apdu.EXECUTION_ERROR)
    case Some(s) =>
      var (body, code) := SignReply(dev.env, s.path, s.data + m[5..]);
      Apdu.PackageResponse(body, code)
  }

  /**
    * Signing history: after every run of messages, a last packet is answered by the signature over
    * exactly the add payloads since the most recent init plus its own, under that init's path, and
    * the session is closed. The path derives the five words that init carries.
    */
  lemma SignatureIsHistory(dev: Device, before: seq<Packet>, p: Packet)
    requires Serve(Serving(dev), Boot(dev), before).Some?
    requires IsSign(dev, p.message, SIGN_LAST)
    ensures Serving(dev)(Serve(Serving(dev), Boot(dev), before).value, p) ==
            Done(With(dev, None), Some(LastReply(dev, before, p.message)))
    ensures var j := Opening(dev, before);
      j.Some? && |before[j.value].message| >= 25 ==>
        ChildIndices(SessionOf(dev, before).value.path) == HostWords(before[j.value].message[5..25])
  {
    SessionIsHistory(dev, before);
    ServingIsStep(dev, SessionOf(dev, before), p);
    var j := Opening(dev, before);
    if j.Some? && |before[j.value].message| >= 25 {
      InitPathWords(before[j.value]);
    }
  }

  /** On raw bytes: a sign command is CLA 0x55, INS 0x02 with the descriptor third. */
  lemma IsSignIff(dev: Device, m: seq<byte>, descr: byte)
    ensures IsSign(dev, m, descr) <==> dev.parses(m) && |m| >= 5 && m[0] == 0x55 && m[1] == 0x02 && m[2] == descr
  {
  }

  /** The reply to a last packet as bytes, for any token. */
  lemma LastReplyBytes(dev: Device, before: seq<Packet>, m: seq<byte>)
    requires |m| >= MIN_DATA_LEN
    ensures LastReply(dev, before, m) ==
      match Opening(dev, before)
      case None => [0x64, 0x00]
      case Some(j) =>
        var payload := Added(dev, before, j) + m[5..];
        match dev.env.token.initialize(InitPath(before[j]).value)
        case None => [0x64, 0x00]
        case Some(t) =>
          if !dev.env.isJSON(payload) then [0x69, 0x84]
          else match dev.env.token.sign(t, dev.env.sha256(payload))
            case None => [0x64, 0x00]
            case Some(sig) => sig + [0x90, 0x00]
  {
    Apdu.StatusBytes([]);
  }

  /** The five words at bytes 5 to 25 of what an init packet's frames wrote. */
  function InitWords(p: Packet): (ws: seq<uint32>)
    requires |p.message| + |p.tail| >= 25
    ensures |ws| == 5
  {
    HostWords((p.message + p.tail)[5..25])
  }

  lemma InitKey(lib: KeyLibrary, p: Packet)
    requires |p.message| + |p.tail| >= 25
    ensures KeyAt(lib, InitPath(p).value) == HostKey(lib, InitWords(p))
  {
    HostKeyOfBytes(lib, (p.message + p.tail)[5..25]);
  }

  /**
    * Every outcome of a signing request, as bytes: after every run of messages, a last packet is
    * answered 0x6400 without a session, 0x6400 if the session's path has no key, 0x6984 if the
    * payload is not JSON, 0x6400 if it cannot be signed, and otherwise by the signature and 0x9000.
    */
  lemma SignatureOutcome(dev: Device, lib: KeyLibrary, before: seq<Packet>, p: Packet)
    requires dev.env.token == LocalSuite(lib)
    requires Serve(Serving(dev), Boot(dev), before).Some?
    requires IsSign(dev, p.message, SIGN_LAST)
    ensures Serving(dev)(Serve(Serving(dev), Boot(dev), before).value, p) ==
      Done(With(dev, None), Some(
        match Opening(dev, before)
        case None => [0x64, 0x00]
        case Some(j) =>
          var payload := Added(dev, before, j) + p.message[5..];
          match KeyAt(lib, InitPath(before[j]).value)
          case None => [0x64, 0x00]
          case Some(key) =>
            if !dev.env.isJSON(payload) then [0x69, 0x84]
            else match lib.ecSign(key, dev.env.sha256(payload))
              case None => [0x64, 0x00]
              case Some(sig) => sig + [0x90, 0x00]))
  {
    SignatureIsHistory(dev, before, p);
    LastReplyBytes(dev, before, p.message);
  }

  /** The reply ends in 0x9000 if and only if there is a session, a key, a JSON payload and a signature. */
  lemma SucceedsIff(dev: Device, lib: KeyLibrary, before: seq<Packet>, m: seq<byte>)
    requires dev.env.token == LocalSuite(lib) && |m| >= MIN_DATA_LEN
    ensures var reply, j := LastReply(dev, before, m), Opening(dev, before);
      |reply| >= 2 &&
      (reply[|reply| - 2..] == [0x90, 0x00] <==>
        && j.Some?
        && var payload := Added(dev, before, j.value) + m[5..];
           var key := KeyAt(lib, InitPath(before[j.value]).value);
           key.Some? && dev.env.isJSON(payload) && lib.ecSign(key.value, dev.env.sha256(payload)).Some?)
  {
    LastReplyBytes(dev, before, m);
  }

  // ---------- every other reply, as bytes ----------

  /** A message for another application, or for none, is answered 0x6E00 and changes nothing. */
  lemma UnroutedReply(dev: Device, st: State, p: Packet)
    requires var m := p.message; !(dev.parses(m) && |m| >= 2 && m[0] == 0x55 && m[1] in {0x00, 0x02, 0x04})
    ensures Serving(dev)(With(dev, st), p) == Done(With(dev, st), Some([0x6E, 0x00]))
  {
    ServingIsStep(dev, st, p);
    Apdu.StatusBytes([]);
  }

  /** A routed message of fewer than five bytes is answered 0x6700. */
  lemma ShortReply(dev: Device, st: State, p: Packet)
    requires dev.parses(p.message) && 2 <= |p.message| < 5 && p.message[0] == 0x55 && p.message[1] in {0x00, 0x02, 0x04}
    ensures Serving(dev)(With(dev, st), p) == Done(With(dev, st), Some([0x67, 0x00]))
  {
    ServingIsStep(dev, st, p);
    Apdu.StatusBytes([]);
  }

  /** A version request is answered by version 2.0.0 between two zero flags. */
  lemma VersionReply(dev: Device, st: State, p: Packet)
    requires dev.parses(p.message) && |p.message| >= 5 && p.message[0] == 0x55 && p.message[1] == 0x00
    ensures Serving(dev)(With(dev, st), p) == Done(With(dev, st), Some([0x00, 0x02, 0x00, 0x00, 0x00, 0x90, 0x00]))
  {
    ServingIsStep(dev, st, p);
    assert VERSION + PutUint16(Apdu.SUCCESS) == [0x00, 0x02, 0x00, 0x00, 0x00, 0x90, 0x00];
  }

  /** Sign packets before the last: what they answer and what they make of the session. */
  lemma SignPacketReplies(dev: Device, st: State, p: Packet)
    requires dev.parses(p.message) && |p.message| >= 5 && p.message[0] == 0x55 && p.message[1] == 0x02
    ensures p.message[2] == 0 ==>
      Serving(dev)(With(dev, st), p) == Done(With(dev, Some(SignSession(InitPath(p).value, []))), Some([0x90, 0x00]))
    ensures p.message[2] != 0 && st == None ==>
      Serving(dev)(With(dev, st), p) == Done(With(dev, st), Some([0x64, 0x00]))
    ensures p.message[2] == 1 && st.Some? ==>
      Serving(dev)(With(dev, st), p) ==
        Done(With(dev, Some(SignSession(st.value.path, st.value.data + p.message[5..]))), Some([0x90, 0x00]))
    ensures p.message[2] > 2 && st.Some? ==>
      Serving(dev)(With(dev, st), p) == Done(With(dev, st), Some([0x90, 0x00]))
  {
    ServingIsStep(dev, st, p);
    Apdu.StatusBytes([]);
  }

  /** An address request with a header field out of range, or none at all, is answered 0x6400. */
  lemma AddressRefused(dev: Device, st: State, p: Packet)
    requires var m := p.message;
      && dev.parses(m) && |m| >= 5 && m[0] == 0x55 && m[1] == 0x04
      && (|m| == 5 || m[2] > 1 || m[4] == 0 || m[5] == 0 || m[5] > 83)
    ensures Serving(dev)(With(dev, st), p) == Done(With(dev, st), Some([0x64, 0x00]))
  {
    ServingIsStep(dev, st, p);
    Apdu.StatusBytes([]);
  }

  // ---------- over raw USB input ----------

  /** Every message delivered over USB has at least one whole frame's payload behind it. */
  lemma {:induction false} DeliveriesWritten(dev: Device, bufs: seq<seq<byte>>)
    ensures forall p :: p in Deliveries(Serving(dev), Idle([], Boot(dev)), bufs) ==> |p.message| + |p.tail| >= 57
  {
    if bufs != [] {
      var before, buf := bufs[..|bufs| - 1], bufs[|bufs| - 1];
      DeliveriesWritten(dev, before);
      DeliveredInMemory(Serving(dev), Idle([], Boot(dev)), before, buf);
    }
  }

  /**
    * The same over raw USB input: after any stream of reports, a report that completes a last packet
    * emits exactly the framed signature of the delivered history, and leaves the device idle. The path
    * derives the words of the init packet's bytes 5 to 25, read on into its frame if it is short.
    */
  lemma UsbSigningHistory(dev: Device, bufs: seq<seq<byte>>, buf: seq<byte>)
    ensures var st0 := Idle([], Boot(dev));
      var st, ps := Run(Serving(dev), st0, bufs), Deliveries(Serving(dev), st0, bufs);
      !st.faulted && Delivered(st, buf) != [] && IsSign(dev, Delivered(st, buf)[0].message, SIGN_LAST) ==>
        && Sized(buf)
        && FirmwareRx(Serving(dev), st, buf) ==
           Idle(st.outbound + ResponseFrames(Channel(buf), LastReply(dev, ps, Delivered(st, buf)[0].message)), With(dev, None))
    ensures var ps := Deliveries(Serving(dev), Idle([], Boot(dev)), bufs);
      var j := Opening(dev, ps);
      j.Some? ==>
        var written := ps[j.value].message + ps[j.value].tail;
        |written| >= 25 && ChildIndices(SessionOf(dev, ps).value.path) == HostWords(written[5..25])
  {
    var st0 := Idle([], Boot(dev));
    var st, ps := Run(Serving(dev), st0, bufs), Deliveries(Serving(dev), st0, bufs);
    if !st.faulted && Delivered(st, buf) != [] && IsSign(dev, Delivered(st, buf)[0].message, SIGN_LAST) {
      RunSettled(Serving(dev), st0, bufs);
      RunServes(Serving(dev), st0, bufs);
      RxLifecycle(Serving(dev), st, buf);
      SignatureIsHistory(dev, ps, Delivered(st, buf)[0]);
    }
    UsbInitPath(dev, bufs);
  }

  lemma UsbInitPath(dev: Device, bufs: seq<seq<byte>>)
    ensures var ps := Deliveries(Serving(dev), Idle([], Boot(dev)), bufs);
      var j := Opening(dev, ps);
      j.Some? ==>
        var written := ps[j.value].message + ps[j.value].tail;
        |written| >= 25 && ChildIndices(SessionOf(dev, ps).value.path) == HostWords(written[5..25])
  {
    var ps := Deliveries(Serving(dev), Idle([], Boot(dev)), bufs);
    var j := Opening(dev, ps);
    if j.Some? {
      DeliveriesWritten(dev, bufs);
      assert ps[j.value] in ps;
      InitPathWords(ps[j.value]);
    }
  }

  /** So over every raw stream the key is the one of the words that the init packet's frames spell. */
  lemma UsbSignatureOutcome(dev: Device, lib: KeyLibrary, bufs: seq<seq<byte>>, m: seq<byte>)
    requires dev.env.token == LocalSuite(lib) && |m| >= MIN_DATA_LEN
    ensures var ps := Deliveries(Serving(dev), Idle([], Boot(dev)), bufs);
      var j := Opening(dev, ps);
      j.Some? ==> |ps[j.value].message| + |ps[j.value].tail| >= 25
    ensures var ps := Deliveries(Serving(dev), Idle([], Boot(dev)), bufs);
      LastReply(dev, ps, m) ==
        match Opening(dev, ps)
        case None => [0x64, 0x00]
        case Some(j) =>
          var payload := Added(dev, ps, j) + m[5..];
          match HostKey(lib, InitWords(ps[j]))
          case None => [0x64, 0x00]
          case Some(key) =>
            if !dev.env.isJSON(payload) then [0x69, 0x84]
            else match lib.ecSign(key, dev.env.sha256(payload))
              case None => [0x64, 0x00]
              case Some(sig) => sig + [0x90, 0x00]
  {
    var ps := Deliveries(Serving(dev), Idle([], Boot(dev)), bufs);
    UsbInitPath(dev, bufs);
    LastReplyBytes(dev, ps, m);
    if Opening(dev, ps).Some? {
      InitKey(lib, ps[Opening(dev, ps).value]);
    }
  }

  /** An address reply depends on its own request alone: any two histories get the same answer. */
  lemma AddressIgnoresHistory(dev: Device, h1: seq<Packet>, h2: seq<Packet>, p: Packet)
    requires Header(dev.parses, p.message) == (APP_ID, GET_ADDR_SECP256K1)
    requires Serve(Serving(dev), Boot(dev), h1).Some? && Serve(Serving(dev), Boot(dev), h2).Some?
    ensures var o1 := Serving(dev)(Serve(Serving(dev), Boot(dev), h1).value, p);
      var o2 := Serving(dev)(Serve(Serving(dev), Boot(dev), h2).value, p);
      && (o1.Panic? <==> o2.Panic?)
      && (o1.Done? ==> o1.response == o2.response && o1.app == Serve(Serving(dev), Boot(dev), h1).value)
  {
    SessionIsHistory(dev, h1);
    SessionIsHistory(dev, h2);
    ServingIsStep(dev, SessionOf(dev, h1), p);
    ServingIsStep(dev, SessionOf(dev, h2), p);
  }

  // ---------- when the device faults ----------

  predicate IsAddressRequest(dev: Device, m: seq<byte>) {
    Header(dev.parses, m) == (APP_ID, GET_ADDR_SECP256K1) && |m| >= 6 && RequestValidates(m)
  }

  /** Only an address request can panic: when its prefix and path pass the end of the array behind it. */
  lemma PanicsIff(dev: Device, st: State, p: Packet)
    ensures Serving(dev)(With(dev, st), p).Panic? <==> IsAddressRequest(dev, p.message) && |Backing(p)| < 26 + p.message[5]
  {
    ServingIsStep(dev, st, p);
  }

  /** A valid address request of one frame whose announced prefix leaves no room for its path. */
  predicate AsksTooMuch(dev: Device, m: seq<byte>) {
    IsAddressRequest(dev, m) && |m| <= 57 && m[5] > 38
  }

  /** With whole frames behind every message the capacity is a known number, so the panics are too. */
  lemma UsbPanicsIff(dev: Device, st: State, p: Packet)
    requires |p.message| + |p.tail| == Carried(1 + Needed(|p.message|))
    ensures Serving(dev)(With(dev, st), p).Panic? <==> AsksTooMuch(dev, p.message)
  {
    PanicsIff(dev, st, p);
    if |p.message| > INIT_DATA {
      assert |p.message| + |p.tail| >= Carried(2);
    }
  }

  /**
    * After every run that has not faulted, the next report faults the device exactly when it is a bad
    * first frame or completes an address request that asks for too much. No init packet ever does.
    */
  lemma UsbFaultsIff(dev: Device, bufs: seq<seq<byte>>, buf: seq<byte>)
    requires !Run(Serving(dev), Idle([], Boot(dev)), bufs).faulted
    ensures var st := Run(Serving(dev), Idle([], Boot(dev)), bufs);
      FirmwareRx(Serving(dev), st, buf).faulted <==>
        || (st.session.None? && !Accepts(FRESH, buf))
        || (Delivered(st, buf) != [] && AsksTooMuch(dev, Delivered(st, buf)[0].message))
  {
    var st0 := Idle([], Boot(dev));
    var st := Run(Serving(dev), st0, bufs);
    RunSettled(Serving(dev), st0, bufs);
    RunServes(Serving(dev), st0, bufs);
    SessionIsHistory(dev, Deliveries(Serving(dev), st0, bufs));
    RxLifecycle(Serving(dev), st, buf);
    DeliveredInMemory(Serving(dev), st0, bufs, buf);
    if Delivered(st, buf) != [] {
      UsbPanicsIff(dev, SessionOf(dev, Deliveries(Serving(dev), st0, bufs)), Delivered(st, buf)[0]);
    }
  }

  /** CLA 85, INS 4, one payload byte: a prefix of 39 bytes is announced and none is there. */
  const GREEDY_REQUEST: seq<byte> := [APP_ID, GET_ADDR_SECP256K1, 0, 0, 1, 39]

  /** One six-byte message on a fresh device, framed as usual, panics it. */
  lemma FaultExample(dev: Device, channel: uint16)
    requires channel != 0 && dev.parses(GREEDY_REQUEST)
    ensures Run(Serving(dev), Idle([], Boot(dev)), ResponseFrames(channel, GREEDY_REQUEST)).faulted
  {
    var frames := ResponseFrames(channel, GREEDY_REQUEST);
    var st0 := Idle([], Boot(dev));
    GreedyIsDelivered(dev, channel);
    assert frames == [frames[0]];
    RunOne(Serving(dev), st0, frames[0]);
    UsbFaultsIff(dev, [], frames[0]);
    assert Header(dev.parses, GREEDY_REQUEST) == (APP_ID, GET_ADDR_SECP256K1);
  }

  lemma GreedyIsDelivered(dev: Device, channel: uint16)
    requires channel != 0
    ensures var ds := Delivered(Idle([], Boot(dev)), ResponseFrame(channel, GREEDY_REQUEST, 0));
      ds != [] && ds[0].message == GREEDY_REQUEST
  {
    var f := ResponseFrame(channel, GREEDY_REQUEST, 0);
    ResponseFields(channel, GREEDY_REQUEST, 0);
    PaddedPrefix(GREEDY_REQUEST, 6);
    assert InitPayload(f)[..6] == GREEDY_REQUEST;
    assert [] + InitPayload(f) == InitPayload(f);
  }
}
