/**
  * From host payload to host signature: chunks in APDUs, APDUs in noisy HID frames, through `Rx`, the
  * router and the signing session, and back as frames the host reads.
  */
module EndToEnd {
  import Apdu
  import opened Bytes
  import opened Transport
  import opened Response
  import opened Rx
  import opened Router
  import opened Derivation
  import opened Tokens
  import opened Cosmos
  import opened Device
  import opened MessageLoop
  import Duplex
  import opened TeeToken
  import opened Wallet

  const OK: seq<byte> := [0x90, 0x00]

  function InitPacket(words: seq<uint32>): seq<byte>
    requires |words| == 5
  {
    Apdu.Command(APP_ID, SIGN_SECP256K1, SIGN_INIT, 0, PutWords(words))
  }

  function DataPacket(descr: byte, chunk: seq<byte>): seq<byte>
    requires |chunk| < 0x100
  {
    Apdu.Command(APP_ID, SIGN_SECP256K1, descr, 0, chunk)
  }

  /** The packets on raw bytes: CLA 0x55, INS 0x02, descriptor 0, 1 or 2, a zero, the length, the data. */
  lemma PacketBytes(words: seq<uint32>, chunks: seq<seq<byte>>, k: nat)
    requires |words| == 5 && Chunked(chunks) && k < |chunks|
    ensures Packets(words, chunks)[0] == [0x55, 0x02, 0x00, 0x00, 20] + PutWords(words)
    ensures Packets(words, chunks)[k + 1] ==
      [0x55, 0x02, if k == |chunks| - 1 then 0x02 else 0x01, 0x00, |chunks[k]|] + chunks[k]
  {
  }

  predicate Chunked(chunks: seq<seq<byte>>) {
    chunks != [] && forall k :: 0 <= k < |chunks| ==> |chunks[k]| < 0x100
  }

  /** The packets of one signing request: init, adds, and a last one. */
  function Packets(words: seq<uint32>, chunks: seq<seq<byte>>): (ps: seq<seq<byte>>)
    requires |words| == 5 && Chunked(chunks)
    ensures |ps| == |chunks| + 1
  {
    [InitPacket(words)] +
    seq(|chunks|, k requires 0 <= k < |chunks| =>
      DataPacket(if k + 1 == |chunks| then SIGN_LAST else SIGN_ADD, chunks[k]))
  }

  /** The APDU parser accepts every well-formed short command of the signing protocol. */
  ghost predicate ParsesCommands(dev: Device) {
    forall descr: byte, data: seq<byte> {:trigger Apdu.Command(APP_ID, SIGN_SECP256K1, descr, 0, data)} ::
      |data| < 0x100 ==> dev.parses(Apdu.Command(APP_ID, SIGN_SECP256K1, descr, 0, data))
  }

  /** A transmission per packet, on any channels and with any noise. */
  predicate Carries(ts: seq<Transmission>, packets: seq<seq<byte>>) {
    AllWellFormed(ts) && |ts| == |packets| && forall k :: 0 <= k < |ts| ==> ts[k].message == packets[k]
  }

  /** The replies a host should read: refusals for the noise of each transmission, then its answer. */
  function Answers(ts: seq<Transmission>, replies: seq<seq<byte>>): seq<Duplex.Reply>
    requires |ts| == |replies|
  {
    if ts == [] then []
    else
      var n := |ts| - 1;
      Answers(ts[..n], replies[..n]) + Duplex.Added(ts[n], Some(replies[n]))
  }

  // ---------- the packets, one by one ----------

  lemma InitStep(dev: Device, st: State, words: seq<uint32>, tail: seq<byte>)
    requires |words| == 5 && ParsesCommands(dev)
    ensures Step(dev, st, Packet(InitPacket(words), tail)) ==
      Answer(Some(SignSession(NewDerivationPathFromBytes(PutWords(words)), [])), [], Apdu.SUCCESS)
  {
    var m := InitPacket(words);
    assert Header(dev.parses, m) == (APP_ID, SIGN_SECP256K1);
    assert m[5..25] == PutWords(words);
  }

  lemma DataStep(dev: Device, s: SignSession, descr: byte, chunk: seq<byte>, tail: seq<byte>)
    requires |chunk| < 0x100 && ParsesCommands(dev)
    requires descr == SIGN_ADD || descr == SIGN_LAST
    ensures Step(dev, Some(s), Packet(DataPacket(descr, chunk), tail)) ==
      if descr == SIGN_ADD then Answer(Some(s.(data := s.data + chunk)), [], Apdu.SUCCESS)
      else var (body, code) := SignReply(dev.env, s.path, s.data + chunk); Answer(None, body, code)
  {
    var m := DataPacket(descr, chunk);
    assert Header(dev.parses, m) == (APP_ID, SIGN_SECP256K1);
    assert m[5..] == chunk;
  }

  function Progress(words: seq<uint32>, chunks: seq<seq<byte>>, k: nat): SignSession
    requires |words| == 5 && k <= |chunks|
  {
    SignSession(NewDerivationPathFromBytes(PutWords(words)), Concat(chunks[..k]))
  }

  /** After init and k adds the session holds k chunks, and every packet was answered by 0x9000. */
  lemma {:induction false} Collecting(dev: Device, st: State, words: seq<uint32>, chunks: seq<seq<byte>>, ts: seq<Transmission>, k: nat)
    requires |words| == 5 && Chunked(chunks) && k < |chunks| && ParsesCommands(dev)
    requires Carries(ts, Packets(words, chunks)[..k + 1])
    ensures Duplex.Owed(Serving(dev), With(dev, st), ts) ==
      Some(Duplex.Tally(With(dev, Some(Progress(words, chunks, k))), Answers(ts, Repeat(OK, k + 1))))
  {
    var before, t := ts[..k], ts[k];
    assert AllWellFormed(before);
    assert Apdu.PackageResponse([], Apdu.SUCCESS) == OK;
    assert Repeat(OK, k + 1)[..k] == Repeat(OK, k);
    if k == 0 {
      InitStep(dev, st, words, Framed(t.message).tail);
      ServingIsStep(dev, st, Framed(t.message));
      assert Duplex.Owed(Serving(dev), With(dev, st), before) == Some(Duplex.Tally(With(dev, st), []));
      assert Concat(chunks[..0]) == [];
    } else {
      assert Carries(before, Packets(words, chunks)[..k]);
      Collecting(dev, st, words, chunks, before, k - 1);
      var s := Progress(words, chunks, k - 1);
      assert t.message == DataPacket(SIGN_ADD, chunks[k - 1]);
      DataStep(dev, s, SIGN_ADD, chunks[k - 1], Framed(t.message).tail);
      ServingIsStep(dev, Some(s), Framed(t.message));
      assert chunks[..k][..k - 1] == chunks[..k - 1];
    }
  }

  /** All replies of one signing request: 0x9000 for every packet but the last, then the signing result. */
  lemma SigningReplies(dev: Device, st: State, words: seq<uint32>, chunks: seq<seq<byte>>, ts: seq<Transmission>)
    requires |words| == 5 && Chunked(chunks) && ParsesCommands(dev)
    requires Carries(ts, Packets(words, chunks))
    ensures var (body, code) := SignReply(dev.env, NewDerivationPathFromBytes(PutWords(words)), Concat(chunks));
      Duplex.Owed(Serving(dev), With(dev, st), ts) ==
      Some(Duplex.Tally(With(dev, None), Answers(ts, Repeat(OK, |chunks|) + [Apdu.PackageResponse(body, code)])))
  {
    var n := |chunks|;
    var before, t := ts[..n], ts[n];
    assert AllWellFormed(before);
    assert Carries(before, Packets(words, chunks)[..n]);
    Collecting(dev, st, words, chunks, before, n - 1);
    var s := Progress(words, chunks, n - 1);
    assert t.message == DataPacket(SIGN_LAST, chunks[n - 1]);
    DataStep(dev, s, SIGN_LAST, chunks[n - 1], Framed(t.message).tail);
    ServingIsStep(dev, Some(s), Framed(t.message));
    assert Concat(chunks) == s.data + chunks[n - 1];
    var (body, code) := SignReply(dev.env, s.path, Concat(chunks));
    assert (Repeat(OK, n) + [Apdu.PackageResponse(body, code)])[..n] == Repeat(OK, n);
  }

  lemma {:induction false} AnswersSendable(ts: seq<Transmission>, replies: seq<seq<byte>>)
    requires |ts| == |replies| && AllWellFormed(ts)
    requires forall k :: 0 <= k < |replies| ==> |replies[k]| < 0x1_0000
    ensures Duplex.AllSendable(Answers(ts, replies))
  {
    if ts != [] {
      var n := |ts| - 1;
      assert AllWellFormed(ts[..n]);
      AnswersSendable(ts[..n], replies[..n]);
      assert WellFormed(ts[n]) by { assert ts[n] in ts; }
      assert Duplex.AllSendable(Duplex.Added(ts[n], Some(replies[n])));
    }
  }

  /** Whatever the token answers, errors included, is what the host reads last. */
  lemma ReplyEndToEnd(dev: Device, st: State, words: seq<uint32>, chunks: seq<seq<byte>>, ts: seq<Transmission>, last: seq<byte>)
    requires |words| == 5 && Chunked(chunks) && ParsesCommands(dev)
    requires Carries(ts, Packets(words, chunks))
    requires var (body, code) := SignReply(dev.env, NewDerivationPathFromBytes(PutWords(words)), Concat(chunks));
      last == Apdu.PackageResponse(body, code) && |last| < 0x1_0000
    ensures var device := Run(Serving(dev), Idle([], With(dev, st)), AllInputs(ts));
      && device.session == None && !device.faulted && device.app == With(dev, None)
      && Duplex.HostReads(device.outbound) == Idle([], Duplex.Data(Answers(ts, Repeat(OK, |chunks|) + [last])))
  {
    SigningReplies(dev, st, words, chunks, ts);
    AnswersSendable(ts, Repeat(OK, |chunks|) + [last]);
    Duplex.Conversation(Serving(dev), With(dev, st), ts);
  }

  /** The reply to a whole signing request as bytes, in process: every outcome, the refusal of non-JSON included. */
  lemma SignReplyBytes(env: Env, lib: KeyLibrary, words: seq<uint32>, payload: seq<byte>)
    requires |words| == 5 && env.token == LocalSuite(lib)
    ensures var (body, code) := SignReply(env, NewDerivationPathFromBytes(PutWords(words)), payload);
      Apdu.PackageResponse(body, code) ==
        match HostKey(lib, words)
        case None => [0x64, 0x00]
        case Some(key) =>
          if !env.isJSON(payload) then [0x69, 0x84]
          else match lib.ecSign(key, env.sha256(payload))
            case None => [0x64, 0x00]
            case Some(sig) => sig + [0x90, 0x00]
  {
    HostKeyIsKeyAt(lib, words);
    Apdu.StatusBytes([]);
  }

  /** The same for the remote token: the JSON check comes before any use of the key. */
  lemma TeeSignReplyBytes(env: Env, lib: KeyLibrary, sha256: seq<byte> -> seq<byte>, words: seq<uint32>, payload: seq<byte>)
    requires |words| == 5 && env.token == TeeSuite(lib, sha256)
    ensures var (body, code) := SignReply(env, NewDerivationPathFromBytes(PutWords(words)), payload);
      Apdu.PackageResponse(body, code) ==
        if !env.isJSON(payload) then [0x69, 0x84]
        else match HostKey(lib, words)
          case None => [0x64, 0x00]
          case Some(key) =>
            match lib.ecSign(key, sha256(env.sha256(payload)))
            case None => [0x64, 0x00]
            case Some(sig) => sig + [0x90, 0x00]
  {
    HostKeyIsKeyAt(lib, words);
    Apdu.StatusBytes([]);
  }

  /**
    * Every outcome end to end: the host reads 0x9000 for each packet but the last, and for the last
    * 64 00 if its words have no key, 69 84 if its payload is not JSON, 64 00 if it cannot be signed,
    * and otherwise the signature and 90 00.
    */
  lemma OutcomeEndToEnd(dev: Device, st: State, lib: KeyLibrary, words: seq<uint32>, chunks: seq<seq<byte>>, ts: seq<Transmission>, last: seq<byte>)
    requires |words| == 5 && Chunked(chunks) && ParsesCommands(dev)
    requires Carries(ts, Packets(words, chunks))
    requires dev.env.token == LocalSuite(lib)
    requires last ==
      match HostKey(lib, words)
      case None => [0x64, 0x00]
      case Some(key) =>
        if !dev.env.isJSON(Concat(chunks)) then [0x69, 0x84]
        else match lib.ecSign(key, dev.env.sha256(Concat(chunks)))
          case None => [0x64, 0x00]
          case Some(sig) => sig + [0x90, 0x00]
    requires |last| < 0x1_0000
    ensures var device := Run(Serving(dev), Idle([], With(dev, st)), AllInputs(ts));
      && device.session == None && !device.faulted && device.app == With(dev, None)
      && Duplex.HostReads(device.outbound) ==
         Idle([], Duplex.Data(Answers(ts, Repeat([0x90, 0x00], |chunks|) + [last])))
  {
    SignReplyBytes(dev.env, lib, words, Concat(chunks));
    ReplyEndToEnd(dev, st, words, chunks, ts, last);
  }

  /** A payload that is not JSON, under any path that has a key: 0x9000s, then 69 84. */
  lemma NotJSONEndToEnd(dev: Device, st: State, lib: KeyLibrary, words: seq<uint32>, chunks: seq<seq<byte>>, ts: seq<Transmission>, last: seq<byte>)
    requires |words| == 5 && Chunked(chunks) && ParsesCommands(dev)
    requires Carries(ts, Packets(words, chunks)) && Silent(ts)
    requires dev.env.token == LocalSuite(lib) && last == [0x69, 0x84]
    requires HostKey(lib, words).Some? && !dev.env.isJSON(Concat(chunks))
    ensures var device := Run(Serving(dev), Idle([], With(dev, st)), AllInputs(ts));
      Duplex.HostReads(device.outbound).app == Repeat([0x90, 0x00], |chunks|) + [last]
  {
    OutcomeEndToEnd(dev, st, lib, words, chunks, ts, last);
    SilentAnswers(ts, Repeat([0x90, 0x00], |chunks|) + [last]);
  }

  /** Whatever the token, a request that it signs comes back to the host as that signature. */
  lemma SignedEndToEnd(dev: Device, st: State, words: seq<uint32>, chunks: seq<seq<byte>>, ts: seq<Transmission>, sig: seq<byte>)
    requires |words| == 5 && Chunked(chunks) && ParsesCommands(dev)
    requires Carries(ts, Packets(words, chunks))
    requires SignReply(dev.env, NewDerivationPathFromBytes(PutWords(words)), Concat(chunks)) == (sig, Apdu.SUCCESS)
    requires |sig| < 0xFFFE
    ensures var device := Run(Serving(dev), Idle([], With(dev, st)), AllInputs(ts));
      && device.session == None && !device.faulted && device.app == With(dev, None)
      && Duplex.HostReads(device.outbound) ==
         Idle([], Duplex.Data(Answers(ts, Repeat(OK, |chunks|) + [sig + OK])))
  {
    ReplyEndToEnd(dev, st, words, chunks, ts, sig + OK);
  }

  /**
    * End to end: for every path, every JSON payload and every way of cutting it into packets, on any
    * channels and through any noise, the host reads 0x9000 for each packet but the last and then the
    * signature over SHA-256 of exactly that payload, under the key at exactly the host's path. The
    * device may start with any half-finished signing session; it ends with none.
    */
  lemma SigningEndToEnd(dev: Device, st: State, lib: KeyLibrary, words: seq<uint32>, chunks: seq<seq<byte>>, ts: seq<Transmission>, key: ExtendedKey, sig: seq<byte>)
    requires |words| == 5 && Chunked(chunks) && ParsesCommands(dev)
    requires Carries(ts, Packets(words, chunks))
    requires dev.env.token == LocalSuite(lib)
    requires dev.env.isJSON(Concat(chunks))
    requires HostKey(lib, words) == Some(key)
    requires lib.ecSign(key, dev.env.sha256(Concat(chunks))) == Some(sig) && |sig| < 0xFFFE
    ensures var device := Run(Serving(dev), Idle([], With(dev, st)), AllInputs(ts));
      && device.session == None && !device.faulted && device.app == With(dev, None)
      && Duplex.HostReads(device.outbound) ==
         Idle([], Duplex.Data(Answers(ts, Repeat(OK, |chunks|) + [sig + OK])))
  {
    HostKeyIsKeyAt(lib, words);
    assert SignReply(dev.env, NewDerivationPathFromBytes(PutWords(words)), Concat(chunks)) == (sig, Apdu.SUCCESS);
    SignedEndToEnd(dev, st, words, chunks, ts, sig);
  }

  // ---------- on the wallet's objects ----------

  /** Replies are owed exactly as the application alone would serve the framed messages. */
  lemma {:induction false} OwedServes<A>(handle: Handle<A>, app: A, ts: seq<Transmission>)
    requires AllWellFormed(ts) && Duplex.Owed(handle, app, ts).Some?
    ensures Serve(handle, app, AllFramed(ts)) == Some(Duplex.Owed(handle, app, ts).value.app)
  {
    if ts != [] {
      var before, t := ts[..|ts| - 1], ts[|ts| - 1];
      assert ts == before + [t];
      OwedServes(handle, app, before);
      FramedSnoc(before, t);
      ServeSnoc(handle, app, AllFramed(before), Framed(t.message));
    }
  }

  /** Whatever report of the transmissions delivers a message, it is the next one, to an application that served those before. */
  lemma NextDelivery(dev: Device, st: State, ts: seq<Transmission>, i: nat)
    requires AllWellFormed(ts)
    requires Duplex.Owed(Serving(dev), With(dev, st), ts).Some?
    ensures i < |AllInputs(ts)| ==>
      var mid, buf := Run(Serving(dev), Idle([], With(dev, st)), AllInputs(ts)[..i]), AllInputs(ts)[i];
      Delivered(mid, buf) != [] ==>
        exists k :: 0 <= k < |ts| && Delivered(mid, buf) == [Framed(ts[k].message)] &&
          Serve(Serving(dev), With(dev, st), AllFramed(ts[..k])) == Some(mid.app)
  {
    var handle, st0, bufs := Serving(dev), Idle([], With(dev, st)), AllInputs(ts);
    if i < |bufs| && Delivered(Run(handle, st0, bufs[..i]), bufs[i]) != [] {
      Duplex.LoopPaysOwed(handle, [], With(dev, st), ts);
      TransmissionsDeliver(handle, st0, ts);
      DeliveryInOrder(handle, st0, bufs, i);
      RunServes(handle, st0, bufs[..i]);
      FramedTake(ts, |Deliveries(handle, st0, bufs[..i])|);
    }
  }

  lemma FramedTake(ts: seq<Transmission>, k: nat)
    requires k < |ts|
    ensures AllFramed(ts)[..k] == AllFramed(ts[..k]) && AllFramed(ts)[k] == Framed(ts[k].message)
  {
  }

  /** No packet of a request that the token signs, or that is refused as not JSON, goes unserved. */
  lemma PacketIsServed(dev: Device, st: State, words: seq<uint32>, chunks: seq<seq<byte>>, ts: seq<Transmission>, k: nat)
    requires |words| == 5 && Chunked(chunks) && ParsesCommands(dev)
    requires Carries(ts, Packets(words, chunks)) && k < |ts|
    requires SignReply(dev.env, NewDerivationPathFromBytes(PutWords(words)), Concat(chunks)).1 != Apdu.EXECUTION_ERROR
    requires AllWellFormed(ts[..k])
    ensures Serve(Serving(dev), With(dev, st), AllFramed(ts[..k])).Some?
    ensures var r := Serve(Serving(dev), With(dev, st), AllFramed(ts[..k])).value;
      !UnservedMessage(dev, SessionIn(r), Framed(ts[k].message))
  {
    var m := ts[k].message;
    assert m == Packets(words, chunks)[k];
    assert Header(dev.parses, m) == (APP_ID, SIGN_SECP256K1);
    if k == 0 {
      assert AllFramed(ts[..0]) == [];
    } else {
      assert Carries(ts[..k], Packets(words, chunks)[..k]);
      Collecting(dev, st, words, chunks, ts[..k], k - 1);
      OwedServes(Serving(dev), With(dev, st), ts[..k]);
      if k == |chunks| {
        assert m[5..] == chunks[k - 1];
        assert Concat(chunks) == Concat(chunks[..k - 1]) + chunks[k - 1];
      }
    }
  }

  lemma SigningIsServed(dev: Device, st: State, words: seq<uint32>, chunks: seq<seq<byte>>, ts: seq<Transmission>)
    requires |words| == 5 && Chunked(chunks) && ParsesCommands(dev)
    requires Carries(ts, Packets(words, chunks))
    requires SignReply(dev.env, NewDerivationPathFromBytes(PutWords(words)), Concat(chunks)).1 != Apdu.EXECUTION_ERROR
    ensures !UnservedWithin(dev, Idle([], With(dev, st)), AllInputs(ts))
  {
    var bufs := AllInputs(ts);
    SigningReplies(dev, st, words, chunks, ts);
    forall i | 0 <= i < |bufs|
      ensures !UnservedReport(dev, Run(Serving(dev), Idle([], With(dev, st)), bufs[..i]), bufs[i])
    {
      var mid := Run(Serving(dev), Idle([], With(dev, st)), bufs[..i]);
      if Delivered(mid, bufs[i]) != [] {
        NextDelivery(dev, st, ts, i);
        var k :| 0 <= k < |ts| && Delivered(mid, bufs[i]) == [Framed(ts[k].message)] &&
          Serve(Serving(dev), With(dev, st), AllFramed(ts[..k])) == Some(mid.app);
        PacketIsServed(dev, st, words, chunks, ts, k);
      }
    }
  }

  /**
    * The same on the wallet's objects, with either token: fed the noisy transmissions of a request that
    * its token signs or that is refused as not JSON, the wallet's own outbound channel holds what the
    * host decodes to that reply.
    */
  method WalletReplies(w: WalletObject, words: seq<uint32>, chunks: seq<seq<byte>>, ts: seq<Transmission>, ghost last: seq<byte>)
    requires w.Ready() && w.State() == Idle([], With(w.dev, w.cosmos.currentSignatureSession))
    requires |words| == 5 && Chunked(chunks) && ParsesCommands(w.dev)
    requires Carries(ts, Packets(words, chunks))
    requires var (body, code) := SignReply(w.dev.env, NewDerivationPathFromBytes(PutWords(words)), Concat(chunks));
      code != Apdu.EXECUTION_ERROR && last == Apdu.PackageResponse(body, code) && |last| < 0x1_0000
    modifies w, w.port, w.port.session, w.cosmos`currentSignatureSession, w.cosmos.token.Monitors()
    ensures w.Ready() && w.State() == Idle(w.port.outbound, With(w.dev, None))
    ensures Duplex.HostReads(w.port.outbound) ==
      Idle([], Duplex.Data(Answers(ts, Repeat(OK, |chunks|) + [last])))
  {
    ghost var st := w.cosmos.currentSignatureSession;
    SigningIsServed(w.dev, st, words, chunks, ts);
    ReplyEndToEnd(w.dev, st, words, chunks, ts, last);
    w.RunAll(AllInputs(ts));
  }

  /** In particular a request that the token signs is decoded to that signature. */
  method WalletSigns(w: WalletObject, words: seq<uint32>, chunks: seq<seq<byte>>, ts: seq<Transmission>, ghost sig: seq<byte>)
    requires w.Ready() && w.State() == Idle([], With(w.dev, w.cosmos.currentSignatureSession))
    requires |words| == 5 && Chunked(chunks) && ParsesCommands(w.dev)
    requires Carries(ts, Packets(words, chunks))
    requires SignReply(w.dev.env, NewDerivationPathFromBytes(PutWords(words)), Concat(chunks)) == (sig, Apdu.SUCCESS)
    requires |sig| < 0xFFFE
    modifies w, w.port, w.port.session, w.cosmos`currentSignatureSession, w.cosmos.token.Monitors()
    ensures w.Ready() && w.State() == Idle(w.port.outbound, With(w.dev, None))
    ensures Duplex.HostReads(w.port.outbound) ==
      Idle([], Duplex.Data(Answers(ts, Repeat(OK, |chunks|) + [sig + OK])))
  {
    Apdu.StatusBytes(sig);
    WalletReplies(w, words, chunks, ts, sig + OK);
  }

  /**
    * The TEE build, down to the applet: every request passes the mailbox, the monitor survives, and the
    * host reads the in-process signature over the hash of the payload's hash under its own path.
    */
  method TeeSigningEndToEnd(w: WalletObject, words: seq<uint32>, chunks: seq<seq<byte>>, ts: seq<Transmission>, ghost key: ExtendedKey, ghost sig: seq<byte>)
    requires w.Ready() && w.State() == Idle([], With(w.dev, w.cosmos.currentSignatureSession))
    requires w.cosmos.token.Tee?
    requires |words| == 5 && Chunked(chunks) && ParsesCommands(w.dev)
    requires Carries(ts, Packets(words, chunks))
    requires w.dev.env.isJSON(Concat(chunks))
    requires HostKey(w.cosmos.token.tee.lib, words) == Some(key)
    requires var tee := w.cosmos.token.tee;
      tee.lib.ecSign(key, tee.sha256(w.dev.env.sha256(Concat(chunks)))) == Some(sig) && |sig| < 0xFFFE
    modifies w, w.port, w.port.session, w.cosmos`currentSignatureSession, w.cosmos.token.Monitors()
    ensures w.Ready() && w.State() == Idle(w.port.outbound, With(w.dev, None))
    ensures Duplex.HostReads(w.port.outbound) ==
      Idle([], Duplex.Data(Answers(ts, Repeat(OK, |chunks|) + [sig + OK])))
  {
    HostKeyIsKeyAt(w.cosmos.token.tee.lib, words);
    assert SignReply(w.dev.env, NewDerivationPathFromBytes(PutWords(words)), Concat(chunks)) == (sig, Apdu.SUCCESS);
    WalletSigns(w, words, chunks, ts, sig);
  }

  /** And a payload that is not JSON is refused there by 69 84, whatever its path; the monitor survives. */
  method TeeNotJSONEndToEnd(w: WalletObject, words: seq<uint32>, chunks: seq<seq<byte>>, ts: seq<Transmission>)
    requires w.Ready() && w.State() == Idle([], With(w.dev, w.cosmos.currentSignatureSession))
    requires w.cosmos.token.Tee?
    requires |words| == 5 && Chunked(chunks) && ParsesCommands(w.dev)
    requires Carries(ts, Packets(words, chunks))
    requires !w.dev.env.isJSON(Concat(chunks))
    modifies w, w.port, w.port.session, w.cosmos`currentSignatureSession, w.cosmos.token.Monitors()
    ensures w.Ready() && w.State() == Idle(w.port.outbound, With(w.dev, None))
    ensures Duplex.HostReads(w.port.outbound) ==
      Idle([], Duplex.Data(Answers(ts, Repeat([0x90, 0x00], |chunks|) + [[0x69, 0x84]])))
  {
    TeeSignReplyBytes(w.dev.env, w.cosmos.token.tee.lib, w.cosmos.token.tee.sha256, words, Concat(chunks));
    WalletReplies(w, words, chunks, ts, [0x69, 0x84]);
  }

  // ---------- without noise ----------

  predicate Silent(ts: seq<Transmission>) {
    forall k :: 0 <= k < |ts| ==> NoiseBefore(ts[k], |ts[k].noise|) == 0
  }

  lemma {:induction false} SilentAnswers(ts: seq<Transmission>, replies: seq<seq<byte>>)
    requires |ts| == |replies| && Silent(ts)
    ensures Duplex.Data(Answers(ts, replies)) == replies
  {
    if ts != [] {
      var n := |ts| - 1;
      SilentAnswers(ts[..n], replies[..n]);
      assert Duplex.Added(ts[n], Some(replies[n])) == [Duplex.Reply(ts[n].channel, replies[n])];
      var rs := Answers(ts[..n], replies[..n]);
      assert Duplex.Data(rs + [Duplex.Reply(ts[n].channel, replies[n])]) == Duplex.Data(rs) + [replies[n]];
    }
  }

  /** The documented client, from boot: the payload in 255-byte packets, one frame stream after the other. */
  lemma LedgerClientSigns(dev: Device, lib: KeyLibrary, words: seq<uint32>, payload: seq<byte>, chunks: seq<seq<byte>>, ts: seq<Transmission>, key: ExtendedKey, sig: seq<byte>)
    requires |words| == 5 && IsChunking(payload, 255, chunks) && ParsesCommands(dev)
    requires Chunked(chunks) && Carries(ts, Packets(words, chunks)) && Silent(ts)
    requires dev.env.token == LocalSuite(lib)
    requires dev.env.isJSON(payload)
    requires HostKey(lib, words) == Some(key)
    requires lib.ecSign(key, dev.env.sha256(payload)) == Some(sig) && |sig| < 0xFFFE
    ensures var device := Run(Serving(dev), Idle([], Boot(dev)), AllInputs(ts));
      Duplex.HostReads(device.outbound).app == Repeat(OK, ChunkCount(|payload|, 255)) + [sig + OK]
  {
    ChunksConcatenate(payload, 255, chunks);
    BootIsWith(dev);
    SigningEndToEnd(dev, None, lib, words, chunks, ts, key, sig);
    SilentAnswers(ts, Repeat(OK, |chunks|) + [sig + OK]);
  }
}
