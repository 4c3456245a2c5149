/** Address and version requests from the host's bytes to the bytes the host reads (apps/cosmos/cosmos.go). */
module Addresses {
  import Apdu
  import opened Bytes
  import opened Cosmos
  import opened Derivation
  import opened Device
  import Duplex
  import opened EndToEnd
  import opened MessageLoop
  import opened Router
  import opened Rx
  import opened TeeToken
  import opened TokenObjects
  import opened Tokens
  import opened Transport
  import opened Wallet

  /** Both builds: the token works with this key library, in process or behind the monitor. */
  ghost predicate Uses(suite: TokenSuite, lib: KeyLibrary) {
    suite == LocalSuite(lib) || exists sha256 :: suite == TeeSuite(lib, sha256)
  }

  lemma SuiteGivesKey(env: Env, lib: KeyLibrary, hrp: seq<byte>, path: DerivationPath)
    requires Uses(env.token, lib)
    ensures AddressReply(env, hrp, path) ==
      match PublicKeyAt(lib, path)
      case None => ([], 0x6400)
      case Some(pk) =>
        match env.address(pk, hrp)
        case None => ([], 0x6400)
        case Some(a) => (pk + a, 0x9000)
  {
    if env.token != LocalSuite(lib) {
      var sha256 :| env.token == TeeSuite(lib, sha256);
      assert env.token.initialize(path) == Some(Remote(path));
    }
  }

  /** A valid address request on raw bytes: CLA 0x55, INS 0x04, P1 at most 1, a payload, a prefix of 1 to 83 bytes. */
  predicate Asks(dev: Device, m: seq<byte>) {
    && dev.parses(m) && |m| >= 6 && m[0] == 0x55 && m[1] == 0x04
    && m[2] <= 1 && m[4] != 0 && 1 <= m[5] <= 83
  }

  /** A prefix from byte 6 on, of the announced length, and then the twenty bytes of a path. */
  predicate Spells(p: Packet, hrp: seq<byte>, path: seq<byte>)
    requires |p.message| >= 6
  {
    var n: int, w := p.message[5], Backing(p);
    |w| >= 26 + n && hrp == w[6..6 + n] && path == w[6 + n..26 + n]
  }

  lemma AskedStep(dev: Device, st: State, p: Packet, hrp: seq<byte>, path: seq<byte>)
    requires Asks(dev, p.message) && Spells(p, hrp, path)
    ensures var (body, code) := AddressReply(dev.env, hrp, NewDerivationPathFromBytes(path));
      Step(dev, st, p) == Answer(st, body, code)
  {
    assert Header(dev.parses, p.message) == (APP_ID, GET_ADDR_SECP256K1);
  }

  /**
    * Every valid request that does not run out of its array, well-formed or not: the prefix is the
    * announced number of bytes from byte 6 on, the path the five words after it, and the reply is the
    * public key at those words, its address under that prefix, and 0x9000.
    */
  lemma AddressOfBytes(dev: Device, st: State, lib: KeyLibrary, p: Packet, hrp: seq<byte>, path: seq<byte>)
    requires Uses(dev.env.token, lib)
    requires Asks(dev, p.message) && Spells(p, hrp, path)
    ensures Serving(dev)(With(dev, st), p) ==
      Done(With(dev, st), Some(
        match HostKey(lib, HostWords(path))
        case None => [0x64, 0x00]
        case Some(key) =>
          match lib.ecPublicKey(key)
          case None => [0x64, 0x00]
          case Some(pk) =>
            match dev.env.address(pk, hrp)
            case None => [0x64, 0x00]
            case Some(a) => pk + a + [0x90, 0x00]))
  {
    AskedStep(dev, st, p, hrp, path);
    ServingIsStep(dev, st, p);
    SuiteGivesKey(dev.env, lib, hrp, NewDerivationPathFromBytes(path));
    HostKeyOfBytes(lib, path);
    Apdu.StatusBytes(AddressReply(dev.env, hrp, NewDerivationPathFromBytes(path)).0);
  }

  lemma RequestInMemory(dev: Device, p1: byte, hrp: seq<byte>, words: seq<uint32>, tail: seq<byte>)
    requires p1 <= 1 && 1 <= |hrp| <= 83 && |words| == 5
    requires dev.parses(AddressRequest(p1, hrp, words))
    ensures var p := Packet(AddressRequest(p1, hrp, words), tail);
      Asks(dev, p.message) && Spells(p, hrp, PutWords(words))
  {
    var p, n := Packet(AddressRequest(p1, hrp, words), tail), |hrp|;
    RequestLayout(p1, hrp, words);
    assert Backing(p)[6..6 + n] == p.message[6..6 + n];
    assert Backing(p)[6 + n..26 + n] == p.message[6 + n..26 + n];
  }

  /**
    * In any state, a request for a prefix and a path is answered by the public key at exactly the
    * host's words, followed by its address under exactly that prefix, and 0x9000; by 0x6400 if any
    * of the three is missing. The signature session is kept.
    */
  lemma AddressAnswered(dev: Device, st: State, lib: KeyLibrary, p1: byte, hrp: seq<byte>, words: seq<uint32>, tail: seq<byte>)
    requires p1 <= 1 && 1 <= |hrp| <= 83 && |words| == 5
    requires Uses(dev.env.token, lib) && dev.parses(AddressRequest(p1, hrp, words))
    ensures Serving(dev)(With(dev, st), Packet(AddressRequest(p1, hrp, words), tail)) ==
      Done(With(dev, st), Some(
        match HostKey(lib, words)
        case None => [0x64, 0x00]
        case Some(key) =>
          match lib.ecPublicKey(key)
          case None => [0x64, 0x00]
          case Some(pk) =>
            match dev.env.address(pk, hrp)
            case None => [0x64, 0x00]
            case Some(a) => pk + a + [0x90, 0x00]))
  {
    RequestInMemory(dev, p1, hrp, words, tail);
    HostWordsRoundTrip(words);
    AddressOfBytes(dev, st, lib, Packet(AddressRequest(p1, hrp, words), tail), hrp, PutWords(words));
  }

  /** Over USB: through any noise the host reads 69 86 for each refused report, then key, address and 90 00. */
  lemma AddressEndToEnd(dev: Device, st: State, lib: KeyLibrary, p1: byte, hrp: seq<byte>, words: seq<uint32>, t: Transmission, key: ExtendedKey, pk: seq<byte>, a: seq<byte>)
    requires p1 <= 1 && 1 <= |hrp| <= 83 && |words| == 5
    requires Uses(dev.env.token, lib) && dev.parses(AddressRequest(p1, hrp, words))
    requires WellFormed(t) && t.message == AddressRequest(p1, hrp, words)
    requires HostKey(lib, words) == Some(key) && lib.ecPublicKey(key) == Some(pk)
    requires dev.env.address(pk, hrp) == Some(a) && |pk| + |a| < 0xFFFE
    ensures var device := Run(Serving(dev), Idle([], With(dev, st)), Inputs(t));
      && device == Idle(device.outbound, With(dev, st))
      && Duplex.HostReads(device.outbound) ==
         Idle([], Repeat([0x69, 0x86], NoiseBefore(t, |t.noise|)) + [pk + a + [0x90, 0x00]])
  {
    AddressAnswered(dev, st, lib, p1, hrp, words, Framed(t.message).tail);
    Duplex.OneMessage(Serving(dev), With(dev, st), t, With(dev, st), pk + a + [0x90, 0x00]);
  }

  /** A message that is answered and changes nothing, over USB. */
  lemma ReplyIsRead(dev: Device, st: State, t: Transmission, reply: seq<byte>)
    requires WellFormed(t) && |reply| < 0x1_0000
    requires Serving(dev)(With(dev, st), Framed(t.message)) == Done(With(dev, st), Some(reply))
    ensures var device := Run(Serving(dev), Idle([], With(dev, st)), Inputs(t));
      && device == Idle(device.outbound, With(dev, st))
      && Duplex.HostReads(device.outbound) == Idle([], Repeat([0x69, 0x86], NoiseBefore(t, |t.noise|)) + [reply])
  {
    Duplex.OneMessage(Serving(dev), With(dev, st), t, With(dev, st), reply);
  }

  /** The version request, in any state and through any noise: 00 02 00 00 00 90 00. */
  lemma VersionEndToEnd(dev: Device, st: State, t: Transmission, reply: seq<byte>)
    requires reply == [0x00, 0x02, 0x00, 0x00, 0x00, 0x90, 0x00]
    requires WellFormed(t) && dev.parses(t.message)
    requires |t.message| >= 5 && t.message[0] == 0x55 && t.message[1] == 0x00
    ensures var device := Run(Serving(dev), Idle([], With(dev, st)), Inputs(t));
      && device == Idle(device.outbound, With(dev, st))
      && Duplex.HostReads(device.outbound) ==
         Idle([], Repeat([0x69, 0x86], NoiseBefore(t, |t.noise|)) + [reply])
  {
    VersionReply(dev, st, Framed(t.message));
    ReplyIsRead(dev, st, t, reply);
  }

  // ---------- on the wallet's objects ----------

  ghost function LibraryOf(token: Token): KeyLibrary {
    match token
    case Dumb(d) => d.lib
    case Tee(r) => r.lib
  }

  lemma TokenUses(token: Token)
    ensures Uses(token.Suite(), LibraryOf(token))
  {
  }

  lemma OneInput(t: Transmission)
    requires WellFormed(t)
    ensures AllWellFormed([t]) && AllInputs([t]) == Inputs(t)
  {
    assert [t][..0] == [];
    assert AllInputs([t][..0]) == [];
  }

  /** No report of an address request whose public key exists goes unserved. */
  lemma AddressIsServed(dev: Device, st: State, lib: KeyLibrary, p1: byte, hrp: seq<byte>, words: seq<uint32>, t: Transmission)
    requires p1 <= 1 && 1 <= |hrp| <= 83 && |words| == 5
    requires Uses(dev.env.token, lib) && dev.parses(AddressRequest(p1, hrp, words))
    requires WellFormed(t) && t.message == AddressRequest(p1, hrp, words)
    requires HostKey(lib, words).Some? && lib.ecPublicKey(HostKey(lib, words).value).Some?
    ensures !UnservedWithin(dev, Idle([], With(dev, st)), Inputs(t))
  {
    var bufs, handle := Inputs(t), Serving(dev);
    OneInput(t);
    AddressAnswered(dev, st, lib, p1, hrp, words, Framed(t.message).tail);
    assert [t][..0] == [];
    assert Duplex.Owed(handle, With(dev, st), [t][..0]) == Some(Duplex.Tally(With(dev, st), []));
    AddressMessageIsServed(dev, st, lib, p1, hrp, words, Framed(t.message).tail);
    forall i | 0 <= i < |bufs|
      ensures !UnservedReport(dev, Run(handle, Idle([], With(dev, st)), bufs[..i]), bufs[i])
    {
      var mid := Run(handle, Idle([], With(dev, st)), bufs[..i]);
      if Delivered(mid, bufs[i]) != [] {
        NextDelivery(dev, st, [t], i);
        assert AllFramed([t][..0]) == [];
      }
    }
  }

  lemma AddressMessageIsServed(dev: Device, st: State, lib: KeyLibrary, p1: byte, hrp: seq<byte>, words: seq<uint32>, tail: seq<byte>)
    requires p1 <= 1 && 1 <= |hrp| <= 83 && |words| == 5
    requires Uses(dev.env.token, lib) && dev.parses(AddressRequest(p1, hrp, words))
    requires HostKey(lib, words).Some? && lib.ecPublicKey(HostKey(lib, words).value).Some?
    ensures !UnservedMessage(dev, st, Packet(AddressRequest(p1, hrp, words), tail))
  {
    AddressRequestRoundTrip(p1, hrp, words, tail);
    assert Header(dev.parses, AddressRequest(p1, hrp, words)) == (APP_ID, GET_ADDR_SECP256K1);
    HostKeyIsKeyAt(lib, words);
  }

  /** The same on the wallet's objects, with either token: its outbound channel holds the address reply. */
  method WalletGivesAddress(w: WalletObject, p1: byte, hrp: seq<byte>, words: seq<uint32>, t: Transmission, ghost key: ExtendedKey, ghost pk: seq<byte>, ghost a: seq<byte>)
    requires w.Ready() && w.State() == Idle([], With(w.dev, w.cosmos.currentSignatureSession))
    requires p1 <= 1 && 1 <= |hrp| <= 83 && |words| == 5
    requires w.dev.parses(AddressRequest(p1, hrp, words))
    requires WellFormed(t) && t.message == AddressRequest(p1, hrp, words)
    requires var lib := LibraryOf(w.cosmos.token); HostKey(lib, words) == Some(key) && lib.ecPublicKey(key) == Some(pk)
    requires w.dev.env.address(pk, hrp) == Some(a) && |pk| + |a| < 0xFFFE
    modifies w, w.port, w.port.session, w.cosmos`currentSignatureSession, w.cosmos.token.Monitors()
    ensures w.Ready() && w.cosmos.currentSignatureSession == old(w.cosmos.currentSignatureSession)
    ensures Duplex.HostReads(w.port.outbound) ==
      Idle([], Repeat([0x69, 0x86], NoiseBefore(t, |t.noise|)) + [pk + a + [0x90, 0x00]])
  {
    ghost var st, lib := w.cosmos.currentSignatureSession, LibraryOf(w.cosmos.token);
    TokenUses(w.cosmos.token);
    AddressIsServed(w.dev, st, lib, p1, hrp, words, t);
    AddressEndToEnd(w.dev, st, lib, p1, hrp, words, t, key, pk, a);
    w.RunAll(Inputs(t));
    assert w.State().app == With(w.dev, st);
    assert SessionIn(With(w.dev, st)) == st;
  }
}
