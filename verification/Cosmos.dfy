/** The Cosmos application: version, multi-packet signing and address requests (apps/cosmos/cosmos.go). */
module Cosmos {
  import Apdu
  import opened Bytes
  import opened Derivation
  import opened Router
  import opened Tokens
  import opened Transport

  const APP_ID: byte := 85
  const MIN_DATA_LEN := 5
  const GET_VERSION: byte := 0x00
  const SIGN_SECP256K1: byte := 0x02
  const GET_ADDR_SECP256K1: byte := 0x04
  const SIGN_INIT: byte := 0
  const SIGN_ADD: byte := 1
  const SIGN_LAST: byte := 2

  /** Capacity of the buffer that holds a one-frame message: `bytes.Buffer` first allocates 64 bytes. */
  const ONE_FRAME_CAPACITY := 64

  /** The token and the libraries the application calls. */
  datatype Env = Env(
    token: TokenSuite,
    isJSON: seq<byte> -> bool,
    sha256: seq<byte> -> seq<byte>,
    address: (seq<byte>, seq<byte>) -> Option<seq<byte>>)

  datatype SignSession = SignSession(path: DerivationPath, data: seq<byte>)

  type State = Option<SignSession>

  /**
    * The array behind a received message, which a Go slice expression may reach past the message's end:
    * what truncation left there and, in the first allocation, the zero bytes never written. Larger
    * buffers have unwritten room too, but no slice of this application goes that far.
    */
  function Backing(p: Packet): seq<byte> {
    var written := p.message + p.tail;
    if |written| < ONE_FRAME_CAPACITY then written + Zeros(ONE_FRAME_CAPACITY - |written|) else written
  }

  /** The Go slice expression p[lo:hi]; None where it panics. */
  function Slice(p: Packet, lo: nat, hi: nat): (r: Option<seq<byte>>)
    requires lo <= hi
    ensures hi <= |p.message| + |p.tail| ==> r == Some((p.message + p.tail)[lo..hi])
    ensures hi <= |p.message| ==> r == Some(p.message[lo..hi])
  {
    if hi <= |Backing(p)| then
      assert hi <= |p.message| + |p.tail| ==> Backing(p)[lo..hi] == (p.message + p.tail)[lo..hi];
      assert hi <= |p.message| ==> (p.message + p.tail)[lo..hi] == p.message[lo..hi];
      Some(Backing(p)[lo..hi])
    else None
  }

  // ---------- signing ----------

  /** The path an init packet selects. */
  function InitPath(p: Packet): (path: Option<DerivationPath>)
    ensures path.Some?  // the first allocation is never shorter than the slice
  {
    match Slice(p, 5, 25)
    case None => None
    case Some(b) => Some(NewDerivationPathFromBytes(b))
  }

  /** The path derives the five words of the init packet, read on into the frame's tail if it is short. */
  lemma InitPathWords(p: Packet)
    requires |p.message| + |p.tail| >= 25
    ensures ChildIndices(InitPath(p).value) == HostWords((p.message + p.tail)[5..25])
    ensures |p.message| >= 25 ==> ChildIndices(InitPath(p).value) == HostWords(p.message[5..25])
    ensures forall i :: 0 <= i < 5 ==> ChildIndices(InitPath(p).value)[i] == WordAt(p.message + p.tail, 5 + 4 * i)
  {
    ChildIndicesAreHostWords((p.message + p.tail)[5..25]);
    forall i | 0 <= i < 5
      ensures HostWords((p.message + p.tail)[5..25])[i] == WordAt(p.message + p.tail, 5 + 4 * i)
    {
      HostWordBytes((p.message + p.tail)[5..25], i);
    }
    if |p.message| >= 25 {
      assert (p.message + p.tail)[5..25] == p.message[5..25];
    }
  }

  /** Two equal five-byte init packets select whatever paths their frames' tails spell. */
  lemma ShortInitReadsTail(message: seq<byte>, words: seq<uint32>, rest: seq<byte>)
    requires |message| == 5 && |words| == 5
    ensures ChildIndices(InitPath(Packet(message, PutWords(words) + rest)).value) == words
  {
    var p := Packet(message, PutWords(words) + rest);
    var written := p.message + p.tail;
    assert written == message + PutWords(words) + rest;
    assert written[5..25] == PutWords(words);
    InitPathWords(p);
    HostWordsRoundTrip(words);
  }

  /** Body and status of a completed signature request. */
  function SignReply(env: Env, path: DerivationPath, payload: seq<byte>): (seq<byte>, uint16) {
    match env.token.initialize(path)
    case None => ([], Apdu.EXECUTION_ERROR)
    case Some(t) =>
      if !env.isJSON(payload) then ([], Apdu.DATA_INVALID)
      else match env.token.sign(t, env.sha256(payload))
        case None => ([], Apdu.EXECUTION_ERROR)
        case Some(sig) => (sig, Apdu.SUCCESS)
  }

  function HandleSign(env: Env, st: State, p: Packet): AppOutcome<State>
    requires |p.message| >= MIN_DATA_LEN
  {
    var data := p.message;
    var descr := data[2];
    if st.None? && descr != SIGN_INIT then Answer(st, [], Apdu.EXECUTION_ERROR)
    else if descr == SIGN_INIT then
      match InitPath(p)
      case None => Crash
      case Some(path) => Answer(Some(SignSession(path, [])), [], Apdu.SUCCESS)
    else if descr == SIGN_ADD then
      Answer(Some(st.value.(data := st.value.data + data[5..])), [], Apdu.SUCCESS)
    else if descr == SIGN_LAST then
      var (body, code) := SignReply(env, st.value.path, st.value.data + data[5..]);
      Answer(None, body, code)
    else Answer(st, [], Apdu.SUCCESS)
  }

  // ---------- addresses ----------

  /** P1, payload length and prefix length are in range (bytes 2, 4 and 5 of the request). */
  predicate RequestValidates(data: seq<byte>)
    requires |data| >= 6
  {
    data[2] <= 1 && data[4] != 0 && 1 <= data[5] <= 83
  }

  /** Human-readable prefix and path of a request, read at 8-bit offsets; None where slicing panics. */
  function ParseAddressRequest(p: Packet): Option<(seq<byte>, DerivationPath)>
    requires |p.message| >= 6 && RequestValidates(p.message)
  {
    var offset: byte := 6 + p.message[5];
    match Slice(p, 6, offset)
    case None => None
    case Some(hrp) =>
      match Slice(p, offset, offset + 20)
      case None => None
      case Some(b) => Some((hrp, NewDerivationPathFromBytes(b)))
  }

  function AddressReply(env: Env, hrp: seq<byte>, path: DerivationPath): (seq<byte>, uint16) {
    match env.token.initialize(path)
    case None => ([], Apdu.EXECUTION_ERROR)
    case Some(t) =>
      match env.token.publicKey(t)
      case None => ([], Apdu.EXECUTION_ERROR)
      case Some(pubkey) =>
        match env.address(pubkey, hrp)
        case None => ([], Apdu.EXECUTION_ERROR)
        case Some(address) => (pubkey + address, Apdu.SUCCESS)
  }

  function HandleGetAddr(env: Env, st: State, p: Packet): AppOutcome<State> {
    if |p.message| < 6 then Answer(st, [], Apdu.EXECUTION_ERROR)
    else if !RequestValidates(p.message) then Answer(st, [], Apdu.EXECUTION_ERROR)
    else match ParseAddressRequest(p)
      case None => Crash
      case Some((hrp, path)) =>
        var (body, code) := AddressReply(env, hrp, path);
        Answer(st, body, code)
  }

  /** The request a host builds for a prefix and a five-word path. */
  function AddressRequest(p1: byte, hrp: seq<byte>, words: seq<uint32>): seq<byte>
    requires 1 <= |hrp| <= 83 && |words| == 5
  {
    Apdu.Command(APP_ID, GET_ADDR_SECP256K1, p1, 0, [|hrp|] + hrp + PutWords(words))
  }

  /** Parsing a built request gives back exactly the prefix and a path that derives the host's words. */
  lemma AddressRequestRoundTrip(p1: byte, hrp: seq<byte>, words: seq<uint32>, tail: seq<byte>)
    requires p1 <= 1 && 1 <= |hrp| <= 83 && |words| == 5
    ensures var p := Packet(AddressRequest(p1, hrp, words), tail);
      && |p.message| == 26 + |hrp| <= 109 && RequestValidates(p.message)
      && ParseAddressRequest(p) == Some((hrp, NewDerivationPathFromBytes(PutWords(words))))
      && ChildIndices(ParseAddressRequest(p).value.1) == words
  {
    RequestLayout(p1, hrp, words);
    HostWordsRoundTrip(words);
    ChildIndicesAreHostWords(PutWords(words));
  }

  lemma RequestLayout(p1: byte, hrp: seq<byte>, words: seq<uint32>)
    requires 1 <= |hrp| <= 83 && |words| == 5
    ensures var data, offset := AddressRequest(p1, hrp, words), 6 + |hrp|;
      && data == [0x55, 0x04, p1, 0x00, 21 + |hrp|, |hrp|] + hrp + PutWords(words)
      && |data| == offset + 20 && data[2] == p1 && data[4] == 21 + |hrp| && data[5] == |hrp|
      && data[6..offset] == hrp && data[offset..offset + 20] == PutWords(words)
  {
    var data, offset := AddressRequest(p1, hrp, words), 6 + |hrp|;
    assert data == [APP_ID, GET_ADDR_SECP256K1, p1, 0, 21 + |hrp|, |hrp|] + hrp + PutWords(words);
    assert data[offset..offset + 20] == data[offset..];
  }

  // ---------- dispatch ----------

  const VERSION: seq<byte> := [0, 2, 0, 0, 0]

  function Handle(env: Env, st: State, command: byte, p: Packet): AppOutcome<State> {
    if |p.message| < MIN_DATA_LEN then Answer(st, [], Apdu.WRONG_LENGTH)
    else if command == GET_VERSION then Answer(st, VERSION, Apdu.SUCCESS)
    else if command == SIGN_SECP256K1 then HandleSign(env, st, p)
    else if command == GET_ADDR_SECP256K1 then HandleGetAddr(env, st, p)
    else Answer(st, [], Apdu.INS_NOT_SUPPORTED)
  }

  /** The request gets as far as its token, and the bound token cannot serve it. */
  predicate Unserved(env: Env, st: State, command: byte, p: Packet) {
    |p.message| >= MIN_DATA_LEN &&
    if command == SIGN_SECP256K1 then UnservedSign(env, st, p)
    else command == GET_ADDR_SECP256K1 && UnservedAddr(env, p)
  }

  /** A last packet of an open session, with a JSON payload that the session's token does not sign. */
  predicate UnservedSign(env: Env, st: State, p: Packet)
    requires |p.message| >= MIN_DATA_LEN
  {
    st.Some? && p.message[2] == SIGN_LAST &&
    var payload := st.value.data + p.message[5..];
    match env.token.initialize(st.value.path)
    case None => false
    case Some(t) => env.isJSON(payload) && env.token.sign(t, env.sha256(payload)).None?
  }

  /** A readable address request for a path whose public key the token does not give. */
  predicate UnservedAddr(env: Env, p: Packet) {
    |p.message| >= 6 && RequestValidates(p.message) && ParseAddressRequest(p).Some? &&
    match env.token.initialize(ParseAddressRequest(p).value.1)
    case None => false
    case Some(t) => env.token.publicKey(t).None?
  }

  function Behaviour(env: Env): (State, byte, Packet) -> AppOutcome<State> {
    (st: State, command: byte, p: Packet) => Handle(env, st, command, p)
  }

  function CosmosApp(env: Env, st: State): App<State> {
    App(APP_ID, [GET_VERSION, SIGN_SECP256K1, GET_ADDR_SECP256K1], st, Behaviour(env))
  }
}
