/** The Cosmos application as an object over either token (apps/cosmos/cosmos.go). */
module CosmosObjects {
  import Apdu
  import opened Bytes
  import opened Cosmos
  import opened Router
  import opened TeeToken
  import opened TokenObjects
  import opened Tokens
  import opened Transport

  /** The token is shared by all requests and only ever cloned. */
  class CosmosObject {
    const env: Env
    const token: Token
    var currentSignatureSession: State

    constructor (env: Env, token: Token)
      ensures this.env == env && this.token == token && currentSignatureSession == None
    {
      this.env, this.token, currentSignatureSession := env, token, None;
    }

    /** What a surviving request must have done. */
    ghost predicate Refines(outcome: AppOutcome<State>, response: seq<byte>, code: uint16, crashed: bool)
      reads this
    {
      match outcome
      case Crash => crashed
      case Answer(st, body, status) =>
        !crashed && currentSignatureSession == st && response == body && code == status
    }

    /**
      * `crashed` stands for a Go panic. The frame is part of the point: only the signature session and,
      * for a remote token, the monitor may change, so the base token is the same after every run.
      */
    method HandleCommand(command: byte, p: Packet) returns (response: seq<byte>, code: uint16, crashed: bool)
      requires env.token == token.Suite() && token.Ready()
      modifies this`currentSignatureSession, token.Monitors()
      ensures token.Stopped() <==> token.Loud() && Unserved(env, old(currentSignatureSession), command, p)
      ensures crashed ==> currentSignatureSession == old(currentSignatureSession)
      ensures !token.Stopped() ==> token.Ready() && Refines(Handle(env, old(currentSignatureSession), command, p), response, code, crashed)
    {
      response, crashed := [], false;
      if |p.message| < MIN_DATA_LEN {
        code := Apdu.WRONG_LENGTH;
        return;
      }
      if command == GET_VERSION {
        return VERSION, Apdu.SUCCESS, false;
      }
      if command == SIGN_SECP256K1 {
        response, code, crashed := HandleSignSecp256K1(p);
        return;
      }
      if command == GET_ADDR_SECP256K1 {
        response, code, crashed := HandleGetAddrSecp256K1(p);
        return;
      }
      code := Apdu.INS_NOT_SUPPORTED;
    }

    method HandleSignSecp256K1(p: Packet) returns (response: seq<byte>, code: uint16, crashed: bool)
      requires |p.message| >= MIN_DATA_LEN
      requires env.token == token.Suite() && token.Ready()
      modifies this`currentSignatureSession, token.Monitors()
      ensures token.Stopped() <==> token.Loud() && UnservedSign(env, old(currentSignatureSession), p)
      ensures !crashed
      ensures !token.Stopped() ==> token.Ready() && Refines(HandleSign(env, old(currentSignatureSession), p), response, code, crashed)
    {
      response, code, crashed := [], Apdu.SUCCESS, false;
      var descr := p.message[2];
      if currentSignatureSession == None && descr != SIGN_INIT {
        code := Apdu.EXECUTION_ERROR;
        return;
      }
      if descr == SIGN_INIT {
        currentSignatureSession := Some(SignSession(InitPath(p).value, []));
      } else if descr == SIGN_ADD || descr == SIGN_LAST {
        var s := currentSignatureSession.value;
        currentSignatureSession := Some(s.(data := s.data + p.message[5..]));
      }
      if descr != SIGN_LAST {
        return;
      }
      var s := currentSignatureSession.value;
      currentSignatureSession := None;  // deferred in the source: runs on every exit below
      var sessionToken := token.Clone();
      var ok := sessionToken.Initialize(s.path);
      if !ok {
        code := Apdu.EXECUTION_ERROR;
        return;
      }
      if !env.isJSON(s.data) {
        code := Apdu.DATA_INVALID;
        return;
      }
      var sig := sessionToken.Sign(env.sha256(s.data), s.path);
      if sig.None? {
        code := Apdu.EXECUTION_ERROR;
        return;
      }
      response := sig.value;
    }

    method HandleGetAddrSecp256K1(p: Packet) returns (response: seq<byte>, code: uint16, crashed: bool)
      requires env.token == token.Suite() && token.Ready()
      modifies token.Monitors()
      ensures token.Stopped() <==> token.Loud() && UnservedAddr(env, p)
      ensures !token.Stopped() ==> token.Ready() && Refines(HandleGetAddr(env, currentSignatureSession, p), response, code, crashed)
    {
      response, code, crashed := [], Apdu.EXECUTION_ERROR, false;
      if |p.message| < 6 || !RequestValidates(p.message) {
        return;
      }
      var request := ParseAddressRequest(p);
      if request.None? {
        crashed := true;
        return;
      }
      var (hrp, path) := request.value;
      var sessionToken := token.Clone();
      var ok := sessionToken.Initialize(path);
      if !ok {
        return;
      }
      var pubkey := sessionToken.PublicKey(path);
      if pubkey.None? {
        return;
      }
      var address := env.address(pubkey.value, hrp);
      if address.None? {
        return;
      }
      return pubkey.value + address.value, Apdu.SUCCESS, false;
    }
  }

  /** With the remote token, unserved means exactly this, in terms of the applet's key library. */
  lemma UnservedByTee(env: Env, lib: KeyLibrary, sha256: seq<byte> -> seq<byte>, st: State, command: byte, p: Packet)
    requires env.token == TeeSuite(lib, sha256)
    ensures Unserved(env, st, command, p) <==>
      || (command == SIGN_SECP256K1 && |p.message| >= MIN_DATA_LEN && st.Some? && p.message[2] == SIGN_LAST &&
          var payload := st.value.data + p.message[5..];
          env.isJSON(payload) && SignAt(lib, st.value.path, sha256(env.sha256(payload))).None?)
      || (command == GET_ADDR_SECP256K1 && |p.message| >= 6 && RequestValidates(p.message) && ParseAddressRequest(p).Some? &&
          PublicKeyAt(lib, ParseAddressRequest(p).value.1).None?)
  {
  }
}
