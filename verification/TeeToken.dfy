/**
  * The remote token: requests travel as mail to the cryptography applet and come back as results
  * (tee/cryptography_applet/token/request.go, tee/cryptography_applet/token/client/tee_token.go).
  * Messages are values; the JSON codec on the wire is taken to be loss-free.
  */
module TeeToken {
  import opened Bytes
  import opened Derivation
  import opened Monitor
  import opened MonitorRuns
  import opened Tokens

  const APPLET_ID: nat := 42

  datatype Message =
    | SignRequest(data: seq<byte>, path: DerivationPath)
    | PublicKeyRequest(path: DerivationPath)
    | MnemonicRequest(path: DerivationPath)
    | RandomBytesRequest(amount: nat)
    | AlgorithmsRequest
    | RandomBytesResponse(random: seq<byte>)
    | AlgorithmsResponse(algorithms: seq<nat>)
    | SignResponse(signature: seq<byte>)
    | PublicKeyResponse(key: seq<byte>)
    | MnemonicResponse(words: seq<string>)

  /** The applet's interpreter: clone, initialise at the requested path, perform the operation. */
  method Dispatch(base: DumbToken, request: Message) returns (response: Option<Message>)
    ensures response == InProcessAnswer(base.lib, request)
  {
    match request {
      case SignRequest(data, path) =>
        var t := base.Clone();
        var ok := t.Initialize(path);
        if !ok {
          return None;
        }
        var sig := t.Sign(data);
        return if sig.None? then None else Some(SignResponse(sig.value));
      case PublicKeyRequest(path) =>
        var t := base.Clone();
        var ok := t.Initialize(path);
        if !ok {
          return None;
        }
        var key := t.PublicKey();
        return if key.None? then None else Some(PublicKeyResponse(key.value));
      case MnemonicRequest(path) =>
        var t := base.Clone();
        var ok := t.Initialize(path);
        if !ok {
          return None;
        }
        var words := t.Mnemonic();
        return if words.None? then None else Some(MnemonicResponse(words.value));
      case RandomBytesRequest(amount) =>
        var b := base.RandomBytes(amount);
        return if b.None? then None else Some(RandomBytesResponse(b.value));
      case AlgorithmsRequest =>
        return Some(AlgorithmsResponse([ALGO_SECP256K1]));
      case _ =>
        return None;
    }
  }

  function Lift<A, B>(f: A -> B, x: Option<A>): Option<B> {
    if x.None? then None else Some(f(x.value))
  }

  /** What the in-process token at the requested path would say, as a response message. */
  function InProcessAnswer(lib: KeyLibrary, request: Message): Option<Message> {
    match request
    case SignRequest(data, path) => Lift(s => SignResponse(s), SignAt(lib, path, data))
    case PublicKeyRequest(path) => Lift(k => PublicKeyResponse(k), PublicKeyAt(lib, path))
    case MnemonicRequest(path) => Lift(ws => MnemonicResponse(ws), MnemonicAt(lib, path))
    case RandomBytesRequest(amount) => Lift(b => RandomBytesResponse(b), RandomBytesOf(lib, amount))
    case AlgorithmsRequest => Some(AlgorithmsResponse([ALGO_SECP256K1]))
    case _ => None
  }

  /** Case by case: nothing is answered at a path without a key, and nothing for zero random bytes. */
  lemma AppletAnswers(lib: KeyLibrary, path: DerivationPath, data: seq<byte>, amount: nat)
    ensures KeyAt(lib, path) == None ==>
      && InProcessAnswer(lib, SignRequest(data, path)) == None
      && InProcessAnswer(lib, PublicKeyRequest(path)) == None
      && InProcessAnswer(lib, MnemonicRequest(path)) == None
    ensures forall key, sig :: KeyAt(lib, path) == Some(key) && lib.ecSign(key, data) == Some(sig) ==>
      InProcessAnswer(lib, SignRequest(data, path)) == Some(SignResponse(sig))
    ensures forall key, pk :: KeyAt(lib, path) == Some(key) && lib.ecPublicKey(key) == Some(pk) ==>
      InProcessAnswer(lib, PublicKeyRequest(path)) == Some(PublicKeyResponse(pk))
    ensures forall ws :: KeyAt(lib, path).Some? && lib.words == Some(ws) ==>
      InProcessAnswer(lib, MnemonicRequest(path)) == Some(MnemonicResponse(ws))
    ensures InProcessAnswer(lib, RandomBytesRequest(0)) == None
    ensures forall b :: amount > 0 && lib.random(amount) == Some(b) ==>
      InProcessAnswer(lib, RandomBytesRequest(amount)) == Some(RandomBytesResponse(b))
  {
  }

  function Applet(lib: KeyLibrary): Message -> Option<Message> {
    (m: Message) => InProcessAnswer(lib, m)
  }

  class TEEToken {
    const lib: KeyLibrary
    const sha256: seq<byte> -> seq<byte>
    const monitor: Context<Message>
    var path: DerivationPath

    /** The applet is installed, no mail is waiting and its last answer has been read. */
    ghost predicate Ready()
      reads monitor
    {
      && !monitor.faulted
      && monitor.mailbox == map[]
      && APPLET_ID !in monitor.resultBox
      && APPLET_ID in monitor.cfg.apps
      && monitor.cfg.apps[APPLET_ID] == Applet(lib)
    }

    constructor (lib: KeyLibrary, sha256: seq<byte> -> seq<byte>, monitor: Context<Message>, path: DerivationPath)
      ensures this.lib == lib && this.sha256 == sha256 && this.monitor == monitor && this.path == path
    {
      this.lib, this.sha256, this.monitor, this.path := lib, sha256, monitor, path;
    }

    method Initialize(path: DerivationPath)
      modifies this
      ensures this.path == path
    {
      this.path := path;
    }

    /**
      * One request through the monitor. The applet's answer comes back, and the boxes are as before,
      * so the next request starts from the same state; or the applet failed, which is an error here,
      * unless it stopped the monitor.
      */
    method DoRequest(request: Message) returns (response: Option<Message>)
      requires Ready()
      modifies monitor
      ensures monitor.faulted <==> InProcessAnswer(lib, request).None? && !monitor.cfg.fatalExits
      ensures !monitor.faulted ==>
        Ready() && monitor.Value() == old(monitor.Value()) && response == InProcessAnswer(lib, request)
    {
      ghost var b := monitor.Value();
      var sent := monitor.NonsecureSend(APPLET_ID, request);
      SendFromEmpty(monitor.cfg, b, APPLET_ID, request);
      if monitor.faulted {
        return None;
      }
      if !sent.Stored? {
        return None;
      }
      ghost var b' := monitor.Value();
      var got := monitor.NonsecureRead(APPLET_ID);
      ReadFromEmpty(monitor.cfg, b', APPLET_ID);
      assert b'.results - {APPLET_ID} == b.results;
      if !got.Taken? {
        return None;
      }
      return Some(got.payload);
    }

    /** The remote signature is the in-process one over the hash of the argument, not the argument. */
    method Sign(data: seq<byte>) returns (sig: Option<seq<byte>>)
      requires Ready()
      modifies monitor
      ensures !monitor.faulted ==> Ready() && sig == SignAt(lib, path, sha256(data))
      ensures monitor.faulted <==> SignAt(lib, path, sha256(data)).None? && !monitor.cfg.fatalExits
    {
      var response := DoRequest(SignRequest(sha256(data), path));
      if monitor.faulted || response.None? {
        return None;
      }
      return Some(response.value.signature);
    }

    method PublicKey() returns (key: Option<seq<byte>>)
      requires Ready()
      modifies monitor
      ensures !monitor.faulted ==> Ready() && key == PublicKeyAt(lib, path)
      ensures monitor.faulted <==> PublicKeyAt(lib, path).None? && !monitor.cfg.fatalExits
    {
      var response := DoRequest(PublicKeyRequest(path));
      if monitor.faulted || response.None? {
        return None;
      }
      return Some(response.value.key);
    }

    method Mnemonic() returns (words: Option<seq<string>>)
      requires Ready()
      modifies monitor
      ensures !monitor.faulted ==> Ready() && words == MnemonicAt(lib, path)
      ensures monitor.faulted <==> MnemonicAt(lib, path).None? && !monitor.cfg.fatalExits
    {
      var response := DoRequest(MnemonicRequest(path));
      if monitor.faulted || response.None? {
        return None;
      }
      return Some(response.value.words);
    }

    method RandomBytes(amount: nat) returns (b: Option<seq<byte>>)
      requires Ready()
      modifies monitor
      ensures !monitor.faulted ==> Ready() && b == RandomBytesOf(lib, amount)
      ensures monitor.faulted <==> RandomBytesOf(lib, amount).None? && !monitor.cfg.fatalExits
    {
      var response := DoRequest(RandomBytesRequest(amount));
      if monitor.faulted || response.None? {
        return None;
      }
      return Some(response.value.random);
    }

    method Clone() returns (t: TEEToken)
      ensures fresh(t) && t.lib == lib && t.sha256 == sha256 && t.monitor == monitor && t.path == path
    {
      t := new TEEToken(lib, sha256, monitor, path);
    }
  }

  // ---------- the remote token as a suite ----------

  /** The remote token as an application sees it while the monitor survives. */
  function TeeSuite(lib: KeyLibrary, sha256: seq<byte> -> seq<byte>): TokenSuite {
    TokenSuite(
      path => Some(Remote(path)),
      (t: BoundToken, data) => if t.Remote? then SignAt(lib, t.path, sha256(data)) else None,
      (t: BoundToken) => if t.Remote? then PublicKeyAt(lib, t.path) else None)
  }

  /** Clone a shared remote token, bind the clone and sign: what the suite says, or a stopped monitor. */
  method CloneAndSign(base: TEEToken, path: DerivationPath, data: seq<byte>) returns (sig: Option<seq<byte>>)
    requires base.Ready()
    modifies base.monitor
    ensures base.monitor.faulted <==> SignAt(base.lib, path, base.sha256(data)).None? && !base.monitor.cfg.fatalExits
    ensures !base.monitor.faulted ==>
      var suite := TeeSuite(base.lib, base.sha256);
      base.Ready() && suite.initialize(path).Some? && sig == suite.sign(suite.initialize(path).value, data)
  {
    var t := base.Clone();
    t.Initialize(path);
    sig := t.Sign(data);
  }

  method CloneAndPublicKey(base: TEEToken, path: DerivationPath) returns (key: Option<seq<byte>>)
    requires base.Ready()
    modifies base.monitor
    ensures base.monitor.faulted <==> PublicKeyAt(base.lib, path).None? && !base.monitor.cfg.fatalExits
    ensures !base.monitor.faulted ==>
      var suite := TeeSuite(base.lib, base.sha256);
      base.Ready() && suite.initialize(path).Some? && key == suite.publicKey(suite.initialize(path).value)
  {
    var t := base.Clone();
    t.Initialize(path);
    key := t.PublicKey();
  }
}
