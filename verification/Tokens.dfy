/** The in-process token (crypto/crypto_token.go) and the token interface applications use. */
module Tokens {
  import opened Bytes
  import opened Derivation

  /** The external key library; every theorem holds for any choice of these functions. */
  datatype KeyLibrary = KeyLibrary(
    master: uint32 -> Option<ExtendedKey>,
    child: ChildFn,
    ecSign: (ExtendedKey, seq<byte>) -> Option<seq<byte>>,
    ecPublicKey: ExtendedKey -> Option<seq<byte>>,
    words: Option<seq<string>>,
    random: nat -> Option<seq<byte>>)

  /** The key an in-process token holds after `Initialize(path)`. */
  function KeyAt(lib: KeyLibrary, path: DerivationPath): Option<ExtendedKey> {
    match lib.master(path.coinType)
    case None => None
    case Some(m) => Derive(lib.child, m, ChildIndices(path))
  }

  /** The key that a five-word host path denotes: the left fold of `Child` along the host's own words. */
  function HostKey(lib: KeyLibrary, words: seq<uint32>): Option<ExtendedKey>
    requires |words| == 5
  {
    match lib.master(FlipTopBit(words[1]))
    case None => None
    case Some(m) => Derive(lib.child, m, words)
  }

  /** The key at a path read from host bytes is the key of the words those bytes spell. */
  lemma HostKeyOfBytes(lib: KeyLibrary, b: seq<byte>)
    requires |b| == 20
    ensures KeyAt(lib, NewDerivationPathFromBytes(b)) == HostKey(lib, HostWords(b))
  {
    ChildIndicesAreHostWords(b);
  }

  /** Key by key: it is the end of any whole chain along the host's words, and nothing if a chain breaks. */
  lemma HostKeyIsKeyAt(lib: KeyLibrary, words: seq<uint32>)
    requires |words| == 5
    ensures KeyAt(lib, NewDerivationPathFromBytes(PutWords(words))) == HostKey(lib, words)
    ensures lib.master(FlipTopBit(words[1])) == None ==> HostKey(lib, words) == None
    ensures forall m, keys :: lib.master(FlipTopBit(words[1])) == Some(m) && KeyChain(lib.child, m, words, keys) && |keys| == 6 ==>
      HostKey(lib, words) == Some(keys[5])
    ensures forall m, keys :: lib.master(FlipTopBit(words[1])) == Some(m) && BrokenChain(lib.child, m, words, keys) ==>
      HostKey(lib, words) == None
  {
    HostWordsRoundTrip(words);
    HostKeyOfBytes(lib, PutWords(words));
    if lib.master(FlipTopBit(words[1])).Some? {
      ChainsDecide(lib.child, lib.master(FlipTopBit(words[1])).value, words);
    }
  }

  /** Spelled out: five children, each of the one before, below the master key of the host's coin type. */
  lemma HostKeyIsChain(lib: KeyLibrary, words: seq<uint32>, m: ExtendedKey, k1: ExtendedKey, k2: ExtendedKey, k3: ExtendedKey, k4: ExtendedKey, k5: ExtendedKey)
    requires |words| == 5 && lib.master(FlipTopBit(words[1])) == Some(m)
    requires lib.child(m, words[0]) == Some(k1)
    requires lib.child(k1, words[1]) == Some(k2)
    requires lib.child(k2, words[2]) == Some(k3)
    requires lib.child(k3, words[3]) == Some(k4)
    requires lib.child(k4, words[4]) == Some(k5)
    ensures HostKey(lib, words) == KeyAt(lib, NewDerivationPathFromBytes(PutWords(words))) == Some(k5)
  {
    HostKeyIsKeyAt(lib, words);
    var keys := [m, k1, k2, k3, k4, k5];
    assert KeyChain(lib.child, m, words, keys);
  }

  /** And conversely: if the path has a key, these intermediate keys lead to it; if not, some level fails. */
  lemma HostKeyDecides(lib: KeyLibrary, words: seq<uint32>, m: ExtendedKey) returns (keys: seq<ExtendedKey>)
    requires |words| == 5 && lib.master(FlipTopBit(words[1])) == Some(m)
    ensures match HostKey(lib, words)
      case Some(k) => KeyChain(lib.child, m, words, keys) && |keys| == 6 && keys[5] == k
      case None => BrokenChain(lib.child, m, words, keys)
  {
    keys := DeriveChain(lib.child, m, words);
  }

  /** In-process `Initialize(path)` followed by `Sign(data)`, `PublicKey()` or `Mnemonic()`. */
  function SignAt(lib: KeyLibrary, path: DerivationPath, data: seq<byte>): Option<seq<byte>> {
    match KeyAt(lib, path)
    case None => None
    case Some(k) => lib.ecSign(k, data)
  }

  function PublicKeyAt(lib: KeyLibrary, path: DerivationPath): Option<seq<byte>> {
    match KeyAt(lib, path)
    case None => None
    case Some(k) => lib.ecPublicKey(k)
  }

  function MnemonicAt(lib: KeyLibrary, path: DerivationPath): Option<seq<string>> {
    if KeyAt(lib, path).None? then None else lib.words
  }

  /** `RandomBytes(amount)`: asking for nothing is an error. */
  function RandomBytesOf(lib: KeyLibrary, amount: nat): Option<seq<byte>> {
    if amount == 0 then None else lib.random(amount)
  }

  const ALGO_SECP256K1 := 0

  /** A token that `Initialize` has bound to a path: in-process it is a key, remotely just the path. */
  datatype BoundToken = Local(key: ExtendedKey) | Remote(path: DerivationPath)

  /** `Clone`, then `Initialize`, then one use, as the Cosmos application calls a token. */
  datatype TokenSuite = TokenSuite(
    initialize: DerivationPath -> Option<BoundToken>,
    sign: (BoundToken, seq<byte>) -> Option<seq<byte>>,
    publicKey: BoundToken -> Option<seq<byte>>)

  function LocalInitialize(lib: KeyLibrary, path: DerivationPath): Option<BoundToken> {
    match KeyAt(lib, path)
    case None => None
    case Some(k) => Some(Local(k))
  }

  function LocalSuite(lib: KeyLibrary): TokenSuite {
    TokenSuite(
      path => LocalInitialize(lib, path),
      (t: BoundToken, data) => if t.Local? then lib.ecSign(t.key, data) else None,
      (t: BoundToken) => if t.Local? then lib.ecPublicKey(t.key) else None)
  }

  class DumbToken {
    const lib: KeyLibrary
    var privKey: Option<ExtendedKey>

    constructor (lib: KeyLibrary)
      ensures this.lib == lib && privKey == None
    {
      this.lib, privKey := lib, None;
    }

    method Initialize(path: DerivationPath) returns (ok: bool)
      modifies this
      ensures ok == KeyAt(lib, path).Some?
      ensures privKey == if lib.master(path.coinType).None? then old(privKey) else KeyAt(lib, path)
    {
      var sb := lib.master(path.coinType);
      if sb.None? {
        return false;
      }
      privKey := KeyFromPath(lib.child, sb.value, path);
      return privKey.Some?;
    }

    method Sign(data: seq<byte>) returns (sig: Option<seq<byte>>)
      requires privKey.Some?
      ensures sig == lib.ecSign(privKey.value, data)
    {
      sig := lib.ecSign(privKey.value, data);
    }

    method PublicKey() returns (pk: Option<seq<byte>>)
      requires privKey.Some?
      ensures pk == lib.ecPublicKey(privKey.value)
    {
      pk := lib.ecPublicKey(privKey.value);
    }

    method RandomBytes(amount: nat) returns (b: Option<seq<byte>>)
      ensures b == RandomBytesOf(lib, amount)
    {
      if amount == 0 {
        return None;
      }
      b := lib.random(amount);
    }

    method Mnemonic() returns (ws: Option<seq<string>>)
      ensures ws == lib.words
    {
      ws := lib.words;
    }

    /** A new object with the same contents: initialising the clone cannot touch the original. */
    method Clone() returns (t: DumbToken)
      ensures fresh(t) && t.lib == lib && t.privKey == privKey
    {
      t := new DumbToken(lib);
      t.privKey := privKey;
    }
  }
}
