/** The two firmware builds, with the in-process and with the remote token, compared reply by reply. */
module Builds {
  import Apdu
  import opened Bytes
  import opened Cosmos
  import opened Derivation
  import opened TeeToken
  import opened Tokens

  /** Address replies are the same in both builds. */
  lemma BuildsAgreeOnAddresses(env: Env, lib: KeyLibrary, hrp: seq<byte>, path: DerivationPath)
    ensures AddressReply(env.(token := TeeSuite(lib, env.sha256)), hrp, path) ==
            AddressReply(env.(token := LocalSuite(lib)), hrp, path)
  {
  }

  /** Signature replies are compared case by case: the remote build signs the hash of the hash. */
  lemma BuildsAgreeOnSignaturesIff(env: Env, lib: KeyLibrary, path: DerivationPath, payload: seq<byte>)
    ensures SignReply(env.(token := TeeSuite(lib, env.sha256)), path, payload) ==
            SignReply(env.(token := LocalSuite(lib)), path, payload) <==>
      var digest := env.sha256(payload);
      match KeyAt(lib, path)
      case None => env.isJSON(payload)
      case Some(k) => env.isJSON(payload) ==> lib.ecSign(k, env.sha256(digest)) == lib.ecSign(k, digest)
  {
    var tee, local := env.(token := TeeSuite(lib, env.sha256)), env.(token := LocalSuite(lib));
    assert tee.token.initialize(path) == Some(Remote(path));
    assert local.token.initialize(path) == LocalInitialize(lib, path);
  }

  /** Signing succeeds on every digest and tells digests apart. */
  ghost predicate Distinguishes(lib: KeyLibrary, key: ExtendedKey, sha256: seq<byte> -> seq<byte>) {
    forall x, y :: lib.ecSign(key, sha256(x)).Some? &&
      (lib.ecSign(key, sha256(x)) == lib.ecSign(key, sha256(y)) ==> sha256(x) == sha256(y))
  }

  /**
    * With a key that signs and tells digests apart, the two builds give the same signature reply if and
    * only if the payload is not JSON or its digest is a fixed point of the hash.
    */
  lemma BuildsAgreeIffFixedPoint(env: Env, lib: KeyLibrary, path: DerivationPath, payload: seq<byte>)
    requires KeyAt(lib, path).Some? && Distinguishes(lib, KeyAt(lib, path).value, env.sha256)
    ensures SignReply(env.(token := TeeSuite(lib, env.sha256)), path, payload) ==
            SignReply(env.(token := LocalSuite(lib)), path, payload) <==>
      (env.isJSON(payload) ==> env.sha256(env.sha256(payload)) == env.sha256(payload))
  {
    BuildsAgreeOnSignaturesIff(env, lib, path, payload);
    var k, digest := KeyAt(lib, path).value, env.sha256(payload);
    assert lib.ecSign(k, env.sha256(digest)) == lib.ecSign(k, env.sha256(payload)) ==> env.sha256(digest) == env.sha256(payload);
  }

  /** So on every JSON payload whose digest the hash moves, the builds answer with different signatures. */
  lemma BuildsDisagreeOnJSON(env: Env, lib: KeyLibrary, path: DerivationPath, payload: seq<byte>)
    requires KeyAt(lib, path).Some? && Distinguishes(lib, KeyAt(lib, path).value, env.sha256)
    requires env.isJSON(payload) && env.sha256(env.sha256(payload)) != env.sha256(payload)
    ensures var (tee, code) := SignReply(env.(token := TeeSuite(lib, env.sha256)), path, payload);
      var (local, code') := SignReply(env.(token := LocalSuite(lib)), path, payload);
      code == code' == Apdu.SUCCESS && tee != local
  {
    BuildsAgreeIffFixedPoint(env, lib, path, payload);
    var k, digest := KeyAt(lib, path).value, env.sha256(payload);
    assert lib.ecSign(k, env.sha256(digest)).Some? && lib.ecSign(k, env.sha256(payload)).Some?;
  }

  /** A toy library: every key derives, a digest is the length of its input, and it is its own signature. */
  function ToyLibrary(): KeyLibrary {
    KeyLibrary(_ => Some(ExtendedKey([])), (k: ExtendedKey, _) => Some(k), (_, digest: seq<byte>) => Some(digest), _ => None, None, _ => None)
  }

  function ToyEnv(token: TokenSuite): Env {
    Env(token, _ => true, ToyHash, (_, _) => None)
  }

  function ToyHash(data: seq<byte>): seq<byte> {
    [|data| % 0x100]
  }

  /** A concrete payload that the two builds sign differently. */
  lemma BuildsDisagree(path: DerivationPath)
    ensures SignReply(ToyEnv(LocalSuite(ToyLibrary())), path, [0x7B, 0x7D]) == ([2], Apdu.SUCCESS)
    ensures SignReply(ToyEnv(TeeSuite(ToyLibrary(), ToyHash)), path, [0x7B, 0x7D]) == ([1], Apdu.SUCCESS)
  {
    var lib := ToyLibrary();
    ToyKey(lib.child, ExtendedKey([]), ChildIndices(path));
    assert KeyAt(lib, path) == Some(ExtendedKey([]));
    assert ToyHash([0x7B, 0x7D]) == [2] && ToyHash([2]) == [1];
  }

  lemma {:induction false} ToyKey(child: ChildFn, key: ExtendedKey, indices: seq<uint32>)
    requires forall k, i :: child(k, i) == Some(k)
    ensures Derive(child, key, indices) == Some(key)
  {
    if indices != [] {
      ToyKey(child, key, indices[..|indices| - 1]);
    }
  }
}
