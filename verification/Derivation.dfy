/** BIP-32 paths as the host sends them and as key derivation uses them (crypto/crypto.go). */
module Derivation {
  import opened Bytes

  type uint32 = n: int | 0 <= n < 0x1_0000_0000

  const HARDENED: uint32 := 0x8000_0000

  datatype DerivationPath = DerivationPath(
    purpose: uint32,
    coinType: uint32,
    account: uint32,
    change: uint32,
    addressIndex: uint32)

  // ---------- 32-bit words ----------

  /** Little-endian reading of four bytes. */
  function GetUint32(b: seq<byte>): uint32
    requires |b| == 4
  {
    b[0] as int + 0x100 * b[1] as int + 0x1_0000 * b[2] as int + 0x100_0000 * b[3] as int
  }

  function PutUint32(w: uint32): (b: seq<byte>)
    ensures |b| == 4
  {
    var w1 := w / 0x100;
    var w2 := w1 / 0x100;
    [w % 0x100, w1 % 0x100, w2 % 0x100, w2 / 0x100]
  }

  lemma Uint32RoundTrip(w: uint32)
    ensures GetUint32(PutUint32(w)) == w
  {
  }

  /** The byte order is little-endian: the first byte is the lowest. */
  lemma Uint32Bytes(w: uint32, b0: byte, b1: byte, b2: byte, b3: byte)
    ensures PutUint32(w)[0] == w % 0x100
    ensures PutUint32(w)[1] == w / 0x100 % 0x100
    ensures PutUint32(w)[2] == w / 0x1_0000 % 0x100
    ensures PutUint32(w)[3] == w / 0x100_0000 % 0x100
    ensures GetUint32([b0, b1, b2, b3]) == b0 as int + 256 * (b1 as int + 256 * (b2 as int + 256 * b3 as int))
    ensures GetUint32([0x2C, 0x00, 0x00, 0x80]) == 0x8000_002C
  {
    assert w / 0x1_0000 == w / 0x100 / 0x100;
    assert w / 0x100_0000 == w / 0x100 / 0x100 / 0x100;
  }

  /** `0x80000000 ^ w`: the top bit changes and nothing else does. */
  function FlipTopBit(w: uint32): uint32 {
    if w < HARDENED then w + HARDENED else w - HARDENED
  }

  /** Bitwise exclusive or of two naturals. */
  function Xor(a: nat, b: nat): nat
    decreases a + b
  {
    if a == 0 && b == 0 then 0 else (a + b) % 2 + 2 * Xor(a / 2, b / 2)
  }

  function Pow2(k: nat): nat {
    if k == 0 then 1 else 2 * Pow2(k - 1)
  }

  lemma {:induction false} XorTopBit(k: nat, w: nat)
    requires w < 2 * Pow2(k)
    ensures Xor(Pow2(k), w) == if w < Pow2(k) then w + Pow2(k) else w - Pow2(k)
  {
    if k == 0 {
      assert Xor(0, 0) == 0;
    } else {
      XorTopBit(k - 1, w / 2);
      XorDouble(Pow2(k - 1), w);
    }
  }

  lemma XorDouble(half: nat, w: nat)
    requires half > 0
    ensures Xor(2 * half, w) == w % 2 + 2 * Xor(half, w / 2)
  {
    assert (2 * half + w) % 2 == w % 2;
  }

  /** The flip is exclusive or with 0x80000000. */
  lemma FlipTopBitIsXor(w: uint32)
    ensures FlipTopBit(w) == Xor(0x8000_0000, w)
  {
    TopBitIsPow2();
    XorTopBit(31, w);
  }

  lemma TopBitIsPow2()
    ensures Pow2(31) == 0x8000_0000
  {
    assert Pow2(7) == 0x80;
    assert Pow2(15) == 0x8000;
    assert Pow2(23) == 0x80_0000;
  }

  /** The five words of a 20-byte host path, in order. */
  function HostWords(b: seq<byte>): (ws: seq<uint32>)
    requires |b| == 20
    ensures |ws| == 5
  {
    [GetUint32(b[0..4]), GetUint32(b[4..8]), GetUint32(b[8..12]), GetUint32(b[12..16]), GetUint32(b[16..20])]
  }

  /** The number spelled by the four bytes from k on, lowest first. */
  function WordAt(b: seq<byte>, k: nat): int
    requires k + 4 <= |b|
  {
    b[k] as int + 256 * (b[k + 1] as int + 256 * (b[k + 2] as int + 256 * b[k + 3] as int))
  }

  /** On raw bytes: word i is bytes 4 * i to 4 * i + 3, lowest first. */
  lemma HostWordBytes(b: seq<byte>, i: nat)
    requires |b| == 20 && i < 5
    ensures HostWords(b)[i] == WordAt(b, 4 * i)
  {
    Uint32Bytes(0, b[4 * i], b[4 * i + 1], b[4 * i + 2], b[4 * i + 3]);
    assert b[4 * i..4 * i + 4] == [b[4 * i], b[4 * i + 1], b[4 * i + 2], b[4 * i + 3]];
  }

  function PutWords(ws: seq<uint32>): (b: seq<byte>)
    requires |ws| == 5
    ensures |b| == 20
  {
    PutUint32(ws[0]) + PutUint32(ws[1]) + PutUint32(ws[2]) + PutUint32(ws[3]) + PutUint32(ws[4])
  }

  lemma HostWordsRoundTrip(ws: seq<uint32>)
    requires |ws| == 5
    ensures HostWords(PutWords(ws)) == ws
    ensures forall i :: 0 <= i < 5 ==> WordAt(PutWords(ws), 4 * i) == ws[i]
  {
    var b := PutWords(ws);
    assert b[0..4] == PutUint32(ws[0]);
    assert b[4..8] == PutUint32(ws[1]);
    assert b[8..12] == PutUint32(ws[2]);
    assert b[12..16] == PutUint32(ws[3]);
    var front := PutUint32(ws[0]) + PutUint32(ws[1]) + PutUint32(ws[2]) + PutUint32(ws[3]);
    assert b == front + PutUint32(ws[4]) && |front| == 16;
    assert b[16..20] == b[16..] == PutUint32(ws[4]);
    Uint32RoundTrip(ws[0]);
    Uint32RoundTrip(ws[1]);
    Uint32RoundTrip(ws[2]);
    Uint32RoundTrip(ws[3]);
    Uint32RoundTrip(ws[4]);
    forall i | 0 <= i < 5
      ensures WordAt(b, 4 * i) == ws[i]
    {
      HostWordBytes(b, i);
    }
  }

  // ---------- from host path to child indices ----------

  function NewDerivationPathFromBytes(b: seq<byte>): DerivationPath
    requires |b| == 20
  {
    var ws := HostWords(b);
    DerivationPath(FlipTopBit(ws[0]), FlipTopBit(ws[1]), FlipTopBit(ws[2]), ws[3], ws[4])
  }

  function InOrder(d: DerivationPath): (ws: seq<uint32>)
    ensures |ws| == 5
  {
    [d.purpose, d.coinType, d.account, d.change, d.addressIndex]
  }

  /** The index `KeyFromPath` passes to `Child` at one level; the addition wraps modulo 2^32. */
  function ChildIndex(level: nat, component: uint32): uint32 {
    if level <= 2 then (component + HARDENED) % 0x1_0000_0000 else component
  }

  function ChildIndices(d: DerivationPath): (ws: seq<uint32>)
    ensures |ws| == 5
  {
    seq(5, i requires 0 <= i < 5 => ChildIndex(i, InOrder(d)[i]))
  }

  /** The constructor's XOR and the derivation's wrapping addition cancel: host words are child indices. */
  lemma ChildIndicesAreHostWords(b: seq<byte>)
    requires |b| == 20
    ensures ChildIndices(NewDerivationPathFromBytes(b)) == HostWords(b)
    ensures forall i :: 0 <= i < 5 ==> ChildIndices(NewDerivationPathFromBytes(b))[i] == WordAt(b, 4 * i)
  {
    var d, ws := NewDerivationPathFromBytes(b), HostWords(b);
    assert InOrder(d) == [FlipTopBit(ws[0]), FlipTopBit(ws[1]), FlipTopBit(ws[2]), ws[3], ws[4]];
    FlipCancels(ws[0]);
    FlipCancels(ws[1]);
    FlipCancels(ws[2]);
    forall i | 0 <= i < 5
      ensures ws[i] == WordAt(b, 4 * i)
    {
      HostWordBytes(b, i);
    }
  }

  lemma FlipCancels(w: uint32)
    ensures (FlipTopBit(w) + HARDENED) % 0x1_0000_0000 == w
  {
  }

  /** A path level is derived hardened exactly when its stored component is below 2^31, three levels deep. */
  lemma HardenedIff(d: DerivationPath, level: nat)
    requires level < 5
    ensures ChildIndices(d)[level] >= HARDENED <==>
            if level <= 2 then InOrder(d)[level] < HARDENED else InOrder(d)[level] >= HARDENED
  {
  }

  // ---------- key derivation ----------

  datatype ExtendedKey = ExtendedKey(serialized: seq<byte>)

  type ChildFn = (ExtendedKey, uint32) -> Option<ExtendedKey>

  /** Left fold of `Child` along the indices, stopping at the first error. */
  function Derive(child: ChildFn, key: ExtendedKey, indices: seq<uint32>): Option<ExtendedKey> {
    if indices == [] then Some(key)
    else
      match Derive(child, key, indices[..|indices| - 1])
      case None => None
      case Some(k) => child(k, indices[|indices| - 1])
  }

  /** Intermediate keys: each is the child of the one before it at the next index. */
  predicate KeyChain(child: ChildFn, key: ExtendedKey, indices: seq<uint32>, keys: seq<ExtendedKey>) {
    && 0 < |keys| <= |indices| + 1 && keys[0] == key
    && forall i :: 0 <= i < |keys| - 1 ==> child(keys[i], indices[i]) == Some(keys[i + 1])
  }

  /** The chain stops short because its last key has no child at the next index. */
  predicate BrokenChain(child: ChildFn, key: ExtendedKey, indices: seq<uint32>, keys: seq<ExtendedKey>) {
    KeyChain(child, key, indices, keys) && |keys| <= |indices| && child(keys[|keys| - 1], indices[|keys| - 1]) == None
  }

  /** Derivation carries each key forward: it ends where a whole chain ends, and fails where one breaks. */
  lemma {:induction false} DeriveFollows(child: ChildFn, key: ExtendedKey, indices: seq<uint32>, keys: seq<ExtendedKey>)
    requires KeyChain(child, key, indices, keys)
    ensures Derive(child, key, indices[..|keys| - 1]) == Some(keys[|keys| - 1])
    ensures |keys| == |indices| + 1 ==> Derive(child, key, indices) == Some(keys[|keys| - 1])
    ensures BrokenChain(child, key, indices, keys) ==> Derive(child, key, indices) == None
  {
    var n := |keys| - 1;
    if n > 0 {
      DeriveFollows(child, key, indices, keys[..n]);
      assert indices[..n][..n - 1] == indices[..n - 1];
    }
    assert indices[..|indices|] == indices;
    if BrokenChain(child, key, indices, keys) {
      assert indices[..n + 1][..n] == indices[..n];
      FailureIsFinal(child, key, indices, n + 1, |indices|);
    }
  }

  /** Exactly one of the two happens, and the intermediate keys can be given. */
  lemma {:induction false} DeriveChain(child: ChildFn, key: ExtendedKey, indices: seq<uint32>) returns (keys: seq<ExtendedKey>)
    ensures match Derive(child, key, indices)
      case Some(k) => KeyChain(child, key, indices, keys) && |keys| == |indices| + 1 && keys[|indices|] == k
      case None => BrokenChain(child, key, indices, keys)
  {
    if indices == [] {
      keys := [key];
    } else {
      var n := |indices| - 1;
      keys := DeriveChain(child, key, indices[..n]);
      if Derive(child, key, indices[..n]).Some? && Derive(child, key, indices).Some? {
        keys := keys + [Derive(child, key, indices).value];
      }
    }
  }

  method KeyFromPath(childOf: ChildFn, privateKey: ExtendedKey, path: DerivationPath) returns (r: Option<ExtendedKey>)
    ensures r == Derive(childOf, privateKey, ChildIndices(path))
    ensures forall keys :: KeyChain(childOf, privateKey, ChildIndices(path), keys) && |keys| == 6 ==> r == Some(keys[5])
    ensures forall keys :: BrokenChain(childOf, privateKey, ChildIndices(path), keys) ==> r == None
  {
    ChainsDecide(childOf, privateKey, ChildIndices(path));
    var child: Option<ExtendedKey> := None;
    var components := InOrder(path);
    ghost var indices := ChildIndices(path);
    assert indices[..0] == [];
    for idx := 0 to |components|
      invariant child.Some? <==> idx > 0
      invariant Derive(childOf, privateKey, indices[..idx]) == if idx == 0 then Some(privateKey) else child
    {
      var k := if child.None? then privateKey else child.value;
      var component := components[idx];
      if idx <= 2 {
        component := (component + HARDENED) % 0x1_0000_0000;
      }
      child := childOf(k, component);
      assert indices[..idx + 1][..idx] == indices[..idx];
      if child.None? {
        FailureIsFinal(childOf, privateKey, indices, idx + 1, |indices|);
        assert indices[..|indices|] == indices;
        return None;
      }
    }
    assert indices[..|components|] == indices;
    return child;
  }

  lemma ChainsDecide(child: ChildFn, key: ExtendedKey, indices: seq<uint32>)
    ensures forall keys :: KeyChain(child, key, indices, keys) && |keys| == |indices| + 1 ==>
      Derive(child, key, indices) == Some(keys[|indices|])
    ensures forall keys :: BrokenChain(child, key, indices, keys) ==> Derive(child, key, indices) == None
  {
    forall keys | KeyChain(child, key, indices, keys)
      ensures |keys| == |indices| + 1 ==> Derive(child, key, indices) == Some(keys[|indices|])
      ensures BrokenChain(child, key, indices, keys) ==> Derive(child, key, indices) == None
    {
      DeriveFollows(child, key, indices, keys);
    }
  }

  lemma {:induction false} FailureIsFinal(child: ChildFn, key: ExtendedKey, indices: seq<uint32>, m: nat, n: nat)
    requires m <= n <= |indices|
    requires Derive(child, key, indices[..m]) == None
    ensures Derive(child, key, indices[..n]) == None
  {
    if m < n {
      FailureIsFinal(child, key, indices, m, n - 1);
      assert indices[..n][..n - 1] == indices[..n - 1];
    }
  }
}
