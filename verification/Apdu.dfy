/** Status words and reply packaging (apps/apdu.go, apps/apps.go). */
module Apdu {
  import opened Bytes

  const EXECUTION_ERROR: uint16 := 0x6400
  const WRONG_LENGTH: uint16 := 0x6700
  const DATA_INVALID: uint16 := 0x6984
  const COMMAND_NOT_ALLOWED: uint16 := 0x6986
  const INS_NOT_SUPPORTED: uint16 := 0x6D00
  const CLA_NOT_SUPPORTED: uint16 := 0x6E00
  const SUCCESS: uint16 := 0x9000

  function PackageResponse(data: seq<byte>, code: uint16): seq<byte> {
    data + PutUint16(code)
  }

  /** Each status word as the two bytes that end a reply; only success comes with a body. */
  lemma StatusBytes(body: seq<byte>)
    ensures PackageResponse([], EXECUTION_ERROR) == [0x64, 0x00]
    ensures PackageResponse([], WRONG_LENGTH) == [0x67, 0x00]
    ensures PackageResponse([], DATA_INVALID) == [0x69, 0x84]
    ensures PackageResponse([], COMMAND_NOT_ALLOWED) == [0x69, 0x86]
    ensures PackageResponse([], INS_NOT_SUPPORTED) == [0x6D, 0x00]
    ensures PackageResponse([], CLA_NOT_SUPPORTED) == [0x6E, 0x00]
    ensures PackageResponse([], SUCCESS) == [0x90, 0x00]
    ensures PackageResponse(body, SUCCESS) == body + [0x90, 0x00]
  {
  }

  /** A reply determines its body and its status word. */
  lemma PackageInjective(d1: seq<byte>, c1: uint16, d2: seq<byte>, c2: uint16)
    requires PackageResponse(d1, c1) == PackageResponse(d2, c2)
    ensures d1 == d2 && c1 == c2
  {
    var p1, p2 := PackageResponse(d1, c1), PackageResponse(d2, c2);
    assert d1 == p1[..|p1| - 2] == p2[..|p2| - 2] == d2;
    assert PutUint16(c1) == p1[|p1| - 2..] == p2[|p2| - 2..] == PutUint16(c2);
    Uint16RoundTrip(c1, [0, 0]);
    Uint16RoundTrip(c2, [0, 0]);
  }

  /** A short command APDU: CLA, INS, P1, P2, Lc, data. */
  function Command(cla: byte, ins: byte, p1: byte, p2: byte, data: seq<byte>): seq<byte>
    requires |data| < 0x100
  {
    [cla, ins, p1, p2, |data|] + data
  }
}
