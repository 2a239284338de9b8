/** google/uuid values: sixteen bytes with an injective text form of fixed length. */
module Uuid {

  type UUID = u: seq<nat> | |u| == 16 && (forall i | 0 <= i < 16 :: u[i] < 256)
    witness [0, 0, 0, 0, 0, 0, 0, 0, 0, 0, 0, 0, 0, 0, 0, 0]

  /** uuid.Nil. */
  const NIL: UUID := [0, 0, 0, 0, 0, 0, 0, 0, 0, 0, 0, 0, 0, 0, 0, 0]

  const HEX: string := "0123456789abcdef"

  function Hex(bytes: seq<nat>): (s: string)
    requires forall i | 0 <= i < |bytes| :: bytes[i] < 256
    ensures |s| == 2 * |bytes|
  {
    if bytes == [] then "" else [HEX[bytes[0] / 16], HEX[bytes[0] % 16]] + Hex(bytes[1..])
  }

  /** UUID.String: hexadecimal in groups of 4, 2, 2, 2 and 6 bytes. */
  function Text(u: UUID): (s: string)
    ensures |s| == 36
  {
    Hex(u[..4]) + "-" + Hex(u[4..6]) + "-" + Hex(u[6..8]) + "-" + Hex(u[8..10]) + "-" + Hex(u[10..])
  }

  lemma HexDigitInjective(a: nat, b: nat)
    requires a < 16 && b < 16 && HEX[a] == HEX[b]
    ensures a == b
  {
  }

  lemma {:induction false} HexInjective(a: seq<nat>, b: seq<nat>)
    requires |a| == |b|
    requires (forall i | 0 <= i < |a| :: a[i] < 256) && (forall i | 0 <= i < |b| :: b[i] < 256)
    requires Hex(a) == Hex(b)
    ensures a == b
  {
    if a != [] {
      var s := Hex(a);
      assert s[0] == HEX[a[0] / 16] == HEX[b[0] / 16] && s[1] == HEX[a[0] % 16] == HEX[b[0] % 16];
      HexDigitInjective(a[0] / 16, b[0] / 16);
      HexDigitInjective(a[0] % 16, b[0] % 16);
      assert s[2..] == Hex(a[1..]) && Hex(b)[2..] == Hex(b[1..]);
      HexInjective(a[1..], b[1..]);
      assert a == [a[0]] + a[1..] && b == [b[0]] + b[1..];
    }
  }

  /** Distinct ids have distinct texts. */
  lemma TextInjective(a: UUID, b: UUID)
    ensures Text(a) == Text(b) <==> a == b
  {
    hide Hex;
    if Text(a) == Text(b) {
      Groups(a);
      Groups(b);
      HexInjective(a[..4], b[..4]);
      HexInjective(a[4..6], b[4..6]);
      HexInjective(a[6..8], b[6..8]);
      HexInjective(a[8..10], b[8..10]);
      HexInjective(a[10..], b[10..]);
      assert a == a[..4] + a[4..6] + a[6..8] + a[8..10] + a[10..];
      assert b == b[..4] + b[4..6] + b[6..8] + b[8..10] + b[10..];
    }
  }

  lemma Groups(u: UUID)
    ensures var s := Text(u);
            && s[..8] == Hex(u[..4]) && s[9..13] == Hex(u[4..6]) && s[14..18] == Hex(u[6..8])
            && s[19..23] == Hex(u[8..10]) && s[24..] == Hex(u[10..])
  {
    hide Hex;
  }
}
