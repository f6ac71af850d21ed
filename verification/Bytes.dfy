/** Bytes and the little-endian 32-bit lengths that prefix variable-size data. */
module Bytes {

  newtype byte = x: int | 0 <= x < 256

  const ULONG_LIMIT: int := 0x1_0000_0000

  function Le32(n: nat): (r: seq<byte>)
    requires n < ULONG_LIMIT
    ensures |r| == 4
  {
    [(n % 256) as byte, (n / 256 % 256) as byte, (n / 65536 % 256) as byte, (n / 16777216) as byte]
  }

  function FromLe32(s: seq<byte>): (n: nat)
    requires |s| == 4
    ensures n < ULONG_LIMIT
  {
    s[0] as nat + 256 * s[1] as nat + 65536 * s[2] as nat + 16777216 * s[3] as nat
  }

  lemma Le32OfFrom(s: seq<byte>)
    requires |s| == 4
    ensures Le32(FromLe32(s)) == s
  {
    var a, b, c, d := s[0] as nat, s[1] as nat, s[2] as nat, s[3] as nat;
    var n := FromLe32(s);
    assert n == a + 256 * (b + 256 * (c + 256 * d));
    assert n / 256 == b + 256 * (c + 256 * d);
    assert n / 65536 == n / 256 / 256 == c + 256 * d;
    assert n / 16777216 == n / 65536 / 256 == d;
  }

  lemma Le32RoundTrip(n: nat)
    requires n < ULONG_LIMIT
    ensures FromLe32(Le32(n)) == n
  {
    assert n / 65536 == n / 256 / 256;
    assert n / 16777216 == n / 65536 / 256;
  }

  /** The least significant byte comes first. */
  lemma LeastFirst(n: nat)
    requires n < ULONG_LIMIT
    ensures Le32(n)[0] as nat == n % 256 && Le32(n)[3] as nat == n / 16777216
  {
  }
}
