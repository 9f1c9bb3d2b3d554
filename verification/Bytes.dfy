/** Little-endian numbers in byte streams. */
module Bytes {
  import opened Types

  /** Little-endian encoding of a 32-bit number. */
  function Le32(n: nat): (r: seq<byte>)
    requires n < 0x1_0000_0000
    ensures |r| == 4
    ensures n == r[0] as nat + 256 * (r[1] as nat) + 65536 * (r[2] as nat) + 16777216 * (r[3] as nat)
  {
    [n % 256, n / 256 % 256, n / 65536 % 256, n / 16777216]
  }

  function FromLe32(b: seq<byte>): nat
    requires |b| == 4
  {
    b[0] as nat + 256 * (b[1] as nat) + 65536 * (b[2] as nat) + 16777216 * (b[3] as nat)
  }

  lemma Le32RoundTrip(n: nat)
    requires n < 0x1_0000_0000
    ensures FromLe32(Le32(n)) == n
  {
  }
}
