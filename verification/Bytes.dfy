/** Byte strings and big-endian integers. */
module Bytes {
  type byte = x: int | 0 <= x < 256
  type bytes = seq<byte>

  type uint16 = x: int | 0 <= x < 0x1_0000
  type uint32 = x: int | 0 <= x < 0x1_0000_0000

  function Zeros(n: nat): (r: bytes)
    ensures |r| == n && forall i | 0 <= i < n :: r[i] == 0
  {
    seq(n, _ => 0)
  }

  function Be16(n: uint16): (r: bytes)
    ensures |r| == 2
  {
    [n / 256, n % 256]
  }

  function Be32(n: uint32): (r: bytes)
    ensures |r| == 4
  {
    [n / 0x100_0000, n / 0x1_0000 % 256, n / 256 % 256, n % 256]
  }

  function FromBe16(b: bytes): (n: uint16)
    requires |b| == 2
  {
    b[0] as int * 256 + b[1]
  }

  function FromBe32(b: bytes): (n: uint32)
    requires |b| == 4
  {
    b[0] as int * 0x100_0000 + b[1] as int * 0x1_0000 + b[2] as int * 256 + b[3]
  }

  lemma BigEndianRoundTrips(m: uint16, n: uint32)
    ensures FromBe16(Be16(m)) == m
    ensures FromBe32(Be32(n)) == n
  {
    assert n / 0x100_0000 * 0x100_0000 + n / 0x1_0000 % 256 * 0x1_0000 + n / 256 % 256 * 256 + n % 256 == n by {
      var a := n / 256;
      var b := a / 256;
      assert n / 0x1_0000 == b && n / 0x100_0000 == b / 256;
    }
  }

  /** What `copy` puts into a zeroed field of `n` bytes. */
  function Fit(src: bytes, n: nat): (r: bytes)
    ensures |r| == n
  {
    if |src| >= n then src[..n] else src + Zeros(n - |src|)
  }
}
