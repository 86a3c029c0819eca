/** Octets and the fixed-width unsigned arithmetic the C sources rely on. */
module Bytes {
  type Byte = x: int | 0 <= x < 0x100
  type Bytes = seq<Byte>

  const TWO_32: int := 0x1_0000_0000

  function Zeros(n: nat): (z: Bytes)
    ensures |z| == n && forall i :: 0 <= i < n ==> z[i] == 0
  {
    seq(n, _ => 0)
  }

  /** The value of a byte string read most significant byte first. */
  function BigEndian(b: Bytes): nat {
    if b == [] then 0 else BigEndian(b[..|b| - 1]) * 0x100 + b[|b| - 1]
  }

  function Pow256(n: nat): nat
  {
    if n == 0 then 1 else 0x100 * Pow256(n - 1)
  }

  /** The n low bytes of v, most significant first. */
  function BE(v: nat, n: nat): (b: Bytes)
    ensures |b| == n
    decreases n
  {
    if n == 0 then [] else BE(v / 0x100, n - 1) + [v % 0x100]
  }

  lemma {:induction false} BERoundTrip(v: nat, n: nat)
    requires v < Pow256(n)
    ensures BigEndian(BE(v, n)) == v
    decreases n
  {
    if n > 0 {
      assert v / 0x100 < Pow256(n - 1);
      BERoundTrip(v / 0x100, n - 1);
      assert BE(v, n)[..n - 1] == BE(v / 0x100, n - 1);
    }
  }
}
