/** Fixed-width integers read from byte slices, as Go's encoding/binary does. */
module ByteOrder {

  type Byte = b: int | 0 <= b < 0x100

  function Pow256(n: nat): (r: nat)
    ensures r >= 1
  {
    if n == 0 then 1 else 256 * Pow256(n - 1)
  }

  /** binary.LittleEndian.UintN over all of `b`. */
  function LeUint(b: seq<Byte>): (r: nat)
    ensures r < Pow256(|b|)
  {
    if b == [] then 0 else b[0] + 256 * LeUint(b[1..])
  }

  /** binary.BigEndian.UintN over all of `b`. */
  function BeUint(b: seq<Byte>): (r: nat)
    ensures r < Pow256(|b|)
  {
    if b == [] then 0 else BeUint(b[..|b| - 1]) * 256 + b[|b| - 1]
  }

  lemma {:induction false} LeUintOfZeros(b: seq<Byte>)
    requires forall k :: 0 <= k < |b| ==> b[k] == 0
    ensures LeUint(b) == 0
  {
    if b != [] {
      LeUintOfZeros(b[1..]);
    }
  }

  lemma {:induction false} BeUintOfZeros(b: seq<Byte>)
    requires forall k :: 0 <= k < |b| ==> b[k] == 0
    ensures BeUint(b) == 0
  {
    if b != [] {
      BeUintOfZeros(b[..|b| - 1]);
    }
  }

  /** The `n` little-endian bytes of `u` (what binary.LittleEndian.PutUintN writes). */
  function LeBytes(u: nat, n: nat): (b: seq<Byte>)
    ensures |b| == n
  {
    if n == 0 then [] else [u % 256] + LeBytes(u / 256, n - 1)
  }

  /** Go's conversion intN(u) of an unsigned n-byte value: two's complement. */
  function ToSigned(u: nat, n: nat): int
  {
    if n > 0 && u >= Pow256(n) / 2 then u - Pow256(n) else u
  }

  /** Go's conversion uintN(v) of a signed value that fits in n bytes. */
  function ToUnsigned(v: int, n: nat): nat
    requires v + Pow256(n) >= 0
  {
    if v < 0 then v + Pow256(n) else v
  }

  lemma {:induction false} LeUintOfLeBytes(u: nat, n: nat)
    requires u < Pow256(n)
    ensures LeUint(LeBytes(u, n)) == u
  {
    if n > 0 {
      assert u / 256 < Pow256(n - 1);
      LeUintOfLeBytes(u / 256, n - 1);
      assert LeBytes(u, n)[1..] == LeBytes(u / 256, n - 1);
    }
  }

  lemma {:induction false} LeBytesOfLeUint(b: seq<Byte>)
    ensures LeBytes(LeUint(b), |b|) == b
  {
    if b != [] {
      var u := LeUint(b);
      assert u % 256 == b[0] && u / 256 == LeUint(b[1..]);
      LeBytesOfLeUint(b[1..]);
    }
  }

  /** Encoding a signed n-byte integer little-endian and decoding it again gives
      the integer back (the PT_I2, PT_LONG and PT_I8 readers are exact). */
  lemma SignedRoundTrip(v: int, n: nat)
    requires n > 0
    requires -(Pow256(n) / 2) <= v < Pow256(n) / 2
    ensures ToSigned(LeUint(LeBytes(ToUnsigned(v, n), n)), n) == v
  {
    assert Pow256(n) == 256 * Pow256(n - 1);
    LeUintOfLeBytes(ToUnsigned(v, n), n);
  }

  /** Decoding then re-encoding gives the bytes back, so distinct payloads of the
      exact width decode to distinct integers. */
  lemma SignedDecodeEncode(b: seq<Byte>)
    requires |b| > 0
    ensures var v := ToSigned(LeUint(b), |b|);
            -(Pow256(|b|) / 2) <= v < Pow256(|b|) / 2 &&
            LeBytes(ToUnsigned(v, |b|), |b|) == b
  {
    var u, p := LeUint(b), Pow256(|b|);
    assert p == 256 * Pow256(|b| - 1);
    var v := ToSigned(u, |b|);
    assert ToUnsigned(v, |b|) == u;
    LeBytesOfLeUint(b);
  }
}
