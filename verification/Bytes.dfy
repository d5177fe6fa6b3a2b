// Fixed-width big-endian integers, as encoding/binary writes them.
module Bytes {
  import opened Model

  function Pow256(n: nat): nat
    ensures Pow256(n) > 0
  {
    if n == 0 then 1 else 256 * Pow256(n - 1)
  }

  lemma EightBytes()
    ensures Pow256(8) == U64_LIMIT
  {
    assert Pow256(4) == 0x1_0000_0000;
    assert Pow256(6) == 0x1_0000_0000_0000;
  }

  function BigEndian(n: nat, x: nat): (s: seq<byte>)
    ensures |s| == n
  {
    if n == 0 then [] else BigEndian(n - 1, x / 256) + [x % 256]
  }

  function FromBigEndian(s: seq<byte>): nat {
    if s == [] then 0 else 256 * FromBigEndian(s[..|s| - 1]) + s[|s| - 1]
  }

  lemma {:induction false} BigEndianRoundTrip(n: nat, x: nat)
    requires x < Pow256(n)
    ensures FromBigEndian(BigEndian(n, x)) == x
  {
    if n == 0 {
    } else {
      BigEndianRoundTrip(n - 1, x / 256);
      assert BigEndian(n, x)[..n - 1] == BigEndian(n - 1, x / 256);
    }
  }

  /** The eight bytes binary.Write produces for a uint64. */
  function U64Bytes(x: u64): seq<byte> {
    BigEndian(8, x)
  }

  function FromU64Bytes(s: seq<byte>): u64 {
    Wrap(FromBigEndian(s))
  }

  lemma U64RoundTrip(x: u64)
    ensures FromU64Bytes(U64Bytes(x)) == x && |U64Bytes(x)| == 8
  {
    EightBytes();
    BigEndianRoundTrip(8, x);
  }

  /** Dividing by 256 again and again. */
  lemma Shifts(x: nat)
    ensures x / 0x100 / 0x100 == x / 0x1_0000
    ensures x / 0x1_0000 / 0x100 == x / 0x100_0000
    ensures x / 0x100_0000 / 0x100 == x / 0x1_0000_0000
    ensures x / 0x1_0000_0000 / 0x100 == x / 0x100_0000_0000
    ensures x / 0x100_0000_0000 / 0x100 == x / 0x1_0000_0000_0000
    ensures x / 0x1_0000_0000_0000 / 0x100 == x / 0x100_0000_0000_0000
  {
  }

  lemma LowFour(x: nat)
    ensures BigEndian(8, x) == BigEndian(4, x / 0x1_0000_0000) +
      [x / 0x100_0000 % 256, x / 0x1_0000 % 256, x / 0x100 % 256, x % 256]
  {
    Shifts(x);
    assert BigEndian(8, x) == BigEndian(7, x / 0x100) + [x % 256];
    assert BigEndian(7, x / 0x100) == BigEndian(6, x / 0x1_0000) + [x / 0x100 % 256];
    assert BigEndian(6, x / 0x1_0000) == BigEndian(5, x / 0x100_0000) + [x / 0x1_0000 % 256];
    assert BigEndian(5, x / 0x100_0000) == BigEndian(4, x / 0x1_0000_0000) + [x / 0x100_0000 % 256];
  }

  lemma HighFour(x: nat)
    ensures BigEndian(4, x / 0x1_0000_0000) ==
      [x / 0x100_0000_0000_0000 % 256, x / 0x1_0000_0000_0000 % 256, x / 0x100_0000_0000 % 256, x / 0x1_0000_0000 % 256]
  {
    Shifts(x);
    assert BigEndian(4, x / 0x1_0000_0000) == BigEndian(3, x / 0x100_0000_0000) + [x / 0x1_0000_0000 % 256];
    assert BigEndian(3, x / 0x100_0000_0000) == BigEndian(2, x / 0x1_0000_0000_0000) + [x / 0x100_0000_0000 % 256];
    assert BigEndian(2, x / 0x1_0000_0000_0000) == BigEndian(1, x / 0x100_0000_0000_0000) + [x / 0x1_0000_0000_0000 % 256];
    assert BigEndian(1, x / 0x100_0000_0000_0000) == BigEndian(0, x / 0x100_0000_0000_0000 / 256) + [x / 0x100_0000_0000_0000 % 256];
  }

  /** The most significant byte comes first. */
  lemma U64BytesExact(x: u64)
    ensures U64Bytes(x) == [
      x / 0x100_0000_0000_0000 % 256, x / 0x1_0000_0000_0000 % 256, x / 0x100_0000_0000 % 256, x / 0x1_0000_0000 % 256,
      x / 0x100_0000 % 256, x / 0x1_0000 % 256, x / 0x100 % 256, x % 256]
  {
    LowFour(x);
    HighFour(x);
  }

  /** Of two byte strings of one length the one with the smaller byte at the first
      difference is the smaller number. */
  lemma {:induction false} FirstDifferenceDecides(s: seq<byte>, t: seq<byte>, k: nat)
    requires |s| == |t| && k < |s| && s[..k] == t[..k] && s[k] < t[k]
    ensures FromBigEndian(s) < FromBigEndian(t)
    decreases |s|
  {
    var n := |s| - 1;
    if k == n {
    } else {
      assert s[..n][..k] == s[..k] && t[..n][..k] == t[..k];
      FirstDifferenceDecides(s[..n], t[..n], k);
    }
  }
}
