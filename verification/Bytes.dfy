/**
 Fixed-width integers and their little-endian byte strings, as the firmware's
 `memcpy` of an integer lays them out on the (little-endian) Cortex-M3.
 */
module Bytes {
  type byte = x: int | 0 <= x < 0x100
  type uint32 = x: int | 0 <= x < 0x1_0000_0000
  type uint64 = x: int | 0 <= x < 0x1_0000_0000_0000_0000
  type Bytes = seq<byte>
  type Hash32 = s: seq<byte> | |s| == 32 witness seq(32, _ => 0)

  datatype Option<+T> = None | Some(value: T)

  const TWO32: int := 0x1_0000_0000
  const TWO64: int := 0x1_0000_0000_0000_0000

  function Pow256(n: nat): (r: nat)
    ensures r > 0
  {
    if n == 0 then 1 else 256 * Pow256(n - 1)
  }

  /** The byte of weight 256^k. */
  function Digit(x: nat, k: nat): byte
  {
    if k == 0 then x % 256 else Digit(x / 256, k - 1)
  }

  function LittleEndian(x: nat, n: nat): (r: Bytes)
    ensures |r| == n
  {
    seq(n, k requires 0 <= k < n => Digit(x, k))
  }

  function FromLittleEndian(b: Bytes): (r: nat)
    ensures r < Pow256(|b|)
  {
    if |b| == 0 then 0 else b[0] as int + 256 * FromLittleEndian(b[1..])
  }

  lemma {:induction false} LittleEndianRoundTrip(x: nat, n: nat)
    requires x < Pow256(n)
    ensures FromLittleEndian(LittleEndian(x, n)) == x
  {
    if n > 0 {
      assert LittleEndian(x, n)[1..] == LittleEndian(x / 256, n - 1);
      LittleEndianRoundTrip(x / 256, n - 1);
    }
  }

  function Le16(x: uint32): (r: Bytes)
    requires x < 0x1_0000
    ensures |r| == 2
  {
    LittleEndian(x, 2)
  }

  function Le32(x: uint32): (r: Bytes)
    ensures |r| == 4
  {
    LittleEndian(x, 4)
  }

  function Le64(x: uint64): (r: Bytes)
    ensures |r| == 8
  {
    LittleEndian(x, 8)
  }

  function FromLe16(b: Bytes): uint32
    requires |b| == 2
    ensures FromLe16(b) < 0x1_0000
  {
    FromLittleEndian(b)
  }

  lemma Pow256Values()
    ensures Pow256(2) == 0x1_0000 && Pow256(4) == TWO32 && Pow256(8) == TWO64
  {
    assert Pow256(2) == 256 * Pow256(1) && Pow256(4) == 256 * Pow256(3) && Pow256(3) == 256 * Pow256(2);
    assert Pow256(8) == 256 * Pow256(7) && Pow256(7) == 256 * Pow256(6) && Pow256(6) == 256 * Pow256(5);
    assert Pow256(5) == 256 * Pow256(4);
  }

  function FromLe32(b: Bytes): uint32
    requires |b| == 4
  {
    Pow256Values();
    FromLittleEndian(b)
  }

  function FromLe64(b: Bytes): uint64
    requires |b| == 8
  {
    Pow256Values();
    FromLittleEndian(b)
  }

  lemma Le16RoundTrip(x: uint32)
    requires x < 0x1_0000
    ensures FromLe16(Le16(x)) == x
  {
    Pow256Values();
    LittleEndianRoundTrip(x, 2);
  }

  lemma Le32RoundTrip(x: uint32)
    ensures FromLe32(Le32(x)) == x
  {
    Pow256Values();
    LittleEndianRoundTrip(x, 4);
  }

  lemma Le64RoundTrip(x: uint64)
    ensures FromLe64(Le64(x)) == x
  {
    Pow256Values();
    LittleEndianRoundTrip(x, 8);
  }

  function Reverse(s: Bytes): (r: Bytes)
    ensures |r| == |s|
    ensures forall i :: 0 <= i < |s| ==> r[i] == s[|s| - 1 - i]
  {
    seq(|s|, i requires 0 <= i < |s| => s[|s| - 1 - i])
  }

  lemma ReverseInvolutive(s: Bytes)
    ensures Reverse(Reverse(s)) == s
  {
  }

  lemma AppendAssoc(a: Bytes, b: Bytes, c: Bytes)
    ensures (a + b) + c == a + (b + c)
  {
  }

  lemma DropPrefix(a: Bytes, b: Bytes)
    ensures (a + b)[|a|..] == b
    ensures (a + b)[..|a|] == a
  {
  }
}
