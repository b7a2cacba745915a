/**
 The self-delimiting length prefix of firmware/crypto.c: one byte below 253,
 else a marker byte followed by two or four little-endian bytes.
 */
module Varint {
  import opened Bytes

  /** The bytes that `ser_length` writes and `ser_length_hash` absorbs. */
  function Encode(n: uint32): (r: Bytes)
    ensures 1 <= |r| <= 5
  {
    if n < 253 then [n]
    else if n < 0x1_0000 then [253] + Le16(n)
    else [254] + Le32(n)
  }

  /** `deser_length`: the value and the number of bytes it consumed; None when the buffer is too short. */
  function Decode(b: Bytes): Option<(uint32, nat)>
  {
    if |b| == 0 then None
    else if b[0] < 253 then Some((b[0], 1))
    else if b[0] == 253 then
      if |b| < 3 then None else Some((FromLe16(b[1..3]), 3))
    else if b[0] == 254 then
      if |b| < 5 then None else Some((FromLe32(b[1..5]), 5))
    else
      if |b| < 9 then None else Some((0, 9))
  }

  /** Self-delimiting: whatever follows, decoding gives back the length and exactly its own bytes. */
  lemma RoundTrip(n: uint32, rest: Bytes)
    ensures Decode(Encode(n) + rest) == Some((n, |Encode(n)|))
  {
    var b := Encode(n) + rest;
    if n < 253 {
    } else if n < 0x1_0000 {
      assert b[1..3] == Le16(n);
      Le16RoundTrip(n);
    } else {
      assert b[1..5] == Le32(n);
      Le32RoundTrip(n);
    }
  }

  lemma Regroup(before: Bytes, marker: byte, digits: Bytes, rest: Bytes)
    ensures (before + [marker]) + digits + rest == before + ([marker] + digits) + rest
  {
  }

  /** A marker byte and the integer behind it. */
  method WriteMarked(marker: byte, x: nat, n: nat, out: array<byte>, at: nat)
    requires at + 1 + n <= out.Length
    modifies out
    ensures out[..] == old(out[..at]) + ([marker] + LittleEndian(x, n)) + old(out[at + 1 + n..])
  {
    hide LittleEndian;
    ghost var before, rest := out[..at], out[at + 1 + n..];
    out[at] := marker;
    assert out[..at + 1] == before + [marker] && out[at + 1 + n..] == rest;
    WriteLittleEndian(x, n, out, at + 1);
    Regroup(before, marker, LittleEndian(x, n), rest);
  }

  /** `ser_length`: writes the prefix at `out[at..]`, nothing else, and returns its size. */
  method SerLength(len: uint32, out: array<byte>, at: nat) returns (r: nat)
    requires at + |Encode(len)| <= out.Length
    modifies out
    ensures r == |Encode(len)|
    ensures out[..] == old(out[..at]) + Encode(len) + old(out[at + r..])
  {
    hide LittleEndian;
    if len < 253 {
      out[at] := len;
      r := 1;
    } else if len < 0x1_0000 {
      WriteMarked(253, len, 2, out, at);
      r := 3;
    } else {
      WriteMarked(254, len, 4, out, at);
      r := 5;
    }
  }

  /** The integer as the copy of its memory lays it out. */
  method WriteLittleEndian(x: nat, n: nat, out: array<byte>, at: nat)
    requires at + n <= out.Length
    modifies out
    ensures out[..] == old(out[..at]) + LittleEndian(x, n) + old(out[at + n..])
  {
    ghost var digits, before, was := LittleEndian(x, n), out[..at], out[..];
    assert forall k :: 0 <= k < n ==> digits[k] == Digit(x, k);
    hide LittleEndian, Digit;
    for i := 0 to n
      invariant out[..] == before + digits[..i] + was[at + i..]
    {
      ReplaceOne(before, digits, was, at, i);
      out[at + i] := Digit(x, i);
    }
    assert digits[..n] == digits;
  }

  lemma ReplaceOne(before: Bytes, digits: Bytes, was: Bytes, at: nat, i: nat)
    requires |before| == at && i < |digits| && at + i < |was|
    ensures (before + digits[..i] + was[at + i..])[at + i := digits[i]] == before + digits[..i + 1] + was[at + i + 1..]
  {
  }

  /** `deser_length`: reads a prefix through an out-parameter and returns the bytes consumed. */
  method DeserLength(input: Bytes) returns (r: nat, out: uint32)
    requires Decode(input).Some?
    ensures Decode(input) == Some((out, r))
  {
    if input[0] < 253 {
      return 1, input[0];
    }
    if input[0] == 253 {
      LittleEndianSum(input[1..3]);
      return 3, input[1] as int + (input[2] as int) * 256;
    }
    if input[0] == 254 {
      LittleEndianSum(input[1..5]);
      return 5, input[1] as int + (input[2] as int) * 256 + (input[3] as int) * 65536 + (input[4] as int) * 16777216;
    }
    return 9, 0;
  }

  lemma LittleEndianSum(b: Bytes)
    ensures |b| == 2 ==> FromLittleEndian(b) == b[0] as int + (b[1] as int) * 256
    ensures |b| == 4 ==>
      FromLittleEndian(b) == b[0] as int + (b[1] as int) * 256 + (b[2] as int) * 65536 + (b[3] as int) * 16777216
  {
    if |b| > 1 {
      assert FromLittleEndian(b[1..]) == b[1] as int + 256 * FromLittleEndian(b[1..][1..]);
      if |b| == 4 {
        assert FromLittleEndian(b[1..][1..]) == b[2] as int + 256 * FromLittleEndian(b[1..][1..][1..]);
        assert FromLittleEndian(b[1..][1..][1..]) == b[3] as int + 256 * FromLittleEndian(b[1..][1..][1..][1..]);
      }
    }
  }
}
