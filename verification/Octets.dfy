/** Octets as strings of eight bits, the least significant first. */
module Octets {
  import opened Bytes

  /** The `n` least significant bits of `x`, the least significant first. */
  function Bits(x: nat, n: nat): (bits: seq<bool>)
    ensures |bits| == n
  {
    if n == 0 then [] else [x % 2 == 1] + Bits(x / 2, n - 1)
  }

  function FromBits(bits: seq<bool>): nat {
    if bits == [] then 0 else (if bits[0] then 1 else 0) + 2 * FromBits(bits[1..])
  }

  function Power2(n: nat): nat {
    if n == 0 then 1 else 2 * Power2(n - 1)
  }

  lemma {:induction false} FromBitsRange(bits: seq<bool>)
    ensures FromBits(bits) < Power2(|bits|)
    decreases |bits|
  {
    if bits != [] {
      FromBitsRange(bits[1..]);
    }
  }

  lemma {:induction false} BitsOfNumber(bits: seq<bool>)
    ensures Bits(FromBits(bits), |bits|) == bits
    decreases |bits|
  {
    if bits != [] {
      BitsOfNumber(bits[1..]);
    }
  }

  lemma {:induction false} NumberOfBits(x: nat, n: nat)
    requires x < Power2(n)
    ensures FromBits(Bits(x, n)) == x
  {
    if n != 0 {
      NumberOfBits(x / 2, n - 1);
      assert Bits(x, n)[1..] == Bits(x / 2, n - 1);
    }
  }

  function Flag(on: bool, m: bv8): bv8 {
    if on then m else 0
  }

  function Pack(b: seq<bool>): bv8
    requires |b| == 8
  {
    Flag(b[0], 1) | Flag(b[1], 2) | Flag(b[2], 4) | Flag(b[3], 8)
    | Flag(b[4], 16) | Flag(b[5], 32) | Flag(b[6], 64) | Flag(b[7], 128)
  }

  function Unpack(x: bv8): (b: seq<bool>)
    ensures |b| == 8
  {
    [x & 1 != 0, x & 2 != 0, x & 4 != 0, x & 8 != 0, x & 16 != 0, x & 32 != 0, x & 64 != 0, x & 128 != 0]
  }

  /** The octet of value `b`, for the bit operators. */
  function Octet(b: byte): bv8 {
    Pack(Bits(b, 8))
  }

  /** The value of an octet. */
  function Value(x: bv8): (b: byte)
  {
    UnpackRange(x);
    FromBits(Unpack(x))
  }

  lemma UnpackRange(x: bv8)
    ensures FromBits(Unpack(x)) < 0x100
  {
    FromBitsRange(Unpack(x));
    Power8();
    hide Unpack;
  }

  lemma Power8()
    ensures Power2(8) == 0x100
  {
    assert Power2(4) == 16;
  }

  lemma UnpackOfPack(b: seq<bool>)
    requires |b| == 8
    ensures Unpack(Pack(b)) == b
  {
  }

  lemma PackOfBits(x: bv8)
    ensures Pack(Unpack(x)) == x
  {
  }

  lemma ValueOfOctet(b: byte)
    ensures Value(Octet(b)) == b
    ensures Unpack(Octet(b)) == Bits(b, 8)
  {
    hide Pack, Unpack;
    UnpackOfPack(Bits(b, 8));
    Power8();
    NumberOfBits(b, 8);
  }

  lemma OctetOfValue(x: bv8)
    ensures Octet(Value(x)) == x
    ensures Bits(Value(x), 8) == Unpack(x)
  {
    hide Pack, Unpack;
    BitsOfNumber(Unpack(x));
    PackOfBits(x);
  }

  /** The bits of an octet string in the order they are sent, and in which coils are packed. */
  function BitString(s: seq<byte>): (bits: seq<bool>)
    ensures |bits| == 8 * |s|
  {
    if s == [] then [] else BitString(s[..|s| - 1]) + Bits(s[|s| - 1], 8)
  }

  /** Bit `j` of octet `k` is bit `8 * k + j` of the string. */
  lemma {:induction false} BitStringAt(s: seq<byte>, k: nat, j: nat)
    requires k < |s| && j < 8
    ensures BitString(s)[8 * k + j] == Bits(s[k], 8)[j]
    decreases |s|
  {
    hide Bits;
    if k < |s| - 1 {
      BitStringAt(s[..|s| - 1], k, j);
    }
  }

  lemma {:induction false} BitStringTake(s: seq<byte>, k: nat)
    requires k <= |s|
    ensures BitString(s[..k]) == BitString(s)[..8 * k]
    decreases |s|
  {
    hide Bits;
    if k == |s| {
      assert s[..k] == s;
    } else {
      var front := s[..|s| - 1];
      assert front[..k] == s[..k];
      BitStringTake(front, k);
      assert BitString(s)[..8 * k] == BitString(front)[..8 * k];
    }
  }

  /** Packing bits eight to an octet, the inverse of `BitString`. */
  function PackBits(bits: seq<bool>): (s: seq<byte>)
    requires |bits| % 8 == 0
    ensures 8 * |s| == |bits|
    decreases |bits|
  {
    if bits == [] then []
    else
      var last := bits[|bits| - 8..];
      OctetRange(last);
      PackBits(bits[..|bits| - 8]) + [FromBits(last)]
  }

  lemma OctetRange(bits: seq<bool>)
    requires |bits| == 8
    ensures FromBits(bits) < 0x100
  {
    FromBitsRange(bits);
    Power8();
  }

  lemma {:induction false} BitsOfPacked(bits: seq<bool>)
    requires |bits| % 8 == 0
    ensures BitString(PackBits(bits)) == bits
    decreases |bits|
  {
    hide Bits, FromBits;
    if bits != [] {
      var front, last := bits[..|bits| - 8], bits[|bits| - 8..];
      BitsOfPacked(front);
      BitsOfNumber(last);
      assert bits == front + last;
    }
  }

  lemma {:induction false} BitStringInjective(s: seq<byte>, t: seq<byte>)
    requires BitString(s) == BitString(t)
    ensures s == t
    decreases |s|
  {
    hide Bits;
    if s != [] {
      var n := |s| - 1;
      BitStringTake(s, n);
      BitStringTake(t, n);
      BitStringInjective(s[..n], t[..n]);
      assert BitString(s)[8 * n..] == Bits(s[n], 8) && BitString(t)[8 * n..] == Bits(t[n], 8);
      Power8();
      NumberOfBits(s[n], 8);
      NumberOfBits(t[n], 8);
    }
  }

  lemma PackedBitString(s: seq<byte>)
    ensures PackBits(BitString(s)) == s
  {
    BitsOfPacked(BitString(s));
    BitStringInjective(PackBits(BitString(s)), s);
  }
}
