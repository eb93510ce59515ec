/** The bit-copying loops of the coil callbacks. */
module CoilCopy {
  import opened Bytes
  import opened Octets
  import opened Modbus
  import opened MbUtils

  /**
   * Storing `n` bits from `v` at bit `at`, as the write loops do it: whole octets first, then the
   * rest. The bits of the last octet beyond `n` are ored into the bits that follow.
   */
  function Stored(b: seq<bool>, at: nat, n: nat, v: seq<bool>): (r: seq<bool>)
    requires 8 * CoilBytes(n) <= |v| && at + 8 * CoilBytes(n) <= |b|
    ensures |r| == |b|
    ensures forall p :: 0 <= p < |b| ==>
              r[p] == if p < at || at + 8 * CoilBytes(n) <= p then b[p]
                      else if p < at + n then v[p - at]
                      else b[p] || v[p - at]
  {
    seq(|b|, p requires 0 <= p < |b| =>
          if p < at || at + 8 * CoilBytes(n) <= p then b[p]
          else if p < at + n then v[p - at]
          else b[p] || v[p - at])
  }

  lemma StoredBit(b: seq<bool>, at: nat, n: nat, v: seq<bool>, i: nat)
    requires i < n && 8 * CoilBytes(n) <= |v| && at + 8 * CoilBytes(n) <= |b|
    ensures Stored(b, at, n, v)[at + i] == v[i]
  {
  }

  /** With the padding clear exactly the addressed bits change. */
  lemma StoredIsSplice(b: seq<bool>, at: nat, n: nat, v: seq<bool>)
    requires 8 * CoilBytes(n) <= |v| && at + 8 * CoilBytes(n) <= |b|
    requires forall i :: n <= i < 8 * CoilBytes(n) ==> !v[i]
    ensures Stored(b, at, n, v) == Splice(b, at, v[..n])
  {
  }

  lemma PaddingStored(b: seq<bool>, at: nat, n: nat, v: seq<bool>, i: nat)
    requires n <= i < 8 * CoilBytes(n) <= |v| && at + 8 * CoilBytes(n) <= |b| && v[i] && !b[at + i]
    ensures Stored(b, at, n, v) != Splice(b, at, v[..n])
  {
    assert Stored(b, at, n, v)[at + i] && !Splice(b, at, v[..n])[at + i];
  }

  /**
   * The padding must be clear: the neighbouring bits survive in every store, whatever it holds,
   * if and only if the request's padding bits are zero.
   */
  lemma NeighboursSafeIff(size: nat, at: nat, n: nat, v: seq<bool>)
    requires 8 * CoilBytes(n) <= |v| && at + 8 * CoilBytes(n) <= size
    ensures (forall b: seq<bool> :: |b| == size ==> Stored(b, at, n, v) == Splice(b, at, v[..n]))
       <==> (forall i :: n <= i < 8 * CoilBytes(n) ==> !v[i])
  {
    hide Stored, Splice;
    if forall i :: n <= i < 8 * CoilBytes(n) ==> !v[i] {
      forall b: seq<bool> | |b| == size ensures Stored(b, at, n, v) == Splice(b, at, v[..n]) {
        StoredIsSplice(b, at, n, v);
      }
    } else {
      var i :| n <= i < 8 * CoilBytes(n) && v[i];
      PaddingStored(seq(size, _ => false), at, n, v, i);
    }
  }

  /** One more call of `xMBUtilSetBits` stores the next octet, or the first `r` bits of it. */
  lemma StoredStep(b: seq<bool>, at: nat, j: nat, r: nat, v: seq<bool>)
    requires 0 < r <= 8 && 8 * (j + 1) <= |v| && at + 8 * (j + 1) <= |b|
    ensures Overlay(Stored(b, at, 8 * j, v), at + 8 * j, r, v[8 * j..8 * j + 8]) == Stored(b, at, 8 * j + r, v)
  {
    assert CoilBytes(8 * j) == j && CoilBytes(8 * j + r) == j + 1;
  }

  lemma OctetOfString(s: seq<byte>, j: nat)
    requires j < |s|
    ensures BitString(s)[8 * j..8 * j + 8] == Bits(s[j], 8)
  {
    hide BitString, Bits;
    forall i | 0 <= i < 8 ensures BitString(s)[8 * j + i] == Bits(s[j], 8)[i] {
      BitStringAt(s, j, i);
    }
  }

  /** The loop of the write: `count` whole octets of `buffer[off..]`. */
  method StoreOctets(store: array<byte>, base: nat, bit: nat, count: nat, buffer: array<byte>, off: nat)
    requires bit < 8 && store != buffer
    requires off + count <= buffer.Length && base + count < store.Length
    modifies store
    ensures BitString(store[..])
         == Stored(BitString(old(store[..])), 8 * base + bit, 8 * count, BitString(buffer[off..off + count]))
  {
    hide BitString, Bits, Overlay, Stored;
    ghost var data := buffer[off..off + count];
    ghost var v, b, at := BitString(data), BitString(store[..]), 8 * base + bit;
    var done := 0;
    assert BitString(store[..]) == Stored(b, at, 0, v);
    while done < count
      invariant done <= count
      invariant buffer[off..off + count] == data
      invariant BitString(store[..]) == Stored(b, at, 8 * done, v)
    {
      OctetOfString(data, done);
      StoredStep(b, at, done, 8, v);
      xMBUtilSetBits(store, base + done, bit, 8, buffer[off + done]);
      done := done + 1;
    }
  }

  /** The write: `usNCoils` bits of `buffer[off..]` go to bit `8 * base + bit` of `store`. */
  method StoreBits(store: array<byte>, base: nat, bit: nat, usNCoils: nat, buffer: array<byte>, off: nat)
    requires bit < 8 && store != buffer
    requires off + CoilBytes(usNCoils) <= buffer.Length && base + CoilBytes(usNCoils) < store.Length
    modifies store
    ensures BitString(store[..])
         == Stored(BitString(old(store[..])), 8 * base + bit, usNCoils,
                   BitString(buffer[off..off + CoilBytes(usNCoils)]))
  {
    hide BitString, Bits, Overlay, Stored;
    var iNReg := usNCoils / 8 + 1;
    var whole := iNReg - 1;
    ghost var data := buffer[off..off + CoilBytes(usNCoils)];
    ghost var v, b, at := BitString(data), BitString(store[..]), 8 * base + bit;
    StoreOctets(store, base, bit, whole, buffer, off);
    assert buffer[off..off + whole] == data[..whole];
    StoredPrefix(b, at, data, whole);
    /* xMBUtilSetBits is not called for an empty field */
    var rest := usNCoils % 8;
    if rest != 0 {
      OctetOfString(data, whole);
      StoredStep(b, at, whole, rest, v);
      xMBUtilSetBits(store, base + whole, bit, rest, buffer[off + whole]);
    }
  }

  lemma StoredPrefix(b: seq<bool>, at: nat, data: seq<byte>, k: nat)
    requires k <= |data| && at + 8 * k <= |b|
    ensures Stored(b, at, 8 * k, BitString(data[..k])) == Stored(b, at, 8 * k, BitString(data))
  {
    hide BitString;
    assert CoilBytes(8 * k) == k;
    BitStringTake(data, k);
  }

  /** `n` bits and the zeros that fill the last of the `n / 8 + 1` octets the read loop writes. */
  function Padded(bits: seq<bool>): (r: seq<bool>)
    ensures |r| == 8 * (|bits| / 8 + 1)
    ensures forall p :: 0 <= p < |r| ==> r[p] == (p < |bits| && bits[p])
  {
    bits + seq(8 - |bits| % 8, _ => false)
  }

  function Twice(o: bv8): bv8 {
    o << 1
  }

  function Half8(o: bv8): bv8 {
    o >> 1
  }

  lemma OctetShiftBits(o: bv8)
    ensures Unpack(Twice(o)) == [false] + Unpack(o)[..7]
    ensures Unpack(Half8(o)) == Unpack(o)[1..] + [false]
  {
  }

  /** `o << n` cut to an octet, one place at a time. */
  function ShiftLeft(o: bv8, n: nat): bv8 {
    if n == 0 then o else Twice(ShiftLeft(o, n - 1))
  }

  function ShiftRight(o: bv8, n: nat): bv8 {
    if n == 0 then o else Half8(ShiftRight(o, n - 1))
  }

  lemma {:induction false} ShiftLeftAt(o: bv8, n: nat, j: nat)
    requires j < 8
    ensures Unpack(ShiftLeft(o, n))[j] == (n <= j && Unpack(o)[j - n])
  {
    hide Unpack, Twice;
    if n != 0 {
      OctetShiftBits(ShiftLeft(o, n - 1));
      if j > 0 {
        ShiftLeftAt(o, n - 1, j - 1);
      }
    }
  }

  lemma {:induction false} ShiftRightAt(o: bv8, n: nat, j: nat)
    requires j < 8
    ensures Unpack(ShiftRight(o, n))[j] == (j + n < 8 && Unpack(o)[j + n])
  {
    hide Unpack, Half8;
    if n != 0 {
      OctetShiftBits(ShiftRight(o, n - 1));
      if j < 7 {
        ShiftRightAt(o, n - 1, j + 1);
      }
    }
  }

  /** Shifting left and back clears the high bits. */
  lemma ZeroFill(x: byte, s: nat, j: nat)
    requires s <= 8 && j < 8
    ensures var y := Value(ShiftLeft(Octet(x), s));
            Bits(Value(ShiftRight(Octet(y), s)), 8)[j] == (j < 8 - s && Bits(x, 8)[j])
  {
    hide Unpack, ShiftLeft, ShiftRight, Value, Octet, Bits;
    var o := Octet(x);
    var l := ShiftLeft(o, s);
    ValueOfOctet(x);
    OctetOfValue(l);
    OctetOfValue(ShiftRight(l, s));
    ShiftRightAt(l, s, j);
    if j + s < 8 {
      ShiftLeftAt(o, s, j + s);
    }
  }

  /** Eight bits from bit `p` on, with zeros past the end. */
  function Window(b: seq<bool>, p: nat): (w: seq<bool>)
    ensures |w| == 8 && forall j :: 0 <= j < 8 ==> w[j] == (p + j < |b| && b[p + j])
  {
    seq(8, j requires 0 <= j => p + j < |b| && b[p + j])
  }

  /** An octet string is known by the bits of its octets. */
  lemma StringOfWindows(s: seq<byte>, bits: seq<bool>)
    requires |bits| == 8 * |s|
    requires forall k :: 0 <= k < |s| ==> Bits(s[k], 8) == Window(bits, 8 * k)
    ensures BitString(s) == bits
  {
    hide BitString, Bits, Window;
    forall p | 0 <= p < |bits| ensures BitString(s)[p] == bits[p] {
      var k, j := p / 8, p % 8;
      BitStringAt(s, k, j);
      assert Bits(s[k], 8)[j] == Window(bits, 8 * k)[j];
    }
  }

  lemma PaddedWindow(bits: seq<bool>, b: seq<bool>, at: nat, k: nat)
    requires at + |bits| <= |b| && bits == b[at..at + |bits|]
    ensures k < |bits| / 8 ==> Window(Padded(bits), 8 * k) == Window(b, at + 8 * k)
    ensures k == |bits| / 8 ==> Window(Padded(bits), 8 * k) == Window(bits, 8 * k)
  {
    hide Padded, Window;
  }

  lemma PaddedFrom(s: seq<byte>, bits: seq<bool>, b: seq<bool>, at: nat)
    requires |s| == |bits| / 8 + 1 && at + |bits| <= |b| && bits == b[at..at + |bits|]
    requires forall k :: 0 <= k < |s| - 1 ==> Bits(s[k], 8) == Window(b, at + 8 * k)
    requires Bits(s[|s| - 1], 8) == Window(bits, 8 * (|s| - 1))
    ensures BitString(s) == Padded(bits)
  {
    hide BitString, Bits, Window, Padded;
    forall k | 0 <= k < |s| ensures Bits(s[k], 8) == Window(Padded(bits), 8 * k) {
      PaddedWindow(bits, b, at, k);
      if k < |s| - 1 {
        assert Bits(s[k], 8) == Window(b, at + 8 * k);
      }
    }
    StringOfWindows(s, Padded(bits));
  }

  /** The last octet read keeps its `rest` low bits and is zero above them. */
  lemma LastWindow(x: byte, y: byte, bits: seq<bool>, b: seq<bool>, at: nat)
    requires at + |bits| <= |b| && bits == b[at..at + |bits|]
    requires Bits(x, 8) == Window(b, at + |bits| / 8 * 8)
    requires var s := 8 - |bits| % 8;
             y == Value(ShiftRight(Octet(Value(ShiftLeft(Octet(x), s))), s))
    ensures Bits(y, 8) == Window(bits, |bits| / 8 * 8)
  {
    hide Bits, Octet, Value, ShiftLeft, ShiftRight, Window;
    var w, z := Window(b, at + |bits| / 8 * 8), Window(bits, |bits| / 8 * 8);
    forall j | 0 <= j < 8 ensures Bits(y, 8)[j] == z[j] {
      ZeroFill(x, 8 - |bits| % 8, j);
      assert Bits(x, 8)[j] == w[j];
    }
  }

  /** The loop of the read: `iNReg` octets, each eight bits of `store`. */
  method FetchOctets(store: array<byte>, base: nat, bit: nat, iNReg: nat, buffer: array<byte>, off: nat)
    requires bit < 8 && store != buffer
    requires off + iNReg <= buffer.Length && base + iNReg < store.Length
    modifies buffer
    ensures forall i :: off <= i < off + iNReg ==>
              Bits(buffer[i], 8) == Window(BitString(store[..]), 8 * base + bit + 8 * (i - off))
    ensures buffer[..off] == old(buffer[..off]) && buffer[off + iNReg..] == old(buffer[off + iNReg..])
  {
    hide BitString, Bits, Window;
    ghost var b, at := BitString(store[..]), 8 * base + bit;
    var n, iRegIndex, cur := iNReg, base, off;
    while n > 0
      invariant 0 <= n <= iNReg && iRegIndex - base == cur - off == iNReg - n
      invariant buffer[..off] == old(buffer[..off]) && buffer[off + iNReg..] == old(buffer[off + iNReg..])
      invariant forall i :: off <= i < cur ==> Bits(buffer[i], 8) == Window(b, at + 8 * (i - off))
    {
      buffer[cur] := xMBUtilGetBits(store, iRegIndex, bit, 8);
      assert Bits(buffer[cur], 8) == Window(b, at + 8 * (cur - off));
      iRegIndex, cur, n := iRegIndex + 1, cur + 1, n - 1;
    }
  }

  /** The read: `usNCoils` bits from bit `8 * base + bit` of `store` go to `buffer[off..]`, zero-padded. */
  method FetchBits(store: array<byte>, base: nat, bit: nat, usNCoils: nat, buffer: array<byte>, off: nat)
    requires bit < 8 && store != buffer
    requires off + usNCoils / 8 + 1 <= buffer.Length && base + usNCoils / 8 + 1 < store.Length
    modifies buffer
    ensures BitString(buffer[off..off + usNCoils / 8 + 1])
         == Padded(BitString(store[..])[8 * base + bit..8 * base + bit + usNCoils])
    ensures buffer[..off] == old(buffer[..off])
    ensures buffer[off + usNCoils / 8 + 1..] == old(buffer[off + usNCoils / 8 + 1..])
  {
    hide BitString, Bits, Octet, Value, ShiftLeft, ShiftRight, Window, Padded;
    ghost var b, at := BitString(store[..]), 8 * base + bit;
    FetchOctets(store, base, bit, usNCoils / 8 + 1, buffer, off);
    var cur := off + usNCoils / 8;
    ghost var octets := buffer[off..off + usNCoils / 8 + 1];
    assert forall k :: 0 <= k < |octets| ==> Bits(octets[k], 8) == Window(b, at + 8 * k) by {
      forall k | 0 <= k < |octets| ensures Bits(octets[k], 8) == Window(b, at + 8 * k) {
        assert octets[k] == buffer[off + k];
      }
    }
    var rest := usNCoils % 8;
    buffer[cur] := Value(ShiftLeft(Octet(buffer[cur]), 8 - rest));
    buffer[cur] := Value(ShiftRight(Octet(buffer[cur]), 8 - rest));
    ghost var out, bits := buffer[off..off + usNCoils / 8 + 1], b[at..at + usNCoils];
    assert out == octets[..usNCoils / 8] + [buffer[cur]];
    LastWindow(octets[usNCoils / 8], buffer[cur], bits, b, at);
    PaddedFrom(out, bits, b, at);
  }
}
