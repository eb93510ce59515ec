/** Bit fields in octet buffers, and the exception a callback error turns into. */
module MbUtils {
  import opened Bytes
  import opened Octets

  // ---------- Sixteen-bit words bit by bit ----------

  predicate Low(w: bv16) {
    w & 1 != 0
  }

  function Half(w: bv16): bv16 {
    w >> 1
  }

  /** The bits of a word, the least significant first. */
  function WordBits(w: bv16): (bits: seq<bool>)
    ensures |bits| == 16
  {
    [w & 0x01 != 0, w & 0x02 != 0, w & 0x04 != 0, w & 0x08 != 0,
     w & 0x10 != 0, w & 0x20 != 0, w & 0x40 != 0, w & 0x80 != 0,
     w & 0x100 != 0, w & 0x200 != 0, w & 0x400 != 0, w & 0x800 != 0,
     w & 0x1000 != 0, w & 0x2000 != 0, w & 0x4000 != 0, w & 0x8000 != 0]
  }

  predicate BitAt(w: bv16, k: nat) {
    k < 16 && WordBits(w)[k]
  }

  lemma HalfBits(w: bv16)
    ensures WordBits(Half(w)) == WordBits(w)[1..] + [false]
    ensures WordBits(w)[0] == Low(w)
  {
  }

  lemma HalfAt(w: bv16, k: nat)
    ensures BitAt(w, 0) == Low(w)
    ensures BitAt(Half(w), k) == BitAt(w, k + 1)
  {
    HalfBits(w);
    hide WordBits;
  }

  function Or(a: bv16, b: bv16): bv16 {
    a | b
  }

  function And(a: bv16, b: bv16): bv16 {
    a & b
  }

  function AndNot(a: bv16, b: bv16): bv16 {
    a & !b
  }

  lemma HalvesOfOperators(a: bv16, b: bv16)
    ensures (a | b) >> 1 == (a >> 1) | (b >> 1)
    ensures (a & b) >> 1 == (a >> 1) & (b >> 1)
    ensures (a & !b) >> 1 == (a >> 1) & !(b >> 1)
  {
  }

  lemma HalfOfOr(a: bv16, b: bv16)
    ensures Half(Or(a, b)) == Or(Half(a), Half(b))
  {
    HalvesOfOperators(a, b);
  }

  lemma HalfOfAnd(a: bv16, b: bv16)
    ensures Half(And(a, b)) == And(Half(a), Half(b))
  {
    HalvesOfOperators(a, b);
  }

  lemma HalfOfAndNot(a: bv16, b: bv16)
    ensures Half(AndNot(a, b)) == AndNot(Half(a), Half(b))
  {
    HalvesOfOperators(a, b);
  }

  lemma LowOfOperators(a: bv16, b: bv16)
    ensures Low(Or(a, b)) == (Low(a) || Low(b))
    ensures Low(And(a, b)) == (Low(a) && Low(b))
    ensures Low(AndNot(a, b)) == (Low(a) && !Low(b))
  {
  }

  lemma {:induction false} OperatorsAt(a: bv16, b: bv16, k: nat)
    ensures BitAt(Or(a, b), k) == (BitAt(a, k) || BitAt(b, k))
    ensures BitAt(And(a, b), k) == (BitAt(a, k) && BitAt(b, k))
    ensures BitAt(AndNot(a, b), k) == (BitAt(a, k) && !BitAt(b, k))
    decreases k
  {
    hide Low, Half, Or, And, AndNot, BitAt;
    HalfOfOr(a, b);
    HalfOfAnd(a, b);
    HalfOfAndNot(a, b);
    LowOfOperators(a, b);
    var j := if k == 0 then 0 else k - 1;
    HalfAt(a, j);
    HalfAt(b, j);
    HalfAt(Or(a, b), j);
    HalfAt(And(a, b), j);
    HalfAt(AndNot(a, b), j);
    if k != 0 {
      OperatorsAt(Half(a), Half(b), k - 1);
    }
  }

  function Double(a: bv16): bv16 {
    a << 1
  }

  /** `a << n`, one place at a time. */
  function Shl(a: bv16, n: nat): bv16 {
    if n == 0 then a else Double(Shl(a, n - 1))
  }

  /** `a >> n`, one place at a time. */
  function Shr(a: bv16, n: nat): bv16 {
    if n == 0 then a else Half(Shr(a, n - 1))
  }

  lemma {:induction false} ShrAt(a: bv16, n: nat, k: nat)
    ensures BitAt(Shr(a, n), k) == BitAt(a, k + n)
  {
    if n != 0 {
      hide BitAt;
      HalfAt(Shr(a, n - 1), k);
      ShrAt(a, n - 1, k + 1);
    }
  }

  predicate TopIsClear(a: bv16) {
    a & 0x8000 == 0
  }

  lemma HalfOfDouble(a: bv16)
    requires TopIsClear(a)
    ensures Half(Double(a)) == a && !Low(Double(a))
  {
  }

  /** The places an octet shifted left by `n` cannot reach. */
  function Headroom(n: nat): bv16 {
    if n == 0 then 0xFF00 else Double(Headroom(n - 1))
  }

  predicate Misses(a: bv16, m: bv16) {
    a & m == 0
  }

  lemma DoubleMisses(a: bv16, m: bv16)
    requires Misses(a, m)
    ensures Misses(Double(a), Double(m))
  {
  }

  lemma {:induction false} StaysInside(a: bv16, n: nat)
    requires Misses(a, Headroom(0))
    ensures Misses(Shl(a, n), Headroom(n))
  {
    if n != 0 {
      StaysInside(a, n - 1);
      DoubleMisses(Shl(a, n - 1), Headroom(n - 1));
      hide Double, Misses;
    }
  }

  lemma HeadroomIs(n: nat)
    requires n < 8
    ensures Headroom(n) & 0x8000 == 0x8000
  {
    assert Headroom(0) == 0xFF00;
    assert Headroom(1) == 0xFE00;
    assert Headroom(2) == 0xFC00;
    assert Headroom(3) == 0xF800;
    assert Headroom(4) == 0xF000;
    assert Headroom(5) == 0xE000;
    assert Headroom(6) == 0xC000;
    assert Headroom(7) == 0x8000;
    assert n == 0 || n == 1 || n == 2 || n == 3 || n == 4 || n == 5 || n == 6 || n == 7;
  }

  lemma TopClear(a: bv16, m: bv16)
    requires Misses(a, m) && m & 0x8000 == 0x8000
    ensures TopIsClear(a)
  {
  }

  lemma OctetKeepsTopClear(a: bv16, n: nat)
    requires IsOctet(a) && n < 8
    ensures TopIsClear(Shl(a, n))
  {
    hide Misses, TopIsClear, IsOctet;
    IsOctetMisses(a);
    StaysInside(a, n);
    HeadroomIs(n);
    TopClear(Shl(a, n), Headroom(n));
  }

  lemma IsOctetMisses(a: bv16)
    requires IsOctet(a)
    ensures Misses(a, Headroom(0))
  {
  }

  predicate IsOctet(a: bv16) {
    a & 0xFF00 == 0
  }

  /** No bit of an octet is lost in a left shift by at most eight places. */
  lemma {:induction false} ShlAt(a: bv16, n: nat, k: nat)
    requires IsOctet(a) && n <= 8
    ensures BitAt(Shl(a, n), k) == (n <= k && BitAt(a, k - n))
  {
    hide IsOctet, TopIsClear, Low, Half, Double, BitAt;
    if n != 0 {
      OctetKeepsTopClear(a, n - 1);
      HalfOfDouble(Shl(a, n - 1));
      HalfAt(Shl(a, n), if k == 0 then 0 else k - 1);
      if k > 0 {
        ShlAt(a, n - 1, k - 1);
      }
    }
  }

  lemma ZeroAt(k: nat)
    ensures !BitAt(0, k)
  {
  }

  lemma PowerIs(n: nat)
    requires n <= 8
    ensures Shl(1, n) != 0 && Shl(1, n) & 0xFE00 == 0
  {
    assert Shl(1, 0) == 0x001;
    assert Shl(1, 1) == 0x002;
    assert Shl(1, 2) == 0x004;
    assert Shl(1, 3) == 0x008;
    assert Shl(1, 4) == 0x010;
    assert Shl(1, 5) == 0x020;
    assert Shl(1, 6) == 0x040;
    assert Shl(1, 7) == 0x080;
    assert Shl(1, 8) == 0x100;
    assert n == 0 || n == 1 || n == 2 || n == 3 || n == 4 || n == 5 || n == 6 || n == 7 || n == 8;
  }

  function Less1(p: bv16): bv16 {
    p - 1
  }

  lemma LessOneStep(p: bv16)
    requires p != 0 && p & 0xFE00 == 0
    ensures Half(Less1(Double(p))) == Less1(p) && Low(Less1(Double(p)))
  {
    assert ((p << 1) - 1) >> 1 == p - 1;
    assert ((p << 1) - 1) & 1 != 0;
  }

  /** `(1 << n) - 1` has exactly its `n` lowest bits set. */
  lemma {:induction false} OnesAt(n: nat, k: nat)
    requires n <= 8
    ensures BitAt(Less1(Shl(1, n)), k) == (k < n)
  {
    if n == 0 {
      ZeroAt(k);
    } else {
      PowerIs(n - 1);
      LessOneStep(Shl(1, n - 1));
      hide Low, Half, Double, Less1, BitAt;
      HalfAt(Less1(Shl(1, n)), if k == 0 then 0 else k - 1);
      if k > 0 {
        OnesAt(n - 1, k - 1);
      }
    }
  }

  lemma OnesFit(n: nat)
    requires n <= 8
    ensures IsOctet(Less1(Shl(1, n)))
  {
    assert Less1(Shl(1, 0)) == 0 && Less1(Shl(1, 1)) == 1 && Less1(Shl(1, 2)) == 3;
    assert Less1(Shl(1, 3)) == 7 && Less1(Shl(1, 4)) == 15 && Less1(Shl(1, 5)) == 31;
    assert Less1(Shl(1, 6)) == 63 && Less1(Shl(1, 7)) == 127 && Less1(Shl(1, 8)) == 255;
    assert n == 0 || n == 1 || n == 2 || n == 3 || n == 4 || n == 5 || n == 6 || n == 7 || n == 8;
  }

  // ---------- Words and the octets they are made of ----------

  function LowOctet(w: bv16): bv8 {
    (w & 0xFF) as bv8
  }

  function HighOctet(w: bv16): bv8 {
    (w >> 8) as bv8
  }

  lemma LowOctetBits(w: bv16)
    ensures Unpack(LowOctet(w)) == WordBits(w)[..8]
  {
  }

  lemma HighOctetBits(w: bv16)
    ensures Unpack(HighOctet(w)) == WordBits(w)[8..]
  {
  }

  /** An octet promoted to a word. */
  function Wide(b: byte): bv16 {
    Octet(b) as bv16
  }

  lemma WideAt(b: byte, k: nat)
    ensures BitAt(Wide(b), k) == (k < 8 && Bits(b, 8)[k])
    ensures IsOctet(Wide(b))
  {
    hide WordBits, Unpack, Octet, Bits, IsOctet;
    WideBits(Octet(b));
    ValueOfOctet(b);
  }

  lemma WideBits(x: bv8)
    ensures WordBits(x as bv16) == Unpack(x) + [false, false, false, false, false, false, false, false]
    ensures IsOctet(x as bv16)
  {
  }

  /** Two octets as a word, `b[0] | b[1] << 8`. */
  function WordOf(lo: byte, hi: byte): bv16 {
    Or(Wide(lo), Shl(Wide(hi), 8))
  }

  lemma WordOfAt(lo: byte, hi: byte, k: nat)
    requires k < 16
    ensures BitAt(WordOf(lo, hi), k) == if k < 8 then Bits(lo, 8)[k] else Bits(hi, 8)[k - 8]
  {
    hide Wide, IsOctet, Or, BitAt, Shl, Bits;
    OperatorsAt(Wide(lo), Shl(Wide(hi), 8), k);
    WideAt(lo, k);
    WideAt(hi, if k < 8 then 0 else k - 8);
    ShlAt(Wide(hi), 8, k);
  }

  // ---------- Setting and reading a field ----------

  /**
   * What writing the low `n` bits of `v` at bit `at` does to a bit string. The eight bits of `v` are
   * ored in unmasked, so the bits of `v` from `n` on set the bits after the field.
   */
  function Overlay(b: seq<bool>, at: nat, n: nat, v: seq<bool>): (r: seq<bool>)
    requires n <= 8 == |v| && at + 8 <= |b|
    ensures |r| == |b|
    ensures forall p :: 0 <= p < |b| ==>
              r[p] == if p < at || at + 8 <= p then b[p] else if p < at + n then v[p - at] else b[p] || v[p - at]
  {
    seq(|b|, p requires 0 <= p < |b| =>
          if p < at || at + 8 <= p then b[p] else if p < at + n then v[p - at] else b[p] || v[p - at])
  }

  /** The mask of `n` ones shifted to the field. */
  function Mask(n: nat, pre: nat): bv16 {
    Shl(Less1(Shl(1, n)), pre)
  }

  lemma MaskAt(n: nat, pre: nat, k: nat)
    requires n <= 8 && pre < 8
    ensures BitAt(Mask(n, pre), k) == (pre <= k < pre + n)
  {
    hide BitAt, Shl, Less1, IsOctet;
    OnesFit(n);
    ShlAt(Less1(Shl(1, n)), pre, k);
    OnesAt(n, if k < pre then 0 else k - pre);
  }

  function FieldSet(w: bv16, n: nat, pre: nat, v: byte): bv16 {
    Or(AndNot(w, Mask(n, pre)), Shl(Wide(v), pre))
  }

  lemma FieldSetAt(w: bv16, n: nat, pre: nat, v: byte, k: nat)
    requires n <= 8 && pre < 8 && k < 16
    ensures BitAt(FieldSet(w, n, pre, v), k)
         == if k < pre || pre + 8 <= k then BitAt(w, k)
            else if k < pre + n then Bits(v, 8)[k - pre]
            else BitAt(w, k) || Bits(v, 8)[k - pre]
  {
    hide BitAt, Shl, Mask, Or, AndNot, Wide, IsOctet, Bits;
    OperatorsAt(AndNot(w, Mask(n, pre)), Shl(Wide(v), pre), k);
    OperatorsAt(w, Mask(n, pre), k);
    MaskAt(n, pre, k);
    WideAt(v, if k < pre then 0 else k - pre);
    ShlAt(Wide(v), pre, k);
  }

  /** The two octets a word is stored back as. */
  lemma StoredAt(w: bv16, k: nat)
    requires k < 16
    ensures BitAt(w, k) == if k < 8 then Bits(Value(LowOctet(w)), 8)[k] else Bits(Value(HighOctet(w)), 8)[k - 8]
  {
    hide WordBits, Unpack, LowOctet, HighOctet, Value, Bits;
    LowOctetBits(w);
    HighOctetBits(w);
    OctetOfValue(LowOctet(w));
    OctetOfValue(HighOctet(w));
  }

  ghost predicate FieldWritten(s: seq<byte>, t: seq<byte>, o: nat, pre: nat, n: nat, v: byte)
    requires o + 1 < |s|
  {
    var w := FieldSet(WordOf(s[o], s[o + 1]), n, pre, v);
    t == s[o := Value(LowOctet(w))][o + 1 := Value(HighOctet(w))]
  }

  lemma FieldBit(s: seq<byte>, t: seq<byte>, o: nat, pre: nat, n: nat, v: byte, i: nat)
    requires o + 1 < |s| && n <= 8 && pre < 8 && FieldWritten(s, t, o, pre, n, v) && i < 16
    ensures BitString(t)[8 * o + i]
         == if i < pre || pre + 8 <= i then BitString(s)[8 * o + i]
            else if i < pre + n then Bits(v, 8)[i - pre]
            else BitString(s)[8 * o + i] || Bits(v, 8)[i - pre]
  {
    hide BitAt, FieldSet, WordOf, Value, LowOctet, HighOctet, Bits, BitString;
    if i < 8 {
      BitStringAt(s, o, i);
      BitStringAt(t, o, i);
    } else {
      BitStringAt(s, o + 1, i - 8);
      BitStringAt(t, o + 1, i - 8);
    }
    StoredAt(FieldSet(WordOf(s[o], s[o + 1]), n, pre, v), i);
    FieldSetAt(WordOf(s[o], s[o + 1]), n, pre, v, i);
    WordOfAt(s[o], s[o + 1], i);
  }

  lemma FieldFrame(s: seq<byte>, t: seq<byte>, o: nat, pre: nat, n: nat, v: byte)
    requires o + 1 < |s| && n <= 8 && pre < 8 && FieldWritten(s, t, o, pre, n, v)
    ensures |t| == |s| && forall k :: 0 <= k < |s| && k != o && k != o + 1 ==> t[k] == s[k]
  {
    hide FieldSet, WordOf, Value, LowOctet, HighOctet;
  }

  lemma OtherBit(s: seq<byte>, t: seq<byte>, o: nat, p: nat)
    requires |t| == |s| && forall k :: 0 <= k < |s| && k != o && k != o + 1 ==> t[k] == s[k]
    requires p < 8 * |s| && !(8 * o <= p < 8 * o + 16)
    ensures BitString(t)[p] == BitString(s)[p]
  {
    hide Bits, BitString;
    BitStringAt(s, p / 8, p % 8);
    BitStringAt(t, p / 8, p % 8);
  }

  /** Writing a field in the word made of octets `o` and `o + 1` is an overlay of the bit string. */
  lemma OverlayOfWord(s: seq<byte>, t: seq<byte>, o: nat, pre: nat, n: nat, v: byte)
    requires o + 1 < |s| && n <= 8 && pre < 8 && FieldWritten(s, t, o, pre, n, v)
    ensures |t| == |s| && BitString(t) == Overlay(BitString(s), 8 * o + pre, n, Bits(v, 8))
  {
    hide FieldWritten, Bits, BitString, Overlay;
    FieldFrame(s, t, o, pre, n, v);
    var b, r, x := BitString(s), BitString(t), Overlay(BitString(s), 8 * o + pre, n, Bits(v, 8));
    forall p | 0 <= p < |b| ensures r[p] == x[p] {
      if 8 * o <= p < 8 * o + 16 {
        FieldBit(s, t, o, pre, n, v, p - 8 * o);
      } else {
        OtherBit(s, t, o, p);
      }
    }
  }

  const BITS_UCHAR := 8

  /** Writes the low `ucNBits` bits of `ucValue` at bit `usBitOffset` of the buffer `ucByteBuf[base..]`. */
  method xMBUtilSetBits(ucByteBuf: array<byte>, base: nat, usBitOffset: nat, ucNBits: nat, ucValue: byte)
    requires ucNBits <= 8 && base + usBitOffset / 8 + 1 < ucByteBuf.Length
    modifies ucByteBuf
    ensures BitString(ucByteBuf[..])
         == Overlay(BitString(old(ucByteBuf[..])), 8 * base + usBitOffset, ucNBits, Bits(ucValue, 8))
  {
    hide BitAt, Shl, Less1, Or, AndNot, Wide, Value, LowOctet, HighOctet, Bits, BitString, Overlay;
    var usByteOffset := usBitOffset / BITS_UCHAR;
    var usNPreBits := usBitOffset - usByteOffset * BITS_UCHAR;
    var usValue := Shl(Wide(ucValue), usNPreBits);
    var usMask := Less1(Shl(1, ucNBits));
    usMask := Shl(usMask, usBitOffset - usByteOffset * BITS_UCHAR);
    var o := base + usByteOffset;
    var usWordBuf := Wide(ucByteBuf[o]);
    usWordBuf := Or(usWordBuf, Shl(Wide(ucByteBuf[o + 1]), BITS_UCHAR));
    usWordBuf := Or(AndNot(usWordBuf, usMask), usValue);
    ucByteBuf[o] := Value(LowOctet(usWordBuf));
    ucByteBuf[o + 1] := Value(HighOctet(usWordBuf));
    OverlayOfWord(old(ucByteBuf[..]), ucByteBuf[..], o, usNPreBits, ucNBits, ucValue);
  }

  /** Reads `ucNBits` bits at bit `usBitOffset` of the buffer `ucByteBuf[base..]`, with zeros above them. */
  method xMBUtilGetBits(ucByteBuf: array<byte>, base: nat, usBitOffset: nat, ucNBits: nat) returns (ucBits: byte)
    requires ucNBits <= 8 && base + usBitOffset / 8 + 1 < ucByteBuf.Length
    ensures forall j :: 0 <= j < 8 ==>
              Bits(ucBits, 8)[j] == (j < ucNBits && BitString(ucByteBuf[..])[8 * base + usBitOffset + j])
  {
    hide BitAt, Shl, Shr, Less1, Or, And, Wide, Value, LowOctet, Bits, BitString;
    var usByteOffset := usBitOffset / BITS_UCHAR;
    var usNPreBits := usBitOffset - usByteOffset * BITS_UCHAR;
    var usMask := Less1(Shl(1, ucNBits));
    var o := base + usByteOffset;
    var usWordBuf := Wide(ucByteBuf[o]);
    usWordBuf := Or(usWordBuf, Shl(Wide(ucByteBuf[o + 1]), BITS_UCHAR));
    ghost var w := usWordBuf;
    usWordBuf := Shr(usWordBuf, usNPreBits);
    usWordBuf := And(usWordBuf, usMask);
    ucBits := Value(LowOctet(usWordBuf));
    ghost var s := ucByteBuf[..];
    forall j | 0 <= j < 8
      ensures Bits(ucBits, 8)[j] == (j < ucNBits && BitString(s)[8 * base + usBitOffset + j])
    {
      StoredAt(usWordBuf, j);
      OperatorsAt(Shr(w, usNPreBits), usMask, j);
      OnesAt(ucNBits, j);
      ShrAt(w, usNPreBits, j);
      var i := j + usNPreBits;
      WordOfAt(s[o], s[o + 1], i);
      BitStringAt(s, if i < 8 then o else o + 1, if i < 8 then i else i - 8);
    }
  }
}
