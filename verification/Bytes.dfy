/** Octets and 16-bit words as the integers they stand for, in the order MODBUS sends them. */
module Bytes {

  type byte = x: int | 0 <= x < 0x100

  type u16 = x: int | 0 <= x < 0x1_0000

  /** The word whose more significant octet is `hi`: `hi << 8 | lo`. */
  function Word(hi: byte, lo: byte): u16 { 0x100 * hi + lo }

  function Hi(w: u16): byte { w / 0x100 }

  function Lo(w: u16): byte { w % 0x100 }

  /** Registers as octets, the more significant octet of each first. */
  function RegBytes(regs: seq<u16>): (s: seq<byte>)
    ensures |s| == 2 * |regs|
  {
    if regs == [] then [] else RegBytes(regs[..|regs| - 1]) + [Hi(regs[|regs| - 1]), Lo(regs[|regs| - 1])]
  }

  /** The first `n` registers of an octet string. */
  function RegsOf(s: seq<byte>, n: nat): (regs: seq<u16>)
    requires 2 * n <= |s|
    ensures |regs| == n
  {
    if n == 0 then [] else RegsOf(s, n - 1) + [Word(s[2 * n - 2], s[2 * n - 1])]
  }

  lemma WordOfHalves(w: u16)
    ensures Word(Hi(w), Lo(w)) == w
  {
  }

  /** Unpacking undoes packing, whatever follows in the buffer. */
  lemma {:induction false} RegsRoundTrip(regs: seq<u16>, rest: seq<byte>)
    ensures RegsOf(RegBytes(regs) + rest, |regs|) == regs
    decreases |regs|
  {
    hide Word, Hi, Lo;
    if regs != [] {
      var front, w := regs[..|regs| - 1], regs[|regs| - 1];
      WordOfHalves(w);
      RegsRoundTrip(front, [Hi(w), Lo(w)] + rest);
      assert RegBytes(front) + ([Hi(w), Lo(w)] + rest) == RegBytes(regs) + rest;
    }
  }

  /** Only the octets that hold the registers matter. */
  lemma {:induction false} RegsPrefix(s: seq<byte>, t: seq<byte>, n: nat)
    requires 2 * n <= |s| && 2 * n <= |t| && s[..2 * n] == t[..2 * n]
    ensures RegsOf(s, n) == RegsOf(t, n)
  {
    hide Word;
    if n != 0 {
      assert s[..2 * n - 2] == s[..2 * n][..2 * n - 2] == t[..2 * n][..2 * n - 2] == t[..2 * n - 2];
      RegsPrefix(s, t, n - 1);
      assert s[2 * n - 2] == s[..2 * n][2 * n - 2] == t[2 * n - 2];
      assert s[2 * n - 1] == s[..2 * n][2 * n - 1] == t[2 * n - 1];
    }
  }

  lemma {:induction false} RegAt(s: seq<byte>, n: nat, k: nat)
    requires k < n && 2 * n <= |s|
    ensures RegsOf(s, n)[k] == Word(s[2 * k], s[2 * k + 1])
    decreases n
  {
    if k < n - 1 {
      RegAt(s, n - 1, k);
    }
  }

  /** `s` with the elements from `at` on replaced by `t`. */
  function Splice<T>(s: seq<T>, at: nat, t: seq<T>): (r: seq<T>)
    requires at + |t| <= |s|
    ensures |r| == |s|
    ensures forall i {:trigger r[i]} :: 0 <= i < |s| ==> r[i] == if at <= i < at + |t| then t[i - at] else s[i]
  {
    s[..at] + t + s[at + |t|..]
  }

  lemma {:induction false} RegBytesTake(regs: seq<u16>, k: nat)
    requires k <= |regs|
    ensures RegBytes(regs[..k]) == RegBytes(regs)[..2 * k]
    decreases |regs|
  {
    if k == |regs| {
      assert regs[..k] == regs;
    } else {
      var front := regs[..|regs| - 1];
      assert front[..k] == regs[..k];
      RegBytesTake(front, k);
      assert RegBytes(regs)[..2 * k] == RegBytes(front)[..2 * k];
    }
  }

  lemma SpliceExtend<T>(s: seq<T>, at: nat, t: seq<T>, x: T)
    requires at + |t| < |s|
    ensures Splice(s, at, t + [x]) == Splice(s, at, t)[at + |t| := x]
  {
  }

  lemma SpliceTail<T>(s: seq<T>, at: nat, t: seq<T>)
    requires 1 <= at && at + |t| <= |s|
    ensures Splice(s, at, t)[1..] == Splice(s[1..], at - 1, t)
    ensures Splice(s, at, t)[0] == s[0]
  {
  }

  lemma SpliceByParts<T>(s: seq<T>, at: nat, t: seq<T>, r: seq<T>)
    requires |r| == |s| && at + |t| <= |s|
    requires r[..at] == s[..at] && r[at..at + |t|] == t && r[at + |t|..] == s[at + |t|..]
    ensures r == Splice(s, at, t)
  {
    assert r == r[..at] + r[at..at + |t|] + r[at + |t|..];
  }

  lemma SubOfPrefix<T>(f: seq<T>, e: seq<T>, from: nat, to: nat)
    requires from <= to <= |e| && e <= f
    ensures f[from..to] == e[from..to]
  {
    assert f[..|e|] == e;
  }

  lemma PrefixParts<T>(f: seq<T>, head: seq<T>, data: seq<T>)
    requires head + data <= f
    ensures f[..|head|] == head
    ensures f[|head|..|head| + |data|] == data
    ensures f[|head|..] == data + f[|head| + |data|..]
  {
    assert f == (head + data) + f[|head| + |data|..];
  }
}
