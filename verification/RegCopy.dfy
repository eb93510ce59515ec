/** The register-copying loops of the holding-register callbacks. */
module RegCopy {
  import opened Bytes

  lemma RegPlaced(s: seq<byte>, off: nat, regs: seq<u16>, k: nat)
    requires k < |regs| && off + 2 * |regs| <= |s|
    ensures |RegBytes(regs[..k])| == 2 * k && |RegBytes(regs[..k + 1])| == 2 * k + 2
    ensures Splice(s, off, RegBytes(regs[..k + 1])) ==
            Splice(s, off, RegBytes(regs[..k]))[off + 2 * k := Hi(regs[k])][off + 2 * k + 1 := Lo(regs[k])]
  {
    hide Splice;
    assert regs[..k + 1][..k] == regs[..k];
    SpliceExtend(s, off, RegBytes(regs[..k]), Hi(regs[k]));
    SpliceExtend(s, off, RegBytes(regs[..k]) + [Hi(regs[k])], Lo(regs[k]));
    assert RegBytes(regs[..k]) + [Hi(regs[k])] + [Lo(regs[k])] == RegBytes(regs[..k + 1]);
  }

  /** Sends `usNRegs` registers from `iRegIndex` on, the more significant octet of each first. */
  method FetchRegs(store: array<u16>, iRegIndex: nat, usNRegs: nat, buffer: array<byte>, off: nat)
    requires store as object != buffer
    requires iRegIndex + usNRegs <= store.Length && off + 2 * usNRegs <= buffer.Length
    modifies buffer
    ensures buffer[..] == Splice(old(buffer[..]), off, RegBytes(store[iRegIndex..iRegIndex + usNRegs]))
  {
    hide Splice, RegBytes;
    ghost var regs := store[iRegIndex..iRegIndex + usNRegs];
    var index, cur, left := iRegIndex, off, usNRegs;
    while left > 0
      invariant 0 <= left <= usNRegs && index - iRegIndex == usNRegs - left && cur - off == 2 * (usNRegs - left)
      invariant buffer[..] == Splice(old(buffer[..]), off, RegBytes(regs[..index - iRegIndex]))
    {
      RegPlaced(old(buffer[..]), off, regs, index - iRegIndex);
      buffer[cur] := Hi(store[index]);
      buffer[cur + 1] := Lo(store[index]);
      index, cur, left := index + 1, cur + 2, left - 1;
    }
    assert regs[..usNRegs] == regs;
  }

  lemma WordByParts(hi: byte, lo: byte)
    ensures Word(hi, 0) + lo == Word(hi, lo)
  {
  }

  /** Takes `usNRegs` registers from the octets of `buffer[off..]`. */
  method StoreRegs(store: array<u16>, iRegIndex: nat, usNRegs: nat, buffer: array<byte>, off: nat)
    requires store as object != buffer
    requires iRegIndex + usNRegs <= store.Length && off + 2 * usNRegs <= buffer.Length
    modifies store
    ensures store[..] == Splice(old(store[..]), iRegIndex, RegsOf(buffer[off..], usNRegs))
  {
    hide Splice, Word;
    ghost var data, before := buffer[off..], store[..];
    var index, cur, left := iRegIndex, off, usNRegs;
    while left > 0
      invariant 0 <= left <= usNRegs && index - iRegIndex == usNRegs - left && cur - off == 2 * (usNRegs - left)
      invariant buffer[off..] == data
      invariant store[..] == Splice(before, iRegIndex, RegsOf(data, index - iRegIndex))
    {
      assert buffer[cur] == data[cur - off] && buffer[cur + 1] == data[cur - off + 1];
      WordByParts(buffer[cur], buffer[cur + 1]);
      SpliceExtend(before, iRegIndex, RegsOf(data, index - iRegIndex), Word(buffer[cur], buffer[cur + 1]));
      store[index] := Word(buffer[cur], 0);
      store[index] := store[index] + buffer[cur + 1];
      index, cur, left := index + 1, cur + 2, left - 1;
    }
  }
}
