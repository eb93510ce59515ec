/** The slave's data store and its register callbacks. */
module UserMbApp {
  import opened Bytes
  import opened Octets
  import opened Modbus
  import opened CoilCopy
  import opened RegCopy
  import opened Store

  /** The last octet the bit routine touches in reading `n` coils from address `a` on. */
  function LastRead(l: Layout, a: u16, n: nat): nat
    requires HasCoils(l, a, n)
  {
    (a - l.coils.start) / 8 + n / 8 + 1
  }

  /**
   * The coils that a request can name are all read without leaving the buffer just when that has this length. The
   * program's array has one octet less, or two if the number of coils is a multiple of eight.
   */
  lemma SlackIff(l: Layout, length: nat)
    requires l.coils.count > 0
    ensures (forall a: u16, n: nat :: 1 <= n < 0x7D0 && HasCoils(l, a, n) ==> LastRead(l, a, n) < length) <==>
            l.coils.count / 8 + 2 <= length
    ensures CoilBytes(l.coils.count) < l.coils.count / 8 + 2
  {
    var o := if l.coils.count < 8 then 0 else 8 * (l.coils.count / 8 - 1);
    assert HasCoils(l, l.coils.start + o, l.coils.count - o);
    assert LastRead(l, l.coils.start + o, l.coils.count - o) == l.coils.count / 8 + 1;
  }

  class SlaveStore {
    const layout: Layout
    const usSRegHoldBuf: array<u16>
    const ucSCoilBuf: array<byte>

    /** The bit routines touch one octet past the last coil, so the coil buffer needs slack. */
    ghost predicate Valid() {
      && usSRegHoldBuf.Length == layout.holding.count
      && layout.coils.count / 8 + 2 <= ucSCoilBuf.Length
      && usSRegHoldBuf as object != ucSCoilBuf
    }

    ghost function Contents(): (d: Data)
      requires Valid()
      reads usSRegHoldBuf, ucSCoilBuf
      ensures Fits(layout, d)
    {
      Data(usSRegHoldBuf[..], BitString(ucSCoilBuf[..]))
    }

    constructor (layout: Layout)
      ensures Valid() && this.layout == layout && fresh(usSRegHoldBuf) && fresh(ucSCoilBuf)
    {
      this.layout := layout;
      usSRegHoldBuf := new u16[layout.holding.count](_ => 0);
      ucSCoilBuf := new byte[layout.coils.count / 8 + 2](_ => 0);
    }

    method eMBRegHoldingCB(pucRegBuffer: array<byte>, off: nat, usAddress: u16, usNRegs: u16, eMode: RegisterMode)
      returns (eStatus: ErrorCode)
      requires Valid() && pucRegBuffer as object != usSRegHoldBuf && pucRegBuffer != ucSCoilBuf
      requires off + 2 * usNRegs <= pucRegBuffer.Length
      modifies pucRegBuffer, usSRegHoldBuf
      ensures eStatus == if HasRegs(layout, OneDown(usAddress), usNRegs) then MB_ENOERR else MB_ENOREG
      ensures eStatus == MB_ENOERR && eMode == MB_REG_WRITE ==>
                Contents() ==
                WriteRegs(layout, old(Contents()), OneDown(usAddress), RegsOf(old(pucRegBuffer[off..]), usNRegs))
      ensures eStatus == MB_ENOERR && eMode == MB_REG_READ ==>
                pucRegBuffer[..] ==
                Splice(old(pucRegBuffer[..]), off,
                       RegBytes(ReadRegs(layout, old(Contents()), OneDown(usAddress), usNRegs)))
      ensures eStatus != MB_ENOERR || eMode == MB_REG_READ ==> Contents() == old(Contents())
      ensures eStatus != MB_ENOERR || eMode == MB_REG_WRITE ==> pucRegBuffer[..] == old(pucRegBuffer[..])
    {
      hide BitString;
      var address := OneDown(usAddress);
      if InRange(address, usNRegs, layout.holding.start, layout.holding.count) {
        var iRegIndex := address - layout.holding.start;
        eStatus := MB_ENOERR;
        match eMode
        case MB_REG_READ =>
          FetchRegs(usSRegHoldBuf, iRegIndex, usNRegs, pucRegBuffer, off);
        case MB_REG_WRITE =>
          StoreRegs(usSRegHoldBuf, iRegIndex, usNRegs, pucRegBuffer, off);
      } else {
        eStatus := MB_ENOREG;
      }
    }

    method eMBRegCoilsCB(pucRegBuffer: array<byte>, off: nat, usAddress: u16, usNCoils: u16, eMode: RegisterMode)
      returns (eStatus: ErrorCode)
      requires Valid() && pucRegBuffer as object != usSRegHoldBuf && pucRegBuffer != ucSCoilBuf
      requires off + (if eMode == MB_REG_READ then usNCoils / 8 + 1 else CoilBytes(usNCoils)) <= pucRegBuffer.Length
      modifies pucRegBuffer, ucSCoilBuf
      ensures eStatus == if HasCoils(layout, OneDown(usAddress), usNCoils) then MB_ENOERR else MB_ENOREG
      ensures eStatus == MB_ENOERR && eMode == MB_REG_WRITE ==>
                Contents() == WriteBits(layout, old(Contents()), OneDown(usAddress), usNCoils,
                                        BitString(old(pucRegBuffer[off..off + CoilBytes(usNCoils)])))
      ensures eStatus == MB_ENOERR && eMode == MB_REG_READ ==>
                && BitString(pucRegBuffer[off..off + usNCoils / 8 + 1]) ==
                   Padded(ReadBits(layout, old(Contents()), OneDown(usAddress), usNCoils))
                && pucRegBuffer[..off] == old(pucRegBuffer[..off])
                && pucRegBuffer[off + usNCoils / 8 + 1..] == old(pucRegBuffer[off + usNCoils / 8 + 1..])
      ensures eStatus != MB_ENOERR || eMode == MB_REG_READ ==> Contents() == old(Contents())
      ensures eStatus != MB_ENOERR || eMode == MB_REG_WRITE ==> pucRegBuffer[..] == old(pucRegBuffer[..])
    {
      hide BitString;
      var address := OneDown(usAddress);
      if InRange(address, usNCoils, layout.coils.start, layout.coils.count) {
        var iRegIndex, iRegBitIndex := (address - layout.coils.start) / 8, (address - layout.coils.start) % 8;
        eStatus := MB_ENOERR;
        match eMode
        case MB_REG_READ =>
          FetchBits(ucSCoilBuf, iRegIndex, iRegBitIndex, usNCoils, pucRegBuffer, off);
        case MB_REG_WRITE =>
          StoreBits(ucSCoilBuf, iRegIndex, iRegBitIndex, usNCoils, pucRegBuffer, off);
      } else {
        eStatus := MB_ENOREG;
      }
    }
  }
}
