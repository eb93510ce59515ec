/** The master's copy of every slave's data, all slaves in one block as the two-dimensional arrays lie. */
module Image {
  import opened Bytes
  import opened Octets
  import opened Modbus
  import opened CoilCopy
  import opened RegCopy
  import opened Store

  /** Register values and coil bits of slaves 1 to 16 in a row, the coils with an octet of slack at the end. */
  datatype Image = Image(holding: seq<u16>, coils: seq<bool>)

  function Row(dest: byte, size: nat): (base: nat)
    requires 1 <= dest <= MB_MASTER_TOTAL_SLAVE_NUM
    ensures base + size <= 16 * size
  {
    RowInside(dest, size);
    (dest - 1) * size
  }

  lemma RowInside(dest: byte, size: nat)
    requires 1 <= dest <= MB_MASTER_TOTAL_SLAVE_NUM
    ensures 0 <= (dest - 1) * size && (dest - 1) * size + size <= 16 * size
  {
    assert (16 - dest) * size >= 0;
  }

  /** Octets of coil buffer a slave has. */
  function Stride(l: Layout): nat {
    CoilBytes(l.coils.count)
  }

  predicate ImageFits(l: Layout, m: Image) {
    && |m.holding| == 16 * l.holding.count
    && 8 * (16 * Stride(l) + 1) <= |m.coils|
  }

  /** Where the register, or the coil, of address `a` of slave `dest` is kept. */
  function RegIndex(l: Layout, dest: byte, a: u16): nat
    requires 1 <= dest <= MB_MASTER_TOTAL_SLAVE_NUM && l.holding.start <= a
  {
    Row(dest, l.holding.count) + (a - l.holding.start)
  }

  function CoilIndex(l: Layout, dest: byte, a: u16): nat
    requires 1 <= dest <= MB_MASTER_TOTAL_SLAVE_NUM && l.coils.start <= a
  {
    8 * Row(dest, Stride(l)) + (a - l.coils.start)
  }

  function SetRegs(l: Layout, m: Image, dest: byte, a: u16, regs: seq<u16>): (r: Image)
    requires ImageFits(l, m) && HasRegs(l, a, |regs|) && 1 <= dest <= MB_MASTER_TOTAL_SLAVE_NUM
    ensures ImageFits(l, r)
  {
    m.(holding := Splice(m.holding, RegIndex(l, dest, a), regs))
  }

  function SetBits(l: Layout, m: Image, dest: byte, a: u16, n: nat, v: seq<bool>): (r: Image)
    requires ImageFits(l, m) && HasCoils(l, a, n) && 1 <= dest <= MB_MASTER_TOTAL_SLAVE_NUM
    requires 8 * CoilBytes(n) <= |v|
    ensures ImageFits(l, r)
  {
    m.(coils := Stored(m.coils, CoilIndex(l, dest, a), n, v))
  }

  /** The last octet the bit routine touches in storing `n` coils of slave `dest` from address `a` on. */
  function LastTouched(l: Layout, dest: byte, a: u16, n: nat): nat
    requires HasCoils(l, a, n) && 1 <= dest <= MB_MASTER_TOTAL_SLAVE_NUM
  {
    Row(dest, Stride(l)) + (a - l.coils.start) / 8 + CoilBytes(n)
  }

  /** All coils of all slaves can be stored without leaving the buffer just when it has one octet beyond the rows. */
  lemma SlackIff(l: Layout, length: nat)
    requires l.coils.count > 0
    ensures (forall dest: byte, a: u16, n: nat ::
               1 <= dest <= MB_MASTER_TOTAL_SLAVE_NUM && 1 <= n && HasCoils(l, a, n) ==>
                 LastTouched(l, dest, a, n) < length)
       <==> 16 * Stride(l) + 1 <= length
  {
    var s := Stride(l);
    var o := 8 * (s - 1);
    assert Row(16, s) == 15 * s;
    assert HasCoils(l, l.coils.start + o, l.coils.count - o);
    assert LastTouched(l, 16, l.coils.start + o, l.coils.count - o) == 16 * s;
    if 16 * s + 1 <= length {
      forall dest: byte, a: u16, n: nat | 1 <= dest <= MB_MASTER_TOTAL_SLAVE_NUM && 1 <= n && HasCoils(l, a, n)
        ensures LastTouched(l, dest, a, n) < length
      {
        RowInside(dest, s);
        hide Row;
      }
    }
  }

  class MasterImage {
    const layout: Layout
    const usMRegHoldBuf: array<u16>
    const ucMCoilBuf: array<byte>

    ghost predicate Valid() {
      && usMRegHoldBuf.Length == 16 * layout.holding.count
      && 16 * Stride(layout) + 1 <= ucMCoilBuf.Length
      && usMRegHoldBuf as object != ucMCoilBuf
    }

    ghost function Contents(): (m: Image)
      requires Valid()
      reads usMRegHoldBuf, ucMCoilBuf
      ensures ImageFits(layout, m)
    {
      Image(usMRegHoldBuf[..], BitString(ucMCoilBuf[..]))
    }

    constructor (layout: Layout)
      ensures Valid() && this.layout == layout && fresh(usMRegHoldBuf) && fresh(ucMCoilBuf)
    {
      this.layout := layout;
      usMRegHoldBuf := new u16[16 * layout.holding.count](_ => 0);
      ucMCoilBuf := new byte[16 * Stride(layout) + 1](_ => 0);
    }

    /** In either mode the master takes the received registers into its image. */
    method eMBMasterRegHoldingCB(ucMBMasterDestAddress: byte, pucRegBuffer: array<byte>, off: nat,
                                 usAddress: u16, usNRegs: u16, eMode: RegisterMode)
      returns (eStatus: ErrorCode)
      requires Valid() && pucRegBuffer as object != usMRegHoldBuf && pucRegBuffer != ucMCoilBuf
      requires 1 <= ucMBMasterDestAddress <= MB_MASTER_TOTAL_SLAVE_NUM
      requires off + 2 * usNRegs <= pucRegBuffer.Length
      modifies usMRegHoldBuf
      ensures eStatus == if HasRegs(layout, OneDown(usAddress), usNRegs) then MB_ENOERR else MB_ENOREG
      ensures Contents() == if eStatus != MB_ENOERR then old(Contents())
                            else SetRegs(layout, old(Contents()), ucMBMasterDestAddress, OneDown(usAddress),
                                         RegsOf(pucRegBuffer[off..], usNRegs))
    {
      hide BitString;
      var address := OneDown(usAddress);
      if InRange(address, usNRegs, layout.holding.start, layout.holding.count) {
        var row := Row(ucMBMasterDestAddress, layout.holding.count);
        var iRegIndex := address - layout.holding.start;
        StoreRegs(usMRegHoldBuf, row + iRegIndex, usNRegs, pucRegBuffer, off);
        eStatus := MB_ENOERR;
      } else {
        eStatus := MB_ENOREG;
      }
    }

    /** In either mode the master takes the received coils into its image. */
    method eMBMasterRegCoilsCB(ucMBMasterDestAddress: byte, pucRegBuffer: array<byte>, off: nat,
                               usAddress: u16, usNCoils: u16, eMode: RegisterMode)
      returns (eStatus: ErrorCode)
      requires Valid() && pucRegBuffer as object != usMRegHoldBuf && pucRegBuffer != ucMCoilBuf
      requires 1 <= ucMBMasterDestAddress <= MB_MASTER_TOTAL_SLAVE_NUM
      requires off + CoilBytes(usNCoils) <= pucRegBuffer.Length
      modifies ucMCoilBuf
      ensures eStatus == if HasCoils(layout, OneDown(usAddress), usNCoils) then MB_ENOERR else MB_ENOREG
      ensures Contents() == if eStatus != MB_ENOERR then old(Contents())
                            else SetBits(layout, old(Contents()), ucMBMasterDestAddress, OneDown(usAddress), usNCoils,
                                         BitString(pucRegBuffer[off..off + CoilBytes(usNCoils)]))
    {
      hide BitString;
      var address := OneDown(usAddress);
      if InRange(address, usNCoils, layout.coils.start, layout.coils.count) {
        var row := Row(ucMBMasterDestAddress, Stride(layout));
        var iRegIndex, iRegBitIndex := (address - layout.coils.start) / 8, (address - layout.coils.start) % 8;
        StoreBits(ucMCoilBuf, row + iRegIndex, iRegBitIndex, usNCoils, pucRegBuffer, off);
        eStatus := MB_ENOERR;
      } else {
        eStatus := MB_ENOREG;
      }
    }
  }
}
