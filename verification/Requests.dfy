/**
 * The requests of the MODBUS Application Protocol that the stack exchanges: their PDUs, and what a
 * device is to do and reply, stated on registers and coils.
 */
module Requests {
  import opened Bytes
  import opened Octets
  import opened Modbus
  import opened CoilCopy
  import opened Store

  datatype Request =
    | ReadHolding(addr: u16, count: u16)
    | WriteRegister(addr: u16, value: u16)
    | WriteRegisters(addr: u16, values: seq<u16>)
    | ReadWriteRegisters(addr: u16, count: u16, writeAddr: u16, values: seq<u16>)
    | ReadCoils(addr: u16, count: u16)
    | WriteCoil(addr: u16, on: bool)
    | WriteCoils(addr: u16, count: u16, packed: seq<byte>)

  /** The PDU's counts say what its data field holds. */
  predicate WellFormed(r: Request) {
    match r
    case WriteRegisters(_, values) => |values| <= 0x7F
    case ReadWriteRegisters(_, _, _, values) => |values| <= 0x7F
    case WriteCoils(_, count, packed) => |packed| == CoilBytes(count) <= 0xFF
    case _ => true
  }

  function Fields(a: u16, b: u16): (s: seq<byte>)
    ensures |s| == 4
  {
    [Hi(a), Lo(a), Hi(b), Lo(b)]
  }

  /** The request PDU. */
  function Encode(r: Request): (pdu: seq<byte>)
    requires WellFormed(r)
    ensures |pdu| >= 5
  {
    match r
    case ReadHolding(a, n) => [MB_FUNC_READ_HOLDING_REGISTER] + Fields(a, n)
    case WriteRegister(a, v) => [MB_FUNC_WRITE_REGISTER] + Fields(a, v)
    case WriteRegisters(a, values) =>
      [MB_FUNC_WRITE_MULTIPLE_REGISTERS] + Fields(a, |values|) + [2 * |values|] + RegBytes(values)
    case ReadWriteRegisters(a, n, wa, values) =>
      [MB_FUNC_READWRITE_MULTIPLE_REGISTERS] + Fields(a, n) + Fields(wa, |values|) + [2 * |values|] + RegBytes(values)
    case ReadCoils(a, n) => [MB_FUNC_READ_COILS] + Fields(a, n)
    case WriteCoil(a, on) => [MB_FUNC_WRITE_SINGLE_COIL] + Fields(a, if on then 0xFF00 else 0)
    case WriteCoils(a, n, packed) =>
      [MB_FUNC_WRITE_MULTIPLE_COILS] + Fields(a, n) + [CoilBytes(n)] + packed
  }

  /** The counts the slave's handlers accept. */
  predicate CountOk(r: Request) {
    match r
    case ReadHolding(_, n) => 1 <= n <= 0x7D
    case WriteRegister(_, _) => true
    case WriteRegisters(_, values) => 1 <= |values| <= 0x78
    case ReadWriteRegisters(_, n, _, values) => 1 <= n <= 0x7D && 1 <= |values| <= 0x79
    case ReadCoils(_, n) => 1 <= n < 0x7D0
    case WriteCoil(_, _) => true
    case WriteCoils(_, n, _) => 1 <= n <= 0x7B0
  }

  /** The quantities sections 6.1, 6.3, 6.11, 6.12 and 6.17 of the MODBUS Application Protocol V1.1b3 allow. */
  predicate StandardCountOk(r: Request) {
    match r
    case ReadHolding(_, n) => 1 <= n <= 125
    case WriteRegister(_, _) => true
    case WriteRegisters(_, values) => 1 <= |values| <= 123
    case ReadWriteRegisters(_, n, _, values) => 1 <= n <= 125 && 1 <= |values| <= 121
    case ReadCoils(_, n) => 1 <= n <= 2000
    case WriteCoil(_, _) => true
    case WriteCoils(_, n, _) => 1 <= n <= 1968
  }

  /** Where the handlers are stricter than the standard: 2000 coils read, and 121 to 123 registers written. */
  lemma CountsVersusStandard(r: Request)
    requires WellFormed(r)
    ensures CountOk(r) <==>
            StandardCountOk(r)
            && !(r.ReadCoils? && r.count == 2000)
            && !(r.WriteRegisters? && |r.values| > 120)
  {
  }

  /** Whether a device has the addresses the request reads and those it writes. */
  predicate WriteRangeOk(l: Layout, r: Request) {
    match r
    case WriteRegister(a, _) => HasRegs(l, a, 1)
    case WriteRegisters(a, values) => HasRegs(l, a, |values|)
    case ReadWriteRegisters(_, _, wa, values) => HasRegs(l, wa, |values|)
    case WriteCoil(a, _) => HasCoils(l, a, 1)
    case WriteCoils(a, n, _) => HasCoils(l, a, n)
    case _ => true
  }

  predicate ReadRangeOk(l: Layout, r: Request) {
    match r
    case ReadHolding(a, n) => HasRegs(l, a, n)
    case ReadWriteRegisters(a, n, _, _) => HasRegs(l, a, n)
    case ReadCoils(a, n) => HasCoils(l, a, n)
    case _ => true
  }

  /** The store after the request's write, if it writes. */
  function Written(l: Layout, d: Data, r: Request): (w: Data)
    requires Fits(l, d) && WellFormed(r) && WriteRangeOk(l, r)
    ensures Fits(l, w)
  {
    match r
    case WriteRegister(a, v) => WriteRegs(l, d, a, [v])
    case WriteRegisters(a, values) => WriteRegs(l, d, a, values)
    case ReadWriteRegisters(_, _, wa, values) => WriteRegs(l, d, wa, values)
    case WriteCoil(a, on) => WriteBits(l, d, a, 1, BitString([if on then 1 else 0]))
    case WriteCoils(a, n, packed) => WriteBits(l, d, a, n, BitString(packed))
    case _ => d
  }

  /** The reply PDU when the store after the write is `d`. */
  function Reply(l: Layout, d: Data, r: Request): (pdu: seq<byte>)
    requires Fits(l, d) && WellFormed(r) && CountOk(r) && ReadRangeOk(l, r)
  {
    match r
    case ReadHolding(a, n) => [MB_FUNC_READ_HOLDING_REGISTER, 2 * n] + RegBytes(ReadRegs(l, d, a, n))
    case ReadWriteRegisters(a, n, _, _) =>
      [MB_FUNC_READWRITE_MULTIPLE_REGISTERS, 2 * n] + RegBytes(ReadRegs(l, d, a, n))
    case ReadCoils(a, n) =>
      [MB_FUNC_READ_COILS, CoilBytes(n)] + PackBits(Padded(ReadBits(l, d, a, n)))[..CoilBytes(n)]
    case _ => Encode(r)[..5]
  }

  /** What a device does with a request: an exception and a store, or a reply and a store. */
  datatype Answer = Refused(why: Exception, data: Data) | Replied(pdu: seq<byte>, data: Data)

  function Meaning(l: Layout, d: Data, r: Request): (a: Answer)
    requires Fits(l, d) && WellFormed(r)
  {
    if !CountOk(r) then Refused(MB_EX_ILLEGAL_DATA_VALUE, d)
    else if !WriteRangeOk(l, r) then Refused(MB_EX_ILLEGAL_DATA_ADDRESS, d)
    else if !ReadRangeOk(l, r) then Refused(MB_EX_ILLEGAL_DATA_ADDRESS, Written(l, d, r))
    else Replied(Reply(l, Written(l, d, r), r), Written(l, d, r))
  }

  lemma FieldsAt(f: seq<byte>, k: nat, a: u16, b: u16)
    requires k + 4 <= |f| && f[k..k + 4] == Fields(a, b)
    ensures Word(f[k], f[k + 1]) == a && Word(f[k + 2], f[k + 3]) == b
  {
    assert f[k] == f[k..k + 4][0] && f[k + 1] == f[k..k + 4][1];
    assert f[k + 2] == f[k..k + 4][2] && f[k + 3] == f[k..k + 4][3];
    WordOfHalves(a);
    WordOfHalves(b);
  }
}
