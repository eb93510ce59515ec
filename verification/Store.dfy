/** What the registers and coils of a device are, and what reading and writing them means. */
module Store {
  import opened Bytes
  import opened Modbus
  import opened CoilCopy

  /** The `count` addresses from `start`, all of them 16-bit addresses. */
  datatype AddressRange = Area(start: u16, count: u16)

  type Area = a: AddressRange | a.start + a.count <= 0x1_0000 witness Area(0, 0)

  datatype Layout = Layout(holding: Area, coils: Area)

  /** Register values, and coil bits from address `start` on followed by the slack of the bit buffer. */
  datatype Data = Data(holding: seq<u16>, coils: seq<bool>)

  predicate Fits(l: Layout, d: Data) {
    && |d.holding| == l.holding.count
    && 8 * (l.coils.count / 8 + 2) <= |d.coils|
  }

  predicate HasRegs(l: Layout, a: u16, n: nat) {
    InRange(a, n, l.holding.start, l.holding.count)
  }

  predicate HasCoils(l: Layout, a: u16, n: nat) {
    InRange(a, n, l.coils.start, l.coils.count)
  }

  function ReadRegs(l: Layout, d: Data, a: u16, n: nat): (regs: seq<u16>)
    requires Fits(l, d) && HasRegs(l, a, n)
    ensures |regs| == n
  {
    d.holding[a - l.holding.start..a - l.holding.start + n]
  }

  function WriteRegs(l: Layout, d: Data, a: u16, regs: seq<u16>): (r: Data)
    requires Fits(l, d) && HasRegs(l, a, |regs|)
    ensures Fits(l, r)
  {
    d.(holding := Splice(d.holding, a - l.holding.start, regs))
  }

  function ReadBits(l: Layout, d: Data, a: u16, n: nat): (bits: seq<bool>)
    requires Fits(l, d) && HasCoils(l, a, n)
    ensures |bits| == n
  {
    d.coils[a - l.coils.start..a - l.coils.start + n]
  }

  /** Storing `n` coils from the packed bits `v`, padding included. */
  function WriteBits(l: Layout, d: Data, a: u16, n: nat, v: seq<bool>): (r: Data)
    requires Fits(l, d) && HasCoils(l, a, n) && 8 * CoilBytes(n) <= |v|
    ensures Fits(l, r)
  {
    d.(coils := Stored(d.coils, a - l.coils.start, n, v))
  }
}
