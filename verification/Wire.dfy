/** Requests as they stand on the line, octet by octet, in numbers. */
module Wire {
  import opened Bytes
  import opened Octets
  import opened Modbus
  import opened Store
  import opened Requests

  /** The number of a 16-bit field, and several fields. */
  function Number(hi: nat, lo: nat): nat {
    0x100 * hi + lo
  }

  function Pairs(regs: seq<u16>): (s: seq<byte>)
    ensures |s| == 2 * |regs|
  {
    seq(2 * |regs|, k requires 0 <= k < 2 * |regs| => if k % 2 == 0 then regs[k / 2] / 0x100 else regs[k / 2] % 0x100)
  }

  /** The `n` addresses from `a` are among those of `area`. */
  predicate Among(a: nat, n: nat, area: AddressRange) {
    area.start <= a && a + n <= area.start + area.count
  }

  /** Bit `k` of an octet, the lowest being bit 0: whether the octet, halved `k` times, is odd. */
  predicate Bit(x: nat, k: nat) {
    if k == 0 then x % 2 == 1 else Bit(x / 2, k - 1)
  }

  /** The request PDUs of sections 6.1, 6.3, 6.5, 6.6, 6.11, 6.12 and 6.17 of the MODBUS Application Protocol V1.1b3. */
  function RequestOctets(r: Request): seq<byte>
    requires WellFormed(r)
  {
    match r
    case ReadCoils(a, n) => [0x01, a / 0x100, a % 0x100, n / 0x100, n % 0x100]
    case ReadHolding(a, n) => [0x03, a / 0x100, a % 0x100, n / 0x100, n % 0x100]
    case WriteCoil(a, on) => [0x05, a / 0x100, a % 0x100, if on then 0xFF else 0x00, 0x00]
    case WriteRegister(a, v) => [0x06, a / 0x100, a % 0x100, v / 0x100, v % 0x100]
    case WriteCoils(a, n, packed) =>
      [0x0F, a / 0x100, a % 0x100, n / 0x100, n % 0x100, (n + 7) / 8] + packed
    case WriteRegisters(a, values) =>
      [0x10, a / 0x100, a % 0x100, |values| / 0x100, |values| % 0x100, 2 * |values|] + Pairs(values)
    case ReadWriteRegisters(a, n, wa, values) =>
      [0x17, a / 0x100, a % 0x100, n / 0x100, n % 0x100,
       wa / 0x100, wa % 0x100, |values| / 0x100, |values| % 0x100, 2 * |values|] + Pairs(values)
  }

  lemma OctetsFor(n: nat)
    ensures CoilBytes(n) == (n + 7) / 8
  {
  }

  lemma {:induction false} RegBytesArePairs(regs: seq<u16>)
    ensures RegBytes(regs) == Pairs(regs)
    decreases |regs|
  {
    if regs != [] {
      var front := regs[..|regs| - 1];
      RegBytesArePairs(front);
      assert Pairs(regs) == Pairs(front) + [regs[|regs| - 1] / 0x100, regs[|regs| - 1] % 0x100];
    }
  }

  lemma {:induction false} BitsAreBits(x: nat, n: nat, k: nat)
    requires k < n
    ensures Bits(x, n)[k] == Bit(x, k)
    decreases k
  {
    if k > 0 {
      BitsAreBits(x / 2, n - 1, k - 1);
    }
  }

  /** What the request functions put into the send buffer. */
  lemma EncodeIsOctets(r: Request)
    requires WellFormed(r)
    ensures Encode(r) == RequestOctets(r)
  {
    hide Pairs, RegBytes;
    match r
    case WriteRegisters(_, values) => RegBytesArePairs(values);
    case ReadWriteRegisters(_, _, _, values) => ReadWriteOctets(r);
    case WriteCoils(_, n, _) => OctetsFor(n);
    case _ =>
  }

  lemma ReadWriteOctets(r: Request)
    requires WellFormed(r) && r.ReadWriteRegisters?
    ensures Encode(r) == RequestOctets(r)
  {
    hide Pairs, RegBytes;
    RegBytesArePairs(r.values);
  }
}
