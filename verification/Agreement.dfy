/** What the master's image has in common with a slave's data after an exchange. */
module Agreement {
  import opened Bytes
  import opened Octets
  import opened Modbus
  import opened CoilCopy
  import opened Store
  import opened Requests
  import opened Image
  import opened MasterFunctions

  /** The image after a reply to `r` from a slave whose data is then `d`. */
  function Absorbed(lm: Layout, m: Image, dest: byte, ls: Layout, d: Data, r: Request): (t: Taken)
    requires ImageFits(lm, m) && 1 <= dest <= MB_MASTER_TOTAL_SLAVE_NUM
    requires Fits(ls, d) && WellFormed(r) && ReadRangeOk(ls, r)
    ensures ImageFits(lm, t.image)
  {
    if !WriteRangeOk(lm, r) then Taken(MB_EX_ILLEGAL_DATA_ADDRESS, m)
    else
      var w := AbsorbedWrite(lm, m, dest, r);
      if !ReadRangeOk(lm, r) then Taken(MB_EX_ILLEGAL_DATA_ADDRESS, w)
      else Taken(MB_EX_NONE, AbsorbedRead(lm, w, dest, ls, d, r))
  }

  function AbsorbedWrite(lm: Layout, m: Image, dest: byte, r: Request): (w: Image)
    requires ImageFits(lm, m) && 1 <= dest <= MB_MASTER_TOTAL_SLAVE_NUM
    requires WellFormed(r) && WriteRangeOk(lm, r)
    ensures ImageFits(lm, w)
  {
    match r
    case WriteRegister(a, v) => SetRegs(lm, m, dest, a, [v])
    case WriteRegisters(a, values) => SetRegs(lm, m, dest, a, values)
    case ReadWriteRegisters(_, _, wa, values) => SetRegs(lm, m, dest, wa, values)
    case WriteCoil(a, on) => SetBits(lm, m, dest, a, 1, BitString([if on then 1 else 0]))
    case WriteCoils(a, n, packed) => SetBits(lm, m, dest, a, n, BitString(packed))
    case _ => m
  }

  function AbsorbedRead(lm: Layout, m: Image, dest: byte, ls: Layout, d: Data, r: Request): (w: Image)
    requires ImageFits(lm, m) && 1 <= dest <= MB_MASTER_TOTAL_SLAVE_NUM
    requires Fits(ls, d) && ReadRangeOk(ls, r) && ReadRangeOk(lm, r)
    ensures ImageFits(lm, w)
  {
    match r
    case ReadHolding(a, n) => SetRegs(lm, m, dest, a, ReadRegs(ls, d, a, n))
    case ReadWriteRegisters(a, n, _, _) => SetRegs(lm, m, dest, a, ReadRegs(ls, d, a, n))
    case ReadCoils(a, n) => SetBits(lm, m, dest, a, n, Padded(ReadBits(ls, d, a, n)))
    case _ => m
  }

  lemma TakesReadHolding(lm: Layout, m: Image, dest: byte, ls: Layout, d: Data, r: Request, i: Input)
    requires ImageFits(lm, m) && 1 <= dest <= MB_MASTER_TOTAL_SLAVE_NUM && InputOk(i)
    requires Fits(ls, d) && r.ReadHolding? && CountOk(r) && ReadRangeOk(ls, r)
    requires Encode(r) <= i.snd && Reply(ls, d, r) <= i.frame && i.len == |Reply(ls, d, r)| && !i.broadcast
    ensures TakeReadRegisters(lm, m, dest, i) == Absorbed(lm, m, dest, ls, d, r)
  {
    hide Word, RegBytes, RegsOf, SetRegs, ReadRegs, Fields;
    var n, regs := r.count, ReadRegs(ls, d, r.addr, r.count);
    assert i.snd[1..5] == Encode(r)[1..5] == Fields(r.addr, n);
    FieldsAt(i.snd, 1, r.addr, n);
    PrefixParts(i.frame, [MB_FUNC_READ_HOLDING_REGISTER, 2 * n], RegBytes(regs));
    assert i.frame[1] == i.frame[..2][1];
    assert Clip(i.frame, 2, 2 * n) == RegBytes(regs) == RegBytes(regs) + [];
    RegsRoundTrip(regs, []);
  }

  lemma TakesWriteRegister(lm: Layout, m: Image, dest: byte, ls: Layout, d: Data, r: Request, i: Input)
    requires ImageFits(lm, m) && 1 <= dest <= MB_MASTER_TOTAL_SLAVE_NUM && InputOk(i)
    requires Fits(ls, d) && r.WriteRegister? && WellFormed(r) && CountOk(r) && ReadRangeOk(ls, r)
    requires Encode(r) <= i.snd && Reply(ls, d, r) <= i.frame && i.len == |Reply(ls, d, r)| && !i.broadcast
    ensures TakeWriteRegister(lm, m, dest, i) == Absorbed(lm, m, dest, ls, d, r)
  {
    hide Word, SetRegs, Fields;
    assert i.frame[1..5] == Reply(ls, d, r)[1..5] == Fields(r.addr, r.value);
    FieldsAt(i.frame, 1, r.addr, r.value);
    assert RegsOf(i.frame[3..5], 1) == [Word(i.frame[3], i.frame[4])];
  }

  lemma TakesWriteRegisters(lm: Layout, m: Image, dest: byte, ls: Layout, d: Data, r: Request, i: Input)
    requires ImageFits(lm, m) && 1 <= dest <= MB_MASTER_TOTAL_SLAVE_NUM && InputOk(i)
    requires Fits(ls, d) && r.WriteRegisters? && WellFormed(r) && CountOk(r) && ReadRangeOk(ls, r)
    requires Encode(r) <= i.snd && Reply(ls, d, r) <= i.frame && i.len == |Reply(ls, d, r)| && !i.broadcast
    ensures TakeWriteRegisters(lm, m, dest, i) == Absorbed(lm, m, dest, ls, d, r)
  {
    hide Word, RegBytes, RegsOf, SetRegs, Fields;
    var n := |r.values|;
    PrefixParts(i.snd, [MB_FUNC_WRITE_MULTIPLE_REGISTERS] + Fields(r.addr, n) + [2 * n], RegBytes(r.values));
    assert i.snd[1..5] == i.snd[..6][1..5] == Fields(r.addr, n) && i.snd[5] == i.snd[..6][5];
    FieldsAt(i.snd, 1, r.addr, n);
    assert Clip(i.snd, 6, 2 * n) == RegBytes(r.values) == RegBytes(r.values) + [];
    RegsRoundTrip(r.values, []);
  }

  lemma TakesReadWriteRegisters(lm: Layout, m: Image, dest: byte, ls: Layout, d: Data, r: Request, i: Input)
    requires ImageFits(lm, m) && 1 <= dest <= MB_MASTER_TOTAL_SLAVE_NUM && InputOk(i)
    requires Fits(ls, d) && r.ReadWriteRegisters? && WellFormed(r) && CountOk(r) && ReadRangeOk(ls, r)
    requires Encode(r) <= i.snd && Reply(ls, d, r) <= i.frame && i.len == |Reply(ls, d, r)| && !i.broadcast
    ensures TakeReadWriteRegisters(lm, m, dest, i) == Absorbed(lm, m, dest, ls, d, r)
  {
    hide Word, RegBytes, RegsOf, SetRegs, ReadRegs, Fields;
    var n, nw, regs := r.count, |r.values|, ReadRegs(ls, d, r.addr, r.count);
    var head := [MB_FUNC_READWRITE_MULTIPLE_REGISTERS] + Fields(r.addr, n) + Fields(r.writeAddr, nw) + [2 * nw];
    PrefixParts(i.snd, head, RegBytes(r.values));
    assert i.snd[1..5] == i.snd[..10][1..5] == Fields(r.addr, n);
    assert i.snd[5..9] == i.snd[..10][5..9] == Fields(r.writeAddr, nw);
    FieldsAt(i.snd, 1, r.addr, n);
    FieldsAt(i.snd, 5, r.writeAddr, nw);
    assert Clip(i.snd, 10, 2 * nw) == RegBytes(r.values) == RegBytes(r.values) + [];
    RegsRoundTrip(r.values, []);
    PrefixParts(i.frame, [MB_FUNC_READWRITE_MULTIPLE_REGISTERS, 2 * n], RegBytes(regs));
    assert i.frame[1] == i.frame[..2][1];
    assert Clip(i.frame, 2, 2 * n) == RegBytes(regs) == RegBytes(regs) + [];
    RegsRoundTrip(regs, []);
  }

  /** What the handler finds in the request sent and in the reply. */
  lemma ReadCoilFields(a: u16, n: u16, octets: seq<byte>, i: Input)
    requires InputOk(i) && 1 <= n < 0x7D0 && CoilBytes(n) <= |octets|
    requires Encode(ReadCoils(a, n)) <= i.snd && [MB_FUNC_READ_COILS, CoilBytes(n)] + octets[..CoilBytes(n)] <= i.frame
    ensures Word(i.snd[1], i.snd[2]) == a && Word(i.snd[3], i.snd[4]) == n && i.frame[1] == CoilBytes(n)
    ensures Clip(i.frame, 2, CoilBytes(n)) == octets[..CoilBytes(n)]
  {
    hide Word, Fields;
    var e, k := Encode(ReadCoils(a, n)), CoilBytes(n);
    SubOfPrefix(i.snd, e, 1, 5);
    assert e[1..5] == Fields(a, n);
    FieldsAt(i.snd, 1, a, n);
    PrefixParts(i.frame, [MB_FUNC_READ_COILS, k], octets[..k]);
    assert i.frame[1] == i.frame[..2][1];
  }

  lemma TakesReadCoils(lm: Layout, m: Image, dest: byte, ls: Layout, d: Data, r: Request, i: Input)
    requires ImageFits(lm, m) && 1 <= dest <= MB_MASTER_TOTAL_SLAVE_NUM && InputOk(i)
    requires Fits(ls, d) && r.ReadCoils? && CountOk(r) && ReadRangeOk(ls, r)
    requires Encode(r) <= i.snd && Reply(ls, d, r) <= i.frame && i.len == |Reply(ls, d, r)| && !i.broadcast
    ensures TakeReadCoils(lm, m, dest, i) == Absorbed(lm, m, dest, ls, d, r)
  {
    hide Word, PackBits, Padded, ReadBits, Fields, BitString, Stored, Encode, Clip;
    var n, k := r.count, CoilBytes(r.count);
    var bits := Padded(ReadBits(ls, d, r.addr, n));
    ReadCoilFields(r.addr, n, PackBits(bits), i);
    BitsOfPacked(bits);
    BitStringTake(PackBits(bits), k);
    if HasCoils(lm, r.addr, n) {
      StoredTake(m.coils, CoilIndex(lm, dest, r.addr), n, bits);
    }
  }

  /** Storing looks no further than the octets of the field. */
  lemma StoredTake(b: seq<bool>, at: nat, n: nat, v: seq<bool>)
    requires 8 * CoilBytes(n) <= |v| && at + 8 * CoilBytes(n) <= |b|
    ensures Stored(b, at, n, v[..8 * CoilBytes(n)]) == Stored(b, at, n, v)
  {
  }

  lemma CoilFields(r: Request)
    requires r.WriteCoil?
    ensures |Encode(r)| == 5 && Encode(r)[1..5] == Fields(r.addr, if r.on then 0xFF00 else 0)
  {
  }

  lemma TakesWriteCoil(lm: Layout, m: Image, dest: byte, ls: Layout, d: Data, r: Request, i: Input)
    requires ImageFits(lm, m) && 1 <= dest <= MB_MASTER_TOTAL_SLAVE_NUM && InputOk(i)
    requires Fits(ls, d) && r.WriteCoil? && WellFormed(r) && CountOk(r) && ReadRangeOk(ls, r)
    requires Encode(r) <= i.snd && Reply(ls, d, r) <= i.frame && i.len == |Reply(ls, d, r)| && !i.broadcast
    ensures TakeWriteCoil(lm, m, dest, i) == Absorbed(lm, m, dest, ls, d, r)
  {
    hide Word, BitString, SetBits;
    var v := if r.on then 0xFF00 else 0;
    CoilFields(r);
    assert Reply(ls, d, r) == Encode(r)[..5] == Encode(r);
    assert i.frame[1..5] == Encode(r)[1..5];
    FieldsAt(i.frame, 1, r.addr, v);
    assert i.frame[3] == Hi(v) && i.frame[4] == Lo(v);
  }

  lemma TakesWriteCoils(lm: Layout, m: Image, dest: byte, ls: Layout, d: Data, r: Request, i: Input)
    requires ImageFits(lm, m) && 1 <= dest <= MB_MASTER_TOTAL_SLAVE_NUM && InputOk(i)
    requires Fits(ls, d) && r.WriteCoils? && WellFormed(r) && CountOk(r) && ReadRangeOk(ls, r)
    requires Encode(r) <= i.snd && Reply(ls, d, r) <= i.frame && i.len == |Reply(ls, d, r)| && !i.broadcast
    ensures TakeWriteCoils(lm, m, dest, i) == Absorbed(lm, m, dest, ls, d, r)
  {
    hide Word, BitString, SetBits, Fields;
    var n := r.count;
    assert i.frame[1..5] == Reply(ls, d, r)[1..5] == Encode(r)[1..5] == Fields(r.addr, n);
    FieldsAt(i.frame, 1, r.addr, n);
    PrefixParts(i.snd, [MB_FUNC_WRITE_MULTIPLE_COILS] + Fields(r.addr, n) + [CoilBytes(n)], r.packed);
    assert i.snd[5] == i.snd[..6][5];
  }

  /** The master takes from the slave's reply to a request what the request read or wrote. */
  lemma TakesReply(lm: Layout, m: Image, dest: byte, ls: Layout, d: Data, r: Request, i: Input)
    requires ImageFits(lm, m) && 1 <= dest <= MB_MASTER_TOTAL_SLAVE_NUM && InputOk(i)
    requires Fits(ls, d) && WellFormed(r) && CountOk(r) && ReadRangeOk(ls, r)
    requires Encode(r) <= i.snd && Reply(ls, d, r) <= i.frame && i.len == |Reply(ls, d, r)| && !i.broadcast
    ensures Take(lm, m, dest, i) == Absorbed(lm, m, dest, ls, d, r)
  {
    hide Absorbed, TakeReadRegisters, TakeWriteRegister, TakeWriteRegisters, TakeReadWriteRegisters, TakeReadCoils,
      TakeWriteCoil, TakeWriteCoils, RegBytes, Fields;
    assert i.frame[0] == Reply(ls, d, r)[0];
    match r
    case ReadHolding(_, _) => TakesReadHolding(lm, m, dest, ls, d, r, i);
    case WriteRegister(_, _) => TakesWriteRegister(lm, m, dest, ls, d, r, i);
    case WriteRegisters(_, _) => TakesWriteRegisters(lm, m, dest, ls, d, r, i);
    case ReadWriteRegisters(_, _, _, _) => TakesReadWriteRegisters(lm, m, dest, ls, d, r, i);
    case ReadCoils(_, _) => TakesReadCoils(lm, m, dest, ls, d, r, i);
    case WriteCoil(_, _) => TakesWriteCoil(lm, m, dest, ls, d, r, i);
    case WriteCoils(_, _, _) => TakesWriteCoils(lm, m, dest, ls, d, r, i);
  }

  // ---------- Replies of another function ----------

  /** The master never looks at the function code it has sent. */
  lemma SentCodeIgnored(l: Layout, m: Image, dest: byte, i: Input, code: byte)
    requires ImageFits(l, m) && 1 <= dest <= MB_MASTER_TOTAL_SLAVE_NUM && InputOk(i)
    ensures Take(l, m, dest, i.(snd := i.snd[0 := code])) == Take(l, m, dest, i)
  {
    hide Word, RegsOf, SetRegs, SetBits, BitString, HasRegs, HasCoils;
    var snd := i.snd[0 := code];
    forall from: nat, n: nat | from > 0 ensures Clip(snd, from, n) == Clip(i.snd, from, n) {
      if from + n <= |snd| {
        assert snd[from..from + n] == i.snd[from..from + n];
      }
    }
  }

  /** Nor at anything it has sent, if the reply is that of a write of one register or coil. */
  lemma SentIgnored(l: Layout, m: Image, dest: byte, i: Input, snd: seq<byte>)
    requires ImageFits(l, m) && 1 <= dest <= MB_MASTER_TOTAL_SLAVE_NUM && InputOk(i) && |snd| == SEND_SIZE
    requires i.frame[0] == MB_FUNC_WRITE_REGISTER || i.frame[0] == MB_FUNC_WRITE_SINGLE_COIL
    ensures Take(l, m, dest, i.(snd := snd)) == Take(l, m, dest, i)
  {
    hide TakeRegs, TakeBits, Word;
  }

  /**
   * So a reply of any function is taken for the reply to a request `other` of that function with the same fields
   * as the one sent, or any such request if it writes a single register or coil: the image takes what `other`
   * reads or writes, and that is a success if it has the addresses.
   */
  lemma OtherFunctionTaken(lm: Layout, m: Image, dest: byte, ls: Layout, d: Data, other: Request, i: Input)
    requires ImageFits(lm, m) && 1 <= dest <= MB_MASTER_TOTAL_SLAVE_NUM && InputOk(i) && !i.broadcast
    requires Fits(ls, d) && WellFormed(other) && CountOk(other) && ReadRangeOk(ls, other)
    requires Reply(ls, d, other) <= i.frame && i.len == |Reply(ls, d, other)|
    requires other.WriteRegister? || other.WriteCoil? || Encode(other)[1..] <= i.snd[1..]
    ensures Take(lm, m, dest, i) == Absorbed(lm, m, dest, ls, d, other)
  {
    hide Take, Absorbed, RegBytes, Fields, PackBits, Padded;
    var e := Encode(other);
    if other.WriteRegister? || other.WriteCoil? {
      var snd := e + i.snd[|e|..];
      assert i.frame[0] == Reply(ls, d, other)[0];
      SentIgnored(lm, m, dest, i, snd);
      TakesReply(lm, m, dest, ls, d, other, i.(snd := snd));
    } else {
      var snd := i.snd[0 := e[0]];
      assert e == [e[0]] + e[1..] && snd == [e[0]] + i.snd[1..];
      SentCodeIgnored(lm, m, dest, i, e[0]);
      TakesReply(lm, m, dest, ls, d, other, i.(snd := snd));
    }
  }

  /** Coils asked for and registers of the same addresses answered, and the other way round: the fields are the same. */
  lemma SameFields(a: u16, n: u16)
    ensures Encode(ReadHolding(a, n))[1..] == Encode(ReadCoils(a, n))[1..]
  {
    hide Fields;
  }

  /** A reply of one octet to function 23 is taken for a success and changes nothing. */
  lemma ShortReplyTaken(l: Layout, m: Image, dest: byte, i: Input)
    requires ImageFits(l, m) && 1 <= dest <= MB_MASTER_TOTAL_SLAVE_NUM && InputOk(i)
    requires i.frame[0] == MB_FUNC_READWRITE_MULTIPLE_REGISTERS && i.len < 2
    ensures Take(l, m, dest, i) == Taken(MB_EX_NONE, m)
  {
  }

  // ---------- Agreement ----------

  /** The register, or coil, addresses a request names. */
  predicate NamesReg(r: Request, a: u16) {
    match r
    case ReadHolding(x, n) => x <= a < x + n
    case WriteRegister(x, _) => a == x
    case WriteRegisters(x, values) => x <= a < x + |values|
    case ReadWriteRegisters(x, n, wx, values) => x <= a < x + n || wx <= a < wx + |values|
    case _ => false
  }

  predicate NamesCoil(r: Request, a: u16) {
    match r
    case ReadCoils(x, n) => x <= a < x + n
    case WriteCoil(x, _) => a == x
    case WriteCoils(x, n, _) => x <= a < x + n
    case _ => false
  }

  /** The bits of the last octet past the requested count are zero. */
  predicate PaddingClear(r: Request)
    requires WellFormed(r)
  {
    r.WriteCoils? ==> forall k :: r.count <= k < 8 * |r.packed| ==> !BitString(r.packed)[k]
  }

  /** The image's copy of register `a` is the slave's register. */
  predicate SameReg(lm: Layout, m: Image, dest: byte, ls: Layout, d: Data, a: u16)
    requires ImageFits(lm, m) && Fits(ls, d) && 1 <= dest <= MB_MASTER_TOTAL_SLAVE_NUM
  {
    && HasRegs(lm, a, 1) && HasRegs(ls, a, 1)
    && m.holding[RegIndex(lm, dest, a)] == d.holding[a - ls.holding.start]
  }

  predicate SameCoil(lm: Layout, m: Image, dest: byte, ls: Layout, d: Data, a: u16)
    requires ImageFits(lm, m) && Fits(ls, d) && 1 <= dest <= MB_MASTER_TOTAL_SLAVE_NUM
  {
    && HasCoils(lm, a, 1) && HasCoils(ls, a, 1)
    && m.coils[CoilIndex(lm, dest, a)] == d.coils[a - ls.coils.start]
  }

  /** Every register, or coil, the image does not share with `before` is one the request names, and agrees. */
  ghost predicate RegsOtherwiseKept(lm: Layout, before: Image, m: Image, dest: byte, ls: Layout, d: Data, r: Request)
    requires ImageFits(lm, before) && ImageFits(lm, m) && Fits(ls, d) && 1 <= dest <= MB_MASTER_TOTAL_SLAVE_NUM
  {
    forall k :: 0 <= k < |m.holding| && m.holding[k] != before.holding[k] ==>
      exists a: u16 :: NamesReg(r, a) && SameReg(lm, m, dest, ls, d, a) && k == RegIndex(lm, dest, a)
  }

  ghost predicate CoilsOtherwiseKept(lm: Layout, before: Image, m: Image, dest: byte, ls: Layout, d: Data, r: Request)
    requires ImageFits(lm, before) && ImageFits(lm, m) && Fits(ls, d) && 1 <= dest <= MB_MASTER_TOTAL_SLAVE_NUM
  {
    && |m.coils| == |before.coils|
    && forall k :: 0 <= k < |m.coils| && m.coils[k] != before.coils[k] ==>
        exists a: u16 :: NamesCoil(r, a) && SameCoil(lm, m, dest, ls, d, a) && k == CoilIndex(lm, dest, a)
  }

  /** Storing registers that the slave has makes the image agree there and nowhere else differ from before. */
  lemma SetRegsAgrees(lm: Layout, m: Image, dest: byte, ls: Layout, d: Data, x: u16, regs: seq<u16>)
    requires ImageFits(lm, m) && Fits(ls, d) && 1 <= dest <= MB_MASTER_TOTAL_SLAVE_NUM
    requires HasRegs(lm, x, |regs|) && HasRegs(ls, x, |regs|) && regs == ReadRegs(ls, d, x, |regs|)
    ensures var w := SetRegs(lm, m, dest, x, regs);
            && (forall a: u16 :: x <= a < x + |regs| ==> SameReg(lm, w, dest, ls, d, a))
            && forall k :: 0 <= k < |m.holding| && !(RegIndex(lm, dest, x) <= k < RegIndex(lm, dest, x) + |regs|) ==>
                 w.holding[k] == m.holding[k]
  {
    hide Row;
  }

  lemma KeptAfterSetRegs(lm: Layout, m: Image, dest: byte, ls: Layout, d: Data, x: u16, regs: seq<u16>, r: Request)
    requires ImageFits(lm, m) && Fits(ls, d) && 1 <= dest <= MB_MASTER_TOTAL_SLAVE_NUM
    requires HasRegs(lm, x, |regs|) && HasRegs(ls, x, |regs|) && regs == ReadRegs(ls, d, x, |regs|)
    requires forall a: u16 :: x <= a < x + |regs| ==> NamesReg(r, a)
    ensures RegsOtherwiseKept(lm, m, SetRegs(lm, m, dest, x, regs), dest, ls, d, r)
  {
    hide Row, NamesReg, RegIndex;
    var w := SetRegs(lm, m, dest, x, regs);
    SetRegsAgrees(lm, m, dest, ls, d, x, regs);
    forall k | 0 <= k < |w.holding| && w.holding[k] != m.holding[k]
      ensures exists a: u16 :: NamesReg(r, a) && SameReg(lm, w, dest, ls, d, a) && k == RegIndex(lm, dest, a)
    {
      var a := x + (k - RegIndex(lm, dest, x));
      IndexOfAddress(lm, dest, x, a);
      assert NamesReg(r, a) && SameReg(lm, w, dest, ls, d, a);
    }
  }

  lemma IndexOfAddress(lm: Layout, dest: byte, x: u16, a: u16)
    requires 1 <= dest <= MB_MASTER_TOTAL_SLAVE_NUM && lm.holding.start <= x <= a
    ensures RegIndex(lm, dest, a) == RegIndex(lm, dest, x) + (a - x)
  {
  }

  lemma ReadBack(l: Layout, d: Data, a: u16, regs: seq<u16>)
    requires Fits(l, d) && HasRegs(l, a, |regs|)
    ensures ReadRegs(l, WriteRegs(l, d, a, regs), a, |regs|) == regs
  {
  }

  /** One run of registers, read or written, agrees. */
  lemma RunAgrees(lm: Layout, m: Image, dest: byte, ls: Layout, d: Data, x: u16, regs: seq<u16>, r: Request)
    requires ImageFits(lm, m) && Fits(ls, d) && 1 <= dest <= MB_MASTER_TOTAL_SLAVE_NUM
    requires HasRegs(lm, x, |regs|) && HasRegs(ls, x, |regs|) && regs == ReadRegs(ls, d, x, |regs|)
    requires forall a: u16 :: x <= a < x + |regs| <==> NamesReg(r, a)
    ensures var w := SetRegs(lm, m, dest, x, regs);
            && RegsOtherwiseKept(lm, m, w, dest, ls, d, r)
            && forall a: u16 :: NamesReg(r, a) ==> SameReg(lm, w, dest, ls, d, a)
  {
    hide SameReg, SetRegs, RegsOtherwiseKept, NamesReg;
    SetRegsAgrees(lm, m, dest, ls, d, x, regs);
    KeptAfterSetRegs(lm, m, dest, ls, d, x, regs, r);
  }

  /** The written registers and then the read ones: both agree, and an overlap agrees too. */
  lemma TwoRunsAgree(lm: Layout, m: Image, dest: byte, ls: Layout, d: Data, r: Request)
    requires ImageFits(lm, m) && Fits(ls, d) && 1 <= dest <= MB_MASTER_TOTAL_SLAVE_NUM
    requires r.ReadWriteRegisters? && WellFormed(r) && WriteRangeOk(lm, r) && WriteRangeOk(ls, r) && ReadRangeOk(ls, r)
    requires r.values == ReadRegs(ls, d, r.writeAddr, |r.values|)
    ensures var t := Absorbed(lm, m, dest, ls, d, r);
            && RegsOtherwiseKept(lm, m, t.image, dest, ls, d, r)
            && (t.exception == MB_EX_NONE ==> forall a: u16 :: NamesReg(r, a) ==> SameReg(lm, t.image, dest, ls, d, a))
  {
    hide Row, SetRegs, ReadRegs, SameReg, RegIndex, RegsOtherwiseKept;
    var w := SetRegs(lm, m, dest, r.writeAddr, r.values);
    SetRegsAgrees(lm, m, dest, ls, d, r.writeAddr, r.values);
    KeptAfterSetRegs(lm, m, dest, ls, d, r.writeAddr, r.values, r);
    if ReadRangeOk(lm, r) {
      var regs := ReadRegs(ls, d, r.addr, r.count);
      SetRegsAgrees(lm, w, dest, ls, d, r.addr, regs);
      KeptAfterSetRegs(lm, w, dest, ls, d, r.addr, regs, r);
      SecondRun(lm, m, w, SetRegs(lm, w, dest, r.addr, regs), dest, ls, d, r);
    }
  }

  /** What agreed before the read registers were stored agrees after. */
  lemma SecondRun(lm: Layout, m: Image, w: Image, z: Image, dest: byte, ls: Layout, d: Data, r: Request)
    requires ImageFits(lm, m) && ImageFits(lm, w) && ImageFits(lm, z) && Fits(ls, d)
    requires 1 <= dest <= MB_MASTER_TOTAL_SLAVE_NUM && r.ReadWriteRegisters? && ReadRangeOk(lm, r)
    requires RegsOtherwiseKept(lm, m, w, dest, ls, d, r)
    requires forall a: u16 :: r.writeAddr <= a < r.writeAddr + |r.values| ==> SameReg(lm, w, dest, ls, d, a)
    requires forall a: u16 :: r.addr <= a < r.addr + r.count ==> SameReg(lm, z, dest, ls, d, a)
    requires forall k :: 0 <= k < |w.holding| ==>
               || RegIndex(lm, dest, r.addr) <= k < RegIndex(lm, dest, r.addr) + r.count
               || z.holding[k] == w.holding[k]
    ensures RegsOtherwiseKept(lm, m, z, dest, ls, d, r)
    ensures forall a: u16 :: NamesReg(r, a) ==> SameReg(lm, z, dest, ls, d, a)
  {
    hide Row;
    forall a: u16 | NamesReg(r, a) ensures SameReg(lm, z, dest, ls, d, a) {
      if !(r.addr <= a < r.addr + r.count) {
        assert SameReg(lm, w, dest, ls, d, a);
      }
    }
    forall k | 0 <= k < |z.holding| && z.holding[k] != m.holding[k]
      ensures exists a: u16 :: NamesReg(r, a) && SameReg(lm, z, dest, ls, d, a) && k == RegIndex(lm, dest, a)
    {
      if RegIndex(lm, dest, r.addr) <= k < RegIndex(lm, dest, r.addr) + r.count {
        var a := r.addr + (k - RegIndex(lm, dest, r.addr));
        assert NamesReg(r, a) && SameReg(lm, z, dest, ls, d, a) && k == RegIndex(lm, dest, a);
      } else {
        var a: u16 :| NamesReg(r, a) && SameReg(lm, w, dest, ls, d, a) && k == RegIndex(lm, dest, a);
        assert SameReg(lm, z, dest, ls, d, a);
      }
    }
  }

  /**
   * The registers: after a reply the image differs from before only where the request names a register and
   * then holds the slave's value; if the master reports success it holds the slave's value on all of them.
   */
  lemma RegistersAgree(lm: Layout, m: Image, dest: byte, ls: Layout, d0: Data, r: Request)
    requires ImageFits(lm, m) && Fits(ls, d0) && 1 <= dest <= MB_MASTER_TOTAL_SLAVE_NUM
    requires WellFormed(r) && Meaning(ls, d0, r).Replied?
    ensures var d := Meaning(ls, d0, r).data;
            var t := Absorbed(lm, m, dest, ls, d, r);
            && RegsOtherwiseKept(lm, m, t.image, dest, ls, d, r)
            && (t.exception == MB_EX_NONE ==> forall a: u16 :: NamesReg(r, a) ==> SameReg(lm, t.image, dest, ls, d, a))
  {
    hide Row, SetRegs, SetBits, WriteRegs, WriteBits, ReadRegs, SameReg, RegIndex, BitString;
    var d := Meaning(ls, d0, r).data;
    match r
    case ReadHolding(a, n) =>
      if HasRegs(lm, a, n) {
        RunAgrees(lm, m, dest, ls, d, a, ReadRegs(ls, d, a, n), r);
      }
    case WriteRegister(a, v) =>
      ReadBack(ls, d0, a, [v]);
      if HasRegs(lm, a, 1) {
        RunAgrees(lm, m, dest, ls, d, a, [v], r);
      }
    case WriteRegisters(a, values) =>
      ReadBack(ls, d0, a, values);
      if HasRegs(lm, a, |values|) {
        RunAgrees(lm, m, dest, ls, d, a, values, r);
      }
    case ReadWriteRegisters(_, _, wa, values) =>
      ReadBack(ls, d0, wa, values);
      if WriteRangeOk(lm, r) {
        TwoRunsAgree(lm, m, dest, ls, d, r);
      }
    case _ => CoilsLeaveRegs(lm, m, dest, ls, d, r);
  }

  lemma CoilsLeaveRegs(lm: Layout, m: Image, dest: byte, ls: Layout, d: Data, r: Request)
    requires ImageFits(lm, m) && Fits(ls, d) && 1 <= dest <= MB_MASTER_TOTAL_SLAVE_NUM
    requires WellFormed(r) && ReadRangeOk(ls, r) && (r.ReadCoils? || r.WriteCoil? || r.WriteCoils?)
    ensures Absorbed(lm, m, dest, ls, d, r).image.holding == m.holding
  {
    hide BitString, CoilIndex, Stored;
  }

  /** A run of coils stored agrees, and if its padding is clear no other coil changes. */
  lemma SetBitsAgrees(lm: Layout, m: Image, dest: byte, ls: Layout, d: Data, x: u16, n: u16, v: seq<bool>, r: Request)
    requires ImageFits(lm, m) && Fits(ls, d) && 1 <= dest <= MB_MASTER_TOTAL_SLAVE_NUM
    requires HasCoils(lm, x, n) && HasCoils(ls, x, n) && 8 * CoilBytes(n) <= |v|
    requires v[..n] == ReadBits(ls, d, x, n)
    requires forall a: u16 :: x <= a < x + n <==> NamesCoil(r, a)
    ensures var w := SetBits(lm, m, dest, x, n, v);
            && (forall a: u16 :: NamesCoil(r, a) ==> SameCoil(lm, w, dest, ls, d, a))
            && ((forall k :: n <= k < 8 * CoilBytes(n) ==> !v[k]) ==> CoilsOtherwiseKept(lm, m, w, dest, ls, d, r))
  {
    hide Row, NamesCoil, Stored;
    forall a: u16 | x <= a < x + n ensures SameCoil(lm, SetBits(lm, m, dest, x, n, v), dest, ls, d, a) {
      assert v[..n][a - x] == ReadBits(ls, d, x, n)[a - x];
    }
    if forall k :: n <= k < 8 * CoilBytes(n) ==> !v[k] {
      SetBitsKeeps(lm, m, dest, ls, d, x, n, v, r);
    }
  }

  lemma SetBitsKeeps(lm: Layout, m: Image, dest: byte, ls: Layout, d: Data, x: u16, n: u16, v: seq<bool>, r: Request)
    requires ImageFits(lm, m) && Fits(ls, d) && 1 <= dest <= MB_MASTER_TOTAL_SLAVE_NUM
    requires HasCoils(lm, x, n) && 8 * CoilBytes(n) <= |v| && forall k :: n <= k < 8 * CoilBytes(n) ==> !v[k]
    requires forall a: u16 :: x <= a < x + n ==>
               NamesCoil(r, a) && SameCoil(lm, SetBits(lm, m, dest, x, n, v), dest, ls, d, a)
    ensures CoilsOtherwiseKept(lm, m, SetBits(lm, m, dest, x, n, v), dest, ls, d, r)
  {
    hide Row, NamesCoil, Stored;
    var w := SetBits(lm, m, dest, x, n, v);
    StoredIsSplice(m.coils, CoilIndex(lm, dest, x), n, v);
    forall k | 0 <= k < |w.coils| && w.coils[k] != m.coils[k]
      ensures exists a: u16 :: NamesCoil(r, a) && SameCoil(lm, w, dest, ls, d, a) && k == CoilIndex(lm, dest, a)
    {
      var a := x + (k - CoilIndex(lm, dest, x));
      assert NamesCoil(r, a) && SameCoil(lm, w, dest, ls, d, a) && k == CoilIndex(lm, dest, a);
    }
  }

  lemma BitsBack(l: Layout, d: Data, a: u16, n: u16, v: seq<bool>)
    requires Fits(l, d) && HasCoils(l, a, n) && 8 * CoilBytes(n) <= |v|
    ensures ReadBits(l, WriteBits(l, d, a, n, v), a, n) == v[..n]
  {
  }

  lemma OneCoil(on: bool)
    ensures BitString([if on then 1 else 0]) == [on, false, false, false, false, false, false, false]
  {
    var x := if on then 1 else 0;
    assert [x][..0] == [];
    assert BitString([x]) == Bits(x, 8);
    assert Bits(x, 8) == [on] + Bits(0, 7);
    assert Bits(0, 3) == [false, false, false];
    assert Bits(0, 5) == [false, false, false, false, false];
    assert Bits(0, 7) == [false, false, false, false, false, false, false];
  }

  /**
   * The coils: if the master reports success the image holds the slave's value of all that the request names. With
   * clear padding, whatever it reports, the image differs from before only where the request names a coil and then
   * holds the slave's value.
   */
  lemma CoilsAgree(lm: Layout, m: Image, dest: byte, ls: Layout, d0: Data, r: Request)
    requires ImageFits(lm, m) && Fits(ls, d0) && 1 <= dest <= MB_MASTER_TOTAL_SLAVE_NUM
    requires WellFormed(r) && Meaning(ls, d0, r).Replied?
    ensures var d := Meaning(ls, d0, r).data;
            var t := Absorbed(lm, m, dest, ls, d, r);
            && (PaddingClear(r) ==> CoilsOtherwiseKept(lm, m, t.image, dest, ls, d, r))
            && (t.exception == MB_EX_NONE ==>
                  forall a: u16 :: NamesCoil(r, a) ==> SameCoil(lm, t.image, dest, ls, d, a))
  {
    hide Row, SetRegs, SetBits, WriteRegs, WriteBits, ReadRegs, ReadBits, SameCoil, CoilIndex, BitString, Stored;
    var d := Meaning(ls, d0, r).data;
    match r
    case ReadCoils(a, n) =>
      if HasCoils(lm, a, n) {
        SetBitsAgrees(lm, m, dest, ls, d, a, n, Padded(ReadBits(ls, d, a, n)), r);
      }
    case WriteCoil(a, on) =>
      var v := BitString([if on then 1 else 0]);
      OneCoil(on);
      BitsBack(ls, d0, a, 1, v);
      if HasCoils(lm, a, 1) {
        SetBitsAgrees(lm, m, dest, ls, d, a, 1, v, r);
      }
    case WriteCoils(a, n, packed) =>
      BitsBack(ls, d0, a, n, BitString(packed));
      if HasCoils(lm, a, n) {
        SetBitsAgrees(lm, m, dest, ls, d, a, n, BitString(packed), r);
      }
    case _ => RegsLeaveCoils(lm, m, dest, ls, d, r);
  }

  lemma RegsLeaveCoils(lm: Layout, m: Image, dest: byte, ls: Layout, d: Data, r: Request)
    requires ImageFits(lm, m) && Fits(ls, d) && 1 <= dest <= MB_MASTER_TOTAL_SLAVE_NUM
    requires WellFormed(r) && ReadRangeOk(ls, r) && !(r.ReadCoils? || r.WriteCoil? || r.WriteCoils?)
    ensures Absorbed(lm, m, dest, ls, d, r).image.coils == m.coils
  {
    hide RegIndex, Splice;
  }
}
