/** The slave's function handlers, each as what it does to store, frame and length. */
module SlaveFunctions {
  import opened Bytes
  import opened Octets
  import opened Modbus
  import opened CoilCopy
  import opened Store
  import opened Requests
  import opened UserMbApp

  /** A PDU buffer: the octets of the receive buffer from the function code on. */
  const FRAME_SIZE := MB_SER_PDU_SIZE_MAX - 1

  /** Outcome of a handler: exception, store, PDU buffer, and the length of the PDU to send. */
  datatype Served = Served(exception: Exception, data: Data, frame: seq<byte>, len: nat)

  function AddrAt(f: seq<byte>): u16
    requires |f| == FRAME_SIZE
  {
    Word(f[1], f[2])
  }

  function CountAt(f: seq<byte>): u16
    requires |f| == FRAME_SIZE
  {
    Word(f[3], f[4])
  }

  function ServeWriteRegister(l: Layout, d: Data, f: seq<byte>, len: nat): (s: Served)
    requires Fits(l, d) && |f| == FRAME_SIZE
  {
    if len != 5 then Served(MB_EX_ILLEGAL_DATA_VALUE, d, f, len)
    else if !HasRegs(l, AddrAt(f), 1) then Served(MB_EX_ILLEGAL_DATA_ADDRESS, d, f, len)
    else Served(MB_EX_NONE, WriteRegs(l, d, AddrAt(f), RegsOf(f[3..], 1)), f, len)
  }

  function ServeWriteRegisters(l: Layout, d: Data, f: seq<byte>, len: nat): (s: Served)
    requires Fits(l, d) && |f| == FRAME_SIZE
  {
    var n := CountAt(f);
    if len < 6 || !(1 <= n <= 0x78 && f[5] == 2 * n % 0x100) then Served(MB_EX_ILLEGAL_DATA_VALUE, d, f, len)
    else if !HasRegs(l, AddrAt(f), n) then Served(MB_EX_ILLEGAL_DATA_ADDRESS, d, f, len)
    else Served(MB_EX_NONE, WriteRegs(l, d, AddrAt(f), RegsOf(f[6..], n)), f, 5)
  }

  function ServeReadRegisters(l: Layout, d: Data, f: seq<byte>, len: nat): (s: Served)
    requires Fits(l, d) && |f| == FRAME_SIZE
  {
    var n := CountAt(f);
    if len != 5 || !(1 <= n <= 0x7D) then Served(MB_EX_ILLEGAL_DATA_VALUE, d, f, len)
    else
      var head := f[0 := MB_FUNC_READ_HOLDING_REGISTER][1 := 2 * n % 0x100];
      if !HasRegs(l, AddrAt(f), n) then Served(MB_EX_ILLEGAL_DATA_ADDRESS, d, head, 2)
      else Served(MB_EX_NONE, d, Splice(head, 2, RegBytes(ReadRegs(l, d, AddrAt(f), n))), 2 + 2 * n)
  }

  /** A frame too short for function 23 gets itself back as the reply. */
  function ServeReadWriteRegisters(l: Layout, d: Data, f: seq<byte>, len: nat): (s: Served)
    requires Fits(l, d) && |f| == FRAME_SIZE
  {
    var nr, wa, nw := CountAt(f), Word(f[5], f[6]), Word(f[7], f[8]);
    if len < 10 then Served(MB_EX_NONE, d, f, len)
    else if !(1 <= nr <= 0x7D && 1 <= nw <= 0x79 && 2 * nw == f[9]) then Served(MB_EX_ILLEGAL_DATA_VALUE, d, f, len)
    else if !HasRegs(l, wa, nw) then Served(MB_EX_ILLEGAL_DATA_ADDRESS, d, f, len)
    else
      var written := WriteRegs(l, d, wa, RegsOf(f[10..], nw));
      var head := f[0 := MB_FUNC_READWRITE_MULTIPLE_REGISTERS][1 := 2 * nr % 0x100];
      if !HasRegs(l, AddrAt(f), nr) then Served(MB_EX_ILLEGAL_DATA_ADDRESS, written, head, 2)
      else Served(MB_EX_NONE, written, Splice(head, 2, RegBytes(ReadRegs(l, written, AddrAt(f), nr))), 2 + 2 * nr)
  }

  function ServeReadCoils(l: Layout, d: Data, f: seq<byte>, len: nat): (s: Served)
    requires Fits(l, d) && |f| == FRAME_SIZE
  {
    var n := CountAt(f);
    if len != 5 || !(1 <= n < 0x7D0) then Served(MB_EX_ILLEGAL_DATA_VALUE, d, f, len)
    else
      var head := f[0 := MB_FUNC_READ_COILS][1 := CoilBytes(n) % 0x100];
      if !HasCoils(l, AddrAt(f), n) then Served(MB_EX_ILLEGAL_DATA_ADDRESS, d, head, 2)
      else Served(MB_EX_NONE, d, Splice(head, 2, PackBits(Padded(ReadBits(l, d, AddrAt(f), n)))), 2 + CoilBytes(n))
  }

  function ServeWriteCoil(l: Layout, d: Data, f: seq<byte>, len: nat): (s: Served)
    requires Fits(l, d) && |f| == FRAME_SIZE
  {
    if len != 5 || !(f[4] == 0 && (f[3] == 0xFF || f[3] == 0)) then Served(MB_EX_ILLEGAL_DATA_VALUE, d, f, len)
    else if !HasCoils(l, AddrAt(f), 1) then Served(MB_EX_ILLEGAL_DATA_ADDRESS, d, f, len)
    else Served(MB_EX_NONE, WriteBits(l, d, AddrAt(f), 1, BitString([if f[3] == 0xFF then 1 else 0])), f, len)
  }

  function ServeWriteCoils(l: Layout, d: Data, f: seq<byte>, len: nat): (s: Served)
    requires Fits(l, d) && |f| == FRAME_SIZE
  {
    var n := CountAt(f);
    if len <= 5 || !(1 <= n <= 0x7B0 && CoilBytes(n) % 0x100 == f[5]) then Served(MB_EX_ILLEGAL_DATA_VALUE, d, f, len)
    else if !HasCoils(l, AddrAt(f), n) then Served(MB_EX_ILLEGAL_DATA_ADDRESS, d, f, len)
    else Served(MB_EX_NONE, WriteBits(l, d, AddrAt(f), n, BitString(f[6..6 + CoilBytes(n)])), f, 5)
  }

  /** The function codes of the handler table, in its order. */
  const xFuncHandlers: seq<byte> := [
    MB_FUNC_READ_HOLDING_REGISTER, MB_FUNC_WRITE_MULTIPLE_REGISTERS, MB_FUNC_WRITE_REGISTER,
    MB_FUNC_READWRITE_MULTIPLE_REGISTERS, MB_FUNC_READ_COILS, MB_FUNC_WRITE_SINGLE_COIL,
    MB_FUNC_WRITE_MULTIPLE_COILS]

  /** Dispatch on the function code. */
  function Serve(l: Layout, d: Data, f: seq<byte>, len: nat): (s: Served)
    requires Fits(l, d) && |f| == FRAME_SIZE
  {
    if f[0] == MB_FUNC_READ_HOLDING_REGISTER then ServeReadRegisters(l, d, f, len)
    else if f[0] == MB_FUNC_WRITE_MULTIPLE_REGISTERS then ServeWriteRegisters(l, d, f, len)
    else if f[0] == MB_FUNC_WRITE_REGISTER then ServeWriteRegister(l, d, f, len)
    else if f[0] == MB_FUNC_READWRITE_MULTIPLE_REGISTERS then ServeReadWriteRegisters(l, d, f, len)
    else if f[0] == MB_FUNC_READ_COILS then ServeReadCoils(l, d, f, len)
    else if f[0] == MB_FUNC_WRITE_SINGLE_COIL then ServeWriteCoil(l, d, f, len)
    else if f[0] == MB_FUNC_WRITE_MULTIPLE_COILS then ServeWriteCoils(l, d, f, len)
    else Served(MB_EX_ILLEGAL_FUNCTION, d, f, len)
  }

  /** Handlers keep the store's shape and never make a PDU too long to send. */
  lemma ServeShape(l: Layout, d: Data, f: seq<byte>, len: nat)
    requires Fits(l, d) && |f| == FRAME_SIZE && len <= MB_PDU_SIZE_MAX
    ensures var s := Serve(l, d, f, len);
            Fits(l, s.data) && |s.frame| == FRAME_SIZE && s.len <= MB_PDU_SIZE_MAX
  {
    hide Word, RegsOf, RegBytes, BitString, PackBits, Padded;
  }

  /** The outcome `s` of a handler is the answer `a`. */
  predicate Agrees(s: Served, a: Answer) {
    && s.data == a.data
    && match a
       case Refused(why, _) => s.exception == why
       case Replied(pdu, _) => s.exception == MB_EX_NONE && s.len <= |s.frame| && s.frame[..s.len] == pdu
  }

  /** A reply of function code, byte count and the first `n` of the octets put behind them. */
  lemma ReplyPlaced(f: seq<byte>, code: byte, count: byte, octets: seq<byte>, n: nat)
    requires 2 + |octets| <= |f| && n <= |octets|
    ensures Splice(f[0 := code][1 := count], 2, octets)[..2 + n] == [code, count] + octets[..n]
  {
  }

  lemma ServesReadHolding(l: Layout, d: Data, f: seq<byte>, r: Request)
    requires Fits(l, d) && |f| == FRAME_SIZE && r.ReadHolding? && Encode(r) <= f
    ensures Agrees(ServeReadRegisters(l, d, f, |Encode(r)|), Meaning(l, d, r))
  {
    hide Word, RegBytes, ReadRegs, Fields, Splice;
    SubOfPrefix(f, Encode(r), 1, 5);
    assert Encode(r)[1..5] == Fields(r.addr, r.count);
    FieldsAt(f, 1, r.addr, r.count);
    if CountOk(r) && ReadRangeOk(l, r) {
      var octets := RegBytes(ReadRegs(l, d, r.addr, r.count));
      ReplyPlaced(f, MB_FUNC_READ_HOLDING_REGISTER, 2 * r.count, octets, 2 * r.count);
      assert octets[..2 * r.count] == octets;
    }
  }

  lemma ServesWriteRegister(l: Layout, d: Data, f: seq<byte>, r: Request)
    requires Fits(l, d) && |f| == FRAME_SIZE && r.WriteRegister? && Encode(r) <= f
    ensures Agrees(ServeWriteRegister(l, d, f, |Encode(r)|), Meaning(l, d, r))
  {
    hide Word, WriteRegs, Fields;
    SubOfPrefix(f, Encode(r), 1, 5);
    assert Encode(r)[1..5] == Fields(r.addr, r.value);
    FieldsAt(f, 1, r.addr, r.value);
    assert RegsOf(f[3..], 1) == [Word(f[3], f[4])];
  }

  lemma ServesWriteRegisters(l: Layout, d: Data, f: seq<byte>, r: Request)
    requires Fits(l, d) && |f| == FRAME_SIZE && WellFormed(r) && r.WriteRegisters? && Encode(r) <= f
    ensures Agrees(ServeWriteRegisters(l, d, f, |Encode(r)|), Meaning(l, d, r))
  {
    hide Word, RegBytes, RegsOf, WriteRegs, Fields;
    var n := |r.values|;
    var head := [MB_FUNC_WRITE_MULTIPLE_REGISTERS] + Fields(r.addr, n) + [2 * n];
    PrefixParts(f, head, RegBytes(r.values));
    assert f[1..5] == f[..6][1..5] == Fields(r.addr, n) && f[5] == f[..6][5];
    FieldsAt(f, 1, r.addr, n);
    RegsRoundTrip(r.values, f[6 + 2 * n..]);
    assert f[..5] == f[..6][..5] == Encode(r)[..5];
  }

  lemma ReadWriteFields(f: seq<byte>, r: Request)
    requires |f| == FRAME_SIZE && WellFormed(r) && r.ReadWriteRegisters? && Encode(r) <= f
    ensures AddrAt(f) == r.addr && CountAt(f) == r.count && |Encode(r)| >= 10
    ensures Word(f[5], f[6]) == r.writeAddr && Word(f[7], f[8]) == |r.values| && f[9] == 2 * |r.values|
    ensures 10 + 2 * |r.values| <= |f| && RegsOf(f[10..], |r.values|) == r.values
  {
    hide Word, RegBytes, RegsOf, Fields;
    var n := |r.values|;
    var head := [MB_FUNC_READWRITE_MULTIPLE_REGISTERS] + Fields(r.addr, r.count) + Fields(r.writeAddr, n) + [2 * n];
    PrefixParts(f, head, RegBytes(r.values));
    assert f[1..5] == f[..10][1..5] == Fields(r.addr, r.count);
    assert f[5..9] == f[..10][5..9] == Fields(r.writeAddr, n);
    assert f[9] == f[..10][9];
    FieldsAt(f, 1, r.addr, r.count);
    FieldsAt(f, 5, r.writeAddr, n);
    RegsRoundTrip(r.values, f[10 + 2 * n..]);
  }

  lemma ServesReadWriteRegisters(l: Layout, d: Data, f: seq<byte>, r: Request)
    requires Fits(l, d) && |f| == FRAME_SIZE && WellFormed(r) && r.ReadWriteRegisters? && Encode(r) <= f
    ensures Agrees(ServeReadWriteRegisters(l, d, f, |Encode(r)|), Meaning(l, d, r))
  {
    hide Word, RegBytes, RegsOf, WriteRegs, ReadRegs, Fields, Splice, Encode, AddrAt, CountAt;
    ReadWriteFields(f, r);
    if CountOk(r) && WriteRangeOk(l, r) && ReadRangeOk(l, r) {
      var octets := RegBytes(ReadRegs(l, WriteRegs(l, d, r.writeAddr, r.values), r.addr, r.count));
      ReplyPlaced(f, MB_FUNC_READWRITE_MULTIPLE_REGISTERS, 2 * r.count, octets, 2 * r.count);
      assert octets[..2 * r.count] == octets;
    }
  }

  lemma ServesReadCoils(l: Layout, d: Data, f: seq<byte>, r: Request)
    requires Fits(l, d) && |f| == FRAME_SIZE && r.ReadCoils? && Encode(r) <= f
    ensures Agrees(ServeReadCoils(l, d, f, |Encode(r)|), Meaning(l, d, r))
  {
    hide Word, PackBits, ReadBits, Padded, Fields, Splice;
    SubOfPrefix(f, Encode(r), 1, 5);
    assert Encode(r)[1..5] == Fields(r.addr, r.count);
    FieldsAt(f, 1, r.addr, r.count);
    if CountOk(r) && ReadRangeOk(l, r) {
      ReplyPlaced(f, MB_FUNC_READ_COILS, CoilBytes(r.count), PackBits(Padded(ReadBits(l, d, r.addr, r.count))),
        CoilBytes(r.count));
    }
  }

  lemma ServesWriteCoil(l: Layout, d: Data, f: seq<byte>, r: Request)
    requires Fits(l, d) && |f| == FRAME_SIZE && r.WriteCoil? && Encode(r) <= f
    ensures Agrees(ServeWriteCoil(l, d, f, |Encode(r)|), Meaning(l, d, r))
  {
    hide Word, BitString, WriteBits;
    var v := if r.on then 0xFF00 else 0;
    SubOfPrefix(f, Encode(r), 1, 5);
    assert Encode(r)[1..5] == Fields(r.addr, v);
    FieldsAt(f, 1, r.addr, v);
    assert f[3] == Hi(v) && f[4] == Lo(v);
  }

  lemma ServesWriteCoils(l: Layout, d: Data, f: seq<byte>, r: Request)
    requires Fits(l, d) && |f| == FRAME_SIZE && WellFormed(r) && r.WriteCoils? && Encode(r) <= f
    ensures Agrees(ServeWriteCoils(l, d, f, |Encode(r)|), Meaning(l, d, r))
  {
    hide Word, BitString, WriteBits, Fields;
    var head := [MB_FUNC_WRITE_MULTIPLE_COILS] + Fields(r.addr, r.count) + [CoilBytes(r.count)];
    PrefixParts(f, head, r.packed);
    assert f[1..5] == f[..6][1..5] == Fields(r.addr, r.count) && f[5] == f[..6][5];
    FieldsAt(f, 1, r.addr, r.count);
    assert f[..5] == f[..6][..5] == Encode(r)[..5];
  }

  /** Given any request's PDU the slave does what the protocol says, and replies what it says. */
  lemma ServesRequest(l: Layout, d: Data, f: seq<byte>, r: Request)
    requires Fits(l, d) && |f| == FRAME_SIZE && WellFormed(r) && Encode(r) <= f
    ensures Agrees(Serve(l, d, f, |Encode(r)|), Meaning(l, d, r))
  {
    hide Agrees, Meaning, ServeReadRegisters, ServeWriteRegister, ServeWriteRegisters, ServeReadWriteRegisters,
      ServeReadCoils, ServeWriteCoil, ServeWriteCoils, RegBytes, Fields;
    assert f[0] == Encode(r)[0];
    match r
    case ReadHolding(_, _) => ServesReadHolding(l, d, f, r);
    case WriteRegister(_, _) => ServesWriteRegister(l, d, f, r);
    case WriteRegisters(_, _) => ServesWriteRegisters(l, d, f, r);
    case ReadWriteRegisters(_, _, _, _) => ServesReadWriteRegisters(l, d, f, r);
    case ReadCoils(_, _) => ServesReadCoils(l, d, f, r);
    case WriteCoil(_, _) => ServesWriteCoil(l, d, f, r);
    case WriteCoils(_, _, _) => ServesWriteCoils(l, d, f, r);
  }

  /** A PDU of function 23 of fewer than ten octets is sent back as it came, as if it had been carried out. */
  lemma ShortReadWriteEchoed(l: Layout, d: Data, f: seq<byte>, len: nat)
    requires Fits(l, d) && |f| == FRAME_SIZE && f[0] == MB_FUNC_READWRITE_MULTIPLE_REGISTERS && len < 10
    ensures Serve(l, d, f, len) == Served(MB_EX_NONE, d, f, len)
  {
  }

  // ---------- Frames shorter than they say ----------

  /** How many octets of its PDU a write needs for all it says it writes. */
  function Needed(f: seq<byte>): nat
    requires |f| == FRAME_SIZE
  {
    if f[0] == MB_FUNC_WRITE_MULTIPLE_REGISTERS then 6 + 2 * CountAt(f)
    else if f[0] == MB_FUNC_WRITE_MULTIPLE_COILS then 6 + CoilBytes(CountAt(f))
    else if f[0] == MB_FUNC_READWRITE_MULTIPLE_REGISTERS then 10 + 2 * Word(f[7], f[8])
    else 0
  }

  /** The handler's write is carried out. */
  predicate WriteDone(l: Layout, f: seq<byte>, len: nat)
    requires |f| == FRAME_SIZE
  {
    var n := CountAt(f);
    if f[0] == MB_FUNC_WRITE_MULTIPLE_REGISTERS then
      len >= 6 && 1 <= n <= 0x78 && f[5] == 2 * n % 0x100 && HasRegs(l, AddrAt(f), n)
    else if f[0] == MB_FUNC_WRITE_MULTIPLE_COILS then
      len > 5 && 1 <= n <= 0x7B0 && CoilBytes(n) % 0x100 == f[5] && HasCoils(l, AddrAt(f), n)
    else
      var wa, nw := Word(f[5], f[6]), Word(f[7], f[8]);
      && f[0] == MB_FUNC_READWRITE_MULTIPLE_REGISTERS && len >= 10
      && 1 <= n <= 0x7D && 1 <= nw <= 0x79 && 2 * nw == f[9] && HasRegs(l, wa, nw)
  }

  /** What is stored does not depend on octets behind the PDU. */
  ghost predicate PduDecides(l: Layout, d: Data, f: seq<byte>, len: nat)
    requires Fits(l, d) && |f| == FRAME_SIZE && len <= FRAME_SIZE
  {
    forall g: seq<byte> :: |g| == FRAME_SIZE && g[..len] == f[..len] ==>
      Serve(l, d, g, len).data == Serve(l, d, f, len).data
  }

  lemma OtherRegister(l: Layout, d: Data, a: u16, regs: seq<u16>, other: seq<u16>, k: nat)
    requires Fits(l, d) && |regs| == |other| && HasRegs(l, a, |regs|) && k < |regs| && regs[k] != other[k]
    ensures WriteRegs(l, d, a, regs) != WriteRegs(l, d, a, other)
  {
    var i := a - l.holding.start + k;
    assert WriteRegs(l, d, a, regs).holding[i] == regs[k] && WriteRegs(l, d, a, other).holding[i] == other[k];
  }

  /**
   * A write of several registers or coils is carried out whatever the length of its PDU, if only that holds the
   * counts. What it stores depends on the PDU alone just when the PDU holds all that is counted; else octets left
   * in the buffer behind it are stored.
   */
  lemma StaleOctetsIff(l: Layout, d: Data, f: seq<byte>, len: nat)
    requires Fits(l, d) && |f| == FRAME_SIZE && len <= FRAME_SIZE && WriteDone(l, f, len)
    ensures PduDecides(l, d, f, len) <==> Needed(f) <= len
  {
    hide Word, RegsOf, WriteRegs, WriteBits, BitString;
    if Needed(f) > len {
      var at := Needed(f) - 1;
      var g := f[at := if f[at] % 2 == 0 then f[at] + 1 else f[at] - 1];
      assert g[..len] == f[..len] && |g| == FRAME_SIZE;
      SameHead(f, g, len);
      LastOctetMatters(l, d, f, g, len);
    } else {
      forall g: seq<byte> | |g| == FRAME_SIZE && g[..len] == f[..len]
        ensures Serve(l, d, g, len).data == Serve(l, d, f, len).data
      {
        SameHead(f, g, len);
        SameOctets(f, g, 6, Needed(f), len);
        if f[0] == MB_FUNC_WRITE_MULTIPLE_COILS {
          assert f[6..6 + CoilBytes(CountAt(f))] == g[6..6 + CoilBytes(CountAt(f))];
        } else if f[0] == MB_FUNC_WRITE_MULTIPLE_REGISTERS {
          RegsPrefix(f[6..], g[6..], CountAt(f));
        } else {
          SameOctets(f, g, 10, Needed(f), len);
          RegsPrefix(f[10..], g[10..], Word(f[7], f[8]));
        }
      }
    }
  }

  lemma SameHead(f: seq<byte>, g: seq<byte>, len: nat)
    requires |f| == |g| && len <= |f| && g[..len] == f[..len]
    ensures forall k :: 0 <= k < len ==> g[k] == f[k]
  {
    assert forall k :: 0 <= k < len ==> g[k] == g[..len][k] && f[k] == f[..len][k];
  }

  lemma SameOctets(f: seq<byte>, g: seq<byte>, from: nat, to: nat, len: nat)
    requires |f| == |g| && from <= to <= len <= |f| && forall k :: 0 <= k < len ==> g[k] == f[k]
    ensures f[from..to] == g[from..to] && f[from..][..to - from] == g[from..][..to - from]
  {
  }

  /** The last octet counted, where it differs in its lowest bit, makes what is stored differ. */
  lemma LastOctetMatters(l: Layout, d: Data, f: seq<byte>, g: seq<byte>, len: nat)
    requires Fits(l, d) && |f| == |g| == FRAME_SIZE && len <= FRAME_SIZE && WriteDone(l, f, len) && len < Needed(f)
    requires (f[Needed(f) - 1] % 2 == 1) != (g[Needed(f) - 1] % 2 == 1)
    requires forall k :: 0 <= k < FRAME_SIZE && k != Needed(f) - 1 ==> g[k] == f[k]
    ensures Serve(l, d, g, len).data != Serve(l, d, f, len).data
  {
    hide Word, RegsOf, WriteRegs, WriteBits, BitString;
    var n := CountAt(f);
    if f[0] == MB_FUNC_WRITE_MULTIPLE_COILS {
      OtherCoil(l, d, AddrAt(f), n, f[6..6 + CoilBytes(n)], g[6..6 + CoilBytes(n)]);
    } else if f[0] == MB_FUNC_WRITE_MULTIPLE_REGISTERS {
      LastRegisterDiffers(f[6..], g[6..], n);
      OtherRegister(l, d, AddrAt(f), RegsOf(f[6..], n), RegsOf(g[6..], n), n - 1);
    } else {
      var wa, nw := Word(f[5], f[6]), Word(f[7], f[8]);
      LastRegisterDiffers(f[10..], g[10..], nw);
      OtherRegister(l, d, wa, RegsOf(f[10..], nw), RegsOf(g[10..], nw), nw - 1);
    }
  }

  lemma OtherCoil(l: Layout, d: Data, a: u16, n: nat, s: seq<byte>, t: seq<byte>)
    requires Fits(l, d) && HasCoils(l, a, n) && n >= 1 && |s| == |t| == CoilBytes(n)
    requires (s[|s| - 1] % 2 == 1) != (t[|t| - 1] % 2 == 1)
    ensures WriteBits(l, d, a, n, BitString(s)) != WriteBits(l, d, a, n, BitString(t))
  {
    hide BitString, Stored;
    LowBit(s);
    LowBit(t);
    StoredBit(d.coils, a - l.coils.start, n, BitString(s), 8 * (|s| - 1));
    StoredBit(d.coils, a - l.coils.start, n, BitString(t), 8 * (|s| - 1));
  }

  lemma LowBit(s: seq<byte>)
    requires s != []
    ensures BitString(s)[8 * (|s| - 1)] == (s[|s| - 1] % 2 == 1)
  {
    hide BitString;
    BitStringAt(s, |s| - 1, 0);
  }

  lemma LastRegisterDiffers(s: seq<byte>, t: seq<byte>, n: nat)
    requires 1 <= n && 2 * n <= |s| == |t| && s[2 * n - 2] == t[2 * n - 2] && s[2 * n - 1] != t[2 * n - 1]
    ensures RegsOf(s, n)[n - 1] != RegsOf(t, n)[n - 1]
  {
    RegAt(s, n, n - 1);
    RegAt(t, n, n - 1);
  }

  // ---------- The handlers ----------

  /** Offset of the PDU in the receive buffer. */
  const MB_SER_PDU_PDU_OFF := 1

  ghost predicate Apart(store: SlaveStore, pucFrame: array<byte>) {
    && store.Valid()
    && pucFrame.Length == MB_SER_PDU_SIZE_MAX
    && pucFrame as object != store.usSRegHoldBuf && pucFrame != store.ucSCoilBuf
  }

  method eMBFuncWriteHoldingRegister(store: SlaveStore, pucFrame: array<byte>, usLen: nat)
    returns (eStatus: Exception, newLen: nat)
    requires Apart(store, pucFrame)
    modifies pucFrame, store.usSRegHoldBuf
    ensures pucFrame[0] == old(pucFrame[0])
    ensures Served(eStatus, store.Contents(), pucFrame[1..], newLen) ==
            ServeWriteRegister(store.layout, old(store.Contents()), old(pucFrame[1..]), usLen)
  {
    hide BitString, OneUp, OneDown, Word, RegsOf, WriteRegs, RegBytes, ReadRegs;
    newLen := usLen;
    if usLen == 5 {
      var usRegAddress := OneUp(Word(pucFrame[2], pucFrame[3]));
      OneDownUndoesUp(Word(pucFrame[2], pucFrame[3]));
      ghost var f := pucFrame[1..];
      assert pucFrame[4..] == f[3..];
      var eRegStatus := store.eMBRegHoldingCB(pucFrame, 4, usRegAddress, 1, MB_REG_WRITE);
      eStatus := prveMBError2Exception(eRegStatus);
    } else {
      eStatus := MB_EX_ILLEGAL_DATA_VALUE;
    }
  }

  /** Registers put behind function code and byte count are the answer. */
  lemma ReadHoldingServed(l: Layout, d: Data, f: seq<byte>, before: seq<byte>, after: seq<byte>)
    requires Fits(l, d) && |f| == FRAME_SIZE && |before| == FRAME_SIZE + 1
    requires 1 <= CountAt(f) <= 0x7D && HasRegs(l, AddrAt(f), CountAt(f))
    requires before[1..] == f[0 := MB_FUNC_READ_HOLDING_REGISTER][1 := CountAt(f) * 2 % 0x100]
    requires after == Splice(before, 3, RegBytes(ReadRegs(l, d, AddrAt(f), CountAt(f))))
    ensures |after| == |before| && after[0] == before[0]
    ensures ServeReadRegisters(l, d, f, 5) == Served(MB_EX_NONE, d, after[1..], 2 + CountAt(f) * 2)
  {
    hide Word, RegBytes, ReadRegs, HasRegs, Splice;
    SpliceTail(before, 3, RegBytes(ReadRegs(l, d, AddrAt(f), CountAt(f))));
  }

  method eMBFuncReadHoldingRegister(store: SlaveStore, pucFrame: array<byte>, usLen: nat)
    returns (eStatus: Exception, newLen: nat)
    requires Apart(store, pucFrame)
    modifies pucFrame, store.usSRegHoldBuf
    ensures pucFrame[0] == old(pucFrame[0])
    ensures Served(eStatus, store.Contents(), pucFrame[1..], newLen) ==
            ServeReadRegisters(store.layout, old(store.Contents()), old(pucFrame[1..]), usLen)
  {
    hide BitString, OneUp, OneDown, Word, RegsOf, WriteRegs, RegBytes, ReadRegs, Splice;
    newLen := usLen;
    if usLen == 5 {
      var usRegAddress := OneUp(Word(pucFrame[2], pucFrame[3]));
      var usRegCount := Word(pucFrame[4], pucFrame[5]);
      OneDownUndoesUp(Word(pucFrame[2], pucFrame[3]));
      if 1 <= usRegCount <= 0x7D {
        pucFrame[1] := MB_FUNC_READ_HOLDING_REGISTER;
        pucFrame[2] := usRegCount * 2 % 0x100;
        newLen := 2;
        ghost var before := pucFrame[..];
        assert before[1..] == old(pucFrame[1..])[0 := MB_FUNC_READ_HOLDING_REGISTER][1 := usRegCount * 2 % 0x100];
        var eRegStatus := store.eMBRegHoldingCB(pucFrame, 3, usRegAddress, usRegCount, MB_REG_READ);
        eStatus := prveMBError2Exception(eRegStatus);
        if eRegStatus == MB_ENOERR {
          ReadHoldingServed(store.layout, old(store.Contents()), old(pucFrame[1..]), before, pucFrame[..]);
          newLen := newLen + usRegCount * 2;
        }
      } else {
        eStatus := MB_EX_ILLEGAL_DATA_VALUE;
      }
    } else {
      eStatus := MB_EX_ILLEGAL_DATA_VALUE;
    }
  }

  method eMBFuncWriteMultipleHoldingRegister(store: SlaveStore, pucFrame: array<byte>, usLen: nat)
    returns (eStatus: Exception, newLen: nat)
    requires Apart(store, pucFrame)
    modifies pucFrame, store.usSRegHoldBuf
    ensures pucFrame[0] == old(pucFrame[0])
    ensures Served(eStatus, store.Contents(), pucFrame[1..], newLen) ==
            ServeWriteRegisters(store.layout, old(store.Contents()), old(pucFrame[1..]), usLen)
  {
    hide BitString, OneUp, OneDown, Word, RegsOf, WriteRegs, RegBytes, ReadRegs;
    newLen := usLen;
    if usLen >= 6 {
      var usRegAddress := OneUp(Word(pucFrame[2], pucFrame[3]));
      var usRegCount := Word(pucFrame[4], pucFrame[5]);
      var ucRegByteCount := pucFrame[6];
      OneDownUndoesUp(Word(pucFrame[2], pucFrame[3]));
      if usRegCount >= 1 && usRegCount <= 0x78 && ucRegByteCount == 2 * usRegCount % 0x100 {
        ghost var f := pucFrame[1..];
        assert pucFrame[7..] == f[6..];
        var eRegStatus := store.eMBRegHoldingCB(pucFrame, 7, usRegAddress, usRegCount, MB_REG_WRITE);
        eStatus := prveMBError2Exception(eRegStatus);
        if eRegStatus == MB_ENOERR {
          newLen := 5;
        }
      } else {
        eStatus := MB_EX_ILLEGAL_DATA_VALUE;
      }
    } else {
      eStatus := MB_EX_ILLEGAL_DATA_VALUE;
    }
  }

  /** The same after a write; if there are no such registers the head alone has been put into the buffer. */
  lemma ReadWriteServed(l: Layout, d: Data, f: seq<byte>, len: nat, written: Data, before: seq<byte>, after: seq<byte>)
    requires Fits(l, d) && |f| == FRAME_SIZE && |before| == FRAME_SIZE + 1 && len >= 10
    requires var wa, nw := Word(f[5], f[6]), Word(f[7], f[8]);
             && 1 <= CountAt(f) <= 0x7D && 1 <= nw <= 0x79 && 2 * nw == f[9] && HasRegs(l, wa, nw)
             && written == WriteRegs(l, d, wa, RegsOf(f[10..], nw))
    requires before[1..] == f[0 := MB_FUNC_READWRITE_MULTIPLE_REGISTERS][1 := CountAt(f) * 2 % 0x100]
    requires Fits(l, written)
    requires after == if HasRegs(l, AddrAt(f), CountAt(f))
                      then Splice(before, 3, RegBytes(ReadRegs(l, written, AddrAt(f), CountAt(f)))) else before
    ensures |after| == |before| && after[0] == before[0]
    ensures ServeReadWriteRegisters(l, d, f, len) ==
            if HasRegs(l, AddrAt(f), CountAt(f)) then Served(MB_EX_NONE, written, after[1..], 2 + 2 * CountAt(f))
            else Served(MB_EX_ILLEGAL_DATA_ADDRESS, written, after[1..], 2)
  {
    hide Word, RegBytes, ReadRegs, HasRegs, Splice, WriteRegs, RegsOf;
    if HasRegs(l, AddrAt(f), CountAt(f)) {
      SpliceTail(before, 3, RegBytes(ReadRegs(l, written, AddrAt(f), CountAt(f))));
    }
  }

  method eMBFuncReadWriteMultipleHoldingRegister(store: SlaveStore, pucFrame: array<byte>, usLen: nat)
    returns (eStatus: Exception, newLen: nat)
    requires Apart(store, pucFrame)
    modifies pucFrame, store.usSRegHoldBuf
    ensures pucFrame[0] == old(pucFrame[0])
    ensures Served(eStatus, store.Contents(), pucFrame[1..], newLen) ==
            ServeReadWriteRegisters(store.layout, old(store.Contents()), old(pucFrame[1..]), usLen)
  {
    hide BitString, OneUp, OneDown, Word, RegsOf, WriteRegs, RegBytes, ReadRegs, Splice;
    newLen, eStatus := usLen, MB_EX_NONE;
    if usLen >= 10 {
      var usRegReadAddress := OneUp(Word(pucFrame[2], pucFrame[3]));
      var usRegReadCount := Word(pucFrame[4], pucFrame[5]);
      var usRegWriteAddress := OneUp(Word(pucFrame[6], pucFrame[7]));
      var usRegWriteCount := Word(pucFrame[8], pucFrame[9]);
      var ucRegWriteByteCount := pucFrame[10];
      OneDownUndoesUp(Word(pucFrame[2], pucFrame[3]));
      OneDownUndoesUp(Word(pucFrame[6], pucFrame[7]));
      if && usRegReadCount >= 1 && usRegReadCount <= 0x7D
         && usRegWriteCount >= 1 && usRegWriteCount <= 0x79
         && 2 * usRegWriteCount == ucRegWriteByteCount
      {
        ghost var f := pucFrame[1..];
        assert pucFrame[11..] == f[10..];
        var eRegStatus := store.eMBRegHoldingCB(pucFrame, 11, usRegWriteAddress, usRegWriteCount, MB_REG_WRITE);
        if eRegStatus == MB_ENOERR {
          pucFrame[1] := MB_FUNC_READWRITE_MULTIPLE_REGISTERS;
          pucFrame[2] := usRegReadCount * 2 % 0x100;
          newLen := 2;
          ghost var before := pucFrame[..];
          ghost var regs := store.Contents();
          assert before[1..] == f[0 := MB_FUNC_READWRITE_MULTIPLE_REGISTERS][1 := usRegReadCount * 2 % 0x100];
          eRegStatus := store.eMBRegHoldingCB(pucFrame, 3, usRegReadAddress, usRegReadCount, MB_REG_READ);
          if eRegStatus == MB_ENOERR {
            newLen := newLen + 2 * usRegReadCount;
          }
          ReadWriteServed(store.layout, old(store.Contents()), f, usLen, regs, before, pucFrame[..]);
        }
        if eRegStatus != MB_ENOERR {
          eStatus := prveMBError2Exception(eRegStatus);
        }
      } else {
        eStatus := MB_EX_ILLEGAL_DATA_VALUE;
      }
    }
  }

  /** Coils packed behind function code and byte count are the answer. */
  lemma ReadCoilsServed(l: Layout, d: Data, f: seq<byte>, before: seq<byte>, after: seq<byte>)
    requires Fits(l, d) && |f| == FRAME_SIZE && |before| == |after| == FRAME_SIZE + 1
    requires 1 <= CountAt(f) < 0x7D0 && HasCoils(l, AddrAt(f), CountAt(f))
    requires before[1..] == f[0 := MB_FUNC_READ_COILS][1 := CoilBytes(CountAt(f)) % 0x100]
    requires BitString(after[3..3 + CountAt(f) / 8 + 1]) == Padded(ReadBits(l, d, AddrAt(f), CountAt(f)))
    requires after[..3] == before[..3] && after[3 + CountAt(f) / 8 + 1..] == before[3 + CountAt(f) / 8 + 1..]
    ensures after[0] == before[0]
    ensures ServeReadCoils(l, d, f, 5) == Served(MB_EX_NONE, d, after[1..], 2 + CoilBytes(CountAt(f)) % 0x100)
  {
    hide BitString, PackBits, Splice, Padded, ReadBits, HasCoils, Word;
    var octets := after[3..3 + CountAt(f) / 8 + 1];
    PackedBitString(octets);
    SpliceByParts(before, 3, octets, after);
    SpliceTail(before, 3, octets);
  }

  method eMBFuncReadCoils(store: SlaveStore, pucFrame: array<byte>, usLen: nat)
    returns (eStatus: Exception, newLen: nat)
    requires Apart(store, pucFrame)
    modifies pucFrame, store.ucSCoilBuf
    ensures pucFrame[0] == old(pucFrame[0])
    ensures Served(eStatus, store.Contents(), pucFrame[1..], newLen) ==
            ServeReadCoils(store.layout, old(store.Contents()), old(pucFrame[1..]), usLen)
  {
    hide BitString, OneUp, OneDown, Word, WriteBits, ReadBits, PackBits, Padded, Splice;
    newLen := usLen;
    if usLen == 5 {
      var usRegAddress := OneUp(Word(pucFrame[2], pucFrame[3]));
      var usCoilCount := Word(pucFrame[4], pucFrame[5]);
      OneDownUndoesUp(Word(pucFrame[2], pucFrame[3]));
      if usCoilCount >= 1 && usCoilCount < 0x7D0 {
        pucFrame[1] := MB_FUNC_READ_COILS;
        var ucNBytes := CoilBytes(usCoilCount) % 0x100;
        pucFrame[2] := ucNBytes;
        newLen := 2;
        ghost var before := pucFrame[..];
        assert before[1..] ==
               old(pucFrame[1..])[0 := MB_FUNC_READ_COILS][1 := CoilBytes(usCoilCount) % 0x100];
        var eRegStatus := store.eMBRegCoilsCB(pucFrame, 3, usRegAddress, usCoilCount, MB_REG_READ);
        eStatus := prveMBError2Exception(eRegStatus);
        if eRegStatus == MB_ENOERR {
          newLen := newLen + ucNBytes;
          ReadCoilsServed(store.layout, old(store.Contents()), old(pucFrame[1..]), before, pucFrame[..]);
        }
      } else {
        eStatus := MB_EX_ILLEGAL_DATA_VALUE;
      }
    } else {
      eStatus := MB_EX_ILLEGAL_DATA_VALUE;
    }
  }

  method eMBFuncWriteCoil(store: SlaveStore, pucFrame: array<byte>, usLen: nat)
    returns (eStatus: Exception, newLen: nat)
    requires Apart(store, pucFrame)
    modifies store.ucSCoilBuf
    ensures Served(eStatus, store.Contents(), pucFrame[1..], newLen) ==
            ServeWriteCoil(store.layout, old(store.Contents()), old(pucFrame[1..]), usLen)
  {
    hide BitString, OneUp, OneDown, Word, WriteBits, ReadBits, PackBits, Padded;
    newLen := usLen;
    if usLen == 5 {
      var usRegAddress := OneUp(Word(pucFrame[2], pucFrame[3]));
      OneDownUndoesUp(Word(pucFrame[2], pucFrame[3]));
      if pucFrame[5] == 0x00 && (pucFrame[4] == 0xFF || pucFrame[4] == 0x00) {
        var ucBuf := new byte[2];
        ucBuf[1] := 0;
        if pucFrame[4] == 0xFF {
          ucBuf[0] := 1;
        } else {
          ucBuf[0] := 0;
        }
        assert ucBuf[0..1] == [if pucFrame[4] == 0xFF then 1 else 0];
        var eRegStatus := store.eMBRegCoilsCB(ucBuf, 0, usRegAddress, 1, MB_REG_WRITE);
        eStatus := prveMBError2Exception(eRegStatus);
      } else {
        eStatus := MB_EX_ILLEGAL_DATA_VALUE;
      }
    } else {
      eStatus := MB_EX_ILLEGAL_DATA_VALUE;
    }
  }

  method eMBFuncWriteMultipleCoils(store: SlaveStore, pucFrame: array<byte>, usLen: nat)
    returns (eStatus: Exception, newLen: nat)
    requires Apart(store, pucFrame)
    modifies pucFrame, store.ucSCoilBuf
    ensures pucFrame[0] == old(pucFrame[0])
    ensures Served(eStatus, store.Contents(), pucFrame[1..], newLen) ==
            ServeWriteCoils(store.layout, old(store.Contents()), old(pucFrame[1..]), usLen)
  {
    hide BitString, OneUp, OneDown, Word, WriteBits, ReadBits, PackBits, Padded;
    newLen := usLen;
    if usLen > 5 {
      var usRegAddress := OneUp(Word(pucFrame[2], pucFrame[3]));
      var usCoilCnt := Word(pucFrame[4], pucFrame[5]);
      var ucByteCount := pucFrame[6];
      OneDownUndoesUp(Word(pucFrame[2], pucFrame[3]));
      var ucByteCountVerify := CoilBytes(usCoilCnt) % 0x100;
      if usCoilCnt >= 1 && usCoilCnt <= 0x7B0 && ucByteCountVerify == ucByteCount {
        ghost var f := pucFrame[1..];
        assert pucFrame[7..7 + CoilBytes(usCoilCnt)] == f[6..6 + CoilBytes(usCoilCnt)];
        var eRegStatus := store.eMBRegCoilsCB(pucFrame, 7, usRegAddress, usCoilCnt, MB_REG_WRITE);
        eStatus := prveMBError2Exception(eRegStatus);
        if eRegStatus == MB_ENOERR {
          newLen := 5;
        }
      } else {
        eStatus := MB_EX_ILLEGAL_DATA_VALUE;
      }
    } else {
      eStatus := MB_EX_ILLEGAL_DATA_VALUE;
    }
  }
}
