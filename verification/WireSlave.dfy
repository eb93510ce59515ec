/** What a slave answers on the line and what it stores, octet by octet, in numbers. */
module WireSlave {
  import opened Bytes
  import opened Octets
  import opened Modbus
  import opened MbCrc
  import opened Rtu
  import opened CoilCopy
  import opened Store
  import opened Requests
  import opened Wire
  import opened SlaveFunctions
  import S = SlaveMachine

  // ---------- Exceptions ----------

  /**
   * The exception code with which any PDU, the first `len` octets of `f`, is answered; 0 if it is answered normally.
   * 1: no such function. 3: wrong length, quantity or value. 2: an address the device does not have.
   */
  function ExceptionOctet(l: Layout, f: seq<byte>, len: nat): (code: byte)
    requires |f| == FRAME_SIZE
  {
    var a, n := Number(f[1], f[2]), Number(f[3], f[4]);
    if f[0] == 0x01 then
      if len != 5 || n < 1 || n > 1999 then 3 else if Among(a, n, l.coils) then 0 else 2
    else if f[0] == 0x03 then
      if len != 5 || n < 1 || n > 125 then 3 else if Among(a, n, l.holding) then 0 else 2
    else if f[0] == 0x05 then
      if len != 5 || f[4] != 0 || (f[3] != 0 && f[3] != 0xFF) then 3 else if Among(a, 1, l.coils) then 0 else 2
    else if f[0] == 0x06 then
      if len != 5 then 3 else if Among(a, 1, l.holding) then 0 else 2
    else if f[0] == 0x0F then
      if len < 6 || n < 1 || n > 1968 || f[5] != (n + 7) / 8 then 3 else if Among(a, n, l.coils) then 0 else 2
    else if f[0] == 0x10 then
      if len < 6 || n < 1 || n > 120 || f[5] != 2 * n then 3 else if Among(a, n, l.holding) then 0 else 2
    else if f[0] == 0x17 then
      var wa, nw := Number(f[5], f[6]), Number(f[7], f[8]);
      if len < 10 then 0
      else if n < 1 || n > 125 || nw < 1 || nw > 121 || f[9] != 2 * nw then 3
      else if Among(wa, nw, l.holding) && Among(a, n, l.holding) then 0 else 2
    else 1
  }

  lemma ReadsException(l: Layout, d: Data, f: seq<byte>, len: nat)
    requires Fits(l, d) && |f| == FRAME_SIZE
    ensures f[0] == 0x01 ==> ServeReadCoils(l, d, f, len).exception.Code() == ExceptionOctet(l, f, len)
    ensures f[0] == 0x03 ==> ServeReadRegisters(l, d, f, len).exception.Code() == ExceptionOctet(l, f, len)
  {
    hide ReadRegs, RegBytes, ReadBits, PackBits, Padded, Splice;
  }

  lemma WriteException(l: Layout, d: Data, f: seq<byte>, len: nat)
    requires Fits(l, d) && |f| == FRAME_SIZE
    ensures f[0] == 0x05 ==> ServeWriteCoil(l, d, f, len).exception.Code() == ExceptionOctet(l, f, len)
    ensures f[0] == 0x06 ==> ServeWriteRegister(l, d, f, len).exception.Code() == ExceptionOctet(l, f, len)
  {
    hide RegsOf, WriteRegs, WriteBits, BitString, CoilBytes;
  }

  lemma WriteRegistersException(l: Layout, d: Data, f: seq<byte>, len: nat)
    requires Fits(l, d) && |f| == FRAME_SIZE && f[0] == 0x10
    ensures ServeWriteRegisters(l, d, f, len).exception.Code() == ExceptionOctet(l, f, len)
  {
    hide RegsOf, WriteRegs, CoilBytes;
  }

  lemma WriteCoilsException(l: Layout, d: Data, f: seq<byte>, len: nat)
    requires Fits(l, d) && |f| == FRAME_SIZE && f[0] == 0x0F
    ensures ServeWriteCoils(l, d, f, len).exception.Code() == ExceptionOctet(l, f, len)
  {
    hide WriteBits, BitString, CoilBytes;
    OctetsFor(CountAt(f));
    SmallEnough(CountAt(f));
  }

  lemma SmallEnough(n: nat)
    requires n < 0x1_0000
    ensures n <= 1968 ==> (n + 7) / 8 % 0x100 == (n + 7) / 8
  {
  }

  lemma ReadWriteException(l: Layout, d: Data, f: seq<byte>, len: nat)
    requires Fits(l, d) && |f| == FRAME_SIZE && f[0] == 0x17
    ensures ServeReadWriteRegisters(l, d, f, len).exception.Code() == ExceptionOctet(l, f, len)
  {
    hide RegsOf, WriteRegs, ReadRegs, RegBytes, Splice;
  }

  lemma ServesException(l: Layout, d: Data, f: seq<byte>, len: nat)
    requires Fits(l, d) && |f| == FRAME_SIZE
    ensures Serve(l, d, f, len).exception.Code() == ExceptionOctet(l, f, len)
  {
    hide ServeReadCoils, ServeReadRegisters, ServeWriteCoil, ServeWriteRegister, ServeWriteCoils, ServeWriteRegisters,
      ServeReadWriteRegisters;
    ReadsException(l, d, f, len);
    WriteException(l, d, f, len);
    if f[0] == 0x0F {
      WriteCoilsException(l, d, f, len);
    } else if f[0] == 0x10 {
      WriteRegistersException(l, d, f, len);
    } else if f[0] == 0x17 {
      ReadWriteException(l, d, f, len);
    }
  }

  /**
   * The answer to any PDU for this slave's own address: its address, the function code with the highest bit set and
   * the exception code, or what the handler has left in the buffer, and the check octets.
   */
  lemma AnswerOctets(l: Layout, s: S.Slave)
    requires S.Shaped(l, s) && s.rcv == S.STATE_RX_IDLE && s.rcvAddress != 0
    ensures var f, t := s.buf[1..], S.Execute(l, s);
            var e, served := ExceptionOctet(l, f, s.length), Serve(l, s.data, f, s.length);
            && t.snd == S.STATE_TX_XMIT && t.next == 0 && t.data == served.data && served.len <= |served.frame|
            && t.count <= |t.buf|
            && t.buf[..t.count] ==
               Frame(s.address, if e == 0 then served.frame[..served.len]
                                else [if f[0] < 0x80 then f[0] + 0x80 else f[0], e])
  {
    hide Serve, Frame, CheckOctets, Splice, Fits, ExceptionOctet;
    var f := s.buf[1..];
    ServesException(l, s.data, f, s.length);
    ServeShape(l, s.data, f, s.length);
    var served := Serve(l, s.data, f, s.length);
    var error := served.frame[0 := S.ErrorFunction(f[0])][1 := served.exception.Code()];
    assert ([s.buf[0]] + error)[1..3] == [S.ErrorFunction(f[0]), served.exception.Code()];
    assert ([s.buf[0]] + served.frame)[1..1 + served.len] == served.frame[..served.len];
  }

  /** To address 0 nothing is answered; to another address than that and its own nothing is executed. */
  lemma NotAnswered(l: Layout, s: S.Slave, other: S.Event)
    requires S.Shaped(l, s) && s.enabled
    ensures s.events == {S.EV_EXECUTE} && s.rcvAddress == 0 ==>
              && S.Poll(l, s, other).snd == s.snd
              && S.Poll(l, s, other).data == Serve(l, s.data, s.buf[1..], s.length).data
    ensures s.events == {S.EV_FRAME_RECEIVED} ==>
              (S.Poll(l, s, other).events == {S.EV_EXECUTE} <==>
               S.RtuReceiveOk(s) && (s.buf[0] == s.address || s.buf[0] == 0))
  {
    hide Serve, Fits, Acceptable;
    ServeShape(l, s.data, s.buf[1..], s.length);
  }

  // ---------- Answers to requests ----------

  /** The quantities are allowed. */
  predicate Allowed(r: Request) {
    match r
    case ReadCoils(_, n) => 1 <= n <= 1999
    case ReadHolding(_, n) => 1 <= n <= 125
    case WriteCoil(_, _) => true
    case WriteRegister(_, _) => true
    case WriteCoils(_, n, _) => 1 <= n <= 1968
    case WriteRegisters(_, values) => 1 <= |values| <= 120
    case ReadWriteRegisters(_, n, _, values) => 1 <= n <= 125 && 1 <= |values| <= 121
  }

  /** The device has what is to be written, and what is to be read. */
  predicate CanWrite(l: Layout, r: Request) {
    match r
    case ReadCoils(_, _) => true
    case ReadHolding(_, _) => true
    case WriteCoil(a, _) => Among(a, 1, l.coils)
    case WriteRegister(a, _) => Among(a, 1, l.holding)
    case WriteCoils(a, n, _) => Among(a, n, l.coils)
    case WriteRegisters(a, values) => Among(a, |values|, l.holding)
    case ReadWriteRegisters(_, _, wa, values) => Among(wa, |values|, l.holding)
  }

  predicate CanRead(l: Layout, r: Request) {
    match r
    case ReadCoils(a, n) => Among(a, n, l.coils)
    case ReadHolding(a, n) => Among(a, n, l.holding)
    case ReadWriteRegisters(a, n, _, _) => Among(a, n, l.holding)
    case _ => true
  }

  /** Register `x` after `values` were written from `a` on. */
  function Overwritten(l: Layout, d: Data, a: u16, values: seq<u16>, x: nat): u16
    requires Fits(l, d) && Among(x, 1, l.holding)
  {
    if a <= x < a + |values| then values[x - a] else d.holding[x - l.holding.start]
  }

  /** What is stored is what was sent: every register, and every coil of those named. */
  ghost predicate Stores(l: Layout, d: Data, r: Request, e: Data)
    requires Fits(l, d) && Fits(l, e) && WellFormed(r) && CanWrite(l, r)
  {
    match r
    case WriteRegister(a, v) =>
      forall x: u16 :: Among(x, 1, l.holding) ==> e.holding[x - l.holding.start] == Overwritten(l, d, a, [v], x)
    case WriteRegisters(a, values) =>
      forall x: u16 :: Among(x, 1, l.holding) ==> e.holding[x - l.holding.start] == Overwritten(l, d, a, values, x)
    case ReadWriteRegisters(_, _, a, values) =>
      forall x: u16 :: Among(x, 1, l.holding) ==> e.holding[x - l.holding.start] == Overwritten(l, d, a, values, x)
    case WriteCoil(a, on) => e.holding == d.holding && e.coils[a - l.coils.start] == on
    case WriteCoils(a, n, packed) =>
      && e.holding == d.holding
      && forall k :: 0 <= k < n ==> e.coils[a - l.coils.start + k] == Bit(packed[k / 8], k % 8)
    case _ => e == d
  }

  /** The normal reply to a request. */
  ghost predicate Replies(l: Layout, d: Data, r: Request, pdu: seq<byte>)
    requires Fits(l, d) && WellFormed(r) && Allowed(r) && CanWrite(l, r) && CanRead(l, r)
  {
    match r
    case ReadHolding(a, n) =>
      pdu == [0x03, 2 * n] + Pairs(d.holding[a - l.holding.start..a - l.holding.start + n])
    case ReadWriteRegisters(a, n, wa, values) =>
      && |pdu| == 2 + 2 * n && pdu[0] == 0x17 && pdu[1] == 2 * n
      && forall k :: 0 <= k < n ==> Number(pdu[2 + 2 * k], pdu[3 + 2 * k]) == Overwritten(l, d, wa, values, a + k)
    case ReadCoils(a, n) =>
      && |pdu| == 2 + (n + 7) / 8 && pdu[0] == 0x01 && pdu[1] == (n + 7) / 8
      && forall k :: 0 <= k < 8 * ((n + 7) / 8) ==>
           Bit(pdu[2 + k / 8], k % 8) == (k < n && d.coils[a - l.coils.start + k])
    case WriteCoil(_, _) => pdu == RequestOctets(r)
    case WriteRegister(_, _) => pdu == RequestOctets(r)
    case WriteCoils(_, _, _) => pdu == RequestOctets(r)[..5]
    case WriteRegisters(_, _) => pdu == RequestOctets(r)[..5]
  }

  /**
   * A buffer that begins with the octets of a request is served: with exception 3 if a quantity is not allowed, with
   * exception 2 if an address is missing, of which function 23 has written if only one to read is; and else the
   * octets of the reply are left, and stored is what was sent.
   */
  lemma RequestServed(l: Layout, d: Data, f: seq<byte>, r: Request)
    requires Fits(l, d) && |f| == FRAME_SIZE && WellFormed(r) && RequestOctets(r) <= f
    ensures var s := Serve(l, d, f, |RequestOctets(r)|);
            && Fits(l, s.data)
            && (!Allowed(r) || !CanWrite(l, r) ==> s.data == d)
            && (CanWrite(l, r) && Allowed(r) ==> Stores(l, d, r, s.data))
            && ExceptionOctet(l, f, |RequestOctets(r)|) ==
               (if !Allowed(r) then 3 else if !CanWrite(l, r) || !CanRead(l, r) then 2 else 0)
            && (Allowed(r) && CanWrite(l, r) && CanRead(l, r) ==>
                  s.len <= |s.frame| && Replies(l, d, r, s.frame[..s.len]))
  {
    hide Serve, ExceptionOctet, Stores, Replies, RequestOctets, Reply, Written;
    EncodeIsOctets(r);
    ServesRequest(l, d, f, r);
    ServesException(l, d, f, |Encode(r)|);
    SameConditions(l, r);
    if CanWrite(l, r) && Allowed(r) {
      WrittenStores(l, d, r);
      if CanRead(l, r) {
        ReplyReplies(l, d, r);
      }
    }
  }

  lemma SameConditions(l: Layout, r: Request)
    ensures CountOk(r) <==> Allowed(r)
    ensures WriteRangeOk(l, r) <==> CanWrite(l, r)
    ensures ReadRangeOk(l, r) <==> CanRead(l, r)
  {
  }

  lemma WrittenStores(l: Layout, d: Data, r: Request)
    requires Fits(l, d) && WellFormed(r) && CanWrite(l, r) && WriteRangeOk(l, r) && Allowed(r)
    ensures Stores(l, d, r, Written(l, d, r))
  {
    hide BitString, Bit, Bits, Stored;
    match r
    case WriteCoil(a, on) =>
      var v := BitString([if on then 1 else 0]);
      BitStringAt([if on then 1 else 0], 0, 0);
      BitsAreBits(if on then 1 else 0, 8, 0);
      LowestBit(if on then 1 else 0);
      StoredBit(d.coils, a - l.coils.start, 1, v, 0);
    case WriteCoils(a, n, packed) =>
      forall k | 0 <= k < n ensures Written(l, d, r).coils[a - l.coils.start + k] == Bit(packed[k / 8], k % 8) {
        BitStringAt(packed, k / 8, k % 8);
        BitsAreBits(packed[k / 8], 8, k % 8);
        StoredBit(d.coils, a - l.coils.start, n, BitString(packed), k);
      }
    case _ =>
  }

  lemma LowestBit(x: nat)
    ensures Bit(x, 0) == (x % 2 == 1)
  {
  }

  lemma ReplyReplies(l: Layout, d: Data, r: Request)
    requires Fits(l, d) && WellFormed(r) && Allowed(r) && CanWrite(l, r) && CanRead(l, r)
    requires CountOk(r) && WriteRangeOk(l, r) && ReadRangeOk(l, r) && Fits(l, Written(l, d, r))
    requires Encode(r) == RequestOctets(r)
    ensures Replies(l, d, r, Reply(l, Written(l, d, r), r))
  {
    hide RegBytes, PackBits, Padded, BitString, Stored, Bit, Pairs, Splice;
    var e := Written(l, d, r);
    match r
    case ReadHolding(a, n) => RegBytesArePairs(ReadRegs(l, e, a, n));
    case ReadWriteRegisters(a, n, wa, values) =>
      var regs, pdu := ReadRegs(l, e, a, n), Reply(l, e, r);
      RegBytesArePairs(regs);
      forall k | 0 <= k < n
        ensures Number(pdu[2 + 2 * k], pdu[3 + 2 * k]) == Overwritten(l, d, wa, values, a + k)
      {
        PairAt(regs, k);
        assert regs[k] == e.holding[a + k - l.holding.start];
      }
    case ReadCoils(a, n) => CoilReply(l, d, a, n);
    case _ =>
  }

  lemma PairAt(regs: seq<u16>, k: nat)
    requires k < |regs|
    ensures Number(Pairs(regs)[2 * k], Pairs(regs)[2 * k + 1]) == regs[k]
  {
  }

  lemma CoilReply(l: Layout, d: Data, a: u16, n: u16)
    requires Fits(l, d) && HasCoils(l, a, n) && 1 <= n <= 1999
    ensures Replies(l, d, ReadCoils(a, n), Reply(l, d, ReadCoils(a, n)))
  {
    hide PackBits, BitString, Bit, Bits;
    OctetsFor(n);
    var bits := Padded(ReadBits(l, d, a, n));
    var octets, pdu := PackBits(bits), Reply(l, d, ReadCoils(a, n));
    BitsOfPacked(bits);
    forall k | 0 <= k < 8 * ((n + 7) / 8)
      ensures Bit(pdu[2 + k / 8], k % 8) == (k < n && d.coils[a - l.coils.start + k])
    {
      assert pdu[2 + k / 8] == octets[k / 8];
      BitStringAt(octets, k / 8, k % 8);
      BitsAreBits(octets[k / 8], 8, k % 8);
    }
  }

  /** The PDU that answers a request. */
  ghost predicate Answers(l: Layout, d: Data, r: Request, pdu: seq<byte>)
    requires Fits(l, d) && WellFormed(r)
  {
    CodeOfRequest(r);
    if !Allowed(r) then pdu == [RequestOctets(r)[0] + 0x80, 3]
    else if !CanWrite(l, r) || !CanRead(l, r) then pdu == [RequestOctets(r)[0] + 0x80, 2]
    else Replies(l, d, r, pdu)
  }

  /** So what a slave puts on the line in answer to any request for its own address. */
  lemma RequestAnswered(l: Layout, s: S.Slave, r: Request)
    requires S.Shaped(l, s) && s.rcv == S.STATE_RX_IDLE && s.rcvAddress != 0 && WellFormed(r)
    requires RequestOctets(r) <= s.buf[1..] && s.length == |RequestOctets(r)|
    ensures var t := S.Execute(l, s);
            && t.snd == S.STATE_TX_XMIT && t.next == 0 && 3 <= t.count <= |t.buf|
            && t.buf[..t.count] == Frame(s.address, t.buf[1..t.count - 2])
            && Answers(l, s.data, r, t.buf[1..t.count - 2])
            && Fits(l, t.data)
            && (if Allowed(r) && CanWrite(l, r) then Stores(l, s.data, r, t.data) else t.data == s.data)
  {
    hide Frame, Serve, ExceptionOctet, Replies, Stores, S.Execute, Fits, RequestOctets, CanRead, CanWrite, Allowed;
    AnswerOctets(l, s);
    RequestServed(l, s.data, s.buf[1..], r);
    CodeOfRequest(r);
    var f, t := s.buf[1..], S.Execute(l, s);
    assert f[0] == RequestOctets(r)[0];
    var e, served := ExceptionOctet(l, f, s.length), Serve(l, s.data, f, s.length);
    var pdu := if e == 0 then served.frame[..served.len] else [f[0] + 0x80, e];
    SubOfPrefix(t.buf, t.buf[..t.count], 1, t.count - 2);
    assert Frame(s.address, pdu)[1..1 + |pdu|] == pdu;
  }

  lemma CodeOfRequest(r: Request)
    requires WellFormed(r)
    ensures |RequestOctets(r)| >= 5 && RequestOctets(r)[0] < 0x80
  {
    hide Pairs;
  }
}
