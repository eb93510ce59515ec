/** What a master puts on the line and what it makes of any reply, octet by octet, in numbers. */
module WireMaster {
  import opened Bytes
  import opened Octets
  import opened Modbus
  import opened CoilCopy
  import opened Store
  import opened Requests
  import opened Image
  import opened Wire
  import opened MasterFunctions
  import opened MasterMachine

  /** A request that is taken on stands in the send buffer from its second octet on. */
  lemma AskPutsOctets(m: Master, dest: byte, r: Request)
    requires |m.snd| == MB_PDU_SIZE_MAX && Sendable(r) && m.token >= 1
    ensures var t, pdu := Ask(m, dest, r), RequestOctets(r);
            && 1 + |pdu| <= |t.snd| && t.snd[1..1 + |pdu|] == pdu && t.pduLen == |pdu|
            && t.dest == dest && t.token == m.token - 1 && t.events == m.events + {EV_MASTER_FRAME_SENT}
  {
    hide RequestOctets, Encode;
    EncodeIsOctets(r);
    var s := Splice(m.snd, 1, Encode(r));
    assert s[1..1 + |Encode(r)|] == Encode(r);
  }

  // ---------- Replies ----------

  /**
   * The exception a handler reports for any frame executed, 0 for none. Field by field the request sent and the
   * frame: 1: no such function. 3: wrong length, or a count that differs. 2: an address the image does not have.
   */
  function HandlerOctet(l: Layout, i: Input): (code: byte)
    requires InputOk(i)
  {
    var sa, sn := Number(i.snd[1], i.snd[2]), Number(i.snd[3], i.snd[4]);
    var fa, fn := Number(i.frame[1], i.frame[2]), Number(i.frame[3], i.frame[4]);
    if i.frame[0] == 0x01 then
      if i.broadcast then 0 else if i.len < 2 || sn < 1 || i.frame[1] != (sn + 7) / 8 % 0x100 then 3
      else if Among(sa, sn, l.coils) then 0 else 2
    else if i.frame[0] == 0x03 then
      if i.broadcast then 0 else if i.len < 2 || sn < 1 || i.frame[1] != 2 * sn then 3
      else if Among(sa, sn, l.holding) then 0 else 2
    else if i.frame[0] == 0x05 then
      if i.len != 5 || i.frame[4] != 0 || (i.frame[3] != 0 && i.frame[3] != 0xFF) then 3
      else if Among(fa, 1, l.coils) then 0 else 2
    else if i.frame[0] == 0x06 then
      if i.len != 5 then 3 else if Among(fa, 1, l.holding) then 0 else 2
    else if i.frame[0] == 0x0F then
      if (i.len != 5 && !i.broadcast) || fn < 1 || i.snd[5] != (fn + 7) / 8 % 0x100 then 3
      else if Among(fa, fn, l.coils) then 0 else 2
    else if i.frame[0] == 0x10 then
      if (i.len != 5 && !i.broadcast) || i.snd[5] != 2 * sn then 3
      else if Among(sa, sn, l.holding) then 0 else 2
    else if i.frame[0] == 0x17 then
      if i.broadcast || i.len < 2 then 0
      else if i.frame[1] != 2 * sn then 3
      else if Among(Number(i.snd[5], i.snd[6]), Number(i.snd[7], i.snd[8]), l.holding) && Among(sa, sn, l.holding)
      then 0
      else 2
    else 1
  }

  lemma TakesException(l: Layout, m: Image, dest: byte, i: Input)
    requires ImageFits(l, m) && 1 <= dest <= MB_MASTER_TOTAL_SLAVE_NUM && InputOk(i)
    ensures Take(l, m, dest, i).exception.Code() == HandlerOctet(l, i)
  {
    hide TakeReadCoils, TakeReadRegisters, TakeWriteCoil, TakeWriteRegister, TakeWriteCoils, TakeWriteRegisters,
      TakeReadWriteRegisters;
    TakesCoilException(l, m, dest, i);
    TakesRegisterException(l, m, dest, i);
  }

  lemma TakesCoilException(l: Layout, m: Image, dest: byte, i: Input)
    requires ImageFits(l, m) && 1 <= dest <= MB_MASTER_TOTAL_SLAVE_NUM && InputOk(i)
    ensures i.frame[0] == 0x01 ==> TakeReadCoils(l, m, dest, i).exception.Code() == HandlerOctet(l, i)
    ensures i.frame[0] == 0x05 ==> TakeWriteCoil(l, m, dest, i).exception.Code() == HandlerOctet(l, i)
    ensures i.frame[0] == 0x0F ==> TakeWriteCoils(l, m, dest, i).exception.Code() == HandlerOctet(l, i)
  {
    hide SetBits, BitString, Clip;
    OctetsFor(Word(i.snd[3], i.snd[4]));
    OctetsFor(Word(i.frame[3], i.frame[4]));
  }

  lemma TakesRegisterException(l: Layout, m: Image, dest: byte, i: Input)
    requires ImageFits(l, m) && 1 <= dest <= MB_MASTER_TOTAL_SLAVE_NUM && InputOk(i)
    ensures i.frame[0] == 0x03 ==> TakeReadRegisters(l, m, dest, i).exception.Code() == HandlerOctet(l, i)
    ensures i.frame[0] == 0x06 ==> TakeWriteRegister(l, m, dest, i).exception.Code() == HandlerOctet(l, i)
    ensures i.frame[0] == 0x10 ==> TakeWriteRegisters(l, m, dest, i).exception.Code() == HandlerOctet(l, i)
    ensures i.frame[0] == 0x17 ==> TakeReadWriteRegisters(l, m, dest, i).exception.Code() == HandlerOctet(l, i)
  {
    hide SetRegs, RegsOf, Clip;
  }

  /** The `n` registers from address `a` of slave `dest` are now those in `s` from `at` on; all else is as it was. */
  ghost predicate RegsPut(l: Layout, m: Image, t: Image, dest: byte, a: nat, n: nat, s: seq<byte>, at: nat) {
    var base := (dest - 1) * l.holding.count + (a - l.holding.start);
    && t.coils == m.coils && |t.holding| == |m.holding| && at + 2 * n <= |s|
    && forall k :: 0 <= k < |m.holding| ==>
         t.holding[k] == if base <= k < base + n then Number(s[at + 2 * (k - base)], s[at + 1 + 2 * (k - base)])
                         else m.holding[k]
  }

  /** The same for coils, of which the padding may come over up to seven neighbours behind. */
  ghost predicate CoilsPut(l: Layout, m: Image, t: Image, dest: byte, a: nat, n: nat, s: seq<byte>, at: nat) {
    var base := 8 * ((dest - 1) * ((l.coils.count + 7) / 8)) + (a - l.coils.start);
    && t.holding == m.holding && |t.coils| == |m.coils| && at + (n + 7) / 8 <= |s|
    && forall k :: 0 <= k < |m.coils| && !(base + n <= k < base + 8 * ((n + 7) / 8)) ==>
         t.coils[k] == if base <= k < base + n then Bit(s[at + (k - base) / 8], (k - base) % 8) else m.coils[k]
  }

  /** What the image becomes. */
  ghost predicate ImageTaken(l: Layout, m: Image, t: Image, dest: byte, i: Input)
    requires InputOk(i)
  {
    var sa, sn := Number(i.snd[1], i.snd[2]), Number(i.snd[3], i.snd[4]);
    var fa, fn := Number(i.frame[1], i.frame[2]), Number(i.frame[3], i.frame[4]);
    if HandlerOctet(l, i) != 0 then i.frame[0] != 0x17 ==> t == m
    else if i.frame[0] == 0x01 then if i.broadcast then t == m else CoilsPut(l, m, t, dest, sa, sn, i.frame, 2)
    else if i.frame[0] == 0x03 then if i.broadcast then t == m else RegsPut(l, m, t, dest, sa, sn, i.frame, 2)
    else if i.frame[0] == 0x05 then CoilsPut(l, m, t, dest, fa, 1, [if i.frame[3] == 0xFF then 1 else 0], 0)
    else if i.frame[0] == 0x06 then RegsPut(l, m, t, dest, fa, 1, i.frame, 3)
    else if i.frame[0] == 0x0F then CoilsPut(l, m, t, dest, fa, fn, i.snd, 6)
    else if i.frame[0] == 0x10 then RegsPut(l, m, t, dest, sa, sn, i.snd, 6)
    else if i.broadcast || i.len < 2 then t == m
    else exists w: Image ::
           && RegsPut(l, m, w, dest, Number(i.snd[5], i.snd[6]), Number(i.snd[7], i.snd[8]), i.snd, 10)
           && RegsPut(l, w, t, dest, sa, sn, i.frame, 2)
  }

  lemma SetRegsPuts(l: Layout, m: Image, dest: byte, a: u16, n: u16, s: seq<byte>, at: nat)
    requires ImageFits(l, m) && 1 <= dest <= MB_MASTER_TOTAL_SLAVE_NUM && HasRegs(l, a, n) && at + 2 * n <= |s|
    ensures RegsPut(l, m, SetRegs(l, m, dest, a, RegsOf(s[at..at + 2 * n], n)), dest, a, n, s, at)
  {
    hide Splice, RegsOf;
    var octets := s[at..at + 2 * n];
    var regs := RegsOf(octets, n);
    forall k | 0 <= k < n ensures regs[k] == Number(s[at + 2 * k], s[at + 1 + 2 * k]) {
      RegAt(octets, n, k);
    }
  }

  lemma SetBitsPuts(l: Layout, m: Image, dest: byte, a: u16, n: u16, s: seq<byte>, at: nat)
    requires ImageFits(l, m) && 1 <= dest <= MB_MASTER_TOTAL_SLAVE_NUM && HasCoils(l, a, n)
    requires at + CoilBytes(n) <= |s|
    ensures CoilsPut(l, m, SetBits(l, m, dest, a, n, BitString(s[at..at + CoilBytes(n)])), dest, a, n, s, at)
  {
    hide Bit, Bits, BitString;
    OctetsFor(n);
    OctetsFor(l.coils.count);
    var octets := s[at..at + CoilBytes(n)];
    forall k | 0 <= k < n ensures BitString(octets)[k] == Bit(s[at + k / 8], k % 8) {
      BitStringAt(octets, k / 8, k % 8);
      BitsAreBits(octets[k / 8], 8, k % 8);
    }
  }

  /** What a master makes of any frame it executes, as long as that is inside its buffers. */
  lemma TakesOctets(l: Layout, m: Image, dest: byte, i: Input)
    requires ImageFits(l, m) && 1 <= dest <= MB_MASTER_TOTAL_SLAVE_NUM && InputOk(i) && ReadsInside(i)
    ensures ImageTaken(l, m, Take(l, m, dest, i).image, dest, i)
  {
    hide TakeReadCoils, TakeReadRegisters, TakeWriteCoil, TakeWriteRegister, TakeWriteCoils, TakeWriteRegisters,
      TakeReadWriteRegisters, ImageTaken;
    if i.frame[0] == 0x01 {
      ReadCoilsTaken(l, m, dest, i);
    } else if i.frame[0] == 0x05 || i.frame[0] == 0x0F {
      WriteCoilsTaken(l, m, dest, i);
    } else if i.frame[0] == 0x17 {
      ReadWriteTaken(l, m, dest, i);
    } else if i.frame[0] == 0x03 || i.frame[0] == 0x06 || i.frame[0] == 0x10 {
      RegistersTaken(l, m, dest, i);
    } else {
      NothingTaken(l, m, dest, i);
    }
  }

  lemma NothingTaken(l: Layout, m: Image, dest: byte, i: Input)
    requires InputOk(i) && HandlerOctet(l, i) != 0
    ensures ImageTaken(l, m, m, dest, i)
  {
    hide HandlerOctet;
  }

  lemma ReadCoilsTaken(l: Layout, m: Image, dest: byte, i: Input)
    requires ImageFits(l, m) && 1 <= dest <= MB_MASTER_TOTAL_SLAVE_NUM && InputOk(i)
    requires i.frame[0] == 0x01 && ReadsOfReadCoils(i)
    ensures ImageTaken(l, m, TakeReadCoils(l, m, dest, i).image, dest, i)
  {
    hide SetBits, BitString, CoilsPut, RegsPut, CoilIndex, RegIndex, ImageFits, CoilBytes, Bit;
    var a, n := Word(i.snd[1], i.snd[2]), Word(i.snd[3], i.snd[4]);
    OctetsFor(n);
    if HandlerOctet(l, i) == 0 && !i.broadcast {
      SetBitsPuts(l, m, dest, a, n, i.frame, 2);
    }
  }

  lemma WriteCoilsTaken(l: Layout, m: Image, dest: byte, i: Input)
    requires ImageFits(l, m) && 1 <= dest <= MB_MASTER_TOTAL_SLAVE_NUM && InputOk(i)
    ensures i.frame[0] == 0x05 ==> ImageTaken(l, m, TakeWriteCoil(l, m, dest, i).image, dest, i)
    ensures i.frame[0] == 0x0F && ReadsOfWriteCoils(i) ==>
              ImageTaken(l, m, TakeWriteCoils(l, m, dest, i).image, dest, i)
  {
    hide SetBits, BitString, CoilsPut, RegsPut, CoilIndex, RegIndex, ImageFits, CoilBytes, Bit;
    var a, n := Word(i.frame[1], i.frame[2]), Word(i.frame[3], i.frame[4]);
    OctetsFor(n);
    if HandlerOctet(l, i) == 0 {
      if i.frame[0] == 0x05 {
        var s := [if i.frame[3] == 0xFF then 1 else 0];
        OctetsFor(1);
        assert s[0..0 + CoilBytes(1)] == s;
        SetBitsPuts(l, m, dest, a, 1, s, 0);
      } else if i.frame[0] == 0x0F && ReadsOfWriteCoils(i) {
        SetBitsPuts(l, m, dest, a, n, i.snd, 6);
      }
    }
  }

  lemma RegistersTaken(l: Layout, m: Image, dest: byte, i: Input)
    requires ImageFits(l, m) && 1 <= dest <= MB_MASTER_TOTAL_SLAVE_NUM && InputOk(i)
    ensures i.frame[0] == 0x03 && ReadsOfReadRegisters(i) ==>
              ImageTaken(l, m, TakeReadRegisters(l, m, dest, i).image, dest, i)
    ensures i.frame[0] == 0x06 ==> ImageTaken(l, m, TakeWriteRegister(l, m, dest, i).image, dest, i)
    ensures i.frame[0] == 0x10 && ReadsOfWriteRegisters(i) ==>
              ImageTaken(l, m, TakeWriteRegisters(l, m, dest, i).image, dest, i)
  {
    hide SetRegs, RegsOf, RegsPut, CoilsPut, CoilIndex, RegIndex, ImageFits, CoilBytes, Bit;
    var sa, sn := Word(i.snd[1], i.snd[2]), Word(i.snd[3], i.snd[4]);
    if HandlerOctet(l, i) == 0 {
      if i.frame[0] == 0x06 {
        SetRegsPuts(l, m, dest, Word(i.frame[1], i.frame[2]), 1, i.frame, 3);
      } else if i.frame[0] == 0x03 && ReadsOfReadRegisters(i) && !i.broadcast {
        SetRegsPuts(l, m, dest, sa, sn, i.frame, 2);
      } else if i.frame[0] == 0x10 && ReadsOfWriteRegisters(i) {
        SetRegsPuts(l, m, dest, sa, sn, i.snd, 6);
      }
    }
  }

  lemma ReadWriteTaken(l: Layout, m: Image, dest: byte, i: Input)
    requires ImageFits(l, m) && 1 <= dest <= MB_MASTER_TOTAL_SLAVE_NUM && InputOk(i)
    requires i.frame[0] == 0x17 && ReadsOfReadWriteRegisters(i)
    ensures ImageTaken(l, m, TakeReadWriteRegisters(l, m, dest, i).image, dest, i)
  {
    hide SetRegs, RegsOf, RegsPut, CoilsPut, CoilIndex, RegIndex, ImageFits, CoilBytes, Bit;
    var wa, nw := Word(i.snd[5], i.snd[6]), Word(i.snd[7], i.snd[8]);
    var a, n := Word(i.snd[1], i.snd[2]), Word(i.snd[3], i.snd[4]);
    if HandlerOctet(l, i) == 0 && !i.broadcast && i.len >= 2 {
      var w := SetRegs(l, m, dest, wa, RegsOf(i.snd[10..10 + 2 * nw], nw));
      SetRegsPuts(l, m, dest, wa, nw, i.snd, 10);
      SetRegsPuts(l, w, dest, a, n, i.frame, 2);
    }
  }

  /** The master takes a request for a broadcast just when it is to slave 0, whose octet comes first. */
  lemma BroadcastIsToZero(m: Master)
    requires |m.snd| == MB_PDU_SIZE_MAX && m.next + m.left <= |m.snd| && m.sndState == STATE_M_TX_XMIT && m.left == 0
    ensures RtuTransmitterEmpty(m).broadcast <==> m.snd[0] == 0
  {
  }
}
