/** Frames of the RTU transmission mode, section 2.5.1 of MODBUS over Serial Line V1.02. */
module Rtu {
  import opened Bytes
  import opened Octets
  import opened Modbus
  import opened MbCrc

  /** A frame on the line: address, PDU and check octets. */
  function Frame(address: byte, pdu: seq<byte>): (f: seq<byte>)
    ensures |f| == |pdu| + 3
    ensures f[0] == address && f[1..1 + |pdu|] == pdu
  {
    [address] + pdu + CheckOctets(Crc16([address] + pdu))
  }

  /** The receivers' test on the octets between two silences. */
  predicate Acceptable(f: seq<byte>) {
    |f| >= MB_SER_PDU_SIZE_MIN && Crc16(f) == 0
  }

  /** What the transmitters build the receivers accept. */
  lemma FrameAccepted(address: byte, pdu: seq<byte>)
    requires |pdu| >= 1
    ensures Acceptable(Frame(address, pdu))
  {
    hide Crc16, CheckOctets;
    ResidueZero([address] + pdu);
  }

  /** The receivers accept nothing but frames. */
  lemma OnlyFramesAccepted(f: seq<byte>)
    requires Acceptable(f)
    ensures |f| >= 4 && f == Frame(f[0], f[1..|f| - 2])
  {
    hide Crc16, CheckOctets;
    var s, a, b := f[..|f| - 2], f[|f| - 2], f[|f| - 1];
    assert f == s + [a, b];
    ResidueZeroIff(s, a, b);
    assert s == [f[0]] + f[1..|f| - 2];
  }

  /** An odd number of bits flipped, or some within sixteen in a row. */
  ghost predicate Damaged(f: seq<byte>, g: seq<byte>) {
    && |f| == |g| && f != g
    && var u, v := BitString(f), BitString(g);
       || Odd(Diff(u, v))
       || exists i: nat :: Confined(u, v, i)
  }

  ghost predicate Confined(u: seq<bool>, v: seq<bool>, i: nat) {
    |u| == |v| && forall k :: 0 <= k < |u| && u[k] != v[k] ==> i <= k < i + 16
  }

  /** A frame so damaged is not accepted. */
  lemma DamageIsSeen(address: byte, pdu: seq<byte>, g: seq<byte>)
    requires |pdu| >= 1 && Damaged(Frame(address, pdu), g)
    ensures !Acceptable(g)
  {
    hide Crc16, CheckOctets, BitString, BitCrc, Odd, Frame;
    var f := Frame(address, pdu);
    FrameAccepted(address, pdu);
    if Odd(Diff(BitString(f), BitString(g))) {
      OddErrorsDetected(f, g);
    } else {
      var i: nat :| Confined(BitString(f), BitString(g), i);
      FramesDiffer(f, g);
      BurstDetected(BitString(f), BitString(g), i);
      Crc16IsBitSerial(f);
      Crc16IsBitSerial(g);
    }
  }
}
