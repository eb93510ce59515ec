/** The ASCII machines as they run, over one buffer. */
module AsciiStack {
  import opened Bytes
  import opened Modbus
  import opened Ascii

  /** What the port keeps: the interrupts, the character timer, the events posted in order. */
  datatype Lines = Lines(rxOn: bool, txOn: bool, timerOn: bool, posted: seq<Event>)

  /** The check sum of the `usLen` octets of `pucFrame`. */
  method prvucMBLRC(pucFrame: array<byte>, usLen: nat) returns (ucLRC: byte)
    requires usLen <= pucFrame.Length
    ensures ucLRC == Lrc(pucFrame[..usLen])
  {
    ucLRC := 0;
    var k := 0;
    while k < usLen
      invariant 0 <= k <= usLen && ucLRC == Sum(pucFrame[..k])
    {
      assert pucFrame[..k + 1] == pucFrame[..k] + [pucFrame[k]];
      SumAppend(pucFrame[..k], pucFrame[k]);
      ucLRC := Plus(ucLRC, pucFrame[k]);
      k := k + 1;
    }
    ucLRC := if ucLRC == 0 then 0 else 0x100 - ucLRC;
  }

  class AsciiDevice {
    var eRcvState: RcvState
    var eSndState: SndState
    var eBytePos: BytePos
    const ucASCIIBuf: array<byte>
    var usRcvBufferPos: nat
    var sndBufferCur: nat
    var usSndBufferCount: nat
    var lines: Lines

    ghost function State(): Port
      reads this, ucASCIIBuf
    {
      Port(eRcvState, eSndState, eBytePos, ucASCIIBuf[..], usRcvBufferPos, sndBufferCur, usSndBufferCount,
           lines.rxOn, lines.txOn, lines.timerOn, lines.posted)
    }

    ghost predicate Valid()
      reads this, ucASCIIBuf
    {
      Shaped(State())
    }

    constructor ()
      ensures Valid() && fresh(ucASCIIBuf) && eRcvState == STATE_RX_IDLE && eSndState == STATE_TX_IDLE
    {
      eRcvState, eSndState, eBytePos := STATE_RX_IDLE, STATE_TX_IDLE, BYTE_HIGH_NIBBLE;
      ucASCIIBuf := new byte[SIZE](_ => 0);
      usRcvBufferPos, sndBufferCur, usSndBufferCount, lines := 0, 0, 0, Lines(false, false, false, []);
    }

    method eMBASCIIStart()
      requires Valid()
      modifies this
      ensures Valid() && State() == Started(old(State()))
    {
      eRcvState := STATE_RX_IDLE;
      lines := lines.(rxOn := true, txOn := false, posted := lines.posted + [EV_READY]);
    }

    /** Takes the frame reported. It asserts that fewer octets were received than there is room for. */
    method eMBASCIIReceive() returns (eStatus: ErrorCode, address: byte, length: nat)
      requires Valid() && usRcvBufferPos < SIZE
      ensures eStatus == if Acceptable(ucASCIIBuf[..usRcvBufferPos]) then MB_ENOERR else MB_EIO
      ensures eStatus == MB_ENOERR ==> address == ucASCIIBuf[0] && 3 <= usRcvBufferPos && length == usRcvBufferPos - 2
    {
      var lrc := prvucMBLRC(ucASCIIBuf, usRcvBufferPos);
      if usRcvBufferPos >= ASCII_SIZE_MIN && lrc == 0 {
        eStatus, address, length := MB_ENOERR, ucASCIIBuf[0], usRcvBufferPos - 1 - 1;
      } else {
        eStatus, address, length := MB_EIO, 0, 0;
      }
    }

    method eMBASCIISend(ucSlaveAddress: byte, usLength: nat) returns (eStatus: ErrorCode)
      requires Valid() && usLength + 2 <= SIZE
      modifies this, ucASCIIBuf
      ensures Valid() && State() == Sent(old(State()), ucSlaveAddress, usLength)
      ensures eStatus == if old(eRcvState) == STATE_RX_IDLE then MB_ENOERR else MB_EIO
    {
      hide Lrc;
      if eRcvState == STATE_RX_IDLE {
        sndBufferCur, usSndBufferCount := 0, 1 + usLength;
        PutFrame(ucSlaveAddress, usLength);
        usSndBufferCount := usSndBufferCount + 1;
        eSndState := STATE_TX_START;
        lines := lines.(rxOn := false, txOn := true);
        eStatus := MB_ENOERR;
      } else {
        eStatus := MB_EIO;
      }
    }

    /** Puts the address before the PDU and the check sum after it. */
    method PutFrame(ucSlaveAddress: byte, usLength: nat)
      requires usLength + 2 <= ucASCIIBuf.Length
      modifies ucASCIIBuf
      ensures var buf := old(ucASCIIBuf[..])[0 := ucSlaveAddress];
              ucASCIIBuf[..] == buf[1 + usLength := Lrc(buf[..1 + usLength])]
    {
      hide Lrc;
      ucASCIIBuf[0] := ucSlaveAddress;
      ghost var buf := ucASCIIBuf[..];
      assert buf == old(ucASCIIBuf[..])[0 := ucSlaveAddress];
      var usLRC := prvucMBLRC(ucASCIIBuf, 1 + usLength);
      assert ucASCIIBuf[..1 + usLength] == buf[..1 + usLength];
      ucASCIIBuf[1 + usLength] := usLRC;
    }

    /** A character inside a frame. */
    method FrameChar(ucByte: byte)
      requires Valid() && eRcvState == STATE_RX_RCV
      modifies this, ucASCIIBuf
      ensures Valid() && State() == Received(old(State()), ucByte)
    {
      hide Char2Bin, Shifted, Or, CharRange;
      lines := lines.(timerOn := true);
      if ucByte == COLON {
        eBytePos, usRcvBufferPos := BYTE_HIGH_NIBBLE, 0;
      } else if ucByte == CR {
        eRcvState := STATE_RX_WAIT_EOF;
      } else {
        match eBytePos
        case BYTE_HIGH_NIBBLE =>
          if usRcvBufferPos < SIZE {
            ucASCIIBuf[usRcvBufferPos] := Shifted(Char2Bin(ucByte));
            eBytePos := BYTE_LOW_NIBBLE;
          } else {
            eRcvState := STATE_RX_IDLE;
            lines := lines.(timerOn := false);
          }
        case BYTE_LOW_NIBBLE =>
          ucASCIIBuf[usRcvBufferPos] := Or(ucASCIIBuf[usRcvBufferPos], CharRange(ucByte));
          usRcvBufferPos := usRcvBufferPos + 1;
          eBytePos := BYTE_HIGH_NIBBLE;
      }
    }

    /** A character has arrived. The callback asserts that nothing is being sent. */
    method xMBASCIIReceiveFSM(ucByte: byte)
      requires Valid() && eSndState == STATE_TX_IDLE
      modifies this, ucASCIIBuf
      ensures Valid() && State() == Received(old(State()), ucByte)
    {
      hide Char2Bin, Shifted, Or, CharRange;
      match eRcvState
      case STATE_RX_RCV => FrameChar(ucByte);
      case STATE_RX_WAIT_EOF =>
        if ucByte == LF {
          lines := lines.(timerOn := false, posted := lines.posted + [EV_FRAME_RECEIVED]);
          eRcvState := STATE_RX_IDLE;
        } else if ucByte == COLON {
          eBytePos, usRcvBufferPos, eRcvState := BYTE_HIGH_NIBBLE, 0, STATE_RX_RCV;
          lines := lines.(timerOn := true);
        } else {
          eRcvState := STATE_RX_IDLE;
        }
      case STATE_RX_IDLE =>
        if ucByte == COLON {
          lines := lines.(timerOn := true);
          eBytePos, usRcvBufferPos, eRcvState := BYTE_HIGH_NIBBLE, 0, STATE_RX_RCV;
        }
    }

    /** The transmitter is empty. The callback asserts that nothing is being received. */
    method xMBASCIITransmitFSM() returns (sent: seq<byte>)
      requires Valid() && eRcvState == STATE_RX_IDLE
      modifies this
      ensures Valid() && State() == TransmitterEmpty(old(State())) && sent == CharOut(old(State()))
    {
      hide Bin2Char;
      sent := [];
      match eSndState
      case STATE_TX_START =>
        sent := [COLON];
        eSndState, eBytePos := STATE_TX_DATA, BYTE_HIGH_NIBBLE;
      case STATE_TX_DATA =>
        if usSndBufferCount > 0 {
          match eBytePos
          case BYTE_HIGH_NIBBLE =>
            sent := [Bin2Char(ucASCIIBuf[sndBufferCur] / 16)];
            eBytePos := BYTE_LOW_NIBBLE;
          case BYTE_LOW_NIBBLE =>
            sent := [Bin2Char(ucASCIIBuf[sndBufferCur] % 16)];
            sndBufferCur, usSndBufferCount := sndBufferCur + 1, usSndBufferCount - 1;
            eBytePos := BYTE_HIGH_NIBBLE;
        } else {
          sent := [CR];
          eSndState := STATE_TX_END;
        }
      case STATE_TX_END =>
        sent := [LF];
        eSndState := STATE_TX_NOTIFY;
      case STATE_TX_NOTIFY =>
        eSndState := STATE_TX_IDLE;
        lines := lines.(posted := lines.posted + [EV_FRAME_SENT], rxOn := true, txOn := false);
      case STATE_TX_IDLE =>
        lines := lines.(rxOn := true, txOn := false);
    }

    /** The character timer has expired. The callback asserts that a frame is being received. */
    method xMBASCIITimerT1SExpired()
      requires Valid() && eRcvState != STATE_RX_IDLE
      modifies this
      ensures Valid() && State() == TimerExpired(old(State()))
    {
      eRcvState := STATE_RX_IDLE;
      lines := lines.(timerOn := false);
    }
  }
}
