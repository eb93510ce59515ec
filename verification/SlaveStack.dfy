/** The slave's protocol stack as it runs: `mbrtu.c` and the poll loop of `mb.c` over one receive buffer. */
module SlaveStack {
  import opened Bytes
  import opened Octets
  import opened Modbus
  import opened MbCrc
  import opened Rtu
  import opened Store
  import opened UserMbApp
  import opened SlaveFunctions
  import opened SlaveMachine

  class SlaveDevice {
    var eRcvState: RcvState
    var eSndState: SndState
    const ucRTUBuf: array<byte>
    var usRcvBufferPos: nat
    var sndBufferCur: nat
    var usSndBufferCount: nat
    var rxEnabled: bool
    var txEnabled: bool
    var timerEnabled: bool
    var events: set<Event>
    var enabled: bool
    var ucMBAddress: byte
    var ucRcvAddress: byte
    var usLength: nat
    const store: SlaveStore

    ghost predicate Valid()
      reads this
    {
      && Apart(store, ucRTUBuf)
      && sndBufferCur + usSndBufferCount <= MB_SER_PDU_SIZE_MAX
      && usRcvBufferPos <= MB_SER_PDU_SIZE_MAX
      && usLength <= MB_PDU_SIZE_MAX
    }

    ghost function State(): (s: Slave)
      requires Valid()
      reads this, ucRTUBuf, store.usSRegHoldBuf, store.ucSCoilBuf
      ensures Shaped(store.layout, s)
    {
      Slave(eRcvState, eSndState, ucRTUBuf[..], usRcvBufferPos, sndBufferCur, usSndBufferCount,
            rxEnabled, txEnabled, timerEnabled, events, enabled, ucMBAddress, ucRcvAddress, usLength, store.Contents())
    }

    constructor (address: byte, layout: Layout)
      ensures Valid() && fresh(ucRTUBuf) && fresh(store) && fresh(store.usSRegHoldBuf) && fresh(store.ucSCoilBuf)
      ensures State().address == address && store.layout == layout && !enabled && eSndState == STATE_TX_IDLE
      ensures events == {}
    {
      eRcvState, eSndState, usRcvBufferPos, sndBufferCur, usSndBufferCount := STATE_RX_INIT, STATE_TX_IDLE, 0, 0, 0;
      ucRTUBuf := new byte[MB_SER_PDU_SIZE_MAX](_ => 0);
      rxEnabled, txEnabled, timerEnabled, events, enabled := false, false, false, {}, false;
      ucMBAddress, ucRcvAddress, usLength := address, 0, 0;
      var s := new SlaveStore(layout);
      store := s;
    }

    /** Enabling the stack starts the receiver. */
    method eMBEnable() returns (eStatus: ErrorCode)
      requires Valid()
      modifies this
      ensures Valid()
      ensures eStatus == if old(enabled) then MB_EILLSTATE else MB_ENOERR
      ensures State() == if old(enabled) then old(State()) else RtuStart(old(State())).(enabled := true)
    {
      if !enabled {
        eRcvState, rxEnabled, txEnabled, timerEnabled := STATE_RX_INIT, true, false, true;
        enabled, eStatus := true, MB_ENOERR;
      } else {
        eStatus := MB_EILLSTATE;
      }
    }

    method eMBRTUReceive() returns (eStatus: ErrorCode, address: byte, length: nat)
      requires Valid()
      ensures eStatus == if RtuReceiveOk(State()) then MB_ENOERR else MB_EIO
      ensures eStatus == MB_ENOERR ==> address == ucRTUBuf[0] && length == usRcvBufferPos - 3
    {
      hide Crc16, BitString;
      var crc := usMBCRC16(ucRTUBuf, 0, usRcvBufferPos);
      assert ucRTUBuf[0..usRcvBufferPos] == ucRTUBuf[..][..usRcvBufferPos];
      if usRcvBufferPos >= MB_SER_PDU_SIZE_MIN && crc == 0 {
        eStatus, address, length := MB_ENOERR, ucRTUBuf[0], usRcvBufferPos - 1 - 2;
      } else {
        eStatus, address, length := MB_EIO, 0, 0;
      }
    }

    /** Puts the check octets after the `at` octets they protect, the low one first. */
    method AppendCheck(at: nat, usCRC16: bv16)
      requires at + 2 <= ucRTUBuf.Length
      modifies ucRTUBuf
      ensures ucRTUBuf[..] == Splice(old(ucRTUBuf[..]), at, CheckOctets(usCRC16))
    {
      hide LowOctet, HighOctet, Value;
      ucRTUBuf[at] := Value(LowOctet(usCRC16));
      ucRTUBuf[at + 1] := Value(HighOctet(usCRC16));
      SpliceByParts(old(ucRTUBuf[..]), at, CheckOctets(usCRC16), ucRTUBuf[..]);
    }

    method eMBRTUSend(ucSlaveAddress: byte, length: nat) returns (eStatus: ErrorCode)
      requires Valid() && length + 3 <= MB_SER_PDU_SIZE_MAX
      modifies this, ucRTUBuf
      ensures Valid() && State() == RtuSend(old(State()), ucSlaveAddress, length)
      ensures eStatus == if old(eRcvState) == STATE_RX_IDLE then MB_ENOERR else MB_EIO
    {
      hide SlaveStore.Contents, CheckOctets, Splice, Frame, Crc16;
      if eRcvState == STATE_RX_IDLE {
        sndBufferCur, usSndBufferCount := 0, 1 + length;
        FillFrame(ucSlaveAddress, length);
        usSndBufferCount := usSndBufferCount + 2;
        eSndState, rxEnabled, txEnabled := STATE_TX_XMIT, false, true;
        eStatus := MB_ENOERR;
      } else {
        eStatus := MB_EIO;
      }
    }

    /** Puts the address before the PDU and the check octets after it. */
    method FillFrame(ucSlaveAddress: byte, length: nat)
      requires length + 3 <= ucRTUBuf.Length && Apart(store, ucRTUBuf)
      modifies ucRTUBuf
      ensures store.Contents() == old(store.Contents())
      ensures var buf := old(ucRTUBuf[..])[0 := ucSlaveAddress];
              ucRTUBuf[..] == Splice(buf, 1 + length, CheckOctets(Crc16(buf[..1 + length])))
    {
      hide Crc16, BitString, CheckOctets, Splice;
      ucRTUBuf[0] := ucSlaveAddress;
      ghost var buf := ucRTUBuf[..];
      assert buf == old(ucRTUBuf[..])[0 := ucSlaveAddress];
      var usCRC16 := usMBCRC16(ucRTUBuf, 0, 1 + length);
      assert ucRTUBuf[0..1 + length] == buf[..1 + length];
      AppendCheck(1 + length, usCRC16);
    }

    /** A byte has arrived. The callback asserts that nothing is being sent. */
    method xMBRTUReceiveFSM(ucByte: byte)
      requires Valid() && eSndState == STATE_TX_IDLE
      modifies this, ucRTUBuf
      ensures Valid() && State() == RtuByteReceived(old(State()), ucByte)
    {
      hide BitString;
      match eRcvState
      case STATE_RX_INIT =>
        timerEnabled := true;
      case STATE_RX_ERROR =>
        timerEnabled := true;
      case STATE_RX_IDLE =>
        usRcvBufferPos := 0;
        ucRTUBuf[usRcvBufferPos] := ucByte;
        usRcvBufferPos := usRcvBufferPos + 1;
        eRcvState := STATE_RX_RCV;
        timerEnabled := true;
      case STATE_RX_RCV =>
        if usRcvBufferPos < MB_SER_PDU_SIZE_MAX {
          ucRTUBuf[usRcvBufferPos] := ucByte;
          usRcvBufferPos := usRcvBufferPos + 1;
        } else {
          eRcvState := STATE_RX_ERROR;
        }
        timerEnabled := true;
    }

    /** The transmitter is empty. The callback asserts that nothing is being received. */
    method xMBRTUTransmitFSM() returns (sent: seq<byte>)
      requires Valid() && eRcvState == STATE_RX_IDLE
      modifies this
      ensures Valid() && State() == RtuTransmitterEmpty(old(State())) && sent == RtuOctetOut(old(State()))
    {
      hide SlaveStore.Contents;
      sent := [];
      match eSndState
      case STATE_TX_IDLE =>
        rxEnabled, txEnabled := true, false;
      case STATE_TX_XMIT =>
        if usSndBufferCount != 0 {
          sent := [ucRTUBuf[sndBufferCur]];
          sndBufferCur := sndBufferCur + 1;
          usSndBufferCount := usSndBufferCount - 1;
        } else {
          events := events + {EV_FRAME_SENT};
          rxEnabled, txEnabled := true, false;
          eSndState := STATE_TX_IDLE;
        }
    }

    /** The timer has expired. The callback asserts that the receiver is not idle. */
    method xMBRTUTimerT35Expired()
      requires Valid() && eRcvState != STATE_RX_IDLE
      modifies this
      ensures Valid() && State() == RtuTimerExpired(old(State()))
    {
      if eRcvState == STATE_RX_INIT {
        events := events + {EV_READY};
      } else if eRcvState == STATE_RX_RCV {
        events := events + {EV_FRAME_RECEIVED};
      }
      timerEnabled := false;
      eRcvState := STATE_RX_IDLE;
    }

    /** The event executed: dispatch over the handler table, and the reply. */
    method ExecuteEvent()
      requires Valid()
      modifies this, ucRTUBuf, store.usSRegHoldBuf, store.ucSCoilBuf
      ensures Valid() && State() == Execute(store.layout, old(State()))
    {
      hide Crc16, BitString, Serve, Frame;
      ghost var before := State();
      var ucFunctionCode := ucRTUBuf[1];
      var eException, newLen := Handle(ucFunctionCode);
      ServeShape(store.layout, before.data, before.buf[1..], before.length);
      usLength := newLen;
      assert ucRTUBuf[..] == [ucRTUBuf[0]] + ucRTUBuf[1..];
      if ucRcvAddress != MB_ADDRESS_BROADCAST {
        if eException != MB_EX_NONE {
          ghost var f := ucRTUBuf[1..];
          usLength := 0;
          ucRTUBuf[1 + usLength] := ErrorFunction(ucFunctionCode);
          usLength := usLength + 1;
          ucRTUBuf[1 + usLength] := eException.Code();
          usLength := usLength + 1;
          assert ucRTUBuf[..] == [ucRTUBuf[0]] + f[0 := ErrorFunction(ucFunctionCode)][1 := eException.Code()];
        }
        var _ := eMBRTUSend(ucMBAddress, usLength);
      }
    }

    /** The loop over the handler table and the call of the handler it finds. */
    method Handle(ucFunctionCode: byte) returns (eException: Exception, newLen: nat)
      requires Valid() && ucFunctionCode == ucRTUBuf[1]
      modifies ucRTUBuf, store.usSRegHoldBuf, store.ucSCoilBuf
      ensures Valid() && ucRTUBuf[0] == old(ucRTUBuf[0])
      ensures Served(eException, store.Contents(), ucRTUBuf[1..], newLen) ==
              Serve(store.layout, old(store.Contents()), old(ucRTUBuf[1..]), usLength)
    {
      hide BitString, ServeReadRegisters, ServeWriteRegister, ServeWriteRegisters, ServeReadWriteRegisters,
        ServeReadCoils,
        ServeWriteCoil, ServeWriteCoils;
      eException, newLen := MB_EX_ILLEGAL_FUNCTION, usLength;
      var i := 0;
      while i < |xFuncHandlers| && xFuncHandlers[i] != ucFunctionCode
        invariant 0 <= i <= |xFuncHandlers|
        invariant forall j :: 0 <= j < i ==> xFuncHandlers[j] != ucFunctionCode
      {
        i := i + 1;
      }
      assert i == |xFuncHandlers| || xFuncHandlers[i] == ucFunctionCode;
      if i == 0 {
        eException, newLen := eMBFuncReadHoldingRegister(store, ucRTUBuf, usLength);
      } else if i == 1 {
        eException, newLen := eMBFuncWriteMultipleHoldingRegister(store, ucRTUBuf, usLength);
      } else if i == 2 {
        eException, newLen := eMBFuncWriteHoldingRegister(store, ucRTUBuf, usLength);
      } else if i == 3 {
        eException, newLen := eMBFuncReadWriteMultipleHoldingRegister(store, ucRTUBuf, usLength);
      } else if i == 4 {
        eException, newLen := eMBFuncReadCoils(store, ucRTUBuf, usLength);
      } else if i == 5 {
        eException, newLen := eMBFuncWriteCoil(store, ucRTUBuf, usLength);
      } else if i == 6 {
        eException, newLen := eMBFuncWriteMultipleCoils(store, ucRTUBuf, usLength);
      } else {
        assert forall j :: 0 <= j < 7 ==> xFuncHandlers[j] != ucFunctionCode;
        assert xFuncHandlers[0] != ucFunctionCode && xFuncHandlers[1] != ucFunctionCode;
        assert xFuncHandlers[2] != ucFunctionCode;
        assert xFuncHandlers[3] != ucFunctionCode && xFuncHandlers[4] != ucFunctionCode;
        assert xFuncHandlers[5] != ucFunctionCode;
        assert xFuncHandlers[6] != ucFunctionCode;
      }
    }

    /** The event of a frame received: the frame is executed if it is for this slave. */
    method FrameReceived()
      requires Valid()
      modifies this
      ensures Valid() && State() == Dispatch(store.layout, old(State()), EV_FRAME_RECEIVED)
    {
      hide Crc16, BitString, Execute, RtuReceiveOk;
      var status, address, length := eMBRTUReceive();
      if status == MB_ENOERR {
        ReceivedIsLong(store.layout, State());
        ucRcvAddress, usLength := address, length;
        if ucRcvAddress == ucMBAddress || ucRcvAddress == MB_ADDRESS_BROADCAST {
          events := events + {EV_EXECUTE};
        }
      }
    }

    /** One call of the poll loop; `other` is what the event variable holds if several events were pending. */
    method eMBPoll(other: Event) returns (eStatus: ErrorCode)
      requires Valid() && events != {}
      modifies this, ucRTUBuf, store.usSRegHoldBuf, store.ucSCoilBuf
      ensures Valid() && State() == Poll(store.layout, old(State()), other)
      ensures eStatus == if old(enabled) then MB_ENOERR else MB_EILLSTATE
    {
      hide Crc16, BitString, Execute, RtuReceiveOk;
      if !enabled {
        return MB_EILLSTATE;
      }
      var eEvent := SlaveMachine.Taken(events, other);
      events := {};
      match eEvent {
      case EV_READY =>
      case EV_FRAME_RECEIVED =>
        FrameReceived();
      case EV_EXECUTE =>
        ExecuteEvent();
      case EV_FRAME_SENT =>
      }
      return MB_ENOERR;
    }
  }
}
