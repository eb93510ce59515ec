/** The master's protocol stack as it runs: `mbrtu_m.c`, the poll loop of `mb_m.c` and the request functions. */
module MasterStack {
  import opened Bytes
  import opened Octets
  import opened Modbus
  import opened MbCrc
  import opened Rtu
  import opened RegCopy
  import opened Store
  import opened Requests
  import opened Image
  import opened MasterFunctions
  import opened MasterHandlers
  import opened MasterMachine
  import opened Wire
  import opened WireMaster

  datatype ReqErrCode = MB_MRE_NO_ERR | MB_MRE_ILL_ARG | MB_MRE_MASTER_BUSY

  /** What a request function answers at once; the wait for the result is not modelled. */
  function Verdict(legal: bool, token: nat): ReqErrCode {
    if !legal then MB_MRE_ILL_ARG else if token == 0 then MB_MRE_MASTER_BUSY else MB_MRE_NO_ERR
  }

  lemma SpliceChain<T>(s: seq<T>, at: nat, t: seq<T>, u: seq<T>)
    requires at + |t| + |u| <= |s|
    ensures Splice(Splice(s, at, t), at + |t|, u) == Splice(s, at, t + u)
  {
  }

  /** The octets of a field are placed one by one behind a head. */
  lemma OctetPlaced<T>(s: seq<T>, at: nat, head: seq<T>, octets: seq<T>, k: nat)
    requires k < |octets| && at + |head| + |octets| <= |s|
    ensures Splice(s, at, head + octets[..k + 1]) == Splice(s, at, head + octets[..k])[at + |head| + k := octets[k]]
  {
    hide Splice;
    assert head + octets[..k + 1] == head + octets[..k] + [octets[k]];
    SpliceExtend(s, at, head + octets[..k], octets[k]);
  }

  /**
   * What the port keeps: the interrupts, the timer with its mode, the posted events, the run resource and what
   * its users have been told.
   */
  datatype Port = Port(
    rxOn: bool, txOn: bool, timerOn: bool, mode: TimerMode, events: set<Event>, runRes: nat, log: seq<Note>)

  class MasterDevice {
    var port: Port
    var eRcvState: RcvState
    var eSndState: SndState
    const ucMasterRTUSndBuf: array<byte>
    var usMasterSendPDULength: nat
    var sndBufferCur: nat
    var usMasterSndBufferCount: nat
    const ucMasterRTURcvBuf: array<byte>
    var usMasterRcvBufferPos: nat
    var xFrameIsBroadcast: bool
    var eMBState: StackState
    var ucMBMasterDestAddress: byte
    var eMBMasterCurErrorType: ErrorType
    var ucMBFrame: WhichBuffer
    var ucRcvAddress: byte
    var usLength: nat
    const image: MasterImage

    ghost predicate Valid()
      reads this
    {
      && Apart(image, ucMasterRTUSndBuf, ucMasterRTURcvBuf)
      && ucMasterRTURcvBuf.Length == MB_SER_PDU_SIZE_MAX && ucMasterRTUSndBuf != ucMasterRTURcvBuf
      && usMasterSendPDULength + 3 <= MB_PDU_SIZE_MAX
      && sndBufferCur + usMasterSndBufferCount <= MB_PDU_SIZE_MAX
      && usMasterRcvBufferPos <= MB_SER_PDU_SIZE_MAX
      && ucMBMasterDestAddress <= MB_MASTER_TOTAL_SLAVE_NUM
    }

    ghost function State(): (m: Master)
      requires Valid()
      reads this, ucMasterRTUSndBuf, ucMasterRTURcvBuf, image.usMRegHoldBuf, image.ucMCoilBuf
      ensures Shaped(image.layout, m)
    {
      Master(eRcvState, eSndState, ucMasterRTUSndBuf[..], usMasterSendPDULength, sndBufferCur, usMasterSndBufferCount,
             ucMasterRTURcvBuf[..], usMasterRcvBufferPos, xFrameIsBroadcast, port.mode,
             port.rxOn, port.txOn, port.timerOn, port.events, eMBState, ucMBMasterDestAddress, eMBMasterCurErrorType,
             ucMBFrame, ucRcvAddress, usLength, image.Contents(), port.runRes, port.log)
    }

    /** The state after initialisation: disabled, with the run resource free. */
    constructor (layout: Layout)
      ensures Valid() && fresh(ucMasterRTUSndBuf) && fresh(ucMasterRTURcvBuf) && fresh(image)
      ensures fresh(image.usMRegHoldBuf) && fresh(image.ucMCoilBuf) && image.layout == layout
      ensures Fresh(layout, State())
    {
      eRcvState, eSndState, usMasterSendPDULength, sndBufferCur, usMasterSndBufferCount :=
        STATE_M_RX_INIT, STATE_M_TX_IDLE, 0, 0, 0;
      ucMasterRTUSndBuf := new byte[MB_PDU_SIZE_MAX](_ => 0);
      ucMasterRTURcvBuf := new byte[MB_SER_PDU_SIZE_MAX](_ => 0);
      usMasterRcvBufferPos, xFrameIsBroadcast := 0, false;
      port := Port(false, false, false, MB_TMODE_T35, {}, 1, []);
      eMBState, ucMBMasterDestAddress, eMBMasterCurErrorType := STATE_DISABLED, 0, EV_ERROR_RESPOND_TIMEOUT;
      ucMBFrame, ucRcvAddress, usLength := InSend, 0, 0;
      var m := new MasterImage(layout);
      image := m;
    }

    // ---------- mbrtu_m.c ----------

    /** Takes the frame received. It asserts that fewer octets were received than there is room for. */
    method eMBMasterRTUReceive() returns (eStatus: ErrorCode, address: byte, length: nat)
      requires Valid() && usMasterRcvBufferPos < MB_SER_PDU_SIZE_MAX
      ensures eStatus == if RtuReceiveOk(State()) then MB_ENOERR else MB_EIO
      ensures eStatus == MB_ENOERR ==>
                address == ucMasterRTURcvBuf[0] && 4 <= usMasterRcvBufferPos && length == usMasterRcvBufferPos - 3
    {
      hide Crc16, BitString;
      var crc := usMBCRC16(ucMasterRTURcvBuf, 0, usMasterRcvBufferPos);
      assert ucMasterRTURcvBuf[0..usMasterRcvBufferPos] == ucMasterRTURcvBuf[..][..usMasterRcvBufferPos];
      if usMasterRcvBufferPos >= MB_SER_PDU_SIZE_MIN && crc == 0 {
        eStatus, address, length := MB_ENOERR, ucMasterRTURcvBuf[0], usMasterRcvBufferPos - 1 - 2;
      } else {
        eStatus, address, length := MB_EIO, 0, 0;
      }
    }

    /** Puts the address before the PDU and the check octets after it, the low one first. */
    method FillFrame()
      requires Valid()
      modifies ucMasterRTUSndBuf
      ensures var buf, n := old(ucMasterRTUSndBuf[..])[0 := ucMBMasterDestAddress], 1 + usMasterSendPDULength;
              ucMasterRTUSndBuf[..] == Splice(buf, n, CheckOctets(Crc16(buf[..n])))
    {
      hide Crc16, LowOctet, HighOctet, Value, Splice;
      var n := 1 + usMasterSendPDULength;
      ucMasterRTUSndBuf[0] := ucMBMasterDestAddress;
      ghost var buf := ucMasterRTUSndBuf[..];
      assert buf == old(ucMasterRTUSndBuf[..])[0 := ucMBMasterDestAddress];
      var usCRC16 := usMBCRC16(ucMasterRTUSndBuf, 0, n);
      assert ucMasterRTUSndBuf[0..n] == buf[..n];
      ucMasterRTUSndBuf[n] := Value(LowOctet(usCRC16));
      ucMasterRTUSndBuf[n + 1] := Value(HighOctet(usCRC16));
      SpliceByParts(buf, n, CheckOctets(usCRC16), ucMasterRTUSndBuf[..]);
    }

    method eMBMasterRTUSend() returns (eStatus: ErrorCode)
      requires Valid()
      modifies this, ucMasterRTUSndBuf
      ensures Valid() && State() == RtuSend(old(State()))
      ensures eStatus == if old(eRcvState) == STATE_M_RX_IDLE then MB_ENOERR else MB_EIO
    {
      hide MasterImage.Contents, CheckOctets, Splice, Frame, Crc16, ImageFits;
      if ucMBMasterDestAddress > MB_MASTER_TOTAL_SLAVE_NUM {
        return MB_EINVAL;
      }
      if eRcvState == STATE_M_RX_IDLE {
        sndBufferCur, usMasterSndBufferCount := 0, 1;
        FillFrame();
        usMasterSndBufferCount := usMasterSndBufferCount + usMasterSendPDULength + 2;
        eSndState := STATE_M_TX_XMIT;
        port := port.(rxOn := false, txOn := true);
        eStatus := MB_ENOERR;
      } else {
        eStatus := MB_EIO;
      }
    }

    /** The first byte of a frame ends the wait for a reply. */
    method StartFrame(ucByte: byte)
      requires Valid() && eRcvState == STATE_M_RX_IDLE
      modifies this, ucMasterRTURcvBuf
      ensures Valid() && State() == RtuByteReceived(old(State()), ucByte)
    {
      hide MasterImage.Contents, ImageFits;
      eSndState := STATE_M_TX_IDLE;
      ucMasterRTURcvBuf[0] := ucByte;
      usMasterRcvBufferPos := 1;
      eRcvState := STATE_M_RX_RCV;
      port := port.(mode := MB_TMODE_T35, timerOn := true);
    }

    /** A further byte; a frame longer than the buffer is an error. */
    method ContinueFrame(ucByte: byte)
      requires Valid() && eRcvState == STATE_M_RX_RCV
      modifies this, ucMasterRTURcvBuf
      ensures Valid() && State() == RtuByteReceived(old(State()), ucByte)
    {
      hide MasterImage.Contents, ImageFits;
      port := port.(mode := MB_TMODE_T35, timerOn := true);
      if usMasterRcvBufferPos < MB_SER_PDU_SIZE_MAX {
        ucMasterRTURcvBuf[usMasterRcvBufferPos] := ucByte;
        usMasterRcvBufferPos := usMasterRcvBufferPos + 1;
      } else {
        eRcvState := STATE_M_RX_ERROR;
      }
    }

    /** A byte has arrived. The callback asserts that nothing is being sent. */
    method xMBMasterRTUReceiveFSM(ucByte: byte)
      requires Valid() && eSndState != STATE_M_TX_XMIT
      modifies this, ucMasterRTURcvBuf
      ensures Valid() && State() == RtuByteReceived(old(State()), ucByte)
    {
      hide MasterImage.Contents, ImageFits;
      match eRcvState
      case STATE_M_RX_INIT => port := port.(mode := MB_TMODE_T35, timerOn := true);
      case STATE_M_RX_ERROR => port := port.(mode := MB_TMODE_T35, timerOn := true);
      case STATE_M_RX_IDLE => StartFrame(ucByte);
      case STATE_M_RX_RCV => ContinueFrame(ucByte);
    }

    /**
     * The last octet has gone: the receiver is turned on and the timer set for the reply, or for a broadcast's
     * delay.
     */
    method FrameSent()
      requires Valid() && eSndState == STATE_M_TX_XMIT && usMasterSndBufferCount == 0
      modifies this
      ensures Valid() && State() == RtuTransmitterEmpty(old(State()))
    {
      hide MasterImage.Contents, ImageFits;
      xFrameIsBroadcast := ucMasterRTUSndBuf[0] == MB_ADDRESS_BROADCAST;
      port := port.(rxOn := true, txOn := false, timerOn := true,
                    mode := if xFrameIsBroadcast then MB_TMODE_CONVERT_DELAY else MB_TMODE_RESPOND_TIMEOUT);
      eSndState := STATE_M_TX_XFWR;
    }

    /** The transmitter is empty. The callback asserts that nothing is being received. */
    method xMBMasterRTUTransmitFSM() returns (sent: seq<byte>)
      requires Valid() && eRcvState == STATE_M_RX_IDLE
      modifies this
      ensures Valid() && State() == RtuTransmitterEmpty(old(State())) && sent == RtuOctetOut(old(State()))
    {
      hide MasterImage.Contents, ImageFits;
      sent := [];
      match eSndState
      case STATE_M_TX_IDLE => port := port.(rxOn := true, txOn := false);
      case STATE_M_TX_XMIT =>
        if usMasterSndBufferCount != 0 {
          sent := [ucMasterRTUSndBuf[sndBufferCur]];
          sndBufferCur, usMasterSndBufferCount := sndBufferCur + 1, usMasterSndBufferCount - 1;
        } else {
          FrameSent();
        }
      case STATE_M_TX_XFWR =>
    }

    method ReceiverTimerExpired()
      requires Valid()
      modifies `port, `eMBMasterCurErrorType
      ensures Valid() && State() == ReceiverExpired(old(State()))
    {
      hide MasterImage.Contents, ImageFits;
      match eRcvState {
      case STATE_M_RX_INIT =>
        port := port.(events := port.events + {EV_MASTER_READY});
      case STATE_M_RX_RCV =>
        port := port.(events := port.events + {EV_MASTER_FRAME_RECEIVED});
      case STATE_M_RX_ERROR =>
        eMBMasterCurErrorType := EV_ERROR_RECEIVE_DATA;
        port := port.(events := port.events + {EV_MASTER_ERROR_PROCESS});
      case STATE_M_RX_IDLE =>
      }
    }

    method WaitTimerExpired()
      requires Valid()
      modifies `port, `eMBMasterCurErrorType
      ensures Valid() && State() == WaitExpired(old(State()))
    {
      hide MasterImage.Contents, ImageFits;
      match eSndState {
      case STATE_M_TX_XFWR =>
        if !xFrameIsBroadcast {
          eMBMasterCurErrorType := EV_ERROR_RESPOND_TIMEOUT;
          port := port.(events := port.events + {EV_MASTER_ERROR_PROCESS});
        }
      case _ =>
      }
    }

    /** The timer has expired. The callback asserts that nothing is being sent. */
    method xMBMasterRTUTimerExpired()
      requires Valid() && eSndState != STATE_M_TX_XMIT
      modifies this
      ensures Valid() && State() == RtuTimerExpired(old(State()))
    {
      hide MasterImage.Contents, ImageFits, ReceiverExpired, WaitExpired;
      ghost var m := State();
      ReceiverTimerExpired();
      WaitTimerExpired();
      ExpiredKeepRest(m);
      StopTimer();
    }

    /** Both machines go idle; a convert delay that has passed has the broadcast executed. */
    method StopTimer()
      requires Valid()
      modifies this
      ensures Valid() && State() ==
              var t := old(State()).(rcvState := STATE_M_RX_IDLE, sndState := STATE_M_TX_IDLE, timerOn := false);
              if t.mode == MB_TMODE_CONVERT_DELAY then t.(events := t.events + {EV_MASTER_EXECUTE}) else t
    {
      hide MasterImage.Contents, ImageFits;
      eRcvState, eSndState := STATE_M_RX_IDLE, STATE_M_TX_IDLE;
      port := port.(timerOn := false,
                    events :=
                      if port.mode == MB_TMODE_CONVERT_DELAY then port.events + {EV_MASTER_EXECUTE} else port.events);
    }
  
    // ---------- mb_m.c ----------

    /** Enabling starts the receiver, and in any case posts a frame received. */
    method eMBMasterEnable() returns (eStatus: ErrorCode)
      requires Valid()
      modifies this
      ensures Valid() && State() == MasterEnable(old(State()))
      ensures eStatus == if old(eMBState) == STATE_DISABLED then MB_ENOERR else MB_EILLSTATE
    {
      hide MasterImage.Contents, ImageFits;
      if eMBState == STATE_DISABLED {
        eRcvState, eMBState, eStatus := STATE_M_RX_INIT, STATE_ENABLED, MB_ENOERR;
        port := port.(rxOn := true, txOn := false, timerOn := true, mode := MB_TMODE_T35,
                      events := port.events + {EV_MASTER_FRAME_RECEIVED});
      } else {
        eStatus := MB_EILLSTATE;
        port := port.(events := port.events + {EV_MASTER_FRAME_RECEIVED});
      }
    }

    /** One run of the handler found for function code `ucFunctionCode`. */
    method RunHandler(ucFunctionCode: byte, pucFrame: array<byte>, length: nat) returns (eException: Exception)
      requires Valid() && Apart(image, ucMasterRTUSndBuf, pucFrame) && 1 <= ucMBMasterDestAddress
      requires ucFunctionCode == pucFrame[1] && Handled(ucFunctionCode)
      requires ReadsInside(Args(ucMasterRTUSndBuf, pucFrame, length, xFrameIsBroadcast))
      modifies image.usMRegHoldBuf, image.ucMCoilBuf
      ensures Taken(eException, image.Contents()) ==
              Take(image.layout, old(image.Contents()), ucMBMasterDestAddress,
                   Args(ucMasterRTUSndBuf, pucFrame, length, xFrameIsBroadcast))
    {
      hide MasterImage.Contents, ImageFits, TakeWriteRegister, TakeWriteRegisters, TakeReadRegisters,
        TakeReadWriteRegisters,
        TakeReadCoils, TakeWriteCoil, TakeWriteCoils, ReadsOfWriteRegisters, ReadsOfReadRegisters,
        ReadsOfReadWriteRegisters, ReadsOfReadCoils, ReadsOfWriteCoils;
      var dest, snd, toAll := ucMBMasterDestAddress, ucMasterRTUSndBuf, xFrameIsBroadcast;
      assert Args(snd, pucFrame, length, toAll).frame[0] == ucFunctionCode;
      if ucFunctionCode == MB_FUNC_READ_HOLDING_REGISTER {
        eException := eMBMasterFuncReadHoldingRegister(image, dest, snd, pucFrame, length, toAll);
      } else if ucFunctionCode == MB_FUNC_WRITE_MULTIPLE_REGISTERS {
        eException := eMBMasterFuncWriteMultipleHoldingRegister(image, dest, snd, pucFrame, length, toAll);
      } else if ucFunctionCode == MB_FUNC_WRITE_REGISTER {
        eException := eMBMasterFuncWriteHoldingRegister(image, dest, snd, pucFrame, length, toAll);
      } else if ucFunctionCode == MB_FUNC_READWRITE_MULTIPLE_REGISTERS {
        eException := eMBMasterFuncReadWriteMultipleHoldingRegister(image, dest, snd, pucFrame, length, toAll);
      } else if ucFunctionCode == MB_FUNC_READ_COILS {
        eException := eMBMasterFuncReadCoils(image, dest, snd, pucFrame, length, toAll);
      } else if ucFunctionCode == MB_FUNC_WRITE_SINGLE_COIL {
        eException := eMBMasterFuncWriteCoil(image, dest, snd, pucFrame, length, toAll);
      } else {
        eException := eMBMasterFuncWriteMultipleCoils(image, dest, snd, pucFrame, length, toAll);
      }
    }

    /** A broadcast is executed for every slave in turn. */
    method RunForAll(ucFunctionCode: byte, pucFrame: array<byte>) returns (eException: Exception)
      requires Valid() && Apart(image, ucMasterRTUSndBuf, pucFrame) && xFrameIsBroadcast
      requires ucFunctionCode == pucFrame[1] && Handled(ucFunctionCode)
      requires ReadsInside(Args(ucMasterRTUSndBuf, pucFrame, usMasterSendPDULength, true))
      modifies `ucMBMasterDestAddress, image.usMRegHoldBuf, image.ucMCoilBuf
      ensures Valid() && ucMBMasterDestAddress == MB_MASTER_TOTAL_SLAVE_NUM
      ensures Taken(eException, image.Contents()) ==
              TakeAll(image.layout, old(image.Contents()), MB_MASTER_TOTAL_SLAVE_NUM,
                      Args(ucMasterRTUSndBuf, pucFrame, usMasterSendPDULength, true))
    {
      hide MasterImage.Contents, ImageFits, Take, ReadsInside;
      ghost var args := Args(ucMasterRTUSndBuf, pucFrame, usMasterSendPDULength, true);
      ghost var before := image.Contents();
      ucMBMasterDestAddress := 1;
      eException := RunHandler(ucFunctionCode, pucFrame, usMasterSendPDULength);
      var j := 2;
      while j <= MB_MASTER_TOTAL_SLAVE_NUM
        invariant 2 <= j <= 17 && ucMBMasterDestAddress == j - 1 && Valid()
        invariant args == Args(ucMasterRTUSndBuf, pucFrame, usMasterSendPDULength, true)
        invariant Taken(eException, image.Contents()) == TakeAll(image.layout, before, j - 1, args)
      {
        ucMBMasterDestAddress := j;
        eException := RunHandler(ucFunctionCode, pucFrame, usMasterSendPDULength);
        j := j + 1;
      }
    }

    /** The loop over the handler table. */
    method FindHandler(ucFunctionCode: byte) returns (found: bool)
      ensures found == Handled(ucFunctionCode)
    {
      var i := 0;
      while i < |xMasterFuncHandlers| && xMasterFuncHandlers[i] != ucFunctionCode
        invariant 0 <= i <= |xMasterFuncHandlers|
        invariant forall k :: 0 <= k < i ==> xMasterFuncHandlers[k] != ucFunctionCode
      {
        i := i + 1;
      }
      found := i < |xMasterFuncHandlers|;
      if found {
        assert xMasterFuncHandlers[i] == ucFunctionCode;
      } else {
        assert xMasterFuncHandlers[0] != ucFunctionCode && xMasterFuncHandlers[1] != ucFunctionCode;
        assert xMasterFuncHandlers[2] != ucFunctionCode && xMasterFuncHandlers[3] != ucFunctionCode;
        assert xMasterFuncHandlers[4] != ucFunctionCode && xMasterFuncHandlers[5] != ucFunctionCode;
        assert xMasterFuncHandlers[6] != ucFunctionCode;
      }
    }

    method HandleFrame() returns (good: bool)
      requires Valid() && Executable(State()) && StaysInside(State())
      modifies this, image.usMRegHoldBuf, image.ucMCoilBuf
      ensures Valid() && State() == Handle(image.layout, old(State()))
      ensures good == HandledWell(image.layout, old(State()))
    {
      hide MasterImage.Contents, ImageFits, Take, ReadsInside, TakeAll;
      var pucFrame := if ucMBFrame == InSend then ucMasterRTUSndBuf else ucMasterRTURcvBuf;
      var ucFunctionCode := pucFrame[1];
      assert pucFrame[1..] == FramePdu(State());
      good := false;
      if ucFunctionCode >= MB_FUNC_ERROR {
        good := pucFrame[2] == MB_EX_NONE.Code();
      } else {
        var found := FindHandler(ucFunctionCode);
        if found {
          if xFrameIsBroadcast {
            usLength := usMasterSendPDULength;
            var eException := RunForAll(ucFunctionCode, pucFrame);
            good := eException == MB_EX_NONE;
          } else {
            var eException := RunHandler(ucFunctionCode, pucFrame, usLength);
            good := eException == MB_EX_NONE;
          }
        }
      }
    }

    method Report(result: Result)
      requires Valid()
      modifies `port
      ensures Valid() && State() == Finish(old(State()), result)
    {
      hide MasterImage.Contents, ImageFits;
      port := port.(log := port.log + [Finished(result), Released], runRes := port.runRes + 1);
    }

    method PostError(e: ErrorType)
      requires Valid()
      modifies `port, `eMBMasterCurErrorType
      ensures Valid() && State() == old(State()).(error := e, events := old(port.events) + {EV_MASTER_ERROR_PROCESS})
    {
      hide MasterImage.Contents, ImageFits;
      eMBMasterCurErrorType := e;
      port := port.(events := port.events + {EV_MASTER_ERROR_PROCESS});
    }

    method ExecuteFrame()
      requires Valid() && Executable(State()) && StaysInside(State())
      modifies this, image.usMRegHoldBuf, image.ucMCoilBuf
      ensures Valid() && State() == Execute(image.layout, old(State()))
    {
      hide MasterImage.Contents, ImageFits, Handle, HandledWell, Finish, StaysInside;
      var good := HandleFrame();
      if good {
        Report(EV_MASTER_PROCESS_SUCESS);
      } else {
        PostError(EV_ERROR_EXECUTE_FUNCTION);
      }
    }

    method PostExecute()
      requires Valid()
      modifies `port
      ensures Valid() && State() == old(State()).(events := old(port.events) + {EV_MASTER_EXECUTE})
    {
      hide MasterImage.Contents, ImageFits;
      port := port.(events := port.events + {EV_MASTER_EXECUTE});
    }

    method TakeFrame(address: byte, length: nat)
      requires Valid()
      modifies `ucRcvAddress, `usLength, `ucMBFrame
      ensures Valid() && State() == old(State()).(rcvAddress := address, length := length, frame := InReceive)
    {
      hide MasterImage.Contents, ImageFits;
      ucRcvAddress, usLength, ucMBFrame := address, length, InReceive;
    }

    /** A frame received is executed if it is acceptable and comes from the slave asked. */
    method FrameReceived()
      requires Valid() && usMasterRcvBufferPos < MB_SER_PDU_SIZE_MAX
      modifies this
      ensures Valid() && State() == ReceivedFrame(old(State()))
    {
      hide MasterImage.Contents, ImageFits, RtuReceiveOk;
      var eStatus, address, length := eMBMasterRTUReceive();
      if eStatus == MB_ENOERR {
        TakeFrame(address, length);
      }
      if eStatus == MB_ENOERR && ucRcvAddress == ucMBMasterDestAddress {
        PostExecute();
      } else {
        PostError(EV_ERROR_RECEIVE_DATA);
      }
    }

    method ProcessError()
      requires Valid()
      modifies this
      ensures Valid() && State() == Finish(old(State()).(frame := InSend), ResultOf(old(State()).error))
    {
      hide MasterImage.Contents, ImageFits;
      ucMBFrame := InSend;
      match eMBMasterCurErrorType
      case EV_ERROR_RESPOND_TIMEOUT => Report(EV_MASTER_ERROR_RESPOND_TIMEOUT);
      case EV_ERROR_RECEIVE_DATA => Report(EV_MASTER_ERROR_RECEIVE_DATA);
      case EV_ERROR_EXECUTE_FUNCTION => Report(EV_MASTER_ERROR_EXECUTE_FUNCTION);
    }

    method SendFrame()
      requires Valid()
      modifies this, ucMasterRTUSndBuf
      ensures Valid() && State() == RtuSend(old(State()).(frame := InSend))
    {
      hide MasterImage.Contents, ImageFits, RtuSend;
      ucMBFrame := InSend;
      var _ := eMBMasterRTUSend();
    }

    /** Takes the pending events. */
    method xMBMasterPortEventGet() returns (eEvent: Event)
      requires Valid()
      modifies `port
      ensures Valid() && eEvent == Posted(old(port.events)) && State() == old(State()).(events := {})
    {
      hide MasterImage.Contents, ImageFits;
      eEvent := Posted(port.events);
      port := port.(events := {});
    }

    /** One call of the poll loop. */
    method eMBMasterPoll() returns (eStatus: ErrorCode)
      requires Valid() && port.events != {}
      requires Posted(port.events) == EV_MASTER_EXECUTE ==> Executable(State()) && StaysInside(State())
      requires Posted(port.events) == EV_MASTER_FRAME_RECEIVED ==> usMasterRcvBufferPos < MB_SER_PDU_SIZE_MAX
      modifies this, ucMasterRTUSndBuf, image.usMRegHoldBuf, image.ucMCoilBuf
      ensures Valid() && State() == Poll(image.layout, old(State()))
      ensures eStatus == if Running(old(State())) then MB_ENOERR else MB_EILLSTATE
    {
      hide MasterImage.Contents, ImageFits, Execute, Finish, ReceivedFrame, RtuSend, Posted;
      if eMBState != STATE_ENABLED && eMBState != STATE_ESTABLISHED {
        return MB_EILLSTATE;
      }
      var eEvent := xMBMasterPortEventGet();
      match eEvent {
      case EV_MASTER_READY =>
        eMBState := STATE_ESTABLISHED;
      case EV_MASTER_FRAME_RECEIVED =>
        FrameReceived();
      case EV_MASTER_EXECUTE =>
        ExecuteFrame();
      case EV_MASTER_FRAME_SENT =>
        SendFrame();
      case EV_MASTER_ERROR_PROCESS =>
        ProcessError();
      }
      return MB_ENOERR;
    }
  
    // ---------- mbfuncholding_m.c, mbfunccoils_m.c ----------

    /** Function code and two 16-bit fields. */
    method PutHead(fc: byte, a: u16, b: u16)
      requires Valid()
      modifies ucMasterRTUSndBuf
      ensures ucMasterRTUSndBuf[..] == Splice(old(ucMasterRTUSndBuf[..]), 1, [fc] + Fields(a, b))
    {
      hide Hi, Lo, Splice;
      ucMasterRTUSndBuf[1] := fc;
      ucMasterRTUSndBuf[2], ucMasterRTUSndBuf[3] := Hi(a), Lo(a);
      ucMasterRTUSndBuf[4], ucMasterRTUSndBuf[5] := Hi(b), Lo(b);
      SpliceByParts(old(ucMasterRTUSndBuf[..]), 1, [fc] + Fields(a, b), ucMasterRTUSndBuf[..]);
    }

    /** The request stands in the send buffer: note its length and destination, and have it sent. */
    method PostRequest(ucSndAddr: byte, length: nat, ghost before: Master, ghost r: Request)
      requires Valid() && ucSndAddr <= MB_MASTER_TOTAL_SLAVE_NUM && port.runRes >= 1 && Sendable(r)
      requires length == |Encode(r)|
      requires Shaped(image.layout, before) && State() == before.(snd := Splice(before.snd, 1, Encode(r)))
      modifies `port, `usMasterSendPDULength, `ucMBMasterDestAddress
      ensures Valid() && State() == Ask(before, ucSndAddr, r)
    {
      hide MasterImage.Contents, ImageFits, Encode, Splice;
      port := port.(runRes := port.runRes - 1, events := port.events + {EV_MASTER_FRAME_SENT},
                    log := port.log + [Accepted]);
      ucMBMasterDestAddress, usMasterSendPDULength := ucSndAddr, length;
    }

    method eMBMasterReqReadHoldingRegister(ucSndAddr: byte, usRegAddr: u16, usNRegs: u16)
      returns (eErrStatus: ReqErrCode)
      requires Valid()
      modifies this, ucMasterRTUSndBuf
      ensures Valid()
      ensures eErrStatus ==
              if !(ucSndAddr <= 16) then MB_MRE_ILL_ARG
              else if old(port.runRes) == 0 then MB_MRE_MASTER_BUSY else MB_MRE_NO_ERR
      ensures State() == if eErrStatus != MB_MRE_NO_ERR then old(State())
                         else Ask(old(State()), ucSndAddr, ReadHolding(usRegAddr, usNRegs))
      ensures eErrStatus == MB_MRE_NO_ERR ==>
                && usMasterSendPDULength == 5
                && ucMasterRTUSndBuf[1..6] ==
                   [0x03, usRegAddr / 0x100, usRegAddr % 0x100, usNRegs / 0x100, usNRegs % 0x100]
    {
      hide MasterImage.Contents, ImageFits, Pairs, Splice, Fields, Ask;
      eErrStatus := Verdict(ucSndAddr <= MB_MASTER_TOTAL_SLAVE_NUM, port.runRes);
      if eErrStatus == MB_MRE_NO_ERR {
        PutHead(MB_FUNC_READ_HOLDING_REGISTER, usRegAddr, usNRegs);
        PostRequest(ucSndAddr, 5, old(State()), ReadHolding(usRegAddr, usNRegs));
        AskPutsOctets(old(State()), ucSndAddr, ReadHolding(usRegAddr, usNRegs));
      }
    }

    method eMBMasterReqWriteHoldingRegister(ucSndAddr: byte, usRegAddr: u16, usRegData: u16)
      returns (eErrStatus: ReqErrCode)
      requires Valid()
      modifies this, ucMasterRTUSndBuf
      ensures Valid()
      ensures eErrStatus ==
              if !(ucSndAddr <= 16) then MB_MRE_ILL_ARG
              else if old(port.runRes) == 0 then MB_MRE_MASTER_BUSY else MB_MRE_NO_ERR
      ensures State() == if eErrStatus != MB_MRE_NO_ERR then old(State())
                         else Ask(old(State()), ucSndAddr, WriteRegister(usRegAddr, usRegData))
      ensures eErrStatus == MB_MRE_NO_ERR ==>
                && usMasterSendPDULength == 5
                && ucMasterRTUSndBuf[1..6] ==
                   [0x06, usRegAddr / 0x100, usRegAddr % 0x100, usRegData / 0x100, usRegData % 0x100]
    {
      hide MasterImage.Contents, ImageFits, Pairs, Splice, Fields, Ask;
      eErrStatus := Verdict(ucSndAddr <= MB_MASTER_TOTAL_SLAVE_NUM, port.runRes);
      if eErrStatus == MB_MRE_NO_ERR {
        PutHead(MB_FUNC_WRITE_REGISTER, usRegAddr, usRegData);
        PostRequest(ucSndAddr, 5, old(State()), WriteRegister(usRegAddr, usRegData));
        AskPutsOctets(old(State()), ucSndAddr, WriteRegister(usRegAddr, usRegData));
      }
    }

    method eMBMasterReqReadCoils(ucSndAddr: byte, usCoilAddr: u16, usNCoils: u16) returns (eErrStatus: ReqErrCode)
      requires Valid()
      modifies this, ucMasterRTUSndBuf
      ensures Valid()
      ensures eErrStatus ==
              if !(ucSndAddr <= 16) then MB_MRE_ILL_ARG
              else if old(port.runRes) == 0 then MB_MRE_MASTER_BUSY else MB_MRE_NO_ERR
      ensures State() == if eErrStatus != MB_MRE_NO_ERR then old(State())
                         else Ask(old(State()), ucSndAddr, ReadCoils(usCoilAddr, usNCoils))
      ensures eErrStatus == MB_MRE_NO_ERR ==>
                && usMasterSendPDULength == 5
                && ucMasterRTUSndBuf[1..6] ==
                   [0x01, usCoilAddr / 0x100, usCoilAddr % 0x100, usNCoils / 0x100, usNCoils % 0x100]
    {
      hide MasterImage.Contents, ImageFits, Pairs, Splice, Fields, Ask;
      eErrStatus := Verdict(ucSndAddr <= MB_MASTER_TOTAL_SLAVE_NUM, port.runRes);
      if eErrStatus == MB_MRE_NO_ERR {
        PutHead(MB_FUNC_READ_COILS, usCoilAddr, usNCoils);
        PostRequest(ucSndAddr, 5, old(State()), ReadCoils(usCoilAddr, usNCoils));
        AskPutsOctets(old(State()), ucSndAddr, ReadCoils(usCoilAddr, usNCoils));
      }
    }

    /** Only the two values the protocol knows are legal. */
    method eMBMasterReqWriteCoil(ucSndAddr: byte, usCoilAddr: u16, usCoilData: u16) returns (eErrStatus: ReqErrCode)
      requires Valid()
      modifies this, ucMasterRTUSndBuf
      ensures Valid()
      ensures eErrStatus ==
              if !(ucSndAddr <= 16 && (usCoilData == 0xFF00 || usCoilData == 0)) then MB_MRE_ILL_ARG
              else if old(port.runRes) == 0 then MB_MRE_MASTER_BUSY else MB_MRE_NO_ERR
      ensures State() == if eErrStatus != MB_MRE_NO_ERR then old(State())
                         else Ask(old(State()), ucSndAddr, WriteCoil(usCoilAddr, usCoilData == 0xFF00))
      ensures eErrStatus == MB_MRE_NO_ERR ==>
                && usMasterSendPDULength == 5
                && ucMasterRTUSndBuf[1..6] ==
                   [0x05, usCoilAddr / 0x100, usCoilAddr % 0x100, usCoilData / 0x100, usCoilData % 0x100]
    {
      hide MasterImage.Contents, ImageFits, Pairs, Splice, Fields, Ask;
      eErrStatus := Verdict(ucSndAddr <= MB_MASTER_TOTAL_SLAVE_NUM && (usCoilData == 0xFF00 || usCoilData == 0),
                            port.runRes);
      if eErrStatus == MB_MRE_NO_ERR {
        PutHead(MB_FUNC_WRITE_SINGLE_COIL, usCoilAddr, usCoilData);
        PostRequest(ucSndAddr, 5, old(State()), WriteCoil(usCoilAddr, usCoilData == 0xFF00));
        AskPutsOctets(old(State()), ucSndAddr, WriteCoil(usCoilAddr, usCoilData == 0xFF00));
      }
    }

    /** Head, byte count and the registers. */
    method PutWriteRegisters(usRegAddr: u16, usNRegs: nat, pusDataBuffer: array<u16>)
      requires Valid() && usNRegs <= pusDataBuffer.Length && pusDataBuffer as object != ucMasterRTUSndBuf
      requires Sendable(WriteRegisters(usRegAddr, pusDataBuffer[..usNRegs]))
      modifies ucMasterRTUSndBuf
      ensures ucMasterRTUSndBuf[..] ==
              Splice(old(ucMasterRTUSndBuf[..]), 1, Encode(WriteRegisters(usRegAddr, pusDataBuffer[..usNRegs])))
    {
      hide Splice, Fields, RegBytes;
      ghost var s, head, regs :=
        ucMasterRTUSndBuf[..], [MB_FUNC_WRITE_MULTIPLE_REGISTERS] + Fields(usRegAddr, usNRegs),
        pusDataBuffer[..usNRegs];
      PutHead(MB_FUNC_WRITE_MULTIPLE_REGISTERS, usRegAddr, usNRegs);
      PutOctet(6, 2 * usNRegs);
      SpliceChain(s, 1, head, [2 * usNRegs]);
      FetchRegs(pusDataBuffer, 0, usNRegs, ucMasterRTUSndBuf, 7);
      assert pusDataBuffer[0..0 + usNRegs] == regs;
      SpliceChain(s, 1, head + [2 * usNRegs], RegBytes(regs));
    }

    method PutOctet(at: nat, b: byte)
      requires at < ucMasterRTUSndBuf.Length
      modifies ucMasterRTUSndBuf
      ensures ucMasterRTUSndBuf[..] == Splice(old(ucMasterRTUSndBuf[..]), at, [b])
    {
      ucMasterRTUSndBuf[at] := b;
    }

    method eMBMasterReqWriteMultipleHoldingRegister(ucSndAddr: byte, usRegAddr: u16, usNRegs: nat,
                                                    pusDataBuffer: array<u16>)
      returns (eErrStatus: ReqErrCode)
      requires Valid() && usNRegs <= pusDataBuffer.Length && pusDataBuffer as object != ucMasterRTUSndBuf
      requires Sendable(WriteRegisters(usRegAddr, pusDataBuffer[..usNRegs]))
      modifies this, ucMasterRTUSndBuf
      ensures Valid()
      ensures eErrStatus ==
              if !(ucSndAddr <= 16) then MB_MRE_ILL_ARG
              else if old(port.runRes) == 0 then MB_MRE_MASTER_BUSY else MB_MRE_NO_ERR
      ensures State() == if eErrStatus != MB_MRE_NO_ERR then old(State())
                         else Ask(old(State()), ucSndAddr, WriteRegisters(usRegAddr, pusDataBuffer[..usNRegs]))
      ensures eErrStatus == MB_MRE_NO_ERR ==>
                && usMasterSendPDULength == 6 + 2 * usNRegs
                && ucMasterRTUSndBuf[1..1 + usMasterSendPDULength] ==
                   [0x10, usRegAddr / 0x100, usRegAddr % 0x100, usNRegs / 0x100, usNRegs % 0x100, 2 * usNRegs]
                   + Pairs(pusDataBuffer[..usNRegs])
    {
      hide MasterImage.Contents, ImageFits, Pairs, Splice, Fields, RegBytes, Ask;
      eErrStatus := Verdict(ucSndAddr <= MB_MASTER_TOTAL_SLAVE_NUM, port.runRes);
      if eErrStatus == MB_MRE_NO_ERR {
        PutWriteRegisters(usRegAddr, usNRegs, pusDataBuffer);
        PostRequest(ucSndAddr, 6 + 2 * usNRegs, old(State()), WriteRegisters(usRegAddr, pusDataBuffer[..usNRegs]));
        AskPutsOctets(old(State()), ucSndAddr, WriteRegisters(usRegAddr, pusDataBuffer[..usNRegs]));
      }
    }

    /** Both heads, byte count and the registers. */
    method PutReadWriteRegisters(usReadRegAddr: u16, usNReadRegs: u16, pusDataBuffer: array<u16>,
      usWriteRegAddr: u16, usNWriteRegs: nat)
      requires Valid() && usNWriteRegs <= pusDataBuffer.Length && pusDataBuffer as object != ucMasterRTUSndBuf
      requires Sendable(ReadWriteRegisters(usReadRegAddr, usNReadRegs, usWriteRegAddr, pusDataBuffer[..usNWriteRegs]))
      modifies ucMasterRTUSndBuf
      ensures ucMasterRTUSndBuf[..] ==
              Splice(old(ucMasterRTUSndBuf[..]), 1,
                     Encode(ReadWriteRegisters(usReadRegAddr, usNReadRegs, usWriteRegAddr,
                                               pusDataBuffer[..usNWriteRegs])))
    {
      hide Splice, RegBytes, Hi, Lo, Word;
      ghost var s, regs := ucMasterRTUSndBuf[..], pusDataBuffer[..usNWriteRegs];
      ghost var head := [MB_FUNC_READWRITE_MULTIPLE_REGISTERS] + Fields(usReadRegAddr, usNReadRegs);
      PutHead(MB_FUNC_READWRITE_MULTIPLE_REGISTERS, usReadRegAddr, usNReadRegs);
      PutHeadOfWrite(usWriteRegAddr, usNWriteRegs);
      SpliceChain(s, 1, head, Fields(usWriteRegAddr, usNWriteRegs) + [2 * usNWriteRegs]);
      FetchRegs(pusDataBuffer, 0, usNWriteRegs, ucMasterRTUSndBuf, 11);
      assert pusDataBuffer[0..0 + usNWriteRegs] == regs;
      head := head + (Fields(usWriteRegAddr, usNWriteRegs) + [2 * usNWriteRegs]);
      SpliceChain(s, 1, head, RegBytes(regs));
      assert head + RegBytes(regs) == Encode(ReadWriteRegisters(usReadRegAddr, usNReadRegs, usWriteRegAddr, regs));
    }

    method PutHeadOfWrite(a: u16, n: nat)
      requires Valid() && 2 * n < 0x100
      modifies ucMasterRTUSndBuf
      ensures ucMasterRTUSndBuf[..] == Splice(old(ucMasterRTUSndBuf[..]), 6, Fields(a, n) + [2 * n])
    {
      hide Hi, Lo, Splice;
      ucMasterRTUSndBuf[6], ucMasterRTUSndBuf[7] := Hi(a), Lo(a);
      ucMasterRTUSndBuf[8], ucMasterRTUSndBuf[9] := Hi(n), Lo(n);
      ucMasterRTUSndBuf[10] := 2 * n;
      SpliceByParts(old(ucMasterRTUSndBuf[..]), 6, Fields(a, n) + [2 * n], ucMasterRTUSndBuf[..]);
    }

    method eMBMasterReqReadWriteMultipleHoldingRegister(
        ucSndAddr: byte, usReadRegAddr: u16, usNReadRegs: u16, pusDataBuffer: array<u16>,
        usWriteRegAddr: u16, usNWriteRegs: nat)
      returns (eErrStatus: ReqErrCode)
      requires Valid() && usNWriteRegs <= pusDataBuffer.Length && pusDataBuffer as object != ucMasterRTUSndBuf
      requires Sendable(ReadWriteRegisters(usReadRegAddr, usNReadRegs, usWriteRegAddr, pusDataBuffer[..usNWriteRegs]))
      modifies this, ucMasterRTUSndBuf
      ensures Valid()
      ensures eErrStatus ==
              if !(ucSndAddr <= 16) then MB_MRE_ILL_ARG
              else if old(port.runRes) == 0 then MB_MRE_MASTER_BUSY else MB_MRE_NO_ERR
      ensures State() ==
              if eErrStatus != MB_MRE_NO_ERR then old(State())
              else Ask(old(State()), ucSndAddr,
                       ReadWriteRegisters(usReadRegAddr, usNReadRegs, usWriteRegAddr, pusDataBuffer[..usNWriteRegs]))
      ensures eErrStatus == MB_MRE_NO_ERR ==>
                && usMasterSendPDULength == 10 + 2 * usNWriteRegs
                && ucMasterRTUSndBuf[1..1 + usMasterSendPDULength] ==
                   [0x17, usReadRegAddr / 0x100, usReadRegAddr % 0x100, usNReadRegs / 0x100, usNReadRegs % 0x100,
                    usWriteRegAddr / 0x100, usWriteRegAddr % 0x100, usNWriteRegs / 0x100, usNWriteRegs % 0x100,
                    2 * usNWriteRegs] + Pairs(pusDataBuffer[..usNWriteRegs])
    {
      hide MasterImage.Contents, ImageFits, Pairs, Splice, Fields, RegBytes, Ask;
      eErrStatus := Verdict(ucSndAddr <= MB_MASTER_TOTAL_SLAVE_NUM, port.runRes);
      if eErrStatus == MB_MRE_NO_ERR {
        PutReadWriteRegisters(usReadRegAddr, usNReadRegs, pusDataBuffer, usWriteRegAddr, usNWriteRegs);
        PostRequest(ucSndAddr, 10 + 2 * usNWriteRegs, old(State()),
                    ReadWriteRegisters(usReadRegAddr, usNReadRegs, usWriteRegAddr, pusDataBuffer[..usNWriteRegs]));
        AskPutsOctets(old(State()), ucSndAddr,
          ReadWriteRegisters(usReadRegAddr, usNReadRegs, usWriteRegAddr, pusDataBuffer[..usNWriteRegs]));
      }
    }

    /** Head, byte count and the packed coils. */
    method PutWriteCoils(usCoilAddr: u16, usNCoils: u16, pucDataBuffer: array<byte>)
      requires Valid() && CoilBytes(usNCoils) <= pucDataBuffer.Length && pucDataBuffer != ucMasterRTUSndBuf
      requires Sendable(WriteCoils(usCoilAddr, usNCoils, pucDataBuffer[..CoilBytes(usNCoils)]))
      modifies ucMasterRTUSndBuf
      ensures ucMasterRTUSndBuf[..] ==
              Splice(old(ucMasterRTUSndBuf[..]), 1,
                Encode(WriteCoils(usCoilAddr, usNCoils, pucDataBuffer[..CoilBytes(usNCoils)])))
    {
      hide Splice, Fields;
      var ucByteCount := CoilBytes(usNCoils);
      ghost var s, head, octets :=
        ucMasterRTUSndBuf[..], [MB_FUNC_WRITE_MULTIPLE_COILS] + Fields(usCoilAddr, usNCoils),
        pucDataBuffer[..ucByteCount];
      PutHead(MB_FUNC_WRITE_MULTIPLE_COILS, usCoilAddr, usNCoils);
      PutOctet(6, ucByteCount);
      SpliceChain(s, 1, head, [ucByteCount]);
      head := head + [ucByteCount];
      var usRegIndex := 0;
      while ucByteCount > usRegIndex
        invariant 0 <= usRegIndex <= ucByteCount
        invariant pucDataBuffer[..ucByteCount] == octets
        invariant ucMasterRTUSndBuf[..] == Splice(s, 1, head + octets[..usRegIndex])
      {
        OctetPlaced(s, 1, head, octets, usRegIndex);
        assert pucDataBuffer[usRegIndex] == octets[usRegIndex];
        ucMasterRTUSndBuf[7 + usRegIndex] := pucDataBuffer[usRegIndex];
        usRegIndex := usRegIndex + 1;
      }
      assert octets[..ucByteCount] == octets;
    }

    method eMBMasterReqWriteMultipleCoils(ucSndAddr: byte, usCoilAddr: u16, usNCoils: u16, pucDataBuffer: array<byte>)
      returns (eErrStatus: ReqErrCode)
      requires Valid() && CoilBytes(usNCoils) <= pucDataBuffer.Length && pucDataBuffer != ucMasterRTUSndBuf
      requires usNCoils <= 0x7B0 ==> Sendable(WriteCoils(usCoilAddr, usNCoils, pucDataBuffer[..CoilBytes(usNCoils)]))
      modifies this, ucMasterRTUSndBuf
      ensures Valid()
      ensures eErrStatus ==
              if !(ucSndAddr <= 16 && usNCoils <= 0x7B0) then MB_MRE_ILL_ARG
              else if old(port.runRes) == 0 then MB_MRE_MASTER_BUSY else MB_MRE_NO_ERR
      ensures State() == if eErrStatus != MB_MRE_NO_ERR then old(State())
                         else Ask(old(State()), ucSndAddr,
                                  WriteCoils(usCoilAddr, usNCoils, pucDataBuffer[..CoilBytes(usNCoils)]))
      ensures eErrStatus == MB_MRE_NO_ERR ==>
                && usMasterSendPDULength == 6 + (usNCoils + 7) / 8
                && ucMasterRTUSndBuf[1..1 + usMasterSendPDULength] ==
                   [0x0F, usCoilAddr / 0x100, usCoilAddr % 0x100, usNCoils / 0x100, usNCoils % 0x100,
                    (usNCoils + 7) / 8]
                   + pucDataBuffer[..(usNCoils + 7) / 8]
    {
      hide MasterImage.Contents, ImageFits, Pairs, Splice, Fields, Ask;
      eErrStatus := Verdict(ucSndAddr <= MB_MASTER_TOTAL_SLAVE_NUM && usNCoils <= 0x7B0, port.runRes);
      if eErrStatus == MB_MRE_NO_ERR {
        PutWriteCoils(usCoilAddr, usNCoils, pucDataBuffer);
        PostRequest(ucSndAddr, 6 + CoilBytes(usNCoils), old(State()),
          WriteCoils(usCoilAddr, usNCoils, pucDataBuffer[..CoilBytes(usNCoils)]));
        OctetsFor(usNCoils);
        AskPutsOctets(old(State()), ucSndAddr, WriteCoils(usCoilAddr, usNCoils, pucDataBuffer[..CoilBytes(usNCoils)]));
      }
    }
  }

  lemma ExpiredKeepRest(m: Master)
    ensures var t := WaitExpired(ReceiverExpired(m)); t == m.(events := t.events, error := t.error)
  {
    hide ReceiverExpired, WaitExpired;
    ReceiverKeepsRest(m);
    WaitKeepsRest(ReceiverExpired(m));
  }

  lemma ReceiverKeepsRest(m: Master)
    ensures var t := ReceiverExpired(m); t == m.(events := t.events, error := t.error)
  {
  }

  lemma WaitKeepsRest(m: Master)
    ensures var t := WaitExpired(m); t == m.(events := t.events, error := t.error)
  {
  }
}
