/** The master's reply handlers as they run, on the send buffer, the frame and the image. */
module MasterHandlers {
  import opened Bytes
  import opened Octets
  import opened Modbus
  import opened Image
  import opened MasterFunctions

  /** Offset of the PDU in the send buffer and in the receive buffer. */
  const MB_SER_PDU_PDU_OFF := 1

  ghost predicate Apart(image: MasterImage, snd: array<byte>, pucFrame: array<byte>) {
    && image.Valid()
    && snd.Length == MB_PDU_SIZE_MAX && MB_PDU_SIZE_MAX <= pucFrame.Length
    && snd as object != image.usMRegHoldBuf && snd != image.ucMCoilBuf
    && pucFrame as object != image.usMRegHoldBuf && pucFrame != image.ucMCoilBuf
  }

  ghost function Args(snd: array<byte>, pucFrame: array<byte>, usLen: nat, broadcast: bool): (i: Input)
    requires snd.Length == MB_PDU_SIZE_MAX && MB_PDU_SIZE_MAX <= pucFrame.Length
    reads snd, pucFrame
    ensures InputOk(i)
  {
    Input(snd[1..], pucFrame[1..], usLen, broadcast)
  }

  lemma SliceOfTail(s: seq<byte>, from: nat, n: nat)
    requires 1 + from + n <= |s|
    ensures s[1..][from..from + n] == s[1 + from..1 + from + n]
  {
  }

  lemma Within(a: array<byte>, from: nat, n: nat)
    requires 1 + from + n <= a.Length
    ensures a[1..][from..from + n] == a[1 + from..1 + from + n]
  {
    var s := a[..];
    assert a[1..] == s[1..];
    SliceOfTail(s, from, n);
    assert a[1 + from..1 + from + n] == s[1 + from..1 + from + n];
  }

  lemma RegsWithin(a: array<byte>, from: nat, n: nat)
    requires 1 + from + 2 * n <= a.Length
    ensures RegsOf(a[1 + from..], n) == RegsOf(a[1..][from..from + 2 * n], n)
  {
    hide RegsOf;
    Within(a, from, 2 * n);
    var s := a[1 + from..1 + from + 2 * n];
    assert a[1 + from..][..2 * n] == s == s[..2 * n];
    RegsPrefix(a[1 + from..], s, n);
  }

  method eMBMasterFuncWriteHoldingRegister(image: MasterImage, dest: byte, snd: array<byte>,
                                           pucFrame: array<byte>, usLen: nat, ghost broadcast: bool)
    returns (eStatus: Exception)
    requires Apart(image, snd, pucFrame) && 1 <= dest <= MB_MASTER_TOTAL_SLAVE_NUM
    modifies image.usMRegHoldBuf
    ensures Taken(eStatus, image.Contents()) ==
            TakeWriteRegister(image.layout, old(image.Contents()), dest, Args(snd, pucFrame, usLen, broadcast))
  {
    hide BitString, OneUp, OneDown, Word, RegsOf, SetRegs;
    if usLen == 5 {
      var usRegAddress := OneUp(Word(pucFrame[2], pucFrame[3]));
      OneDownUndoesUp(Word(pucFrame[2], pucFrame[3]));
      RegsWithin(pucFrame, 3, 1);
      var eRegStatus := image.eMBMasterRegHoldingCB(dest, pucFrame, 4, usRegAddress, 1, MB_REG_WRITE);
      eStatus := prveMBError2Exception(eRegStatus);
    } else {
      eStatus := MB_EX_ILLEGAL_DATA_VALUE;
    }
  }

  method eMBMasterFuncWriteMultipleHoldingRegister(image: MasterImage, dest: byte, snd: array<byte>,
                                                   pucFrame: array<byte>, usLen: nat, broadcast: bool)
    returns (eStatus: Exception)
    requires Apart(image, snd, pucFrame) && 1 <= dest <= MB_MASTER_TOTAL_SLAVE_NUM
    requires ReadsOfWriteRegisters(Args(snd, pucFrame, usLen, broadcast))
    modifies image.usMRegHoldBuf
    ensures Taken(eStatus, image.Contents()) ==
            TakeWriteRegisters(image.layout, old(image.Contents()), dest, Args(snd, pucFrame, usLen, broadcast))
  {
    hide BitString, OneUp, OneDown, Word, RegsOf, SetRegs;
    if usLen == 5 || broadcast {
      var usRegAddress, usRegCount := OneUp(Word(snd[2], snd[3])), Word(snd[4], snd[5]);
      var ucRegByteCount := snd[6];
      OneDownUndoesUp(Word(snd[2], snd[3]));
      if 2 * usRegCount as int == ucRegByteCount {
        RegsWithin(snd, 6, usRegCount);
        var eRegStatus := image.eMBMasterRegHoldingCB(dest, snd, 7, usRegAddress, usRegCount, MB_REG_WRITE);
        eStatus := prveMBError2Exception(eRegStatus);
      } else {
        eStatus := MB_EX_ILLEGAL_DATA_VALUE;
      }
    } else {
      eStatus := MB_EX_ILLEGAL_DATA_VALUE;
    }
  }

  method eMBMasterFuncReadHoldingRegister(image: MasterImage, dest: byte, snd: array<byte>,
                                          pucFrame: array<byte>, usLen: nat, broadcast: bool)
    returns (eStatus: Exception)
    requires Apart(image, snd, pucFrame) && 1 <= dest <= MB_MASTER_TOTAL_SLAVE_NUM
    requires ReadsOfReadRegisters(Args(snd, pucFrame, usLen, broadcast))
    modifies image.usMRegHoldBuf
    ensures Taken(eStatus, image.Contents()) ==
            TakeReadRegisters(image.layout, old(image.Contents()), dest, Args(snd, pucFrame, usLen, broadcast))
  {
    hide BitString, OneUp, OneDown, Word, RegsOf, SetRegs;
    if broadcast {
      eStatus := MB_EX_NONE;
    } else if usLen >= 2 {
      var usRegAddress, usRegCount := OneUp(Word(snd[2], snd[3])), Word(snd[4], snd[5]);
      OneDownUndoesUp(Word(snd[2], snd[3]));
      if usRegCount >= 1 && 2 * usRegCount as int == pucFrame[2] {
        RegsWithin(pucFrame, 2, usRegCount);
        var eRegStatus := image.eMBMasterRegHoldingCB(dest, pucFrame, 3, usRegAddress, usRegCount, MB_REG_READ);
        eStatus := prveMBError2Exception(eRegStatus);
      } else {
        eStatus := MB_EX_ILLEGAL_DATA_VALUE;
      }
    } else {
      eStatus := MB_EX_ILLEGAL_DATA_VALUE;
    }
  }

  method eMBMasterFuncReadWriteMultipleHoldingRegister(image: MasterImage, dest: byte, snd: array<byte>,
                                                       pucFrame: array<byte>, usLen: nat, broadcast: bool)
    returns (eStatus: Exception)
    requires Apart(image, snd, pucFrame) && 1 <= dest <= MB_MASTER_TOTAL_SLAVE_NUM
    requires ReadsOfReadWriteRegisters(Args(snd, pucFrame, usLen, broadcast))
    modifies image.usMRegHoldBuf
    ensures Taken(eStatus, image.Contents()) ==
            TakeReadWriteRegisters(image.layout, old(image.Contents()), dest, Args(snd, pucFrame, usLen, broadcast))
  {
    hide BitString, OneUp, OneDown, Word, RegsOf, SetRegs;
    eStatus := MB_EX_NONE;
    if broadcast {
    } else if usLen >= 2 {
      var usRegReadAddress, usRegReadCount := OneUp(Word(snd[2], snd[3])), Word(snd[4], snd[5]);
      var usRegWriteAddress, usRegWriteCount := OneUp(Word(snd[6], snd[7])), Word(snd[8], snd[9]);
      OneDownUndoesUp(Word(snd[2], snd[3]));
      OneDownUndoesUp(Word(snd[6], snd[7]));
      if 2 * usRegReadCount as int == pucFrame[2] {
        RegsWithin(snd, 10, usRegWriteCount);
        RegsWithin(pucFrame, 2, usRegReadCount);
        var eRegStatus := image.eMBMasterRegHoldingCB(dest, snd, 11, usRegWriteAddress, usRegWriteCount, MB_REG_WRITE);
        if eRegStatus == MB_ENOERR {
          eRegStatus := image.eMBMasterRegHoldingCB(dest, pucFrame, 3, usRegReadAddress, usRegReadCount, MB_REG_READ);
        }
        eStatus := prveMBError2Exception(eRegStatus);
      } else {
        eStatus := MB_EX_ILLEGAL_DATA_VALUE;
      }
    }
  }

  method eMBMasterFuncReadCoils(image: MasterImage, dest: byte, snd: array<byte>, pucFrame: array<byte>, usLen: nat,
                                broadcast: bool)
    returns (eStatus: Exception)
    requires Apart(image, snd, pucFrame) && 1 <= dest <= MB_MASTER_TOTAL_SLAVE_NUM
    requires ReadsOfReadCoils(Args(snd, pucFrame, usLen, broadcast))
    modifies image.ucMCoilBuf
    ensures Taken(eStatus, image.Contents()) ==
            TakeReadCoils(image.layout, old(image.Contents()), dest, Args(snd, pucFrame, usLen, broadcast))
  {
    hide BitString, OneUp, OneDown, Word, SetBits;
    if broadcast {
      eStatus := MB_EX_NONE;
    } else if usLen >= 2 {
      var usRegAddress, usCoilCount := OneUp(Word(snd[2], snd[3])), Word(snd[4], snd[5]);
      OneDownUndoesUp(Word(snd[2], snd[3]));
      var ucByteCount := CoilBytes(usCoilCount) % 0x100;
      if usCoilCount >= 1 && ucByteCount == pucFrame[2] {
        Within(pucFrame, 2, CoilBytes(usCoilCount));
        var eRegStatus := image.eMBMasterRegCoilsCB(dest, pucFrame, 3, usRegAddress, usCoilCount, MB_REG_READ);
        eStatus := prveMBError2Exception(eRegStatus);
      } else {
        eStatus := MB_EX_ILLEGAL_DATA_VALUE;
      }
    } else {
      eStatus := MB_EX_ILLEGAL_DATA_VALUE;
    }
  }

  method eMBMasterFuncWriteCoil(image: MasterImage, dest: byte, snd: array<byte>, pucFrame: array<byte>, usLen: nat,
                                ghost broadcast: bool)
    returns (eStatus: Exception)
    requires Apart(image, snd, pucFrame) && 1 <= dest <= MB_MASTER_TOTAL_SLAVE_NUM
    modifies image.ucMCoilBuf
    ensures Taken(eStatus, image.Contents()) ==
            TakeWriteCoil(image.layout, old(image.Contents()), dest, Args(snd, pucFrame, usLen, broadcast))
  {
    hide BitString, OneUp, OneDown, Word, SetBits;
    if usLen == 5 {
      var usRegAddress := OneUp(Word(pucFrame[2], pucFrame[3]));
      OneDownUndoesUp(Word(pucFrame[2], pucFrame[3]));
      if pucFrame[5] == 0x00 && (pucFrame[4] == 0xFF || pucFrame[4] == 0x00) {
        var ucBuf := new byte[2];
        ucBuf[1] := 0;
        if pucFrame[4] == 0xFF {
          ucBuf[0] := 1;
        } else {
          ucBuf[0] := 0;
        }
        assert ucBuf[0..1] == [if pucFrame[4] == 0xFF then 1 else 0];
        var eRegStatus := image.eMBMasterRegCoilsCB(dest, ucBuf, 0, usRegAddress, 1, MB_REG_WRITE);
        eStatus := prveMBError2Exception(eRegStatus);
      } else {
        eStatus := MB_EX_ILLEGAL_DATA_VALUE;
      }
    } else {
      eStatus := MB_EX_ILLEGAL_DATA_VALUE;
    }
  }

  method eMBMasterFuncWriteMultipleCoils(image: MasterImage, dest: byte, snd: array<byte>,
                                         pucFrame: array<byte>, usLen: nat, broadcast: bool)
    returns (eStatus: Exception)
    requires Apart(image, snd, pucFrame) && 1 <= dest <= MB_MASTER_TOTAL_SLAVE_NUM
    requires ReadsOfWriteCoils(Args(snd, pucFrame, usLen, broadcast))
    modifies image.ucMCoilBuf
    ensures Taken(eStatus, image.Contents()) ==
            TakeWriteCoils(image.layout, old(image.Contents()), dest, Args(snd, pucFrame, usLen, broadcast))
  {
    hide BitString, OneUp, OneDown, Word, SetBits;
    if usLen == 5 || broadcast {
      var usRegAddress, usCoilCnt := OneUp(Word(pucFrame[2], pucFrame[3])), Word(pucFrame[4], pucFrame[5]);
      var ucByteCount := snd[6];
      OneDownUndoesUp(Word(pucFrame[2], pucFrame[3]));
      var ucByteCountVerify := CoilBytes(usCoilCnt) % 0x100;
      if usCoilCnt >= 1 && ucByteCountVerify == ucByteCount {
        Within(snd, 6, CoilBytes(usCoilCnt));
        var eRegStatus := image.eMBMasterRegCoilsCB(dest, snd, 7, usRegAddress, usCoilCnt, MB_REG_WRITE);
        eStatus := prveMBError2Exception(eRegStatus);
      } else {
        eStatus := MB_EX_ILLEGAL_DATA_VALUE;
      }
    } else {
      eStatus := MB_EX_ILLEGAL_DATA_VALUE;
    }
  }
}
