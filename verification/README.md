# Verified model of the A9G firmware's protocol and parsing code

A Dafny model of the parts of the A9G firmware that speak or parse something: the FreeModbus stack as master and
as slave, in RTU and ASCII framing; the in-place JSON parser; the byte queue and the cutting of the GPS stream into
frames; decimal fields of NMEA sentences; and the tool that stores, loads and merges LOD images. Check it with
`dafny verify dfyconfig.toml`.

## How it is laid out

- Octets and bits: `Bytes`, `Octets`, `MbUtils` (bit fields), `CoilCopy`, `RegCopy` (the copy loops).
- Frames: `MbCrc` (CRC-16), `Rtu` (RTU frames), `Modbus` (codes).
- Slave: `Store`, `UserMbApp` (data store), `Requests` (request PDUs and what they mean), `SlaveFunctions`
  (handlers), `SlaveMachine` (the state machine as functions), `SlaveStack` (the same as it runs), `SlaveRuns`
  (what holds in every run).
- Master: `Image` (image of all slaves), `MasterFunctions`, `MasterHandlers`, `MasterMachine`, `MasterStack`,
  `MasterRuns`, likewise.
- `Wire`, `WireSlave`, `WireMaster`: requests, answers and exception codes as octets, in literal numbers.
- Both: `Agreement` (image and data after one exchange), `Transaction` (a request and its consequences as one step),
  `Exchange` and `ExchangeRuns` (both machines on one line, octet by octet), `Coherence` and `CoilCoherence` (the image
  over sequences of transactions).
- `Ascii`, `AsciiStack`: ASCII framing.
- `JsonText`, `JsonTree`, `JsonNodes`, `JsonInPlace`, `TinyJson`: the parser. `JsonPrint`, `JsonDocuments`: an independent
  writer and what is read of it.
- `Search`, `Buffer`, `Gps`; `Minmea`; `LodText`, `Lod`, `LodLines` (a file line by line), `LodMerge`.

Code that changes state is a class or a method over arrays, proved against a function; the properties are lemmas
about the functions and about runs. The specification functions `Serve...` and `Take...` treat a PDU as the octets from
the function code on.

## Assumptions

- A callback, or one call of a poll loop, is not interrupted. The port is abstract: interrupt enables, a timer with a
  mode, a set of pending events, a counting semaphore.
- `MasterRuns`: the bus is quiet but for the answer to the outstanding request, any octets in one piece; runs start
  once the master is established with no event pending. `EnablingReleasesTooMuch` and `ReadyIff` say why.
- `Exchange`: a 3.5-character timer does not run out while the other side is sending, the slave polls before its timer
  runs out next, and the master's timeouts are longer than the slave takes. One slave is on the line; others are
  silent.
- The master's send buffer holds 253 octets. A request that does not fit with address and check octets (121 registers
  with function 23, more than 1952 coils with function 15, more than 122 registers with function 16) would be written
  past its end; the request methods require that it fits (`SendableIff`, `LegalButTooLong`).
- Master handlers look at the reply's function code and at counts in the send buffer. For a reply of another function,
  or with a count of 127 registers, they would read past a buffer; the handler methods require that they do not, the
  specification reads zeros there, `Transaction.ReadsInsideIff` says when it happens, and
  `Exchange.MasterStaysInside` shows that a slave's own answers never lead there.
- Coil buffers have the slack that the two-octet bit access needs, and no more: the slave's n/8 + 2 octets for n coils,
  the master's one octet behind its rows. The arrays declared at `user_mb_app.c:36-40` and `user_mb_app_m.c:34-38` have
  none (`SlackIff`).
- Arithmetic: 16-bit addresses wrap as in the source; other quantities stay within their types.

## Where the code differs from its documentation, or surprises

- `minmea_rescale` is documented to round toward zero; it rounds to the nearest: 5 at scale 10 becomes 1 at scale 1.
- A field of more than nine places, such as 0.0000000001, makes the scale overflow 32 bits. The field 214748364.7 is
  read, but overflows 32 bits when it is rescaled to 1.
- The master does not compare a reply's function code with the one it sent (`OtherFunctionTaken`).
- A PDU of function 23 that is too short is answered by itself, and a reply of one octet to it is taken for a success.
- Reading 2000 coils and writing 121 to 123 registers are refused, against the standard.
- Enabling the master posts an event that releases the run resource without a request, at the first time too.
- A master that has addressed no slave runs the handler for slave 0, which has no row, on a frame from slave 0.
- `mbrtu_m.c:162` and `mbascii.c:157` assert fewer than 256 octets, the receivers take 256.
- Bytes that come between accepting a request and executing it go over its frame.
- Function 23 refused for its read range has already written.
- A master learns nothing from its own broadcast of function 23, though the slaves write.
- A write of several registers or coils shorter than its count stores what was in the buffer before.
- A broadcast of coils with padding bits set spoils the image of the next slave's coils.
- The ASCII timer can stay armed with the receiver idle. A character that is no upper-case hexadecimal digit makes its
  half of the octet 15 in the high place, and the whole octet 255 in the low place.
- The JSON parser passes over commas wherever a blank can stand and needs none between members (`LenientExample`), takes
  any character inside quotes and any text behind the document, and makes a question mark of every escape with u.
- In a decimal field anything may follow the first digit after the point that does not fit (`AcceptedIff`).
- A GPS buffer without a frame is never emptied once what comes does not fit.
- A boot loader image with an empty block at its end makes the merge lose the block that begins there.

## Model

| member | source | states |
|---|---|---|
| MbCrc.usMBCRC16 | firmware_A9G/app/libs/freemodbus/src/mbcrc.c:84-98 | The loop over the two 256-entry tables computes, for any octets, the CRC defined by shifting single octets through the reflected polynomial 0xA001 from 0xFFFF; every table entry is proved right. |
| MbCrc.CrcIsBitSerial | firmware_A9G/app/libs/freemodbus/src/mbcrc.c:84-98 | Octet-wise and bit-by-bit CRC agree for every start value and octet string (section 6.2.2 of MODBUS over Serial Line V1.02). |
| MbCrc.ResidueZeroIff | firmware_A9G/app/libs/freemodbus/src/mbcrc.c:84-98 | Of all pairs of check octets exactly the CRC, low octet first, gives residue 0. |
| MbCrc.OddErrorsDetected | firmware_A9G/app/libs/freemodbus/src/mbcrc.c:84-98 | Flipping any odd number of bits of an octet string of any length changes the CRC. |
| MbCrc.BurstDetected | firmware_A9G/app/libs/freemodbus/src/mbcrc.c:84-98 | Any non-empty error confined to sixteen bits in a row changes the CRC. |
| MbCrc.AdjacentOctetsDetected | firmware_A9G/app/libs/freemodbus/src/mbcrc.c:84-98 | Any change of one octet or of two adjacent ones changes the CRC. |
| Rtu.FrameAccepted | firmware_A9G/app/libs/freemodbus/src/mbrtu.c:157-171 | Every frame the transmitters build passes the receivers' length and CRC test. |
| Rtu.OnlyFramesAccepted | firmware_A9G/app/libs/freemodbus/src/mbrtu.c:157-171 | Whatever passes the test is address, PDU and the CRC of both. |
| Rtu.DamageIsSeen | firmware_A9G/app/libs/freemodbus/src/mbrtu.c:157-171 | A frame with an odd number of flipped bits, or with errors within sixteen bits, is not accepted. |
| MbUtils.xMBUtilSetBits | firmware_A9G/app/libs/freemodbus/src/mbutils.c:46-83 | Writes up to eight bits at any alignment: the two octets become the old ones outside the field, the low bits of the value in it, and the value's surplus bits or-ed in above it, because the value is not masked. |
| MbUtils.xMBUtilGetBits | firmware_A9G/app/libs/freemodbus/src/mbutils.c:85-114 | Returns the addressed bits, lowest first, with zeros above them. |
| CoilCopy.NeighboursSafeIff | firmware_A9G/app/libs/freemodbus/src/mbutils.c:46-83 | Storing packed coils leaves all neighbouring coils alone, whatever they are, if and only if the padding bits of the last octet are clear. |
| CoilCopy.StoreBits | firmware_A9G/app/libs/freemodbus/src/user_mb_app.c:213-228 | The write loop stores a run of coils at any bit alignment as one splice of the bit string. |
| CoilCopy.FetchBits | firmware_A9G/app/libs/freemodbus/src/user_mb_app.c:190-208 | The read loop packs a run of coils at any bit alignment, lowest bit first, and clears the padding of the last octet. |
| RegCopy.StoreRegs | firmware_A9G/app/libs/freemodbus/src/user_mb_app.c:141-148 | The write loop takes registers from octets, high octet first. |
| RegCopy.FetchRegs | firmware_A9G/app/libs/freemodbus/src/user_mb_app.c:130-138 | The read loop sends registers as octets, high octet first. |
| Bytes.RegsRoundTrip | firmware_A9G/app/libs/freemodbus/src/user_mb_app.c:127-150 | Unpacking packed registers gives them back, whatever follows in the buffer. |
| Octets.BitsOfPacked | firmware_A9G/app/libs/freemodbus/src/user_mb_app.c:190-208 | Packing bits into octets and reading the bits of the octets gives the bits back. |
| Modbus.OneDownUndoesUp | firmware_A9G/app/libs/freemodbus/src/user_mb_app.c:115-121 | The handlers' increment and the callbacks' decrement of an address cancel, also where the 16-bit address wraps. |
| Modbus.prveMBError2Exception | firmware_A9G/app/libs/freemodbus/src/mbutils.c:116-141 | No error gives no exception, an unknown address illegal data address, a timeout slave busy, anything else device failure. |
| UserMbApp.SlaveStore.eMBRegHoldingCB | firmware_A9G/app/libs/freemodbus/src/user_mb_app.c:104-156 | In range, reads return the stored registers and writes replace exactly the addressed ones; out of range nothing changes. |
| UserMbApp.SlaveStore.eMBRegCoilsCB | firmware_A9G/app/libs/freemodbus/src/user_mb_app.c:168-234 | The same for coils, at any bit alignment, on the bits of the coil buffer. |
| UserMbApp.SlackIff | firmware_A9G/app/libs/freemodbus/src/user_mb_app.c:36-40 | All coils can be read without leaving the buffer if and only if it has n/8 + 2 octets for n coils; the array declared is one or two octets shorter. |
| Image.MasterImage.eMBMasterRegHoldingCB | firmware_A9G/app/libs/freemodbus/src/user_mb_app_m.c:102-155 | In either mode the received registers go into the addressed slave's row, if that row has the addresses. |
| Image.MasterImage.eMBMasterRegCoilsCB | firmware_A9G/app/libs/freemodbus/src/user_mb_app_m.c:167-236 | The same for coils. |
| Image.SlackIff | firmware_A9G/app/libs/freemodbus/src/user_mb_app_m.c:34-38 | All coils of all slaves can be stored without leaving the array if and only if it has one octet more than its rows; the array declared has none. |
| Requests.CountsVersusStandard | firmware_A9G/app/libs/freemodbus/src/mbfunccoils.c:87-95 | The slave accepts the quantities of sections 6.1 to 6.17 of the MODBUS Application Protocol V1.1b3 except 2000 coils read and 121 to 123 registers written. |
| SlaveFunctions.eMBFuncWriteHoldingRegister | firmware_A9G/app/libs/freemodbus/src/mbfuncholding.c:76-107 | Exception, store, reply buffer and reply length, for every frame and length, as the handler's specification says; the address octet before the PDU is kept. |
| SlaveFunctions.eMBFuncWriteMultipleHoldingRegister | firmware_A9G/app/libs/freemodbus/src/mbfuncholding.c:109-165 | Exception, store, reply buffer and reply length, for every frame and length, as the handler's specification says; the address octet before the PDU is kept. |
| SlaveFunctions.eMBFuncReadHoldingRegister | firmware_A9G/app/libs/freemodbus/src/mbfuncholding.c:169-230 | Exception, store, reply buffer and reply length, for every frame and length, as the handler's specification says; the address octet before the PDU is kept. |
| SlaveFunctions.eMBFuncReadWriteMultipleHoldingRegister | firmware_A9G/app/libs/freemodbus/src/mbfuncholding.c:234-306 | Exception, store, reply buffer and reply length, for every frame and length, as the handler's specification says; the address octet before the PDU is kept. |
| SlaveFunctions.eMBFuncReadCoils | firmware_A9G/app/libs/freemodbus/src/mbfunccoils.c:68-144 | The same for coils. |
| SlaveFunctions.eMBFuncWriteCoil | firmware_A9G/app/libs/freemodbus/src/mbfunccoils.c:148-198 | The same for coils. |
| SlaveFunctions.eMBFuncWriteMultipleCoils | firmware_A9G/app/libs/freemodbus/src/mbfunccoils.c:202-267 | The same for coils. |
| SlaveFunctions.ServesRequest | firmware_A9G/app/libs/freemodbus/src/mb.c:375-390 | Given the PDU of any request of the seven functions, dispatch and handler do to the store, and reply, exactly what the request means. |
| Wire.EncodeIsOctets | firmware_A9G/app/libs/freemodbus/src/mbfuncholding_m.c:264-286 | The PDUs of all seven requests in octets: function codes 0x01, 0x03, 0x05, 0x06, 0x0F, 0x10 and 0x17, numbers high octet first, coils packed lowest bit first (sections 6.1 to 6.17 of the MODBUS Application Protocol V1.1b3). |
| WireSlave.ServesException | firmware_A9G/app/libs/freemodbus/src/mb.c:375-390 | Of any octets at all the exception code is: 1 for a function without a handler, 3 for a length or quantity not allowed, 2 for addresses the store does not have, 0 otherwise, each function told by its literal code and limits. |
| WireSlave.RequestServed | firmware_A9G/app/libs/freemodbus/src/mbfuncholding.c:76-306 | A frame that begins with the octets of a request: exception 3, 2 or 0 by its quantities and addresses, the registers or coils it names stored from its octets and no others, and the reply octet by octet, if the store has the addresses. |
| SlaveFunctions.StaleOctetsIff | firmware_A9G/app/libs/freemodbus/src/mbfuncholding.c:109-306 | A write of several registers or coils that is carried out, also one of function 23, stores nothing but what its PDU says if and only if the PDU is as long as what it counts; else octets left in the buffer behind it are stored. |
| SlaveFunctions.ShortReadWriteEchoed | firmware_A9G/app/libs/freemodbus/src/mbfuncholding.c:234-306 | A PDU of function 23 shorter than ten octets is sent back as it came, as a normal reply. |
| SlaveStack.SlaveDevice.eMBRTUReceive | firmware_A9G/app/libs/freemodbus/src/mbrtu.c:148-180 | Accepts exactly the frames of at least 4 octets with residue 0, and reports their address and PDU length. |
| SlaveStack.SlaveDevice.eMBRTUSend | firmware_A9G/app/libs/freemodbus/src/mbrtu.c:182-219 | With the receiver idle, leaves address, PDU and check octets in the buffer to be sent and turns the line round; else changes nothing. |
| SlaveStack.SlaveDevice.xMBRTUReceiveFSM | firmware_A9G/app/libs/freemodbus/src/mbrtu.c:221-279 | One received byte does the machine's step. |
| SlaveStack.SlaveDevice.xMBRTUTransmitFSM | firmware_A9G/app/libs/freemodbus/src/mbrtu.c:281-317 | One transmitter interrupt does the machine's step and puts out its octet. |
| SlaveStack.SlaveDevice.xMBRTUTimerT35Expired | firmware_A9G/app/libs/freemodbus/src/mbrtu.c:319-352 | One timer expiry does the machine's step. |
| SlaveStack.SlaveDevice.eMBPoll | firmware_A9G/app/libs/freemodbus/src/mb.c:336-412 | One call of the poll loop does the machine's step: the frame is checked, executed through the handler table, answered or reported as an exception; `WireSlave` gives the answer in octets. |
| WireSlave.AnswerOctets | firmware_A9G/app/libs/freemodbus/src/mb.c:375-405 | The frame sent in answer to any PDU for the slave itself: its address, then what the handler left or the function code with its top bit set and the literal code 1, 2 or 3, then the check octets. |
| WireSlave.RequestAnswered | firmware_A9G/app/libs/freemodbus/src/mb.c:375-405 | The same for every request given by its octets: address and reply octets, or address, code with 0x80 and 2 or 3. |
| WireSlave.NotAnswered | firmware_A9G/app/libs/freemodbus/src/mb.c:363-405 | A frame to address 0 is executed without an answer, one to any other address than that and its own is not executed. |
| SlaveStack.SlaveDevice.eMBEnable | firmware_A9G/app/libs/freemodbus/src/mb.c:296-312 | Enabling starts the receiver once; a second time it is refused. |
| SlaveRuns.StepKeepsInv | firmware_A9G/app/libs/freemodbus/src/mbrtu.c:221-352 | Every callback and poll, in any order the port allows, keeps the invariant: timer armed exactly while receiving, transmitter on exactly while sending, never both. |
| SlaveRuns.NoAssertionFails | firmware_A9G/app/libs/freemodbus/src/mbrtu.c:221-352 | In no run from the start does a callback meet a state its assertion excludes. |
| SlaveRuns.ReceiverFollowsBurst | firmware_A9G/app/libs/freemodbus/src/mbrtu.c:221-279 | After every run the receiver's state tells the bytes heard since the last silence. |
| SlaveRuns.FramesAreBursts | firmware_A9G/app/libs/freemodbus/src/mbrtu.c:319-352 | A frame is reported if and only if there was silence before and the burst is of 1 to 256 bytes; the buffer then holds exactly the burst, if no request was executed meanwhile. |
| SlaveRuns.DisturbedExample | firmware_A9G/app/libs/freemodbus/src/mb.c:375-405 | A run in which a request is executed while a burst comes in and the frame reported is not the burst, from any start. |
| SlaveRuns.ExecutedIsAcceptedIff | firmware_A9G/app/libs/freemodbus/src/mb.c:363-390 | The frame that is executed is the frame that was accepted if and only if the bytes that came in between are none, or its own first ones again. |
| SlaveRuns.EnablingStarts | firmware_A9G/app/libs/freemodbus/src/mbrtu.c:123-137 | Enabling an idle stack gives a start state of these runs. |
| MasterHandlers.eMBMasterFuncWriteHoldingRegister | firmware_A9G/app/libs/freemodbus/src/mbfuncholding_m.c:123-152 | Exception and image, for every reply, send buffer and length, as the handler's specification says. |
| MasterHandlers.eMBMasterFuncWriteMultipleHoldingRegister | firmware_A9G/app/libs/freemodbus/src/mbfuncholding_m.c:201-249 | Exception and image, for every reply, send buffer and length, as the handler's specification says. |
| MasterHandlers.eMBMasterFuncReadHoldingRegister | firmware_A9G/app/libs/freemodbus/src/mbfuncholding_m.c:288-337 | Exception and image, for every reply, send buffer and length, as the handler's specification says. |
| MasterHandlers.eMBMasterFuncReadWriteMultipleHoldingRegister | firmware_A9G/app/libs/freemodbus/src/mbfuncholding_m.c:394-451 | Exception and image, for every reply, send buffer and length, as the handler's specification says. |
| MasterHandlers.eMBMasterFuncReadCoils | firmware_A9G/app/libs/freemodbus/src/mbfunccoils_m.c:112-176 | The same for coils. |
| MasterHandlers.eMBMasterFuncWriteCoil | firmware_A9G/app/libs/freemodbus/src/mbfunccoils_m.c:218-267 | The same for coils. |
| MasterHandlers.eMBMasterFuncWriteMultipleCoils | firmware_A9G/app/libs/freemodbus/src/mbfunccoils_m.c:328-387 | The same for coils. |
| Agreement.TakesReply | firmware_A9G/app/libs/freemodbus/src/mbfuncholding_m.c:123-451 | From the slave's reply to any request the master takes into the image what the request wrote or read, and nothing else. |
| WireMaster.AskPutsOctets | firmware_A9G/app/libs/freemodbus/src/mbfuncholding_m.c:264-286 | Asking puts exactly the octets of the request in the send buffer, behind the place of the address. |
| WireMaster.TakesException | firmware_A9G/app/libs/freemodbus/src/mbfuncholding_m.c:123-451 | Of any reply and send buffer the exception code a handler comes to, by the literal function codes, lengths and counts. |
| WireMaster.TakesOctets | firmware_A9G/app/libs/freemodbus/src/mbfuncholding_m.c:123-451 | A reply without exception is taken register by register and coil by coil from its octets, or those sent, into the row of the slave, and nothing else changes. |
| WireMaster.BroadcastIsToZero | firmware_A9G/app/libs/freemodbus/src/mbrtu_m.c:297-345 | A frame that is out counts as a broadcast if and only if its first octet is 0. |
| Agreement.OtherFunctionTaken | firmware_A9G/app/libs/freemodbus/src/mb_m.c:317-356 | A reply of another function than the one sent is taken for the reply to a request of that function with the fields sent, and if it writes a single register or coil for what it says alone: the image takes that, as a success. |
| Agreement.ShortReplyTaken | firmware_A9G/app/libs/freemodbus/src/mbfuncholding_m.c:394-451 | A reply of one octet to function 23 is a success that changes nothing. |
| Agreement.RegistersAgree | firmware_A9G/app/libs/freemodbus/src/mbfuncholding_m.c:123-451 | After a reply every register of the image that changed is one the request names and holds the slave's value; on success all named ones do, also where the read and written ranges of function 23 overlap. |
| Agreement.CoilsAgree | firmware_A9G/app/libs/freemodbus/src/mbfunccoils_m.c:112-387 | On success the image holds the slave's value of every coil named, at any alignment; with clear padding in the request every coil of the image that changed is one of these, whatever the result. |
| Transaction.TakesBroadcast | firmware_A9G/app/libs/freemodbus/src/mb_m.c:340-348 | The loop over the 16 slaves takes a broadcast request's own data into every row; reads and function 23 take nothing. |
| Transaction.RepliesReadInside | firmware_A9G/app/libs/freemodbus/src/mb_m.c:317-356 | Handling the reply to a request, or a broadcast, reads nothing outside send and receive buffer. |
| Transaction.ReadsInsideIff | firmware_A9G/app/libs/freemodbus/src/mb_m.c:317-356 | Of any reply with the function code of the request, exactly which counts lead to a read behind a buffer. |
| Transaction.ReadsPastExample | firmware_A9G/app/libs/freemodbus/src/mbfuncholding_m.c:288-337 | A reply of two octets to a request for 127 registers that leads to one. |
| MasterMachine.SendableIff | firmware_A9G/app/libs/freemodbus/src/mbfuncholding_m.c:168-199 | Exactly which requests fit the send buffer with address and check octets. |
| MasterMachine.LegalButTooLong | firmware_A9G/app/libs/freemodbus/src/mbfuncholding_m.c:168-199 | Three requests that the request functions take, that the standard allows, and that do not fit. |
| MasterStack.MasterDevice.eMBMasterReqReadHoldingRegister | firmware_A9G/app/libs/freemodbus/src/mbfuncholding_m.c:264-286 | A destination above 16 and a busy master are refused without effect, in that order; else the send buffer holds in octets, numbers high octet first: 0x03, address, count; its length, destination and event are set and the run resource is taken. |
| MasterStack.MasterDevice.eMBMasterReqWriteHoldingRegister | firmware_A9G/app/libs/freemodbus/src/mbfuncholding_m.c:99-121 | A destination above 16 and a busy master are refused without effect, in that order; else the send buffer holds in octets, numbers high octet first: 0x06, address, value; its length, destination and event are set and the run resource is taken. |
| MasterStack.MasterDevice.eMBMasterReqWriteMultipleHoldingRegister | firmware_A9G/app/libs/freemodbus/src/mbfuncholding_m.c:168-199 | A destination above 16 and a busy master are refused without effect, in that order; else the send buffer holds in octets, numbers high octet first: 0x10, address, count, number of octets, values; its length, destination and event are set and the run resource is taken. |
| MasterStack.MasterDevice.eMBMasterReqReadWriteMultipleHoldingRegister | firmware_A9G/app/libs/freemodbus/src/mbfuncholding_m.c:356-392 | A destination above 16 and a busy master are refused without effect, in that order; else the send buffer holds in octets, numbers high octet first: 0x17, address and count to read, address and count to write, number of octets, values; its length, destination and event are set and the run resource is taken. |
| MasterStack.MasterDevice.eMBMasterReqReadCoils | firmware_A9G/app/libs/freemodbus/src/mbfunccoils_m.c:87-110 | A destination above 16 and a busy master are refused without effect, in that order; else the send buffer holds in octets, numbers high octet first: 0x01, address, count; its length, destination and event are set and the run resource is taken. |
| MasterStack.MasterDevice.eMBMasterReqWriteCoil | firmware_A9G/app/libs/freemodbus/src/mbfunccoils_m.c:193-216 | A destination above 16, coil data other than 0xFF00 and 0, and a busy master are refused without effect, in that order; else the send buffer holds in octets, numbers high octet first: 0x05, address, 0xFF00 or 0; its length, destination and event are set and the run resource is taken. |
| MasterStack.MasterDevice.eMBMasterReqWriteMultipleCoils | firmware_A9G/app/libs/freemodbus/src/mbfunccoils_m.c:286-326 | A destination above 16 and a busy master are refused without effect, in that order; else the send buffer holds in octets, numbers high octet first: 0x0F, address, count, number of octets, packed coils; its length, destination and event are set and the run resource is taken. |
| MasterStack.MasterDevice.eMBMasterRTUReceive | firmware_A9G/app/libs/freemodbus/src/mbrtu_m.c:156-187 | Given the fewer than 256 octets it asserts, accepts exactly the frames of at least 4 octets with residue 0, and reports their address and PDU length. |
| MasterStack.MasterDevice.eMBMasterRTUSend | firmware_A9G/app/libs/freemodbus/src/mbrtu_m.c:189-229 | With the receiver idle, puts address and check octets round the PDU in the send buffer and starts the transmitter. |
| MasterStack.MasterDevice.xMBMasterRTUReceiveFSM | firmware_A9G/app/libs/freemodbus/src/mbrtu_m.c:231-295 | One received byte does the machine's step; the first ends the wait for a reply. |
| MasterStack.MasterDevice.xMBMasterRTUTransmitFSM | firmware_A9G/app/libs/freemodbus/src/mbrtu_m.c:297-345 | One transmitter interrupt does the machine's step; after the last octet the response timeout or, for a broadcast, the turnaround delay is set. |
| MasterStack.MasterDevice.xMBMasterRTUTimerExpired | firmware_A9G/app/libs/freemodbus/src/mbrtu_m.c:347-407 | One timer expiry does the machine's step. |
| MasterStack.MasterDevice.eMBMasterEnable | firmware_A9G/app/libs/freemodbus/src/mb_m.c:218-237 | Enabling starts the receiver and posts a frame received in any case. |
| MasterStack.MasterDevice.RunForAll | firmware_A9G/app/libs/freemodbus/src/mb_m.c:340-348 | The broadcast loop runs the handler for slaves 1 to 16 in turn and leaves the last as the destination. |
| MasterStack.MasterDevice.FindHandler | firmware_A9G/app/libs/freemodbus/src/mb_m.c:327-356 | The loop over the handler table finds a handler exactly for the functions that have one. |
| MasterStack.MasterDevice.eMBMasterPoll | firmware_A9G/app/libs/freemodbus/src/mb_m.c:273-404 | One call of the poll loop does the machine's step: frame check, execution for one slave or all, error report, result and release. |
| MasterRuns.StepKeepsInv | firmware_A9G/app/libs/freemodbus/src/mbrtu_m.c:231-407 | On a quiet bus, with answers of any octets, every callback, poll and request keeps the invariant of the six phases a request goes through. |
| MasterRuns.RunResourceConserved | firmware_A9G/app/libs/freemodbus/src/mb_m.c:295-402 | In every run the run resource's count and the requests outstanding are one, and every request taken on gets one result and then one release before the next is taken on, whether it ends by reply, exception, bad frame, silence or turnaround delay. |
| MasterRuns.TimerDiscipline | firmware_A9G/app/libs/freemodbus/src/mbrtu_m.c:347-407 | In every run an armed timer's expiry posts exactly one event; sending or awaiting a reply implies an idle receiver; an armed turnaround delay implies a broadcast just sent. |
| MasterRuns.NoAssertionFails | firmware_A9G/app/libs/freemodbus/src/mbrtu_m.c:231-407 | The callbacks' assertions hold in every run; the receive function's, that the frame is shorter than 256 octets, exactly unless 256 were heard. |
| MasterRuns.ReceiveAssertionCanFail | firmware_A9G/app/libs/freemodbus/src/mbrtu_m.c:162 | After any request to a slave that any 256 octets answer there is a run in which the receive function's assertion fails. |
| MasterRuns.StepSpends | firmware_A9G/app/libs/freemodbus/src/mbrtu_m.c:189-407 | Every step while a request is outstanding uses up some of a number known when it is made. |
| MasterRuns.NoDeadlock | firmware_A9G/app/libs/freemodbus/src/mb_m.c:295-402 | While a request is outstanding some callback or the poll loop can run. |
| MasterRuns.RequestEnds | firmware_A9G/app/libs/freemodbus/src/mb_m.c:295-402 | Hence every request ends: no run without new requests is longer than that number, and one that cannot go on has released the resource. |
| MasterRuns.UnansweredRequest | firmware_A9G/app/libs/freemodbus/src/mb_m.c:303-315 | If no part of the answer that can be heard is an acceptable frame from the slave asked, the image stays as it is in every run, and the request is reported as timed out if and only if nothing at all was heard, and otherwise as bad data, also when more was heard than the receiver holds. |
| MasterRuns.EnablingReleasesTooMuch | firmware_A9G/app/libs/freemodbus/src/mb_m.c:218-237 | For every master: unless it is uninitialised, the event posted on enabling ends in a result and a release no request asked for, the result being bad data unless a frame from its last destination stands in its buffer; only if that is slave 0, with a function that has a handler, the poll loop comes to run the handler for slave 0. |
| MasterRuns.ReadyIsLost | firmware_A9G/app/libs/freemodbus/src/mb_m.c:234 | For every disabled master but with the same exception: if the start-up silence ends before that event is polled it stays unready with nothing more to come; if the event is polled first it becomes ready. |
| MasterRuns.ReadyIff | firmware_A9G/app/libs/freemodbus/src/mb_m.c:295-301 | At the end of the start-up silence the master becomes ready if and only if no other event is pending. |
| MasterRuns.FirstEnabling | firmware_A9G/app/libs/freemodbus/src/mb_m.c:218-237 | A master just initialised, when enabled for the first time, reports bad data and counts its run resource twice, and is ready or not as above. |
| MasterRuns.NobodyExample | firmware_A9G/app/libs/freemodbus/src/mb_m.c:303-312 | Any frame of slave 0 with a function that has a handler is such an exception, for a master that has addressed no slave. |
| Transaction.Transact | firmware_A9G/app/libs/freemodbus/src/mb_m.c:317-398 | A request and all it leads to as one step; image and data keep their shape. |
| Exchange.SlaveTakesFrame | firmware_A9G/app/libs/freemodbus/src/mb.c:363-373 | The slave executes a frame exactly if it is addressed to it or to all. |
| Exchange.SlaveExecutes | firmware_A9G/app/libs/freemodbus/src/mb.c:375-405 | Executing any request's frame the slave does what it means and starts to send the frame of its reply or exception; nothing for a broadcast. |
| Exchange.MasterHandles | firmware_A9G/app/libs/freemodbus/src/mb_m.c:317-368 | What the master makes of the answer is the transaction's image and result. |
| Exchange.MasterStaysInside | firmware_A9G/app/libs/freemodbus/src/mb_m.c:317-356 | When it executes, the master reads nothing outside its buffers. |
| ExchangeRuns.StepFrom | firmware_A9G/app/libs/freemodbus/src/mbrtu_m.c:189-407 | Master and slave on one line: every byte, timer, transmitter and poll step takes a transaction from one of twelve phases to the next and uses up some of its budget. |
| ExchangeRuns.NoAssertionFails | firmware_A9G/app/libs/freemodbus/src/mbrtu_m.c:162 | In every run of master and slave all assertions of the callbacks hold, also those on octets received, and the master executes nothing that reads outside its buffers. |
| ExchangeRuns.Serializable | firmware_A9G/app/libs/freemodbus/src/mb_m.c:295-402 | In every interleaving, whenever no request is under way image, slave data and reported results are those of doing the requests one after the other as single steps. |
| ExchangeRuns.RequestCompletes | firmware_A9G/app/libs/freemodbus/src/mb_m.c:295-402 | A request is always completed: the number of steps is bounded, and when none is left its transaction has been done. |
| ExchangeRuns.EverySequenceRuns | firmware_A9G/app/libs/freemodbus/src/mb_m.c:295-402 | From any image and data, any sequence of requests can be made and is carried out in order: there is a run from rest to rest that makes just these. |
| ExchangeRuns.ImageAgreesAfterRun | firmware_A9G/app/libs/freemodbus/src/mbfuncholding_m.c:123-451 | End to end: after any run, if the last request was to the slave and was reported a success, the image holds the slave's value of every register and coil read or written; whatever the result, it changed nowhere else, as to coils if the request's padding bits are clear. |
| ExchangeRuns.CoherentAfterRun | firmware_A9G/app/libs/freemodbus/src/user_mb_app_m.c:102-155 | Over whole runs of requests other than two exceptional kinds, the image holds every register of the slave whenever no request is under way. |
| ExchangeRuns.CoilsCoherentAfterRun | firmware_A9G/app/libs/freemodbus/src/user_mb_app_m.c:167-236 | Over whole runs the image holds every coil of the slave whenever no request is under way, if no broadcast has padding bits set. |
| Coherence.TransactionAgrees | firmware_A9G/app/libs/freemodbus/src/mbfuncholding_m.c:123-451 | On success named registers and coils agree; whatever the result no others change, coils if the padding is clear; an exception reply leaves the image unchanged. |
| Coherence.CoherenceKept | firmware_A9G/app/libs/freemodbus/src/mbfuncholding.c:267-290 | An image that holds all of the slave's registers still does after any transaction, if and only if the transaction is not one of two kinds, or wrote nothing new: function 23 broadcast or refused after its write part, or a broadcast of more registers than the slave accepts. |
| Coherence.HalfDoneExample | firmware_A9G/app/libs/freemodbus/src/mbfuncholding.c:267-290 | A request of function 23 that is answered with an exception and has changed the slave all the same. |
| Coherence.CoherentThroughout | firmware_A9G/app/libs/freemodbus/src/mbfuncholding_m.c:123-451 | Any sequence of transactions of the other kinds keeps the image coherent. |
| CoilCoherence.CoilCoherenceKept | firmware_A9G/app/libs/freemodbus/src/mbutils.c:46-83 | An image that holds all of the slave's coils still does after any transaction, whatever its padding, except after a broadcast with padding bits set, and then if and only if the slave had every coil set on which the padding of the row before falls. |
| CoilCoherence.SpilledExample | firmware_A9G/app/libs/freemodbus/src/mbutils.c:46-83 | A broadcast of one coil after which the image has the next slave's first coil wrong. |
| Ascii.DecodeHex | firmware_A9G/app/libs/freemodbus/src/mbascii.c:434-468 | Two characters per octet, high half first, decode to the octets they encode. |
| Ascii.TextOctets | firmware_A9G/app/libs/freemodbus/src/mbascii.c:330-408 | The text of a frame, character by character: 0x3A, two digits of 0123456789ABCDEF for each octet, high half first, 0x0D and 0x0A. |
| Ascii.PairTaken | firmware_A9G/app/libs/freemodbus/src/mbascii.c:434-468 | Two characters are taken for the octet of their two digits; another character counts as 15 in the high place and makes the octet 255 in the low place. |
| Ascii.AcceptedIff | firmware_A9G/app/libs/freemodbus/src/mbascii.c:471-484 | A frame passes the check exactly when its last octet is the LRC of the others (section 6.2.1 of MODBUS over Serial Line V1.02). |
| Ascii.AcceptedTotalIff | firmware_A9G/app/libs/freemodbus/src/mbascii.c:151-182 | Accepted are three octets or more that add up to a multiple of 256. |
| Ascii.WhatTheSumSees | firmware_A9G/app/libs/freemodbus/src/mbascii.c:471-484 | A single changed octet is always noticed, two octets exchanged never. |
| Ascii.ReceiverFollows | firmware_A9G/app/libs/freemodbus/src/mbascii.c:221-328 | After any characters and timeouts the receiver's state tells what was received since the last colon. |
| Ascii.ReportedIff | firmware_A9G/app/libs/freemodbus/src/mbascii.c:221-328 | A frame is reported exactly when a LF follows a colon, at most 512 other characters and a CR; the buffer holds what those characters stand for. |
| Ascii.SendPutsOutText | firmware_A9G/app/libs/freemodbus/src/mbascii.c:184-219 | Sending a PDU puts out colon, its frame in hexadecimal, CR and LF, one character per interrupt, and posts one event at the end. |
| Ascii.RoundTrip | firmware_A9G/app/libs/freemodbus/src/mbascii.c:221-408 | What the transmitter puts out, fed to another receiver after anything at all, is received as that address and PDU, reported once, within the receive function's assertion, and accepted. |
| Ascii.ReceiveAssertionFailsIff | firmware_A9G/app/libs/freemodbus/src/mbascii.c:157 | At a report the receive function's assertion fails if and only if 512 characters stood between colon and CR. |
| Ascii.LongFrameFails | firmware_A9G/app/libs/freemodbus/src/mbascii.c:157 | The text of any frame of 256 octets does that. |
| Ascii.NoAssertionFails | firmware_A9G/app/libs/freemodbus/src/mbascii.c:221-408 | In every run of callbacks and sends no character comes while sending, no transmitter interrupt while receiving. |
| Ascii.ExpiryAssertionFailsIff | firmware_A9G/app/libs/freemodbus/src/mbascii.c:410-431 | In such runs the timer can run out in the idle state if and only if the characters and timeouts among the calls leave it so. |
| Ascii.TimerAssertionFailsIff | firmware_A9G/app/libs/freemodbus/src/mbascii.c:307-311 | The timer can run out in the idle state, where its assertion fails, exactly after a stream in which another character than LF or colon followed a CR and no colon came since. |
| AsciiStack.prvucMBLRC | firmware_A9G/app/libs/freemodbus/src/mbascii.c:471-484 | The loop computes the LRC. |
| AsciiStack.AsciiDevice.eMBASCIIStart | firmware_A9G/app/libs/freemodbus/src/mbascii.c:131-141 | Turns the receiver on and posts that the stack is ready. |
| AsciiStack.AsciiDevice.eMBASCIIReceive | firmware_A9G/app/libs/freemodbus/src/mbascii.c:151-182 | Given the fewer than 256 octets it asserts, accepts exactly frames of at least 3 octets whose LRC is 0. |
| AsciiStack.AsciiDevice.eMBASCIISend | firmware_A9G/app/libs/freemodbus/src/mbascii.c:184-219 | Puts address and LRC round the PDU and starts the transmitter, if the receiver is idle. |
| AsciiStack.AsciiDevice.xMBASCIIReceiveFSM | firmware_A9G/app/libs/freemodbus/src/mbascii.c:221-328 | One character does the receiver's step. |
| AsciiStack.AsciiDevice.xMBASCIITransmitFSM | firmware_A9G/app/libs/freemodbus/src/mbascii.c:330-408 | One interrupt does the transmitter's step and puts out its character. |
| AsciiStack.AsciiDevice.xMBASCIITimerT1SExpired | firmware_A9G/app/libs/freemodbus/src/mbascii.c:410-431 | A timeout abandons the frame. |
| TinyJson.json_create | firmware_A9G/app/libs/tiny-json/src/tiny-json.c:70-90 | Succeeds exactly when the recursive reading of the text does within as many nodes; then the pool holds that reading's tree in document order, uses no other node, and every name and value stands in the text decoded and ended by a NUL, names holding no other. |
| JsonDocuments.WrittenIsRead | firmware_A9G/app/libs/tiny-json/src/tiny-json.c:70-382 | A document written by an independent writer, with any blanks and commas the parser passes over, is read, if there is a node for each value, as the tree it stands for: every type, name, value, order and position; else it is refused. |
| JsonDocuments.DocumentIff | firmware_A9G/app/libs/tiny-json/src/tiny-json.c:70-382 | The texts that are read are exactly the documents of that writer, and the result is exactly their tree. |
| JsonDocuments.LenientExample | firmware_A9G/app/libs/tiny-json/src/tiny-json.c:332-339 | One of them that is no JSON. |
| TinyJson.JsonReader.objValue | firmware_A9G/app/libs/tiny-json/src/tiny-json.c:327-382 | The loop without recursion does what the recursive reading does, and terminates; text behind the terminator is never read. |
| TinyJson.JsonReader.closeContainer | firmware_A9G/app/libs/tiny-json/src/tiny-json.c:340-348 | Closing puts a NUL over the bracket, finds the parent in the sibling link and clears it. |
| TinyJson.JsonReader.openContainer | firmware_A9G/app/libs/tiny-json/src/tiny-json.c:359-373 | Opening links the new container behind its siblings and keeps the parent in its sibling link. |
| TinyJson.JsonReader.addLeaf | firmware_A9G/app/libs/tiny-json/src/tiny-json.c:349-379 | A plain value becomes the last member of the innermost container. |
| TinyJson.JsonReader.add | firmware_A9G/app/libs/tiny-json/src/tiny-json.c:310-319 | Links a node behind the last child. |
| TinyJson.LinksReachAll | firmware_A9G/app/libs/tiny-json/src/tiny-json.c:310-319 | Following child and sibling links from the root meets every node in use exactly once, in document order. |
| JsonNodes.NestClosed | firmware_A9G/app/libs/tiny-json/src/tiny-json.c:340-348 | The layout of the open containers after the innermost is closed: its sibling link was its parent and is cleared. |
| JsonNodes.NestAdded | firmware_A9G/app/libs/tiny-json/src/tiny-json.c:359-373 | The layout after a container is opened. |
| JsonTree.ResumeWith | firmware_A9G/app/libs/tiny-json/src/tiny-json.c:332-381 | Reading one member and then the rest is reading the rest with that member done: the place of a reader without recursion. |
| JsonInPlace.parseString | firmware_A9G/app/libs/tiny-json/src/tiny-json.c:127-151 | Decodes a string over itself and ends it, or fails, exactly as the specification reads the text; the writing position never passes the reading position and text before is kept. What is read is stated by the next rows. |
| JsonPrint.PiecesRead | firmware_A9G/app/libs/tiny-json/src/tiny-json.c:96-151 | Reading undoes an independent writer, wherever the string stands and whatever follows: each character written as itself, each of the eight escapes written out, and a backslash u with four hexadecimal digits, read as a question mark. |
| JsonPrint.ReadAsPieces | firmware_A9G/app/libs/tiny-json/src/tiny-json.c:96-151 | A string that is read is made of these pieces up to its closing quote, and is what they stand for: nothing else is accepted. |
| JsonPrint.QuoteRoundTrip | firmware_A9G/app/libs/tiny-json/src/tiny-json.c:96-151 | Any text, with its special characters escaped and a quote behind, is read back as that text. |
| JsonPrint.BadStringRefused | firmware_A9G/app/libs/tiny-json/src/tiny-json.c:96-151 | After any pieces a backslash with another character, a backslash u without four hexadecimal digits, and the end of the text are refused. |
| JsonInPlace.TreeOnwards | firmware_A9G/app/libs/tiny-json/src/tiny-json.c:327-382 | Names and values once written are never overwritten by what is read later. |
| TinyJson.JsonReader.propertyName | firmware_A9G/app/libs/tiny-json/src/tiny-json.c:158-166 | A quoted name, a colon and blanks, in place. |
| TinyJson.numValue | firmware_A9G/app/libs/tiny-json/src/tiny-json.c:267-305 | Accepts exactly the number syntax, and of integers those that pass the range test; ends the digits in place. |
| JsonText.IntegerAcceptedIff | firmware_A9G/app/libs/tiny-json/src/tiny-json.c:287-302 | An integer numeral is accepted, as an integer of those digits, exactly when its value fits 64 bits, although the test compares characters. |
| JsonPrint.NumberRead | firmware_A9G/app/libs/tiny-json/src/tiny-json.c:239-305 | A number in the syntax of RFC 8259, section 6, with a comma, blank or closing bracket behind, is read as a real if it has a fraction or exponent, else as an integer if it fits 64 bits, else refused. |
| JsonPrint.NumberThere | firmware_A9G/app/libs/tiny-json/src/tiny-json.c:239-305 | Nothing else is read as a number. |
| TinyJson.primitiveValue | firmware_A9G/app/libs/tiny-json/src/tiny-json.c:201-207 | Accepts a literal that is ended by a comma, a blank or a closing bracket. |
| JsonTree.ReadNamesAreTexts | firmware_A9G/app/libs/tiny-json/src/tiny-json.c:127-151 | Decoded names hold no NUL. |
| TinyJson.json_getProperty | firmware_A9G/app/libs/tiny-json/src/tiny-json.c:43-49 | Finds the first child of that name. |
| Search.OnePassRightIff | firmware_A9G/libs/utils/src/buffer.c:63-102 | The one-pass search finds the first occurrence in every text if and only if no beginning of the pattern recurs in it with another continuation. |
| Search.MissedExample | firmware_A9G/libs/utils/src/buffer.c:63-102 | For every other pattern, a text in which the search misses it. |
| Search.ScanFinds | firmware_A9G/libs/utils/src/buffer.c:63-102 | For such patterns the pass, at any point, will find the first occurrence. |
| Buffer.Queue.Puts | firmware_A9G/libs/utils/src/buffer.c:23-34 | All bytes go behind those queued, or, with fewer than that many places free, none. |
| Buffer.Queue.Gets | firmware_A9G/libs/utils/src/buffer.c:42-53 | The first bytes are taken in order, or, with fewer queued, none; the rest stay. |
| Buffer.Queue.Query | firmware_A9G/libs/utils/src/buffer.c:63-102 | From any queued position, across the wrap, the place of the pass's find in logical order, or -1. |
| Buffer.Queue.Size | firmware_A9G/libs/utils/src/buffer.c:108-111 | The number of bytes queued. |
| Gps.Receiver.GPS_Update | firmware_A9G/libs/gps/src/gps.c:94-127 | Buffers the bytes that fit, and hands on the first frame buffered; the frame's array is cleared behind it. |
| Gps.StreamConserved | firmware_A9G/libs/gps/src/gps.c:94-127 | Over any updates, the bytes handed on followed by those buffered are the bytes taken in. |
| Gps.FrameIsLine | firmware_A9G/libs/gps/src/gps.c:104-125 | A frame handed on ends with the first line end at or after the first "VTG", unless clipped at 1024 bytes. |
| Gps.FrameTold | firmware_A9G/libs/gps/src/gps.c:104-125 | By the characters: with the first V, T, G in the buffer and the first CR, LF from there on, everything up to that line end is handed on, or the first 1024 bytes of it; without them nothing. |
| Gps.NothingIff | firmware_A9G/libs/gps/src/gps.c:104-125 | Nothing is handed on exactly if there is no line end at or after the first "VTG". |
| Gps.FrozenIff | firmware_A9G/libs/gps/src/gps.c:94-127 | No update has any effect if and only if the buffer is full and holds no frame. |
| Gps.RefusedIff | firmware_A9G/libs/gps/src/gps.c:94-127 | An update takes nothing in and hands nothing on if and only if the buffer holds no frame and the bytes, by their 16-bit count, do not fit or are none. |
| Gps.StuckIff | firmware_A9G/libs/gps/src/gps.c:94-127 | In a run: from some update on nothing is taken in or handed on if and only if the buffer held no frame then and none of the inputs since fits; the buffer stays as it is. |
| Gps.StuckExample | firmware_A9G/libs/gps/src/gps.c:94-127 | After 2047 bytes without a frame no input ever has an effect; after 2000, none of 48 bytes or more, however many come. |
| Gps.PatternsAreSafe | firmware_A9G/libs/gps/src/gps.c:104-130 | The search is right for the patterns used here. |
| Lod.LoadAfterStore | firmware_A9G/platform/compilation/lodCombine.py:34-114 | Loading what was stored gives back blocks, attribute names and the stored attributes, and the check sum agrees, for bases and words of 32 bits and attributes without "=" and outer blanks. |
| Lod.AnyOrder | firmware_A9G/platform/compilation/lodCombine.py:27-32 | The sum does not depend on the order the blocks are taken in. |
| LodLines.ChecksumAdds | firmware_A9G/platform/compilation/lodCombine.py:27-32 | The check sum is 0 of no blocks, and a word added to any block adds that word modulo 2^32. |
| LodMerge.LOD.checksum | firmware_A9G/platform/compilation/lodCombine.py:27-32 | The loops compute that sum, modulo 2^32. |
| LodMerge.LOD.load | firmware_A9G/platform/compilation/lodCombine.py:34-97 | Reads exactly the files of the line syntax with a right check sum, and what they say; fails or raises for exactly the others. |
| LodLines.LineRefused | firmware_A9G/platform/compilation/lodCombine.py:52-88 | Refused are an attribute line without exactly one =, a base line without @ and eight digits, a word line without eight digits, and a word before any base. |
| LodLines.SumAcceptedIff | firmware_A9G/platform/compilation/lodCombine.py:60-70 | A check sum line in eight digits is accepted if and only if it is the check sum of the blocks before it. |
| LodLines.BlocksRead | firmware_A9G/platform/compilation/lodCombine.py:71-95 | Blocks are read in any order and without a check sum too; of two with the same base the later counts. |
| LodLines.RefusedStays | firmware_A9G/platform/compilation/lodCombine.py:52-97 | After a line that is refused nothing more is read. |
| LodLines.FirstWord | firmware_A9G/platform/compilation/lodCombine.py:83-88 | A word is the first run of eight digits in its line. |
| LodLines.FirstBase | firmware_A9G/platform/compilation/lodCombine.py:72-81 | A base is the first run of eight digits behind an @. |
| LodLines.DigitValues | firmware_A9G/platform/compilation/lodCombine.py:46-47 | Digits of either case are read, each as its value. |
| LodLines.PairIff | firmware_A9G/platform/compilation/lodCombine.py:53-59 | A name and a value are read exactly from a text with one =, as what stands on its two sides. |
| LodLines.Stripped | firmware_A9G/platform/compilation/lodCombine.py:53 | Exactly the white space at both ends is taken off. |
| LodMerge.LOD.store | firmware_A9G/platform/compilation/lodCombine.py:99-114 | Writes the lines of the stored form, which the next rows state. |
| LodLines.StoredLines | firmware_A9G/platform/compilation/lodCombine.py:106-112 | Line by line: the attributes in their order; then, the bases ascending and each of them once, a line with the base and one for each word of its block; then the check sum; nothing else. |
| LodLines.BasesAscend | firmware_A9G/platform/compilation/lodCombine.py:108-109 | The lines beginning with an @ are those of the bases, strictly ascending, and each base of the image is among them once. |
| LodLines.LowerCase | firmware_A9G/platform/compilation/lodCombine.py:109-112 | Numbers are written in the digits 0123456789abcdef. |
| LodMerge.LOD.end_address | firmware_A9G/platform/compilation/lodCombine.py:116-122 | The end of the block that goes furthest. |
| LodMerge.EndTold | firmware_A9G/platform/compilation/lodCombine.py:116-122 | No word goes beyond it, some block ends there, and it is 0 without blocks. |
| LodMerge.MergeIsUnion | firmware_A9G/platform/compilation/lodCombine.py:139-188 | Address by address the merged image is both images and erased words exactly on the gap, if and only if the boot loader has no block at its own end address that takes the place of a block with words. |
| LodMerge.EmptyBlockReplaces | firmware_A9G/platform/compilation/lodCombine.py:187 | With such a block, which is empty, a word is lost: an erased one, or the application's first. |
| LodMerge.MergeLosesWord | firmware_A9G/platform/compilation/lodCombine.py:187 | Two pairs of images that are merged so, one of either kind. |
| LodMerge.PartsApart | firmware_A9G/platform/compilation/lodCombine.py:159-162 | The parts do not overlap. |
| LodMerge.PaddingIff | firmware_A9G/platform/compilation/lodCombine.py:167-181 | The gap can be padded exactly if both its ends are at 4-kilobyte boundaries. |
| LodMerge.PaddingBlocks | firmware_A9G/platform/compilation/lodCombine.py:167-181 | It is cut into blocks of 16384 words where one fits at a multiple of 64 kilobytes, else of 1024 words, each word 0xFFFFFFFF. |
| LodMerge.OnlyBit27 | firmware_A9G/platform/compilation/lodCombine.py:148-149 | Bit 27 of a base is set and every other bit is kept, of negative numbers too. |
| LodLines.NumbersRead | firmware_A9G/platform/compilation/lodCombine.py:148-149 | A base attribute is read as hexadecimal after 0x, and as decimal if it begins with a digit other than 0. |
| LodMerge.dual_merge | firmware_A9G/platform/compilation/lodCombine.py:139-188 | Merges exactly when bases, addresses and padding allow, the bases read from the attributes' text; raises exactly for a base that is no number and an application without blocks; the second image's blocks are changed along. |
| Minmea.ScanFloat | firmware_A9G/libs/gps/minmea/src/minmea.c:159-216 | The loop reads the field as the step-by-step specification does: accepted if and only if its characters are acceptable, and overflowing the scale if and only if a tenth digit after the point fits. |
| Minmea.AcceptedIff | firmware_A9G/libs/gps/minmea/src/minmea.c:159-200 | By the characters alone: a field is accepted if and only if it is blank, or a decimal (leading blanks, one sign before the first digit, one point) of 31 bits and nine places with a digit in it, or begins with such a decimal followed, after the point, by a digit that does not fit; what follows that digit does not matter. |
| Minmea.ShapedAcceptedIff | firmware_A9G/libs/gps/minmea/src/minmea.c:159-200 | A field of blanks, one sign, digits and one point in such order is accepted if and only if it has a digit or is blank, the digits before the point fit 31 bits, and no tenth digit after the point fits. |
| Minmea.TakenFor | firmware_A9G/libs/gps/minmea/src/minmea.c:159-216 | It is taken for nothing if blank, else for the number its sign and digits say with a scale of ten to the places after its point, cut before the digit that does not fit. |
| Minmea.FieldUpTo | firmware_A9G/libs/gps/minmea/src/minmea.c:163-164 | In a sentence the field ends at a comma, an asterisk, a character that cannot be printed, or the end. |
| Minmea.FieldMeans | firmware_A9G/libs/gps/minmea/src/minmea.c:159-216 | A field that is read is empty, with scale 0, or the decimal its digits say, value and scale in 32 bits and the scale a power of ten, cut before the first digit after the point that does not fit. |
| Minmea.FieldTruncates | firmware_A9G/libs/gps/minmea/src/minmea.c:176-178 | With all its digits counted, the value over the scale is the decimal truncated toward zero. |
| Minmea.OverflowIff | firmware_A9G/libs/gps/minmea/src/minmea.c:185-186 | The scale overflows 32 bits if and only if a tenth digit comes after the point while the value still has room for it. |
| Minmea.ScaleTooLarge | firmware_A9G/libs/gps/minmea/src/minmea.c:185-186 | A field of ten places that does that. |
| Minmea.SignAfterPoint | firmware_A9G/libs/gps/minmea/src/minmea.c:166-169 | In any field a sign right after the point means the same as one right before it. |
| Minmea.SignAfterPointExample | firmware_A9G/libs/gps/minmea/src/minmea.c:166-169 | Such a field is accepted. |
| Minmea.RescaleRounds | firmware_A9G/libs/gps/minmea/src/minmea.h:219-229 | To a smaller scale that divides the larger it has a result in 32 bits if and only if value and half a unit have room; it is then the nearest, halfway away from zero. |
| Minmea.TowardZeroIff | firmware_A9G/libs/gps/minmea/src/minmea.h:216-229 | It is the value cut toward zero, as documented, if and only if it has a result and less than half a unit is cut off. |
| Minmea.HalfRoundedAway | firmware_A9G/libs/gps/minmea/src/minmea.h:216-229 | A value of either sign that is not. |
| Minmea.UpAndDown | firmware_A9G/libs/gps/minmea/src/minmea.h:219-229 | To a multiple of the scale it has a result if and only if the product fits 32 bits; back again if and only if there is room for half a unit besides, and that is the identity. |
| Minmea.RescaleOverflows | firmware_A9G/libs/gps/minmea/src/minmea.h:219-229 | A field the scanner accepts that has no result at scale 1, a number that has none going up, and one that has none coming back. |

## Left out

- Functions 2, 4 and 17, Modbus TCP and diagnostics: of the same shape as those modelled, or empty; the handler tables hold the seven functions modelled, without registering or removing handlers at run time.
- The bodies of the serial, timer and event ports, start-up of the port, `eMBDisable`, `eMBClose`, and a stop during a transmission.
- Which of several waiting tasks gets a result, and the wait for it: the request methods end where the wait begins.
- The flag that tells callbacks the master mode: both stores are separate here.
- Two-dimensional register and coil arrays are modelled as the one block of memory they are.
- In-out lengths (`*usLen`) are returned, and the frame pointer of the master's poll loop is a choice between its two buffers.
- MasterStack.MasterDevice.eMBMasterReqReadHoldingRegister: like the other six it does not wait, so a busy master is refused at once whatever the timeout.
- MasterStack.MasterDevice.eMBMasterReqWriteMultipleHoldingRegister: requests that do not fit the send buffer are excluded by a requires, since they would be written over other memory; `SendableIff` says which.
- MasterStack.MasterDevice.eMBMasterReqReadWriteMultipleHoldingRegister: the same.
- MasterStack.MasterDevice.eMBMasterReqWriteMultipleCoils: the same.
- MasterHandlers.eMBMasterFuncWriteMultipleHoldingRegister: reads behind a buffer are excluded by a requires, since what they would find is not known, and also where the address would be refused before; `Transaction.ReadsInsideIff` says when there are any.
- MasterHandlers.eMBMasterFuncReadHoldingRegister: the same.
- MasterHandlers.eMBMasterFuncReadWriteMultipleHoldingRegister: the same.
- MasterHandlers.eMBMasterFuncReadCoils: the same.
- MasterHandlers.eMBMasterFuncWriteMultipleCoils: the same.
- MasterStack.MasterDevice.RunForAll: the same.
- MasterStack.MasterDevice.eMBMasterPoll: the same, and for a handler run for slave 0 (`NobodyExample`).
- UserMbApp.SlaveStore.eMBRegCoilsCB: requires a buffer longer than the array declared, since what the octets behind it are used for is not known; `SlackIff` says how much longer.
- Image.MasterImage.eMBMasterRegCoilsCB: the same.
- SlaveRuns.FramesAreBursts: says nothing of the buffer if a request was executed while the burst came in; `DisturbedExample` shows that it then need not hold the burst.
- Master in ASCII mode: the repository has the slave's machines only.
- A bus with several slaves that hear each other's replies, and noise between master and slave: `MasterRuns` covers arbitrary answers instead.
- JSON: conversion of numbers to machine types, and lookups by value; `json_createWithPool` only with the static pool.
- JSON text is a sequence of characters without code pages; signs of `char` play no part.
- GPS: the branch with a command pending, parsing of the frame, logging.
- Minmea.ScanFloat: what comes after an overflow of the scale, which C leaves open: the model stops there. `minmea_rescale` likewise has no result where a sum or product overflows.
- NMEA: field types other than decimals, checksums, and conversions to floating point.
- LodMerge.LOD.load: text is ASCII, so white space and digits beyond it are not considered.
- LodMerge.dual_merge: that output and second image share one dictionary is modelled by assigning both.
- Lod.LoadAfterStore: a file is its lines; names and values with line ends in them are not considered.
- File access, command line and the other operations of `lodCombine.py`.
