/**
 * The slave as a state machine: the RTU receiver and transmitter with their timer, and the poll loop.
 * Each function is one callback of the port, or one call of the poll loop.
 */
module SlaveMachine {
  import opened Bytes
  import opened Modbus
  import opened MbCrc
  import opened Rtu
  import opened Store
  import opened SlaveFunctions

  datatype RcvState = STATE_RX_INIT | STATE_RX_IDLE | STATE_RX_RCV | STATE_RX_ERROR

  datatype SndState = STATE_TX_IDLE | STATE_TX_XMIT

  datatype Event = EV_READY | EV_FRAME_RECEIVED | EV_EXECUTE | EV_FRAME_SENT

  /**
   * `rxOn`, `txOn` and `timerOn` are the port: receiver and transmitter interrupts and the 3.5-character
   * timer. `events` are the posted events. `next` and `count` are what is left to send of `buf`.
   */
  datatype Slave = Slave(
    rcv: RcvState, snd: SndState, buf: seq<byte>, pos: nat, next: nat, count: nat,
    rxOn: bool, txOn: bool, timerOn: bool, events: set<Event>,
    enabled: bool, address: byte, rcvAddress: byte, length: nat, data: Data)

  predicate Shaped(l: Layout, s: Slave) {
    && |s.buf| == MB_SER_PDU_SIZE_MAX
    && s.next + s.count <= MB_SER_PDU_SIZE_MAX
    && s.pos <= MB_SER_PDU_SIZE_MAX
    && s.length <= MB_PDU_SIZE_MAX
    && Fits(l, s.data)
  }

  // ---------- mbrtu.c ----------

  function RtuStart(s: Slave): Slave {
    s.(rcv := STATE_RX_INIT, rxOn := true, txOn := false, timerOn := true)
  }

  /** Whether the received octets are an acceptable frame. */
  predicate RtuReceiveOk(s: Slave)
    requires |s.buf| == MB_SER_PDU_SIZE_MAX && s.pos <= MB_SER_PDU_SIZE_MAX
  {
    Acceptable(s.buf[..s.pos])
  }

  lemma ReceivedIsLong(l: Layout, s: Slave)
    requires Shaped(l, s) && RtuReceiveOk(s)
    ensures s.pos >= 4
  {
  }

  /** Sends the PDU of `length` octets that stands in the buffer. */
  function RtuSend(s: Slave, address: byte, length: nat): (t: Slave)
    requires |s.buf| == MB_SER_PDU_SIZE_MAX && length + 3 <= MB_SER_PDU_SIZE_MAX
    ensures |t.buf| == MB_SER_PDU_SIZE_MAX
    ensures s.rcv == STATE_RX_IDLE ==>
              && t.next == 0 && t.count == length + 3
              && t.buf[..t.count] == Frame(address, s.buf[1..1 + length])
  {
    if s.rcv == STATE_RX_IDLE then
      var buf := s.buf[0 := address];
      assert buf[..1 + length] == [address] + s.buf[1..1 + length];
      s.(buf := Splice(buf, 1 + length, CheckOctets(Crc16(buf[..1 + length]))),
         next := 0, count := length + 3, snd := STATE_TX_XMIT, rxOn := false, txOn := true)
    else s
  }

  function RtuByteReceived(s: Slave, b: byte): (t: Slave)
    requires |s.buf| == MB_SER_PDU_SIZE_MAX && s.pos <= MB_SER_PDU_SIZE_MAX
    ensures |t.buf| == MB_SER_PDU_SIZE_MAX && t.pos <= MB_SER_PDU_SIZE_MAX
  {
    match s.rcv
    case STATE_RX_INIT => s.(timerOn := true)
    case STATE_RX_ERROR => s.(timerOn := true)
    case STATE_RX_IDLE => s.(buf := s.buf[0 := b], pos := 1, rcv := STATE_RX_RCV, timerOn := true)
    case STATE_RX_RCV =>
      if s.pos < MB_SER_PDU_SIZE_MAX then s.(buf := s.buf[s.pos := b], pos := s.pos + 1, timerOn := true)
      else s.(rcv := STATE_RX_ERROR, timerOn := true)
  }

  /** The next octet for the line, if the transmitter has one. */
  function RtuOctetOut(s: Slave): seq<byte>
    requires s.next + s.count <= |s.buf|
  {
    if s.snd == STATE_TX_XMIT && s.count != 0 then [s.buf[s.next]] else []
  }

  function RtuTransmitterEmpty(s: Slave): (t: Slave)
    requires s.next + s.count <= |s.buf|
    ensures t.next + t.count == s.next + s.count
  {
    match s.snd
    case STATE_TX_IDLE => s.(rxOn := true, txOn := false)
    case STATE_TX_XMIT =>
      if s.count != 0 then s.(next := s.next + 1, count := s.count - 1)
      else s.(events := s.events + {EV_FRAME_SENT}, rxOn := true, txOn := false, snd := STATE_TX_IDLE)
  }

  function RtuTimerExpired(s: Slave): Slave {
    var posted :=
      if s.rcv == STATE_RX_INIT then {EV_READY}
      else if s.rcv == STATE_RX_RCV then {EV_FRAME_RECEIVED}
      else {};
    s.(events := s.events + posted, timerOn := false, rcv := STATE_RX_IDLE)
  }

  // ---------- mb.c ----------

  function Execute(l: Layout, s: Slave): (t: Slave)
    requires Shaped(l, s)
    ensures |t.buf| == MB_SER_PDU_SIZE_MAX && Fits(l, t.data)
  {
    var f := s.buf[1..];
    var served := Serve(l, s.data, f, s.length);
    ServeShape(l, s.data, f, s.length);
    if s.rcvAddress == MB_ADDRESS_BROADCAST then
      s.(data := served.data, buf := [s.buf[0]] + served.frame, length := served.len)
    else if served.exception != MB_EX_NONE then
      var error := served.frame[0 := ErrorFunction(f[0])][1 := served.exception.Code()];
      RtuSend(s.(data := served.data, buf := [s.buf[0]] + error, length := 2), s.address, 2)
    else
      RtuSend(s.(data := served.data, buf := [s.buf[0]] + served.frame, length := served.len), s.address, served.len)
  }

  /** `code | MB_FUNC_ERROR`. */
  function ErrorFunction(code: byte): byte {
    if code < MB_FUNC_ERROR then code + MB_FUNC_ERROR else code
  }

  function Dispatch(l: Layout, s: Slave, e: Event): (t: Slave)
    requires Shaped(l, s)
    ensures |t.buf| == MB_SER_PDU_SIZE_MAX && Fits(l, t.data)
  {
    match e
    case EV_READY => s
    case EV_FRAME_RECEIVED =>
      if !RtuReceiveOk(s) then s
      else
        var t := s.(rcvAddress := s.buf[0], length := s.pos - 3);
        if t.rcvAddress == t.address || t.rcvAddress == MB_ADDRESS_BROADCAST
        then t.(events := t.events + {EV_EXECUTE}) else t
    case EV_EXECUTE => Execute(l, s)
    case EV_FRAME_SENT => s
  }

  /**
   * One call of the poll loop with an event pending. Taking the events clears them all; if more than one was
   * pending the program acts on whatever its event variable holds, here `other`.
   */
  function Poll(l: Layout, s: Slave, other: Event): (t: Slave)
    requires Shaped(l, s) && s.events != {}
    ensures |t.buf| == MB_SER_PDU_SIZE_MAX && Fits(l, t.data)
  {
    if !s.enabled then s
    else Dispatch(l, s.(events := {}), Taken(s.events, other))
  }

  function Taken(events: set<Event>, other: Event): Event {
    if events == {EV_READY} then EV_READY
    else if events == {EV_FRAME_RECEIVED} then EV_FRAME_RECEIVED
    else if events == {EV_EXECUTE} then EV_EXECUTE
    else if events == {EV_FRAME_SENT} then EV_FRAME_SENT
    else other
  }
}
