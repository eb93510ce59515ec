/**
 * The master as a state machine: the RTU receiver and transmitter with their timer, the poll loop and the
 * requests. Each function is one callback of the port, one call of the poll loop or one request.
 */
module MasterMachine {
  import opened Bytes
  import opened Modbus
  import opened MbCrc
  import opened Rtu
  import opened Store
  import opened Requests
  import opened Image
  import opened MasterFunctions

  datatype RcvState = STATE_M_RX_INIT | STATE_M_RX_IDLE | STATE_M_RX_RCV | STATE_M_RX_ERROR

  datatype SndState = STATE_M_TX_IDLE | STATE_M_TX_XMIT | STATE_M_TX_XFWR

  datatype TimerMode = MB_TMODE_T35 | MB_TMODE_RESPOND_TIMEOUT | MB_TMODE_CONVERT_DELAY

  datatype Event =
    | EV_MASTER_READY | EV_MASTER_FRAME_RECEIVED | EV_MASTER_EXECUTE | EV_MASTER_FRAME_SENT | EV_MASTER_ERROR_PROCESS

  datatype ErrorType = EV_ERROR_RESPOND_TIMEOUT | EV_ERROR_RECEIVE_DATA | EV_ERROR_EXECUTE_FUNCTION

  datatype StackState = STATE_ENABLED | STATE_DISABLED | STATE_NOT_INITIALIZED | STATE_ESTABLISHED

  /** What a request is reported as to whoever waits for it. */
  datatype Result =
    | EV_MASTER_PROCESS_SUCESS
    | EV_MASTER_ERROR_RESPOND_TIMEOUT
    | EV_MASTER_ERROR_RECEIVE_DATA
    | EV_MASTER_ERROR_EXECUTE_FUNCTION

  /** What the users of the stack see: a request taken on, its result, and the run resource released. */
  datatype Note = Accepted | Finished(result: Result) | Released

  /** Which buffer the poll loop's frame pointer points into, at the PDU. */
  datatype WhichBuffer = InSend | InReceive

  /**
   * `rxOn`, `txOn` and `timerOn` with `mode` are the port: receiver and transmitter interrupts and the timer.
   * `events` are the posted events, `token` is the run resource's count. `next` and `left` are what is left
   * to send of `snd`, which holds the PDU of `pduLen` octets from its second octet on.
   */
  datatype Master = Master(
    rcvState: RcvState, sndState: SndState, snd: seq<byte>, pduLen: nat, next: nat, left: nat, rcv: seq<byte>, pos: nat,
    broadcast: bool, mode: TimerMode, rxOn: bool, txOn: bool, timerOn: bool,
    events: set<Event>, state: StackState, dest: byte, error: ErrorType,
    frame: WhichBuffer, rcvAddress: byte, length: nat, image: Image, token: nat, log: seq<Note>)

  predicate Shaped(l: Layout, m: Master) {
    && |m.snd| == MB_PDU_SIZE_MAX
    && |m.rcv| == MB_SER_PDU_SIZE_MAX
    && m.pduLen + 3 <= MB_PDU_SIZE_MAX
    && m.next + m.left <= MB_PDU_SIZE_MAX
    && m.pos <= MB_SER_PDU_SIZE_MAX
    && m.dest <= MB_MASTER_TOTAL_SLAVE_NUM
    && ImageFits(l, m.image)
  }

  // ---------- mbrtu_m.c ----------

  function RtuStart(m: Master): Master {
    m.(rcvState := STATE_M_RX_INIT, rxOn := true, txOn := false, timerOn := true, mode := MB_TMODE_T35)
  }

  predicate RtuReceiveOk(m: Master)
    requires |m.rcv| == MB_SER_PDU_SIZE_MAX && m.pos <= MB_SER_PDU_SIZE_MAX
  {
    Acceptable(m.rcv[..m.pos])
  }

  /** Sends the PDU in the send buffer to `m.dest`. */
  function RtuSend(m: Master): (t: Master)
    requires |m.snd| == MB_PDU_SIZE_MAX && m.pduLen + 3 <= MB_PDU_SIZE_MAX
    ensures |t.snd| == MB_PDU_SIZE_MAX
    ensures m.rcvState == STATE_M_RX_IDLE && m.dest <= MB_MASTER_TOTAL_SLAVE_NUM ==>
              t.next == 0 && t.left == m.pduLen + 3 && t.snd[..t.left] == Frame(m.dest, m.snd[1..1 + m.pduLen])
  {
    if m.dest <= MB_MASTER_TOTAL_SLAVE_NUM && m.rcvState == STATE_M_RX_IDLE then
      var snd := m.snd[0 := m.dest];
      assert snd[..1 + m.pduLen] == [m.dest] + m.snd[1..1 + m.pduLen];
      m.(snd := Splice(snd, 1 + m.pduLen, CheckOctets(Crc16(snd[..1 + m.pduLen]))),
         next := 0, left := m.pduLen + 3, sndState := STATE_M_TX_XMIT, rxOn := false, txOn := true)
    else m
  }

  function RtuByteReceived(m: Master, b: byte): (t: Master)
    requires |m.rcv| == MB_SER_PDU_SIZE_MAX && m.pos <= MB_SER_PDU_SIZE_MAX
    ensures |t.rcv| == MB_SER_PDU_SIZE_MAX && t.pos <= MB_SER_PDU_SIZE_MAX
  {
    var t := m.(timerOn := true, mode := MB_TMODE_T35);
    match m.rcvState
    case STATE_M_RX_INIT => t
    case STATE_M_RX_ERROR => t
    case STATE_M_RX_IDLE =>
      t.(sndState := STATE_M_TX_IDLE, rcv := m.rcv[0 := b], pos := 1, rcvState := STATE_M_RX_RCV)
    case STATE_M_RX_RCV =>
      if m.pos < MB_SER_PDU_SIZE_MAX then t.(rcv := m.rcv[m.pos := b], pos := m.pos + 1)
      else t.(rcvState := STATE_M_RX_ERROR)
  }

  /** The next octet for the line, if the transmitter has one. */
  function RtuOctetOut(m: Master): seq<byte>
    requires m.next + m.left <= |m.snd|
  {
    if m.sndState == STATE_M_TX_XMIT && m.left != 0 then [m.snd[m.next]] else []
  }

  /** After the last octet the master waits, for a reply or for the slaves to have done a broadcast. */
  function RtuTransmitterEmpty(m: Master): (t: Master)
    requires m.next + m.left <= |m.snd| && |m.snd| == MB_PDU_SIZE_MAX
    ensures t.next + t.left == m.next + m.left
  {
    match m.sndState
    case STATE_M_TX_IDLE => m.(rxOn := true, txOn := false)
    case STATE_M_TX_XMIT =>
      if m.left != 0 then m.(next := m.next + 1, left := m.left - 1)
      else
        var toAll := m.snd[0] == MB_ADDRESS_BROADCAST;
        m.(broadcast := toAll, rxOn := true, txOn := false, sndState := STATE_M_TX_XFWR, timerOn := true,
           mode := if toAll then MB_TMODE_CONVERT_DELAY else MB_TMODE_RESPOND_TIMEOUT)
    case STATE_M_TX_XFWR => m
  }

  function ReceiverExpired(m: Master): Master {
    match m.rcvState
    case STATE_M_RX_INIT => m.(events := m.events + {EV_MASTER_READY})
    case STATE_M_RX_RCV => m.(events := m.events + {EV_MASTER_FRAME_RECEIVED})
    case STATE_M_RX_ERROR => m.(events := m.events + {EV_MASTER_ERROR_PROCESS}, error := EV_ERROR_RECEIVE_DATA)
    case STATE_M_RX_IDLE => m
  }

  function WaitExpired(m: Master): Master {
    if m.sndState == STATE_M_TX_XFWR && !m.broadcast then
      m.(events := m.events + {EV_MASTER_ERROR_PROCESS}, error := EV_ERROR_RESPOND_TIMEOUT)
    else m
  }

  /** First what the receiver posts, then what the transmitter posts, then the end of a convert delay. */
  function RtuTimerExpired(m: Master): Master {
    var expired := WaitExpired(ReceiverExpired(m));
    var t := expired.(rcvState := STATE_M_RX_IDLE, sndState := STATE_M_TX_IDLE, timerOn := false);
    if m.mode == MB_TMODE_CONVERT_DELAY then t.(events := t.events + {EV_MASTER_EXECUTE}) else t
  }

  // ---------- mb_m.c ----------

  /** Initialised, and nothing done since: no slave has been addressed and nothing received. */
  predicate Fresh(l: Layout, m: Master) {
    && Shaped(l, m) && m.state == STATE_DISABLED && m.sndState == STATE_M_TX_IDLE && m.dest == 0 && !m.broadcast
    && m.pos == 0 && m.events == {} && m.token == 1 && m.log == []
  }

  function MasterEnable(m: Master): Master {
    var t := if m.state == STATE_DISABLED then RtuStart(m).(state := STATE_ENABLED) else m;
    t.(events := t.events + {EV_MASTER_FRAME_RECEIVED})
  }

  function FramePdu(m: Master): seq<byte>
    requires |m.snd| == MB_PDU_SIZE_MAX && |m.rcv| == MB_SER_PDU_SIZE_MAX
  {
    match m.frame
    case InSend => m.snd[1..]
    case InReceive => m.rcv[1..]
  }

  /** The handler's run for slaves 1 to `j` in turn; the outcome is the last one's. */
  function TakeAll(l: Layout, image: Image, j: byte, i: Input): (t: Taken)
    requires ImageFits(l, image) && 1 <= j <= MB_MASTER_TOTAL_SLAVE_NUM && InputOk(i)
    ensures ImageFits(l, t.image)
    decreases j
  {
    if j == 1 then Take(l, image, 1, i) else Take(l, TakeAll(l, image, j - 1, i).image, j, i)
  }

  predicate Failed(m: Master)
    requires |m.snd| == MB_PDU_SIZE_MAX && |m.rcv| == MB_SER_PDU_SIZE_MAX
  {
    FramePdu(m)[0] >= MB_FUNC_ERROR
  }

  /** The codes of the exception field that are not an error. */
  predicate Faulty(m: Master)
    requires |m.snd| == MB_PDU_SIZE_MAX && |m.rcv| == MB_SER_PDU_SIZE_MAX && Failed(m)
  {
    FramePdu(m)[1] != MB_EX_NONE.Code()
  }

  const xMasterFuncHandlers: seq<byte> := [
    MB_FUNC_READ_HOLDING_REGISTER, MB_FUNC_WRITE_MULTIPLE_REGISTERS, MB_FUNC_WRITE_REGISTER,
    MB_FUNC_READWRITE_MULTIPLE_REGISTERS, MB_FUNC_READ_COILS, MB_FUNC_WRITE_SINGLE_COIL,
    MB_FUNC_WRITE_MULTIPLE_COILS]

  predicate Handled(fc: byte) {
    || fc == MB_FUNC_READ_HOLDING_REGISTER || fc == MB_FUNC_WRITE_MULTIPLE_REGISTERS || fc == MB_FUNC_WRITE_REGISTER
    || fc == MB_FUNC_READWRITE_MULTIPLE_REGISTERS || fc == MB_FUNC_READ_COILS || fc == MB_FUNC_WRITE_SINGLE_COIL
    || fc == MB_FUNC_WRITE_MULTIPLE_COILS
  }

  /**
   * The handler of a frame that was not broadcast works on the addressed slave's row of the image; slave 0 has
   * none.
   */
  predicate Executable(m: Master)
    requires |m.snd| == MB_PDU_SIZE_MAX && |m.rcv| == MB_SER_PDU_SIZE_MAX
  {
    m.broadcast || 1 <= m.dest || Failed(m) || !Handled(FramePdu(m)[0])
  }

  /** The handlers' part in executing a frame: an exception report, no handler, every slave's row, or one. */
  function Handle(l: Layout, m: Master): (t: Master)
    requires Shaped(l, m) && Executable(m)
    ensures Shaped(l, t)
  {
    if Failed(m) || !Handled(FramePdu(m)[0]) then m
    else if m.broadcast then
      m.(length := m.pduLen, dest := MB_MASTER_TOTAL_SLAVE_NUM,
         image := TakeAll(l, m.image, MB_MASTER_TOTAL_SLAVE_NUM, Input(m.snd[1..], FramePdu(m), m.pduLen, true)).image)
    else m.(image := Take(l, m.image, m.dest, Input(m.snd[1..], FramePdu(m), m.length, false)).image)
  }

  lemma HandleKeepsRest(l: Layout, m: Master)
    requires Shaped(l, m) && Executable(m)
    ensures Handle(l, m) == m.(length := Handle(l, m).length, dest := Handle(l, m).dest, image := Handle(l, m).image)
  {
    hide Take, TakeAll;
  }

  predicate HandledWell(l: Layout, m: Master)
    requires Shaped(l, m) && Executable(m)
  {
    if Failed(m) then !Faulty(m)
    else if !Handled(FramePdu(m)[0]) then false
    else if m.broadcast then
      var i := Input(m.snd[1..], FramePdu(m), m.pduLen, true);
      TakeAll(l, m.image, MB_MASTER_TOTAL_SLAVE_NUM, i).exception == MB_EX_NONE
    else Take(l, m.image, m.dest, Input(m.snd[1..], FramePdu(m), m.length, false)).exception == MB_EX_NONE
  }

  /** The handler that executes the frame reads nothing past the end of its buffers. */
  predicate StaysInside(m: Master)
    requires |m.snd| == MB_PDU_SIZE_MAX && |m.rcv| == MB_SER_PDU_SIZE_MAX
  {
    Failed(m) || ReadsInside(Input(m.snd[1..], FramePdu(m), if m.broadcast then m.pduLen else m.length, m.broadcast))
  }

  /** Reports the result and gives the run resource back. */
  function Finish(m: Master, result: Result): Master {
    m.(log := m.log + [Finished(result), Released], token := m.token + 1)
  }

  function Execute(l: Layout, m: Master): (t: Master)
    requires Shaped(l, m) && Executable(m)
    ensures Shaped(l, t)
  {
    var t := Handle(l, m);
    if HandledWell(l, m) then Finish(t, EV_MASTER_PROCESS_SUCESS)
    else t.(error := EV_ERROR_EXECUTE_FUNCTION, events := t.events + {EV_MASTER_ERROR_PROCESS})
  }

  function ReceivedFrame(m: Master): Master
    requires |m.rcv| == MB_SER_PDU_SIZE_MAX && m.pos <= MB_SER_PDU_SIZE_MAX
  {
    var ok := RtuReceiveOk(m);
    var t := if ok then m.(rcvAddress := m.rcv[0], length := m.pos - 3, frame := InReceive) else m;
    if ok && t.rcvAddress == t.dest then t.(events := t.events + {EV_MASTER_EXECUTE})
    else t.(error := EV_ERROR_RECEIVE_DATA, events := t.events + {EV_MASTER_ERROR_PROCESS})
  }

  function ResultOf(e: ErrorType): Result {
    match e
    case EV_ERROR_RESPOND_TIMEOUT => EV_MASTER_ERROR_RESPOND_TIMEOUT
    case EV_ERROR_RECEIVE_DATA => EV_MASTER_ERROR_RECEIVE_DATA
    case EV_ERROR_EXECUTE_FUNCTION => EV_MASTER_ERROR_EXECUTE_FUNCTION
  }

  function Dispatch(l: Layout, m: Master, e: Event): (t: Master)
    requires Shaped(l, m) && (e == EV_MASTER_EXECUTE ==> Executable(m))
  {
    match e
    case EV_MASTER_READY => m.(state := STATE_ESTABLISHED)
    case EV_MASTER_FRAME_RECEIVED => ReceivedFrame(m)
    case EV_MASTER_EXECUTE => Execute(l, m)
    case EV_MASTER_FRAME_SENT => RtuSend(m.(frame := InSend))
    case EV_MASTER_ERROR_PROCESS => Finish(m.(frame := InSend), ResultOf(m.error))
  }

  /** Taking the events clears them all; more than one are taken for a frame received. */
  function Posted(events: set<Event>): Event {
    if events == {EV_MASTER_READY} then EV_MASTER_READY
    else if events == {EV_MASTER_EXECUTE} then EV_MASTER_EXECUTE
    else if events == {EV_MASTER_FRAME_SENT} then EV_MASTER_FRAME_SENT
    else if events == {EV_MASTER_ERROR_PROCESS} then EV_MASTER_ERROR_PROCESS
    else EV_MASTER_FRAME_RECEIVED
  }

  predicate Running(m: Master) {
    m.state == STATE_ENABLED || m.state == STATE_ESTABLISHED
  }

  /** One call of the poll loop with an event pending. */
  function Poll(l: Layout, m: Master): (t: Master)
    requires Shaped(l, m) && m.events != {} && (Posted(m.events) == EV_MASTER_EXECUTE ==> Executable(m))
  {
    if !Running(m) then m else Dispatch(l, m.(events := {}), Posted(m.events))
  }

  lemma PollsError(l: Layout, m: Master)
    requires Shaped(l, m) && Running(m) && m.events == {EV_MASTER_ERROR_PROCESS}
    ensures Poll(l, m) == Finish(m.(events := {}, frame := InSend), ResultOf(m.error))
  {
    hide ImageFits, Finish;
  }

  lemma PollsSend(l: Layout, m: Master)
    requires Shaped(l, m) && Running(m) && m.events == {EV_MASTER_FRAME_SENT}
    ensures Poll(l, m) == RtuSend(m.(events := {}, frame := InSend))
  {
    hide ImageFits, RtuSend;
  }

  lemma PollsFrame(l: Layout, m: Master)
    requires Shaped(l, m) && Running(m) && EV_MASTER_FRAME_RECEIVED in m.events
    ensures Poll(l, m) == ReceivedFrame(m.(events := {}))
  {
    hide ImageFits, ReceivedFrame;
  }

  lemma PollsExecute(l: Layout, m: Master)
    requires Shaped(l, m) && Running(m) && m.events == {EV_MASTER_EXECUTE} && Executable(m)
    ensures Poll(l, m) == Execute(l, m.(events := {}))
  {
    hide ImageFits, Execute;
  }

  // ---------- mbfuncholding_m.c, mbfunccoils_m.c ----------

  /** A request that fits the send buffer with address and check octets; the program does not test this. */
  predicate Sendable(r: Request) {
    WellFormed(r) && |Encode(r)| + 3 <= MB_PDU_SIZE_MAX
  }

  /** What the request functions refuse with `MB_MRE_ILL_ARG`. */
  predicate LegalArguments(dest: byte, r: Request) {
    && dest <= MB_MASTER_TOTAL_SLAVE_NUM
    && (r.WriteCoils? ==> r.count <= 0x7B0)
  }

  /** Which requests fit. */
  lemma SendableIff(r: Request)
    requires WellFormed(r)
    ensures Sendable(r) <==>
            match r
            case WriteRegisters(_, values) => |values| <= 122
            case ReadWriteRegisters(_, _, _, values) => |values| <= 120
            case WriteCoils(_, n, _) => n <= 1952
            case _ => true
  {
    hide RegBytes, Fields;
  }

  /** Of each kind that may not fit, one that the request functions take and the standard allows. */
  lemma LegalButTooLong(dest: byte, a: u16)
    requires dest <= MB_MASTER_TOTAL_SLAVE_NUM
    ensures forall r <- [WriteRegisters(a, seq(123, _ => 0)), ReadWriteRegisters(a, 1, a, seq(121, _ => 0)),
                         WriteCoils(a, 1953, seq(245, _ => 0))] ::
              WellFormed(r) && LegalArguments(dest, r) && StandardCountOk(r) && !Sendable(r)
  {
    hide RegBytes, Fields;
  }

  function Ask(m: Master, dest: byte, r: Request): (t: Master)
    requires |m.snd| == MB_PDU_SIZE_MAX && Sendable(r) && m.token >= 1
  {
    m.(token := m.token - 1, dest := dest, snd := Splice(m.snd, 1, Encode(r)), pduLen := |Encode(r)|,
       events := m.events + {EV_MASTER_FRAME_SENT}, log := m.log + [Accepted])
  }
}
