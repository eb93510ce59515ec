/** What holds in every run of the slave from its start, in whatever order bytes, timer, transmitter and poll come. */
module SlaveRuns {
  import opened Bytes
  import opened Modbus
  import opened MbCrc
  import opened Rtu
  import opened Store
  import opened SlaveFunctions
  import opened SlaveMachine

  datatype Step = ByteIn(b: byte) | TimerOut | TransmitterEmpty | PollCall(other: Event)

  /** The port calls a callback only when its interrupt is enabled, and the poll loop waits for an event. */
  predicate Enabled(s: Slave, step: Step) {
    match step
    case ByteIn(_) => s.rxOn
    case TimerOut => s.timerOn
    case TransmitterEmpty => s.txOn
    case PollCall(_) => s.events != {}
  }

  predicate Inv(l: Layout, s: Slave) {
    && Shaped(l, s)
    && (s.timerOn <==> s.rcv != STATE_RX_IDLE)
    && (s.txOn <==> s.snd == STATE_TX_XMIT)
    && (s.txOn ==> s.rcv == STATE_RX_IDLE)
    && (s.rxOn ==> !s.txOn)
    && (s.rcv == STATE_RX_RCV ==> 1 <= s.pos)
  }

  function Next(l: Layout, s: Slave, step: Step): Slave
    requires Inv(l, s) && Enabled(s, step)
  {
    match step
    case ByteIn(b) => RtuByteReceived(s, b)
    case TimerOut => RtuTimerExpired(s)
    case TransmitterEmpty => RtuTransmitterEmpty(s)
    case PollCall(other) => Poll(l, s, other)
  }

  /** The state the stack is in when it has been enabled, nothing being sent. */
  predicate Started(l: Layout, s: Slave) {
    Shaped(l, s) && s.rcv == STATE_RX_INIT && s.snd == STATE_TX_IDLE
      && s.rxOn && !s.txOn && s.timerOn && s.events == {} && s.enabled
  }

  /** What the poll loop leaves alone: it never turns the receiver on, nor off while a frame is coming in. */
  predicate ReceiverKept(s: Slave, t: Slave) {
    && t.rcv == s.rcv && t.pos == s.pos && t.timerOn == s.timerOn
    && (t.rxOn ==> s.rxOn) && (s.rcv != STATE_RX_IDLE ==> t.rxOn == s.rxOn)
  }

  /** Enabling an idle stack gives such a state. */
  lemma EnablingStarts(l: Layout, s: Slave)
    requires Shaped(l, s) && s.snd == STATE_TX_IDLE && s.events == {}
    ensures Started(l, RtuStart(s).(enabled := true)) && Inv(l, RtuStart(s).(enabled := true))
  {
  }

  lemma SendKeepsInv(l: Layout, s: Slave, address: byte, length: nat)
    requires Inv(l, s) && length + 3 <= MB_SER_PDU_SIZE_MAX
    ensures Inv(l, RtuSend(s, address, length)) && ReceiverKept(s, RtuSend(s, address, length))
  {
    hide Crc16, CheckOctets, Splice, Frame;
  }

  lemma ExecuteKeepsInv(l: Layout, s: Slave)
    requires Inv(l, s)
    ensures Inv(l, Execute(l, s)) && ReceiverKept(s, Execute(l, s))
  {
    hide Serve, RtuSend;
    ServeShape(l, s.data, s.buf[1..], s.length);
    var served := Serve(l, s.data, s.buf[1..], s.length);
    if s.rcvAddress != MB_ADDRESS_BROADCAST {
      var error := served.frame[0 := ErrorFunction(s.buf[1])][1 := served.exception.Code()];
      SendKeepsInv(l, s.(data := served.data, buf := [s.buf[0]] + error, length := 2), s.address, 2);
      SendKeepsInv(l, s.(data := served.data, buf := [s.buf[0]] + served.frame, length := served.len), s.address,
        served.len);
    }
  }

  lemma PollKeepsInv(l: Layout, s: Slave, other: Event)
    requires Inv(l, s) && s.events != {}
    ensures Inv(l, Poll(l, s, other)) && ReceiverKept(s, Poll(l, s, other))
  {
    hide Execute, Acceptable, Taken;
    ExecuteKeepsInv(l, s.(events := {}));
  }

  lemma StepKeepsInv(l: Layout, s: Slave, step: Step)
    requires Inv(l, s) && Enabled(s, step)
    ensures Inv(l, Next(l, s, step))
  {
    hide Poll;
    match step
    case PollCall(other) => PollKeepsInv(l, s, other);
    case _ =>
  }

  /** The assertions at the head of the callbacks, and the one of `eMBRTUReceive`. */
  predicate AssertionsHold(s: Slave, step: Step) {
    match step
    case ByteIn(_) => s.snd == STATE_TX_IDLE
    case TransmitterEmpty => s.rcv == STATE_RX_IDLE
    case TimerOut => s.rcv == STATE_RX_INIT || s.rcv == STATE_RX_RCV || s.rcv == STATE_RX_ERROR
    case PollCall(_) => s.pos <= MB_SER_PDU_SIZE_MAX
  }

  // ---------- Runs ----------

  ghost predicate IsRun(l: Layout, start: Slave, run: seq<Step>)
    requires Started(l, start)
    decreases |run|, 0
  {
    run == [] ||
    (IsRun(l, start, run[..|run| - 1]) && Enabled(After(l, start, run[..|run| - 1]), run[|run| - 1]))
  }

  /** The state a run leads to. */
  ghost function After(l: Layout, start: Slave, run: seq<Step>): (s: Slave)
    requires Started(l, start) && IsRun(l, start, run)
    ensures Inv(l, s)
    decreases |run|, 1
  {
    if run == [] then start
    else
      var s := After(l, start, run[..|run| - 1]);
      StepKeepsInv(l, s, run[|run| - 1]);
      Next(l, s, run[|run| - 1])
  }

  /** In no run does a callback meet a state its assertion excludes; the timer runs exactly while receiving. */
  lemma NoAssertionFails(l: Layout, start: Slave, run: seq<Step>, step: Step)
    requires Started(l, start) && IsRun(l, start, run) && Enabled(After(l, start, run), step)
    ensures AssertionsHold(After(l, start, run), step)
    ensures After(l, start, run).timerOn <==> After(l, start, run).rcv != STATE_RX_IDLE
  {
  }

  /** The bytes that have come since the timer last expired. */
  ghost function Burst(run: seq<Step>): seq<byte> {
    if run == [] then []
    else match run[|run| - 1]
      case ByteIn(b) => Burst(run[..|run| - 1]) + [b]
      case TimerOut => []
      case _ => Burst(run[..|run| - 1])
  }

  /** The bus has not yet been silent since the start. */
  ghost predicate StartingUp(run: seq<Step>) {
    run == [] || (run[|run| - 1] != TimerOut && StartingUp(run[..|run| - 1]))
  }

  /** No request was executed while the burst was coming in: execution writes the reply over the receive buffer. */
  ghost predicate Undisturbed(l: Layout, start: Slave, run: seq<Step>)
    requires Started(l, start) && IsRun(l, start, run)
  {
    run == [] ||
    (var front := run[..|run| - 1];
     match run[|run| - 1]
     case TimerOut => true
     case PollCall(other) =>
       && Undisturbed(l, start, front)
       && (Burst(front) != [] ==> Taken(After(l, start, front).events, other) != EV_EXECUTE)
     case _ => Undisturbed(l, start, front))
  }

  ghost predicate BurstInv(s: Slave, burst: seq<byte>, startingUp: bool, undisturbed: bool) {
    if startingUp then s.rcv == STATE_RX_INIT
    else if burst == [] then s.rcv == STATE_RX_IDLE
    else if |burst| <= MB_SER_PDU_SIZE_MAX then
      s.rcv == STATE_RX_RCV && s.pos == |burst| && (undisturbed ==> s.pos <= |s.buf| && s.buf[..s.pos] == burst)
    else s.rcv == STATE_RX_ERROR
  }

  lemma PollKeepsBurst(l: Layout, s: Slave, other: Event)
    requires Inv(l, s) && s.events != {} && Taken(s.events, other) != EV_EXECUTE
    ensures Poll(l, s, other).buf == s.buf
  {
    hide Crc16;
  }

  /** The receiver's state tells the burst. */
  lemma {:induction false} ReceiverFollowsBurst(l: Layout, start: Slave, run: seq<Step>)
    requires Started(l, start) && IsRun(l, start, run)
    ensures BurstInv(After(l, start, run), Burst(run), StartingUp(run), Undisturbed(l, start, run))
    decreases |run|
  {
    hide Poll;
    if run != [] {
      var front, step := run[..|run| - 1], run[|run| - 1];
      ReceiverFollowsBurst(l, start, front);
      var s := After(l, start, front);
      match step
      case PollCall(other) =>
        PollKeepsInv(l, s, other);
        if Taken(s.events, other) != EV_EXECUTE {
          PollKeepsBurst(l, s, other);
        }
      case _ =>
    }
  }

  /**
   * When the timer expires a frame is reported if and only if the bus had been silent before and the burst is
   * of 1 to 256 bytes; an undisturbed burst is then exactly what the buffer holds.
   */
  lemma FramesAreBursts(l: Layout, start: Slave, run: seq<Step>)
    requires Started(l, start) && IsRun(l, start, run) && After(l, start, run).timerOn
    ensures var s, t := After(l, start, run), RtuTimerExpired(After(l, start, run).(events := {}));
            && (EV_FRAME_RECEIVED in t.events <==> !StartingUp(run) && |Burst(run)| <= 256)
            && (EV_FRAME_RECEIVED in t.events ==> 1 <= |Burst(run)| == t.pos)
            && (EV_FRAME_RECEIVED in t.events && Undisturbed(l, start, run) ==> t.buf[..t.pos] == Burst(run))
  {
    ReceiverFollowsBurst(l, start, run);
  }

  // ---------- Bytes between accepting a request and executing it ----------

  /** The bytes of `f` have come, one after the other. */
  function Hear(l: Layout, s: Slave, f: seq<byte>): (t: Slave)
    requires Shaped(l, s)
    ensures Shaped(l, t)
    decreases |f|
  {
    if f == [] then s else RtuByteReceived(Hear(l, s, f[..|f| - 1]), f[|f| - 1])
  }

  /** A burst stands at the beginning of the buffer, over what stood there before. */
  lemma {:induction false} HearHolds(l: Layout, s: Slave, f: seq<byte>)
    requires Shaped(l, s) && s.rcv == STATE_RX_IDLE && 1 <= |f| <= MB_SER_PDU_SIZE_MAX
    ensures var t := Hear(l, s, f);
            t == s.(rcv := STATE_RX_RCV, timerOn := true, pos := |f|, buf := f + s.buf[|f|..])
    decreases |f|
  {
    hide Fits;
    var front := f[..|f| - 1];
    if front == [] {
      assert Hear(l, s, front) == s;
      assert s.buf[0 := f[0]] == f + s.buf[1..];
    } else {
      HearHolds(l, s, front);
      assert (front + s.buf[|front|..])[|front| := f[|f| - 1]] == f + s.buf[|f|..];
    }
  }

  /**
   * What is executed: while a request that has been accepted waits for it, bytes that come go over its frame. The
   * frame in the buffer is still the accepted one if and only if none came, or those that came are its own first.
   */
  lemma ExecutedIsAcceptedIff(l: Layout, s: Slave, accepted: seq<byte>, f: seq<byte>)
    requires Shaped(l, s) && s.rcv == STATE_RX_IDLE && |f| <= MB_SER_PDU_SIZE_MAX
    requires |accepted| <= MB_SER_PDU_SIZE_MAX && s.buf[..|accepted|] == accepted
    ensures var t := Hear(l, s, f);
            t.events == s.events && t.length == s.length && t.rcvAddress == s.rcvAddress
    ensures Hear(l, s, f).buf[..|accepted|] == accepted <==> f <= accepted || accepted <= f
  {
    hide Fits;
    if f != [] {
      HearHolds(l, s, f);
      var buf := f + s.buf[|f|..];
      if |f| <= |accepted| {
        assert buf[..|accepted|] == f + s.buf[..|accepted|][|f|..];
        assert accepted == accepted[..|f|] + accepted[|f|..];
      } else {
        assert buf[..|accepted|] == f[..|accepted|];
      }
    }
  }

  function ByteSteps(f: seq<byte>): (r: seq<Step>)
    ensures |r| == |f|
  {
    seq(|f|, k requires 0 <= k < |f| => ByteIn(f[k]))
  }

  lemma RunOn(l: Layout, start: Slave, run: seq<Step>, step: Step)
    requires Started(l, start) && IsRun(l, start, run) && Enabled(After(l, start, run), step)
    ensures IsRun(l, start, run + [step])
    ensures After(l, start, run + [step]) == Next(l, After(l, start, run), step)
    ensures Burst(run + [step]) ==
            if step.ByteIn? then Burst(run) + [step.b] else if step.TimerOut? then [] else Burst(run)
  {
    hide Poll, Started;
    assert (run + [step])[..|run|] == run;
  }

  lemma {:induction false} RunHears(l: Layout, start: Slave, run: seq<Step>, f: seq<byte>)
    requires Started(l, start) && IsRun(l, start, run) && After(l, start, run).rxOn
    ensures IsRun(l, start, run + ByteSteps(f))
    ensures After(l, start, run + ByteSteps(f)) == Hear(l, After(l, start, run), f)
    ensures Burst(run + ByteSteps(f)) == Burst(run) + f
    ensures After(l, start, run + ByteSteps(f)).rxOn
    decreases |f|
  {
    hide Started, IsRun, After, Burst;
    if f == [] {
      assert run + ByteSteps(f) == run && Burst(run) + f == Burst(run);
    } else {
      var front, b := f[..|f| - 1], f[|f| - 1];
      RunHears(l, start, run, front);
      assert run + ByteSteps(f) == (run + ByteSteps(front)) + [ByteIn(b)];
      RunOn(l, start, run + ByteSteps(front), ByteIn(b));
      assert (Burst(run) + front) + [b] == Burst(run) + f;
    }
  }

  /** A run in which a request has just been accepted. */
  lemma AcceptedRun(l: Layout, start: Slave, pdu: seq<byte>) returns (run: seq<Step>)
    requires Started(l, start) && start.address != MB_ADDRESS_BROADCAST && 1 <= |pdu| <= MB_PDU_SIZE_MAX
    ensures IsRun(l, start, run) && Burst(run) == []
    ensures var s := After(l, start, run);
            && s.events == {EV_EXECUTE} && s.rcv == STATE_RX_IDLE && s.rxOn && s.enabled
            && s.rcvAddress == start.address && s.length == |pdu|
  {
    hide Fits, Frame, Acceptable, Execute, IsRun, After, Burst;
    var f := Frame(start.address, pdu);
    StartRun(l, start);
    RunOn(l, start, [], TimerOut);
    assert [] + [TimerOut] == [TimerOut];
    RunOn(l, start, [TimerOut], PollCall(EV_READY));
    var silent := [TimerOut] + [PollCall(EV_READY)];
    RunHears(l, start, silent, f);
    var s := After(l, start, silent);
    HearHolds(l, s, f);
    var heard := silent + ByteSteps(f);
    RunOn(l, start, heard, TimerOut);
    var t := After(l, start, heard + [TimerOut]);
    assert t.buf[..t.pos] == f;
    FrameAccepted(start.address, pdu);
    RunOn(l, start, heard + [TimerOut], PollCall(EV_READY));
    run := heard + [TimerOut] + [PollCall(EV_READY)];
    assert t.buf[0] == f[0];
  }

  lemma StartRun(l: Layout, start: Slave)
    requires Started(l, start)
    ensures IsRun(l, start, []) && After(l, start, []) == start && Burst([]) == []
  {
  }

  /**
   * A burst disturbed so that the frame reported is not what was heard: a request was accepted and two bytes came
   * before it was executed, the second of them no function's code. The exception reply goes over them.
   */
  lemma DisturbedExample(l: Layout, start: Slave, pdu: seq<byte>, b: byte) returns (run: seq<Step>)
    requires Started(l, start) && start.address != MB_ADDRESS_BROADCAST && 1 <= |pdu| <= MB_PDU_SIZE_MAX
    ensures IsRun(l, start, run) && Burst(run) == [b, 0x55] && After(l, start, run).timerOn
    ensures var t := RtuTimerExpired(After(l, start, run));
            EV_FRAME_RECEIVED in t.events && t.buf[..t.pos] == [b, 0xD5] != Burst(run)
  {
    hide Fits, IsRun, After, Burst;
    var accepted := AcceptedRun(l, start, pdu);
    var s := After(l, start, accepted);
    RunHears(l, start, accepted, [b, 0x55]);
    HearHolds(l, s, [b, 0x55]);
    var heard := accepted + ByteSteps([b, 0x55]);
    RunOn(l, start, heard, PollCall(EV_READY));
    run := heard + [PollCall(EV_READY)];
    UnknownFunction(l, After(l, start, heard).(events := {}));
    assert [] + [b, 0x55] == [b, 0x55];
  }

  lemma UnknownFunction(l: Layout, s: Slave)
    requires Shaped(l, s) && s.rcv == STATE_RX_RCV && s.rcvAddress != MB_ADDRESS_BROADCAST && s.buf[1] == 0x55
    requires s.pos == 2
    ensures var t := Execute(l, s);
            t.rcv == s.rcv && t.pos == s.pos && t.timerOn == s.timerOn && t.events == s.events
            && t.buf[..2] == [s.buf[0], 0xD5]
  {
    hide Fits, ServeReadRegisters, ServeWriteRegister, ServeWriteRegisters, ServeReadWriteRegisters, ServeReadCoils,
      ServeWriteCoil, ServeWriteCoils;
  }
}
