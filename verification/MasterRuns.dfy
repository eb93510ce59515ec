/**
 * What holds in every run of the master on a quiet bus: nothing is heard but the answer to the outstanding
 * request, any octets at all, in one piece.
 */
module MasterRuns {
  import opened Bytes
  import opened Modbus
  import opened MbCrc
  import opened Rtu
  import opened Store
  import opened Requests
  import opened Image
  import opened MasterFunctions
  import opened MasterMachine

  /** The master, what it has heard of the answer to its request, and what is still to come. */
  datatype Bus = Bus(m: Master, heard: seq<byte>, answer: seq<byte>)

  datatype Step =
    | Request(dest: byte, r: Requests.Request, answer: seq<byte>)
    | PollCall | TransmitterEmpty | ByteIn | TimerOut

  predicate Listening(m: Master) {
    (m.sndState == STATE_M_TX_XFWR && !m.broadcast) || m.rcvState == STATE_M_RX_RCV || m.rcvState == STATE_M_RX_ERROR
  }

  /**
   * The port calls a callback only when its interrupt is enabled, the poll loop waits for an event, a request
   * waits for the run resource.
   */
  predicate Enabled(b: Bus, step: Step) {
    match step
    case Request(dest, r, _) => b.m.token >= 1 && Sendable(r) && LegalArguments(dest, r)
    case PollCall => b.m.events != {}
    case TransmitterEmpty => b.m.txOn
    case ByteIn => b.m.rxOn && b.answer != [] && Listening(b.m)
    case TimerOut => b.m.timerOn
  }

  /** With the receiver's silence, or the timeout, the answer is over. */
  function Next(l: Layout, b: Bus, step: Step): Bus
    requires Inv(l, b) && Enabled(b, step)
  {
    match step
    case Request(dest, r, answer) => Bus(Ask(b.m, dest, r), [], answer)
    case PollCall => b.(m := Poll(l, b.m))
    case TransmitterEmpty => b.(m := RtuTransmitterEmpty(b.m))
    case ByteIn => Bus(RtuByteReceived(b.m, b.answer[0]), b.heard + [b.answer[0]], b.answer[1..])
    case TimerOut => Bus(RtuTimerExpired(b.m), b.heard, [])
  }

  // ---------- The invariant ----------

  datatype Phase = Idle | Asked | Sending | Waiting | Receiving | Decided

  function PhaseOf(m: Master): Phase {
    if m.token != 0 then Idle
    else if m.events == {EV_MASTER_FRAME_SENT} then Asked
    else if m.sndState == STATE_M_TX_XMIT then Sending
    else if m.sndState == STATE_M_TX_XFWR then Waiting
    else if m.rcvState != STATE_M_RX_IDLE then Receiving
    else Decided
  }

  predicate Quiet(m: Master) {
    m.rcvState == STATE_M_RX_IDLE && m.sndState == STATE_M_TX_IDLE && m.rxOn && !m.txOn && !m.timerOn
  }

  predicate PhaseHolds(m: Master)
    requires |m.snd| == MB_PDU_SIZE_MAX
  {
    match PhaseOf(m)
    case Idle => m.token == 1 && Quiet(m) && m.events == {}
    case Asked => Quiet(m)
    case Sending =>
      && m.rcvState == STATE_M_RX_IDLE && !m.rxOn && m.txOn && !m.timerOn && m.events == {}
      && m.next + m.left == m.pduLen + 3 && m.snd[0] == m.dest && m.frame == InSend
    case Waiting =>
      && m.rcvState == STATE_M_RX_IDLE && m.rxOn && !m.txOn && m.timerOn && m.events == {}
      && m.mode == (if m.broadcast then MB_TMODE_CONVERT_DELAY else MB_TMODE_RESPOND_TIMEOUT)
      && (m.broadcast <==> m.dest == MB_ADDRESS_BROADCAST) && m.frame == InSend
    case Receiving =>
      && (m.rcvState == STATE_M_RX_RCV || m.rcvState == STATE_M_RX_ERROR) && m.sndState == STATE_M_TX_IDLE
      && m.rxOn && !m.txOn && m.timerOn && m.events == {} && m.mode == MB_TMODE_T35
      && !m.broadcast && m.dest != MB_ADDRESS_BROADCAST
    case Decided =>
      && Quiet(m)
      && (|| (m.events == {EV_MASTER_FRAME_RECEIVED} && !m.broadcast && m.dest != MB_ADDRESS_BROADCAST)
          || (m.events == {EV_MASTER_EXECUTE}
            && (if m.broadcast then m.frame == InSend else m.frame == InReceive && m.dest != MB_ADDRESS_BROADCAST))
          || m.events == {EV_MASTER_ERROR_PROCESS})
  }

  /** A request taken on, its result and the release come in turn; `open` if the last has only been taken on. */
  predicate Orderly(log: seq<Note>, open: bool) {
    && |log| % 3 == (if open then 1 else 0)
    && forall k :: 0 <= k < |log| ==>
         match k % 3 case 0 => log[k].Accepted? case 1 => log[k].Finished? case _ => log[k].Released?
  }

  /** What of the answer has been heard is what the receiver holds. */
  predicate HeardHolds(b: Bus)
    requires |b.m.rcv| == MB_SER_PDU_SIZE_MAX
  {
    match PhaseOf(b.m)
    case Waiting => b.heard == []
    case Asked => b.heard == []
    case Sending => b.heard == []
    case Receiving => b.m.rcvState == STATE_M_RX_RCV ==> b.m.pos <= MB_SER_PDU_SIZE_MAX && b.heard == b.m.rcv[..b.m.pos]
    case _ =>
      b.m.events == {EV_MASTER_FRAME_RECEIVED} ==> b.m.pos <= MB_SER_PDU_SIZE_MAX && b.heard == b.m.rcv[..b.m.pos]
  }

  predicate Inv(l: Layout, b: Bus) {
    && Shaped(l, b.m) && b.m.state == STATE_ESTABLISHED
    && PhaseHolds(b.m) && HeardHolds(b)
    && Orderly(b.m.log, b.m.token == 0)
  }

  /** Established, with nothing pending, no request made yet. */
  predicate Started(l: Layout, b: Bus) {
    && Shaped(l, b.m) && b.m.state == STATE_ESTABLISHED && b.m.token == 1
    && Quiet(b.m) && b.m.events == {} && b.m.log == []
  }

  lemma AskKeepsInv(l: Layout, b: Bus, dest: byte, r: Requests.Request, answer: seq<byte>)
    requires Inv(l, b) && Enabled(b, Request(dest, r, answer))
    ensures Inv(l, Next(l, b, Request(dest, r, answer)))
  {
    hide Encode, ImageFits;
  }

  lemma SentKeepsInv(l: Layout, b: Bus)
    requires Inv(l, b) && b.m.events == {EV_MASTER_FRAME_SENT}
    ensures Inv(l, Next(l, b, PollCall)) && PhaseOf(Next(l, b, PollCall).m) == Sending
    ensures Next(l, b, PollCall).m.left == b.m.pduLen + 3
  {
    hide CheckOctets, Crc16, Frame, ImageFits, Orderly;
  }

  lemma FinishKeepsInv(l: Layout, b: Bus, t: Master, result: Result)
    requires Inv(l, b) && b.m.token == 0 && Shaped(l, t) && Quiet(t) && t.events == {} && t.state == STATE_ESTABLISHED
    requires t.token == 0 && t.log == b.m.log
    ensures Inv(l, b.(m := Finish(t, result))) && PhaseOf(Finish(t, result)) == Idle
  {
    hide ImageFits;
  }

  lemma PollKeepsInv(l: Layout, b: Bus)
    requires Inv(l, b) && b.m.events != {}
    ensures Inv(l, Next(l, b, PollCall))
  {
    hide Handle, HandledWell, Acceptable, ImageFits, Orderly, RtuSend;
    var m := b.m.(events := {});
    if b.m.events == {EV_MASTER_FRAME_SENT} {
      SentKeepsInv(l, b);
    } else if b.m.events == {EV_MASTER_EXECUTE} {
      HandleKeepsRest(l, m);
      FinishKeepsInv(l, b, Handle(l, m), EV_MASTER_PROCESS_SUCESS);
    } else if b.m.events == {EV_MASTER_ERROR_PROCESS} {
      FinishKeepsInv(l, b, m.(frame := InSend), ResultOf(m.error));
    }
  }

  lemma StepKeepsInv(l: Layout, b: Bus, step: Step)
    requires Inv(l, b) && Enabled(b, step)
    ensures Inv(l, Next(l, b, step))
  {
    hide Poll, Ask, ImageFits, Orderly;
    match step
    case Request(dest, r, answer) => AskKeepsInv(l, b, dest, r, answer);
    case PollCall => PollKeepsInv(l, b);
    case _ =>
  }

  // ---------- Runs ----------

  ghost predicate IsRun(l: Layout, b: Bus, run: seq<Step>)
    requires Inv(l, b)
    decreases |run|
  {
    run == [] ||
    (Enabled(b, run[0]) && (StepKeepsInv(l, b, run[0]); IsRun(l, Next(l, b, run[0]), run[1..])))
  }

  /** The state a run leads to. */
  ghost function After(l: Layout, b: Bus, run: seq<Step>): (r: Bus)
    requires Inv(l, b) && IsRun(l, b, run)
    decreases |run|
  {
    if run == [] then b else (StepKeepsInv(l, b, run[0]); After(l, Next(l, b, run[0]), run[1..]))
  }

  lemma {:induction false} RunKeepsInv(l: Layout, b: Bus, run: seq<Step>)
    requires Inv(l, b) && IsRun(l, b, run)
    ensures Inv(l, After(l, b, run))
    decreases |run|
  {
    hide Inv, Next, Enabled;
    if run != [] {
      StepKeepsInv(l, b, run[0]);
      RunKeepsInv(l, Next(l, b, run[0]), run[1..]);
    }
  }

  /** How many requests a run has made. */
  function Requested(run: seq<Step>): nat {
    if run == [] then 0 else (if run[0].Request? then 1 else 0) + Requested(run[1..])
  }

  /** How many of the notes are of one kind, told by their place. */
  function Taken(log: seq<Note>): nat { (|log| + 2) / 3 }

  function Results(log: seq<Note>): nat { (|log| + 1) / 3 }

  function Releases(log: seq<Note>): nat { |log| / 3 }

  lemma PollNotes(l: Layout, b: Bus)
    requires Inv(l, b) && b.m.events != {}
    ensures Taken(Poll(l, b.m).log) == Taken(b.m.log)
  {
    hide Acceptable, ImageFits, RtuSend, Handle, HandledWell, Poll;
    var m := b.m.(events := {});
    if b.m.events == {EV_MASTER_FRAME_RECEIVED} {
      PollsFrame(l, b.m);
    } else if b.m.events == {EV_MASTER_EXECUTE} {
      PollsExecute(l, b.m);
      HandleKeepsRest(l, m);
    } else if b.m.events == {EV_MASTER_ERROR_PROCESS} {
      PollsError(l, b.m);
    } else {
      PollsSend(l, b.m);
      SendKeepsLog(m.(frame := InSend));
    }
  }

  lemma StepNotes(l: Layout, b: Bus, step: Step)
    requires Inv(l, b) && Enabled(b, step)
    ensures Taken(Next(l, b, step).m.log) == Taken(b.m.log) + if step.Request? then 1 else 0
  {
    hide ImageFits, Poll, Encode;
    if step.PollCall? {
      PollNotes(l, b);
    }
  }

  lemma SendKeepsLog(m: Master)
    requires |m.snd| == MB_PDU_SIZE_MAX && m.pduLen + 3 <= MB_PDU_SIZE_MAX
    ensures RtuSend(m).log == m.log
  {
    hide Crc16, CheckOctets, Splice;
  }

  lemma {:induction false} RunNotes(l: Layout, b: Bus, run: seq<Step>)
    requires Inv(l, b) && IsRun(l, b, run)
    ensures Taken(After(l, b, run).m.log) == Taken(b.m.log) + Requested(run)
    decreases |run|
  {
    hide Inv, Next, Enabled;
    if run != [] {
      StepKeepsInv(l, b, run[0]);
      StepNotes(l, b, run[0]);
      RunNotes(l, Next(l, b, run[0]), run[1..]);
    }
  }

  /**
   * The run resource in every run: its count and the requests outstanding are one; every request taken on gets
   * one result and then one release before the next is taken on, whether it ends by a reply, an exception, a bad
   * frame, silence or a broadcast's delay.
   */
  lemma RunResourceConserved(l: Layout, b: Bus, run: seq<Step>)
    requires Started(l, b) && Inv(l, b) && IsRun(l, b, run)
    ensures var m := After(l, b, run).m;
            && Orderly(m.log, m.token == 0)
            && m.token + (Requested(run) - Releases(m.log)) == 1
            && (m.token == 1 ==> Requested(run) == Results(m.log) == Releases(m.log))
            && (m.token == 0 ==> Requested(run) == Results(m.log) + 1 == Releases(m.log) + 1)
  {
    hide IsRun, After;
    RunKeepsInv(l, b, run);
    RunNotes(l, b, run);
  }

  // ---------- The timer ----------

  /** What the timer, when it is armed, is armed for. */
  function TimerEvent(m: Master): Event {
    if m.rcvState == STATE_M_RX_INIT then EV_MASTER_READY
    else if m.rcvState == STATE_M_RX_RCV then EV_MASTER_FRAME_RECEIVED
    else if m.rcvState == STATE_M_RX_ERROR then EV_MASTER_ERROR_PROCESS
    else if m.broadcast then EV_MASTER_EXECUTE
    else EV_MASTER_ERROR_PROCESS
  }

  /**
   * In every run an armed timer's expiry posts one event and no other is pending; sending or awaiting a reply
   * the receiver is idle; a convert delay follows a broadcast just sent.
   */
  lemma TimerDiscipline(l: Layout, b: Bus, run: seq<Step>)
    requires Started(l, b) && Inv(l, b) && IsRun(l, b, run)
    ensures var m := After(l, b, run).m;
            && (m.timerOn ==> RtuTimerExpired(m).events == {TimerEvent(m)})
            && (m.sndState != STATE_M_TX_IDLE ==> m.rcvState == STATE_M_RX_IDLE)
            && (m.timerOn && m.mode == MB_TMODE_CONVERT_DELAY ==>
                  m.sndState == STATE_M_TX_XFWR && m.broadcast && m.dest == 0)
            && (m.timerOn ==> m.token == 0)
  {
    hide IsRun, After, Orderly, ImageFits;
    RunKeepsInv(l, b, run);
  }

  /**
   * The assertions at the head of the callbacks hold in every run; the one of `eMBMasterRTUReceive`, that the
   * frame is shorter than the buffer, holds unless exactly 256 octets were heard.
   */
  predicate AssertionsHold(b: Bus, step: Step) {
    match step
    case ByteIn => b.m.sndState == STATE_M_TX_IDLE || b.m.sndState == STATE_M_TX_XFWR
    case TransmitterEmpty => b.m.rcvState == STATE_M_RX_IDLE
    case TimerOut => b.m.sndState == STATE_M_TX_XFWR || b.m.sndState == STATE_M_TX_IDLE
    case PollCall =>
      Posted(b.m.events) == EV_MASTER_FRAME_RECEIVED ==> (b.m.pos < MB_SER_PDU_SIZE_MAX <==> |b.heard| != 256)
    case Request(_, _, _) => true
  }

  lemma NoAssertionFails(l: Layout, b: Bus, run: seq<Step>, step: Step)
    requires Started(l, b) && Inv(l, b) && IsRun(l, b, run) && Enabled(After(l, b, run), step)
    ensures AssertionsHold(After(l, b, run), step)
  {
    hide IsRun, After, Orderly, ImageFits;
    RunKeepsInv(l, b, run);
  }

  /** A request is on its way to a slave that answers, and no more of the answer than the receiver has room for. */
  predicate Delivering(l: Layout, b: Bus) {
    && Inv(l, b) && b.m.token == 0 && b.m.dest != MB_ADDRESS_BROADCAST
    && b.heard + b.answer != [] && |b.heard + b.answer| <= MB_SER_PDU_SIZE_MAX
    && match PhaseOf(b.m)
       case Asked => true
       case Sending => true
       case Waiting => true
       case Receiving => b.m.rcvState == STATE_M_RX_RCV
       case _ => b.m.events == {EV_MASTER_FRAME_RECEIVED} && b.answer == []
  }

  lemma DeliverFurther(l: Layout, b: Bus) returns (step: Step)
    requires Delivering(l, b) && b.m.events != {EV_MASTER_FRAME_RECEIVED}
    ensures !step.Request? && Enabled(b, step) && Delivering(l, Next(l, b, step))
    ensures Next(l, b, step).heard + Next(l, b, step).answer == b.heard + b.answer
  {
    hide Acceptable, ImageFits, Poll, Orderly;
    step := match PhaseOf(b.m)
      case Asked => PollCall
      case Sending => TransmitterEmpty
      case _ => if b.answer != [] then ByteIn else TimerOut;
    StepKeepsInv(l, b, step);
    match step
    case PollCall => SentKeepsRest(l, b);
    case ByteIn => assert b.heard + b.answer == (b.heard + [b.answer[0]]) + b.answer[1..];
    case TimerOut => assert b.heard + b.answer == b.heard + [];
    case _ =>
  }

  lemma SentKeepsRest(l: Layout, b: Bus)
    requires Inv(l, b) && b.m.events == {EV_MASTER_FRAME_SENT}
    ensures var c := Next(l, b, PollCall);
            && PhaseOf(c.m) == Sending && c.m.dest == b.m.dest && c.m.token == b.m.token
            && c.heard == b.heard && c.answer == b.answer
  {
    hide CheckOctets, Crc16, Frame, ImageFits, Orderly, Splice;
    SentKeepsInv(l, b);
  }

  /** A whole answer can be heard. */
  lemma {:induction false} Deliver(l: Layout, b: Bus) returns (run: seq<Step>)
    requires Delivering(l, b)
    ensures IsRun(l, b, run) && Requested(run) == 0
    ensures var c := After(l, b, run);
            Delivering(l, c) && c.m.events == {EV_MASTER_FRAME_RECEIVED} && c.heard == b.heard + b.answer
    decreases Budget(b)
  {
    hide Inv, Next, Enabled, Budget, PhaseOf;
    if b.m.events == {EV_MASTER_FRAME_RECEIVED} {
      run := [];
      DeliveredWhole(l, b);
    } else {
      var step := DeliverFurther(l, b);
      StepKeepsInv(l, b, step);
      StepSpends(l, b, step);
      var rest := Deliver(l, Next(l, b, step));
      run := [step] + rest;
      assert run[1..] == rest;
    }
  }

  lemma DeliveredWhole(l: Layout, b: Bus)
    requires Delivering(l, b) && b.m.events == {EV_MASTER_FRAME_RECEIVED}
    ensures b.heard == b.heard + b.answer
  {
    hide Acceptable, ImageFits, Orderly;
  }

  /** And so the receive function's assertion can fail: it does after any request answered by any 256 octets. */
  lemma ReceiveAssertionCanFail(l: Layout, b: Bus, dest: byte, r: Requests.Request, answer: seq<byte>)
    returns (run: seq<Step>)
    requires Started(l, b) && Inv(l, b) && Enabled(b, Request(dest, r, answer))
    requires dest != MB_ADDRESS_BROADCAST && |answer| == 256
    ensures IsRun(l, b, run)
    ensures var m := After(l, b, run).m; Posted(m.events) == EV_MASTER_FRAME_RECEIVED && !(m.pos < MB_SER_PDU_SIZE_MAX)
  {
    hide Encode, ImageFits, Orderly, IsRun, After;
    var step := Request(dest, r, answer);
    StepKeepsInv(l, b, step);
    assert [] + answer == answer;
    var rest := Deliver(l, Next(l, b, step));
    run := [step] + rest;
    RunAfterStep(l, b, step, rest);
  }

  lemma RunAfterStep(l: Layout, b: Bus, step: Step, rest: seq<Step>)
    requires Inv(l, b) && Enabled(b, step) && Inv(l, Next(l, b, step)) && IsRun(l, Next(l, b, step), rest)
    ensures IsRun(l, b, [step] + rest) && After(l, b, [step] + rest) == After(l, Next(l, b, step), rest)
  {
    hide Inv, Next, Enabled;
    assert ([step] + rest)[1..] == rest;
  }

  // ---------- Progress ----------

  /** The steps that can still come before the outstanding request is finished. */
  function Budget(b: Bus): nat {
    match PhaseOf(b.m)
    case Idle => 0
    case Asked => b.m.pduLen + |b.answer| + 9
    case Sending => b.m.left + |b.answer| + 5
    case Waiting => |b.answer| + 4
    case Receiving => |b.answer| + 4
    case Decided =>
      if b.m.events == {EV_MASTER_FRAME_RECEIVED} then 3
      else if b.m.events == {EV_MASTER_EXECUTE} then 2
      else 1
  }

  /** Each step that is not a request uses up some of it. */
  lemma StepSpends(l: Layout, b: Bus, step: Step)
    requires Inv(l, b) && Enabled(b, step) && !step.Request?
    ensures Budget(Next(l, b, step)) < Budget(b)
  {
    hide Acceptable, ImageFits, RtuSend, Handle, HandledWell, Orderly;
    if step.PollCall? && b.m.events == {EV_MASTER_FRAME_SENT} {
      SentKeepsInv(l, b);
      AnswerKept(l, b);
    }
    if step.PollCall? && b.m.events == {EV_MASTER_EXECUTE} {
      HandleKeepsRest(l, b.m.(events := {}));
    }
  }

  lemma AnswerKept(l: Layout, b: Bus)
    requires Inv(l, b) && b.m.events != {}
    ensures Next(l, b, PollCall).answer == b.answer
  {
  }

  /** While a request is outstanding some callback or the poll loop can run. */
  lemma NoDeadlock(l: Layout, b: Bus)
    requires Inv(l, b) && b.m.token == 0
    ensures exists step: Step :: !step.Request? && Enabled(b, step)
  {
    hide Orderly, ImageFits;
    assert b.m.txOn ==> Enabled(b, TransmitterEmpty);
    assert b.m.timerOn ==> Enabled(b, TimerOut);
    assert b.m.events != {} ==> Enabled(b, PollCall);
  }

  /**
   * A request ends: however its octets, the answer's, timer and polls come, there are no more of them than the
   * budget says, and when no more can come the request has been finished and the resource released.
   */
  lemma {:induction false} RequestEnds(l: Layout, b: Bus, run: seq<Step>)
    requires Inv(l, b) && IsRun(l, b, run) && Requested(run) == 0
    ensures |run| + Budget(After(l, b, run)) <= Budget(b)
    ensures (forall step: Step :: Enabled(After(l, b, run), step) ==> step.Request?) ==> After(l, b, run).m.token == 1
    decreases |run|
  {
    hide Inv, Next, Enabled, Budget;
    var t := After(l, b, run);
    RunKeepsInv(l, b, run);
    if t.m.token == 0 {
      NoDeadlock(l, t);
    } else {
      TokenIsOne(l, t);
    }
    if run != [] {
      StepKeepsInv(l, b, run[0]);
      StepSpends(l, b, run[0]);
      RequestEnds(l, Next(l, b, run[0]), run[1..]);
    }
  }

  lemma TokenIsOne(l: Layout, b: Bus)
    requires Inv(l, b) && b.m.token != 0
    ensures b.m.token == 1
  {
  }

  // ---------- Damaged answers ----------

  /** Nothing that can be heard of the answer is a frame from the slave asked. */
  ghost predicate NoFrameFrom(dest: byte, answer: seq<byte>) {
    forall k :: 1 <= k <= |answer| && Acceptable(answer[..k]) ==> answer[0] != dest
  }

  /** What an unanswered request comes to: a timeout if nothing was heard, else bad data. */
  function Unanswered(heard: seq<byte>): ErrorType {
    if heard == [] then EV_ERROR_RESPOND_TIMEOUT else EV_ERROR_RECEIVE_DATA
  }

  /**
   * The image is `image`, and no frame has come or can come; once the request is over it has been reported as
   * timed out exactly if nothing of the answer was heard, and as bad data otherwise.
   */
  ghost predicate Harmless(b: Bus, image: Image) {
    && b.m.image == image
    && (if b.m.token == 0 then
          && b.m.dest != MB_ADDRESS_BROADCAST && NoFrameFrom(b.m.dest, b.heard + b.answer)
          && b.m.events != {EV_MASTER_EXECUTE}
          && (PhaseOf(b.m) == Receiving || b.m.events == {EV_MASTER_FRAME_RECEIVED} ==> b.heard != [])
          && (b.m.events == {EV_MASTER_ERROR_PROCESS} ==> b.m.error == Unanswered(b.heard))
        else
          && |b.m.log| >= 2 && b.m.log[|b.m.log| - 2].Finished?
          && b.m.log[|b.m.log| - 2].result ==
             if b.heard == [] then EV_MASTER_ERROR_RESPOND_TIMEOUT else EV_MASTER_ERROR_RECEIVE_DATA)
  }

  lemma PrefixHasNoFrame(dest: byte, heard: seq<byte>, answer: seq<byte>)
    requires NoFrameFrom(dest, heard + answer)
    ensures NoFrameFrom(dest, heard)
    ensures Acceptable(heard) ==> |heard| >= 4 && heard[0] != dest
  {
    hide Acceptable;
    forall k | 1 <= k <= |heard| && Acceptable(heard[..k]) ensures heard[0] != dest {
      assert heard[..k] == (heard + answer)[..k];
    }
    if Acceptable(heard) {
      AcceptableIsLong(heard);
      assert heard[..|heard|] == heard;
    }
  }

  lemma AcceptableIsLong(f: seq<byte>)
    requires Acceptable(f)
    ensures |f| >= 4
  {
    hide Crc16;
  }

  lemma StepHarmless(l: Layout, b: Bus, step: Step, image: Image)
    requires Inv(l, b) && Enabled(b, step) && !step.Request? && b.m.token == 0 && Harmless(b, image)
    ensures Harmless(Next(l, b, step), image)
  {
    hide Acceptable, ImageFits, RtuSend, Handle, HandledWell, Orderly, NoFrameFrom;
    match step
    case PollCall => PollHarmless(l, b, image);
    case TransmitterEmpty =>
    case ByteIn => assert b.heard + b.answer == (b.heard + [b.answer[0]]) + b.answer[1..];
    case TimerOut =>
      PrefixHasNoFrame(b.m.dest, b.heard, b.answer);
      assert b.heard + [] == b.heard;
  }

  lemma PollHarmless(l: Layout, b: Bus, image: Image)
    requires Inv(l, b) && b.m.events != {} && b.m.token == 0 && Harmless(b, image)
    ensures Harmless(Next(l, b, PollCall), image)
  {
    hide Acceptable, ImageFits, Handle, HandledWell, Orderly, NoFrameFrom, Crc16, CheckOctets, Splice, Frame;
    if b.m.events == {EV_MASTER_FRAME_RECEIVED} {
      PrefixHasNoFrame(b.m.dest, b.heard, b.answer);
      if Acceptable(b.heard) {
        AcceptableIsLong(b.heard);
        assert b.heard[0] == b.m.rcv[0];
      }
    }
  }

  /** An answer in which no frame from the slave can be heard leaves the image as it is and is reported. */
  lemma {:induction false} DamagedAnswerHarmless(l: Layout, b: Bus, run: seq<Step>, image: Image)
    requires Inv(l, b) && IsRun(l, b, run) && Requested(run) == 0 && Harmless(b, image)
    ensures Harmless(After(l, b, run), image)
    decreases |run|
  {
    hide Inv, Next, Enabled, Harmless;
    if run != [] {
      assert Enabled(b, run[0]);
      StepKeepsInv(l, b, run[0]);
      BusyWhenStepping(l, b, run[0]);
      StepHarmless(l, b, run[0], image);
      DamagedAnswerHarmless(l, Next(l, b, run[0]), run[1..], image);
    }
  }

  lemma BusyWhenStepping(l: Layout, b: Bus, step: Step)
    requires Inv(l, b) && Enabled(b, step) && !step.Request?
    ensures b.m.token == 0
  {
  }

  /**
   * A request to one slave whose answer, however it is cut off, holds no acceptable frame from that slave: the
   * image stays as it is in every run, and when the request is over it has been reported as timed out if nothing
   * was heard, and as bad data otherwise.
   */
  lemma UnansweredRequest(l: Layout, b: Bus, dest: byte, r: Requests.Request, answer: seq<byte>, run: seq<Step>)
    requires Inv(l, b) && Enabled(b, Request(dest, r, answer)) && dest != MB_ADDRESS_BROADCAST
    requires NoFrameFrom(dest, answer)
    requires Inv(l, Next(l, b, Request(dest, r, answer)))
    requires IsRun(l, Next(l, b, Request(dest, r, answer)), run) && Requested(run) == 0
    ensures Harmless(After(l, Next(l, b, Request(dest, r, answer)), run), b.m.image)
  {
    hide IsRun, After, Encode, ImageFits, Orderly, NoFrameFrom;
    assert [] + answer == answer;
    DamagedAnswerHarmless(l, Next(l, b, Request(dest, r, answer)), run, b.m.image);
  }

  // ---------- Enabling the master ----------

  predicate Pollable(l: Layout, m: Master) {
    Shaped(l, m) && m.events != {} && (Posted(m.events) == EV_MASTER_EXECUTE ==> Executable(m))
  }

  /** The poll loop has run until no event is pending, but no more than `n` times. */
  function Polled(l: Layout, m: Master, n: nat): Master
    decreases n
  {
    if n == 0 || !Pollable(l, m) then m else Polled(l, Poll(l, m), n - 1)
  }

  /** The results that a frame taken for received can be reported with. */
  predicate OneResult(m: Master, t: Master, result: Result) {
    && t.token == m.token + 1 && t.log == m.log + [Finished(result), Released]
    && t.events == {} && t.state == m.state && t.rcvState == m.rcvState && t.sndState == m.sndState
    && t.timerOn == m.timerOn && t.mode == m.mode
  }

  /** What executing comes to: one result, at once or after an error is reported. */
  lemma ExecutesToResult(l: Layout, m: Master) returns (result: Result)
    requires Shaped(l, m) && Running(m) && m.events == {EV_MASTER_EXECUTE} && Executable(m)
    ensures OneResult(m, Polled(l, m, 2), result)
  {
    hide ImageFits, Handle, HandledWell, Poll;
    var c := m.(events := {});
    PollsExecute(l, m);
    HandleKeepsRest(l, c);
    var t := Poll(l, m);
    if HandledWell(l, c) {
      result := EV_MASTER_PROCESS_SUCESS;
      assert Polled(l, t, 1) == t;
    } else {
      result := EV_MASTER_ERROR_EXECUTE_FUNCTION;
      PollsError(l, t);
      assert Polled(l, t, 1) == Poll(l, t);
    }
  }

  /**
   * The receive buffer holds a frame with a handler, taken for the answer of slave 0, which has no row in the
   * image.
   */
  predicate FromNobody(m: Master)
    requires |m.rcv| == MB_SER_PDU_SIZE_MAX && m.pos <= MB_SER_PDU_SIZE_MAX
  {
    !m.broadcast && m.dest == 0 && RtuReceiveOk(m) && m.rcv[0] == 0 && m.rcv[1] < MB_FUNC_ERROR && Handled(m.rcv[1])
  }

  /** The frame is to be executed, or an error to be reported; nothing has been told yet. */
  lemma FrameJudged(l: Layout, m: Master)
    requires Shaped(l, m) && Running(m) && EV_MASTER_FRAME_RECEIVED in m.events
    ensures var t := Poll(l, m);
            && Shaped(l, t) && Running(t) && t.broadcast == m.broadcast && t.dest == m.dest
            && t.token == m.token && t.log == m.log && t.state == m.state && t.rcvState == m.rcvState
            && t.sndState == m.sndState && t.timerOn == m.timerOn && t.mode == m.mode
            && (|| (t.events == {EV_MASTER_EXECUTE} && RtuReceiveOk(m) && m.rcv[0] == m.dest
                    && (Executable(t) <==> !FromNobody(m)))
                || (t.events == {EV_MASTER_ERROR_PROCESS} && t.error == EV_ERROR_RECEIVE_DATA
                    && !(RtuReceiveOk(m) && m.rcv[0] == m.dest)))
  {
    hide ImageFits, Acceptable, Poll;
    PollsFrame(l, m);
  }

  /** The poll loop is about to run a handler for slave 0. */
  predicate Stuck(m: Master, t: Master)
    requires |t.snd| == MB_PDU_SIZE_MAX && |t.rcv| == MB_SER_PDU_SIZE_MAX
  {
    t.events == {EV_MASTER_EXECUTE} && !Executable(t) && t.dest == 0 && t.token == m.token && t.log == m.log
  }

  /** What a frame received, or taken for received, comes to: one result, but for a frame from slave 0. */
  lemma FrameComesToResult(l: Layout, m: Master) returns (result: Result)
    requires Shaped(l, m) && Running(m) && EV_MASTER_FRAME_RECEIVED in m.events
    ensures |m.rcv| == MB_SER_PDU_SIZE_MAX && m.pos <= MB_SER_PDU_SIZE_MAX && Shaped(l, Polled(l, m, 3))
    ensures if FromNobody(m) then Stuck(m, Polled(l, m, 3)) else OneResult(m, Polled(l, m, 3), result)
    ensures !RtuReceiveOk(m) || m.rcv[0] != m.dest ==> result == EV_MASTER_ERROR_RECEIVE_DATA
  {
    hide ImageFits, Poll, Polled, Acceptable;
    FrameJudged(l, m);
    PolledShaped(l, m, 3);
    var t := Poll(l, m);
    OncePolled(l, m, 3);
    if t.events != {EV_MASTER_EXECUTE} {
      result := EV_MASTER_ERROR_RECEIVE_DATA;
      PollsError(l, t);
      OncePolled(l, t, 2);
      NotPolled(l, Poll(l, t), 1);
    } else if Executable(t) {
      result := ExecutesToResult(l, t);
    } else {
      result := EV_MASTER_PROCESS_SUCESS;
      NotPolled(l, t, 2);
    }
  }

  lemma OncePolled(l: Layout, m: Master, n: nat)
    requires Pollable(l, m) && n > 0
    ensures Polled(l, m, n) == Polled(l, Poll(l, m), n - 1)
  {
  }

  lemma PolledNot(l: Layout, m: Master)
    ensures Polled(l, m, 0) == m
  {
  }

  lemma NotPolled(l: Layout, m: Master, n: nat)
    requires !Pollable(l, m)
    ensures Polled(l, m, n) == m
  {
  }

  /**
   * Enabling posts a frame received although none was. In every state but before initialisation that ends in a
   * result and a release that answer no request: the run resource then counts one too many. The exception is a
   * frame from slave 0 in the buffer of a master that has addressed no slave: a handler is then run for slave 0.
   */
  lemma EnablingReleasesTooMuch(l: Layout, m: Master) returns (result: Result)
    requires Shaped(l, m) && m.events == {}
    ensures var t := Polled(l, MasterEnable(m), 3);
            && Shaped(l, t)
            && if m.state == STATE_NOT_INITIALIZED then t == MasterEnable(m)
               else if FromNobody(m) then Stuck(m, t)
               else t.token == m.token + 1 && t.log == m.log + [Finished(result), Released] && t.events == {}
    ensures m.state != STATE_NOT_INITIALIZED && (!RtuReceiveOk(m) || m.rcv[0] != m.dest) ==>
              result == EV_MASTER_ERROR_RECEIVE_DATA
  {
    hide ImageFits, Acceptable, Dispatch;
    var t := MasterEnable(m);
    if m.state == STATE_NOT_INITIALIZED {
      result := EV_MASTER_PROCESS_SUCESS;
      PolledStopped(l, t, 3);
    } else {
      hide Poll, Polled;
      result := FrameComesToResult(l, t);
    }
  }

  lemma {:induction false} PolledStopped(l: Layout, m: Master, n: nat)
    requires Shaped(l, m) && !Running(m)
    ensures Polled(l, m, n) == m
    decreases n
  {
    hide ImageFits, Dispatch;
    if n > 0 && Pollable(l, m) {
      PolledStopped(l, m, n - 1);
    }
  }

  /** When the start-up silence ends the master becomes ready if and only if no other event is pending then. */
  lemma ReadyIff(l: Layout, m: Master)
    requires Shaped(l, m) && m.state == STATE_ENABLED && m.rcvState == STATE_M_RX_INIT && m.sndState == STATE_M_TX_IDLE
    requires m.mode == MB_TMODE_T35
    ensures Poll(l, RtuTimerExpired(m)).state == STATE_ESTABLISHED <==> m.events <= {EV_MASTER_READY}
  {
    hide ImageFits, Acceptable;
    var t := RtuTimerExpired(m);
    assert EV_MASTER_READY in t.events;
    if m.events <= {EV_MASTER_READY} {
      assert t.events == {EV_MASTER_READY};
    }
  }

  /**
   * So after enabling it matters which comes first. If the silence ends before the event posted is polled, the
   * master stays unready, with no event to come; if the polls come first it becomes ready. The exception is the same.
   */
  lemma ReadyIsLost(l: Layout, m: Master)
    requires Shaped(l, m) && m.state == STATE_DISABLED && m.events == {} && m.sndState == STATE_M_TX_IDLE
    ensures var t := Polled(l, RtuTimerExpired(MasterEnable(m)), 3);
            && Shaped(l, t)
            && if FromNobody(m) then Stuck(m, t) && t.state == STATE_ENABLED
               else t.state == STATE_ENABLED && t.events == {} && !t.timerOn
    ensures !FromNobody(m) ==>
              Polled(l, RtuTimerExpired(Polled(l, MasterEnable(m), 3)), 1).state == STATE_ESTABLISHED
  {
    hide ImageFits, Acceptable, Poll, Polled;
    var early, late := RtuTimerExpired(MasterEnable(m)), MasterEnable(m);
    var _ := FrameComesToResult(l, early);
    var _ := FrameComesToResult(l, late);
    if FromNobody(m) {
      StaysEnabled(l, early);
    } else {
      var t := Polled(l, late, 3);
      ReadyIff(l, t);
      OncePolled(l, RtuTimerExpired(t), 1);
      PolledNot(l, Poll(l, RtuTimerExpired(t)));
    }
  }

  lemma StaysEnabled(l: Layout, m: Master)
    requires Shaped(l, m) && Running(m) && EV_MASTER_FRAME_RECEIVED in m.events && FromNobody(m)
    ensures Polled(l, m, 3).state == m.state
  {
    hide ImageFits, Acceptable, Poll, Polled;
    FrameJudged(l, m);
    PollsFrame(l, m);
    OncePolled(l, m, 3);
    NotPolled(l, Poll(l, m), 2);
  }

  /**
   * The very first enabling reports bad data and leaves two of the run resource; the master may become ready or
   * not.
   */
  lemma FirstEnabling(l: Layout, m: Master)
    requires Fresh(l, m)
    ensures var t := Polled(l, MasterEnable(m), 3);
            && t.token == 2 && t.log == [Finished(EV_MASTER_ERROR_RECEIVE_DATA), Released] && t.events == {}
            && Polled(l, RtuTimerExpired(t), 1).state == STATE_ESTABLISHED
    ensures var t := Polled(l, RtuTimerExpired(MasterEnable(m)), 3);
            t.state == STATE_ENABLED && t.events == {} && !t.timerOn
  {
    hide ImageFits, Polled, Crc16;
    var _ := EnablingReleasesTooMuch(l, m);
    ReadyIsLost(l, m);
  }

  /** What is excepted above: any request or reply of a function with a handler, in a frame to or from slave 0. */
  lemma NobodyExample(m: Master, pdu: seq<byte>)
    requires |m.rcv| == MB_SER_PDU_SIZE_MAX && m.dest == 0 && !m.broadcast
    requires 1 <= |pdu| <= MB_PDU_SIZE_MAX && Handled(pdu[0])
    requires m.pos == |pdu| + 3 <= MB_SER_PDU_SIZE_MAX && m.rcv[..m.pos] == Frame(0, pdu)
    ensures FromNobody(m)
  {
    hide Acceptable, Frame;
    FrameAccepted(0, pdu);
    assert m.rcv[0] == m.rcv[..m.pos][0] && m.rcv[1] == m.rcv[..m.pos][1];
    assert Frame(0, pdu)[1..1 + |pdu|][0] == pdu[0];
  }

  lemma {:induction false} PolledShaped(l: Layout, m: Master, n: nat)
    requires Shaped(l, m)
    ensures Shaped(l, Polled(l, m, n))
    decreases n
  {
    hide Poll, Shaped;
    if n > 0 && Pollable(l, m) {
      PollKeepsShape(l, m);
      PolledShaped(l, Poll(l, m), n - 1);
    }
  }

  lemma PollKeepsShape(l: Layout, m: Master)
    requires Pollable(l, m)
    ensures Shaped(l, Poll(l, m))
  {
    hide ImageFits, Acceptable, Execute, RtuSend;
    SendKeepsShape(l, m.(events := {}, frame := InSend));
  }

  lemma SendKeepsShape(l: Layout, m: Master)
    requires Shaped(l, m)
    ensures Shaped(l, RtuSend(m))
  {
    hide ImageFits, Crc16, CheckOctets, Splice, Frame;
  }
}
