/**
 * Master and slave on one line, octet by octet. Every callback, timer expiry and poll may come in any order the
 * line's timing allows: a receiver's 3.5-character timer does not run out while the other side is sending, the
 * slave's poll loop has dealt with its events when its timer runs out, and the master's response timeout and
 * turnaround delay are longer than the slave takes.
 */
module Exchange {
  import opened Bytes
  import opened Modbus
  import opened MbCrc
  import opened Rtu
  import opened Store
  import opened Requests
  import opened Image
  import opened MasterFunctions
  import opened Agreement
  import opened SlaveFunctions
  import opened Transaction
  import M = MasterMachine
  import S = SlaveMachine

  datatype System = System(m: M.Master, s: S.Slave)

  datatype Step =
    | Request(job: Job)
    | MasterPoll | MasterSends | MasterTimer
    | SlavePoll(other: S.Event) | SlaveSends | SlaveTimer

  predicate Resting(s: S.Slave) {
    s.events == {} && !s.timerOn && !s.txOn
  }

  predicate Enabled(x: System, step: Step) {
    match step
    case Request(job) => x.m.token >= 1 && JobOk(job)
    case MasterPoll => x.m.events != {}
    case MasterSends => x.m.txOn
    case MasterTimer => x.m.timerOn && if x.m.mode == M.MB_TMODE_T35 then !x.s.txOn else Resting(x.s)
    case SlavePoll(_) => x.s.events != {}
    case SlaveSends => x.s.txOn
    case SlaveTimer => x.s.timerOn && !x.m.txOn && x.s.events == {}
  }

  predicate Shaped(c: Setup, x: System) {
    M.Shaped(c.lm, x.m) && S.Shaped(c.ls, x.s) && (M.Posted(x.m.events) == M.EV_MASTER_EXECUTE ==> M.Executable(x.m))
  }

  function Next(c: Setup, x: System, step: Step): System
    requires Shaped(c, x) && Enabled(x, step)
  {
    match step
    case Request(job) => x.(m := M.Ask(x.m, job.dest, job.r))
    case MasterPoll => x.(m := M.Poll(c.lm, x.m))
    case MasterSends =>
      var octet := M.RtuOctetOut(x.m);
      System(M.RtuTransmitterEmpty(x.m), if octet != [] && x.s.rxOn then S.RtuByteReceived(x.s, octet[0]) else x.s)
    case MasterTimer => x.(m := M.RtuTimerExpired(x.m))
    case SlavePoll(other) => x.(s := S.Poll(c.ls, x.s, other))
    case SlaveSends =>
      var octet := S.RtuOctetOut(x.s);
      System(if octet != [] && x.m.rxOn then M.RtuByteReceived(x.m, octet[0]) else x.m, S.RtuTransmitterEmpty(x.s))
    case SlaveTimer => x.(s := S.RtuTimerExpired(x.s))
  }

  // ---------- Where a transaction stands ----------

  datatype Phase =
    | Idle | Asked | Sending | Sent | Heard | Executing | Silent | Answering | Answered | Read | Concluding | Failing

  /** The request's frame, and the slave's answer to it. */
  function RequestFrame(j: Job): (f: seq<byte>)
    requires JobOk(j)
    ensures 8 <= |f| <= MB_PDU_SIZE_MAX
  {
    Frame(j.dest, Encode(j.r))
  }

  lemma AnswerPduLength(l: Layout, d: Data, r: Requests.Request)
    requires Fits(l, d) && WellFormed(r)
    ensures 2 <= |AnswerPdu(Meaning(l, d, r), r)| <= MB_PDU_SIZE_MAX - 1
  {
    hide RegBytes, Fields;
  }

  function AnswerFrame(c: Setup, w: World, j: Job): (f: seq<byte>)
    requires SetupOk(c) && WorldOk(c, w) && JobOk(j)
    ensures 5 <= |f| < MB_SER_PDU_SIZE_MAX
  {
    AnswerPduLength(c.ls, w.data, j.r);
    Frame(c.address, AnswerPdu(Meaning(c.ls, w.data, j.r), j.r))
  }

  predicate SlaveIs(c: Setup, s: S.Slave, data: Data) {
    S.Shaped(c.ls, s) && s.enabled && s.address == c.address && s.data == data
  }

  /** The slave has nothing left to do, but perhaps to take note that its frame was sent. */
  predicate SlaveRests(c: Setup, s: S.Slave, data: Data) {
    && SlaveIs(c, s, data)
    && s.rcv == S.STATE_RX_IDLE && s.snd == S.STATE_TX_IDLE && s.rxOn && !s.txOn && !s.timerOn
    && (s.events == {} || s.events == {S.EV_FRAME_SENT})
  }

  /** The slave has heard the first `k` octets of `f`. */
  predicate SlaveHears(c: Setup, s: S.Slave, data: Data, f: seq<byte>, k: nat)
    requires k <= |f| <= MB_SER_PDU_SIZE_MAX
  {
    if k == 0 then SlaveRests(c, s, data)
    else
      && SlaveIs(c, s, data)
      && s.rcv == S.STATE_RX_RCV && s.snd == S.STATE_TX_IDLE && s.rxOn && !s.txOn && s.timerOn
      && (s.events == {} || s.events == {S.EV_FRAME_SENT})
      && s.pos == k && s.buf[..k] == f[..k]
  }

  predicate Calm(m: M.Master) {
    m.rcvState == M.STATE_M_RX_IDLE && m.sndState == M.STATE_M_TX_IDLE && m.rxOn && !m.txOn && !m.timerOn
  }

  /** The master is at work on a request. */
  predicate MasterBusy(c: Setup, m: M.Master, w: World, j: Job)
    requires JobOk(j)
  {
    && M.Shaped(c.lm, m) && m.state == M.STATE_ESTABLISHED && m.token == 0 && m.log == w.log + [M.Accepted]
    && m.pduLen == |Encode(j.r)| && m.snd[1..1 + m.pduLen] == Encode(j.r)
  }

  predicate MasterAsks(c: Setup, m: M.Master, w: World, j: Job)
    requires JobOk(j)
  {
    MasterBusy(c, m, w, j) && m.image == w.image && m.dest == j.dest
  }

  /** The request is sent; the master waits for the reply, or for the slaves to have done a broadcast. */
  predicate Awaiting(c: Setup, m: M.Master, w: World, j: Job)
    requires JobOk(j)
  {
    && MasterAsks(c, m, w, j)
    && m.rcvState == M.STATE_M_RX_IDLE && m.sndState == M.STATE_M_TX_XFWR && m.rxOn && !m.txOn && m.timerOn
    && m.events == {}
    && (m.broadcast <==> j.dest == MB_ADDRESS_BROADCAST) && m.frame == M.InSend
    && m.mode == (if m.broadcast then M.MB_TMODE_CONVERT_DELAY else M.MB_TMODE_RESPOND_TIMEOUT)
  }

  /** The master has heard the first `k` octets of the answer `g`. */
  predicate MasterHears(c: Setup, m: M.Master, w: World, j: Job, g: seq<byte>, k: nat)
    requires JobOk(j) && k <= |g| <= MB_SER_PDU_SIZE_MAX
  {
    if k == 0 then Awaiting(c, m, w, j)
    else
      && MasterAsks(c, m, w, j)
      && m.rcvState == M.STATE_M_RX_RCV && m.sndState == M.STATE_M_TX_IDLE && m.rxOn && !m.txOn && m.timerOn
      && m.events == {}
      && !m.broadcast && m.mode == M.MB_TMODE_T35
      && m.pos == k && m.rcv[..k] == g[..k]
  }

  /** No request is under way: image, data and notes are those of `w`. */
  predicate AtRest(c: Setup, x: System, w: World) {
    && M.Shaped(c.lm, x.m) && x.m.state == M.STATE_ESTABLISHED && x.m.token == 1 && x.m.log == w.log
    && x.m.image == w.image && Calm(x.m) && x.m.events == {} && SlaveRests(c, x.s, w.data)
  }

  /** How master and slave stand in each phase of job `j`, taken on in world `w`. */
  predicate InPhase(c: Setup, x: System, w: World, j: Job, p: Phase)
    requires SetupOk(c) && WorldOk(c, w) && JobOk(j)
  {
    var f, g, data := RequestFrame(j), AnswerFrame(c, w, j), Transact(c, w, j).data;
    match p
    case Idle => AtRest(c, x, w)
    case Asked =>
      && MasterAsks(c, x.m, w, j) && Calm(x.m) && x.m.events == {M.EV_MASTER_FRAME_SENT} && SlaveRests(c, x.s, w.data)
    case Sending =>
      && MasterAsks(c, x.m, w, j) && x.m.rcvState == M.STATE_M_RX_IDLE && x.m.sndState == M.STATE_M_TX_XMIT
      && !x.m.rxOn && x.m.txOn && !x.m.timerOn && x.m.events == {} && x.m.frame == M.InSend
      && x.m.next + x.m.left == |f| && x.m.snd[..|f|] == f && SlaveHears(c, x.s, w.data, f, x.m.next)
    case Sent => Awaiting(c, x.m, w, j) && SlaveHears(c, x.s, w.data, f, |f|)
    case Heard =>
      && Awaiting(c, x.m, w, j) && SlaveRests(c, x.s.(events := {}), w.data) && x.s.events == {S.EV_FRAME_RECEIVED}
      && x.s.pos == |f| && x.s.buf[..|f|] == f
    case Executing =>
      && Awaiting(c, x.m, w, j) && SlaveRests(c, x.s.(events := {}), w.data) && x.s.events == {S.EV_EXECUTE}
      && (j.dest == c.address || j.dest == MB_ADDRESS_BROADCAST)
      && x.s.rcvAddress == j.dest && x.s.length == |Encode(j.r)| && x.s.buf[1..1 + |Encode(j.r)|] == Encode(j.r)
    case Silent =>
      && Awaiting(c, x.m, w, j) && j.dest != c.address && SlaveRests(c, x.s, data)
    case Answering =>
      && j.dest == c.address && SlaveIs(c, x.s, data)
      && x.s.rcv == S.STATE_RX_IDLE && x.s.snd == S.STATE_TX_XMIT && !x.s.rxOn && x.s.txOn && !x.s.timerOn
      && x.s.events == {}
      && x.s.next + x.s.count == |g| && x.s.buf[..|g|] == g && MasterHears(c, x.m, w, j, g, x.s.next)
    case Answered =>
      j.dest == c.address && MasterHears(c, x.m, w, j, g, |g|) && SlaveRests(c, x.s, data)
    case Read =>
      && j.dest == c.address && MasterAsks(c, x.m, w, j) && Calm(x.m) && x.m.events == {M.EV_MASTER_FRAME_RECEIVED}
      && !x.m.broadcast && x.m.pos == |g| && x.m.rcv[..|g|] == g && SlaveRests(c, x.s, data)
    case Concluding =>
      && MasterAsks(c, x.m, w, j) && Calm(x.m) && x.m.events == {M.EV_MASTER_EXECUTE} && SlaveRests(c, x.s, data)
      && (if x.m.broadcast then j.dest == MB_ADDRESS_BROADCAST && x.m.frame == M.InSend
          else j.dest == c.address && x.m.frame == M.InReceive && x.m.length == |g| - 3 && x.m.rcv[..|g|] == g)
    case Failing =>
      && MasterBusy(c, x.m, w, j) && Calm(x.m) && x.m.events == {M.EV_MASTER_ERROR_PROCESS} && SlaveRests(c, x.s, data)
      && x.m.image == Transact(c, w, j).image && M.ResultOf(x.m.error) == Transact(c, w, j).result
  }

  // ---------- The slave's part ----------

  lemma SlaveHearsNext(c: Setup, s: S.Slave, data: Data, f: seq<byte>, k: nat)
    requires k < |f| <= MB_SER_PDU_SIZE_MAX && SlaveHears(c, s, data, f, k)
    ensures SlaveHears(c, S.RtuByteReceived(s, f[k]), data, f, k + 1) && s.rxOn
  {
    hide Fits;
  }

  lemma SlaveNotesSent(c: Setup, s: S.Slave, other: S.Event)
    requires S.Shaped(c.ls, s) && s.enabled && s.events == {S.EV_FRAME_SENT}
    ensures S.Poll(c.ls, s, other) == s.(events := {})
  {
    hide S.Execute;
  }

  /** The slave accepts the frame, and executes it if it is the one addressed. */
  lemma SlaveTakesFrame(c: Setup, s: S.Slave, data: Data, j: Job, other: S.Event)
    requires JobOk(j) && SlaveRests(c, s.(events := {}), data) && s.events == {S.EV_FRAME_RECEIVED}
    requires s.pos == |RequestFrame(j)| && s.buf[..s.pos] == RequestFrame(j)
    ensures var t := S.Poll(c.ls, s, other);
            if j.dest == c.address || j.dest == MB_ADDRESS_BROADCAST then
              && SlaveRests(c, t.(events := {}), data) && t.events == {S.EV_EXECUTE}
              && t.rcvAddress == j.dest && t.length == |Encode(j.r)| && t.buf[1..1 + |Encode(j.r)|] == Encode(j.r)
            else SlaveRests(c, t, data)
  {
    hide S.Execute, Acceptable, Frame, Encode, Fits;
    var e := Encode(j.r);
    FrameAccepted(j.dest, e);
    assert s.buf[0] == s.buf[..s.pos][0];
    SubOfPrefix(s.buf, s.buf[..s.pos], 1, 1 + |e|);
  }

  lemma RequestCode(r: Requests.Request)
    requires WellFormed(r)
    ensures 1 <= Encode(r)[0] < MB_FUNC_ERROR
  {
    hide RegBytes, Fields;
  }

  /** Executing a request the slave does what it means, and unless it was broadcast starts to send the answer. */
  lemma SlaveExecutes(c: Setup, s: S.Slave, w: World, j: Job, other: S.Event)
    requires SetupOk(c) && WorldOk(c, w) && JobOk(j) && SlaveRests(c, s.(events := {}), w.data)
    requires s.events == {S.EV_EXECUTE}
    requires j.dest == c.address || j.dest == MB_ADDRESS_BROADCAST
    requires s.rcvAddress == j.dest && s.length == |Encode(j.r)| && s.buf[1..1 + |Encode(j.r)|] == Encode(j.r)
    ensures var t, data, g := S.Poll(c.ls, s, other), Transact(c, w, j).data, AnswerFrame(c, w, j);
            if j.dest == MB_ADDRESS_BROADCAST then SlaveRests(c, t, data)
            else
              && SlaveIs(c, t, data)
              && t.rcv == S.STATE_RX_IDLE && t.snd == S.STATE_TX_XMIT && !t.rxOn && t.txOn && !t.timerOn
              && t.events == {}
              && t.next == 0 && t.count == |g| && t.buf[..|g|] == g
  {
    hide Serve, Meaning, Encode, Frame, CheckOctets, Crc16, Splice, Absorbed, TakenForAll, Fits;
    var e, f := Encode(j.r), s.buf[1..];
    assert e <= f by { assert f[..|e|] == s.buf[1..1 + |e|]; }
    ServesRequest(c.ls, w.data, f, j.r);
    ServeShape(c.ls, w.data, f, |e|);
    RequestCode(j.r);
    AnswerPduLength(c.ls, w.data, j.r);
    assert f[0] == e[0];
    var served, a := Serve(c.ls, w.data, f, |e|), Meaning(c.ls, w.data, j.r);
    if j.dest != MB_ADDRESS_BROADCAST {
      if a.Refused? {
        var error := served.frame[0 := S.ErrorFunction(f[0])][1 := served.exception.Code()];
        RefusedIsException(c.ls, w.data, j.r);
        var buf := [s.buf[0]] + error;
        assert buf[1..3] == AnswerPdu(a, j.r);
      } else {
        var buf := [s.buf[0]] + served.frame;
        assert buf[1..1 + served.len] == served.frame[..served.len] == AnswerPdu(a, j.r);
      }
    }
  }

  lemma RefusedIsException(l: Layout, d: Data, r: Requests.Request)
    requires Fits(l, d) && WellFormed(r)
    ensures var a := Meaning(l, d, r); a.Refused? ==> a.why != MB_EX_NONE
  {
    hide Reply, Written;
  }

  // ---------- The master's part ----------

  lemma MasterHearsNext(c: Setup, m: M.Master, w: World, j: Job, g: seq<byte>, k: nat)
    requires JobOk(j) && j.dest != MB_ADDRESS_BROADCAST && k < |g| <= MB_SER_PDU_SIZE_MAX
    requires MasterHears(c, m, w, j, g, k)
    ensures MasterHears(c, M.RtuByteReceived(m, g[k]), w, j, g, k + 1) && m.rxOn
  {
    hide ImageFits, Encode;
  }

  /** The master accepts the answer and has it executed. */
  lemma MasterReads(c: Setup, x: System, w: World, j: Job)
    requires SetupOk(c) && WorldOk(c, w) && JobOk(j) && InPhase(c, x, w, j, Read)
    ensures InPhase(c, x.(m := M.Poll(c.lm, x.m)), w, j, Concluding)
  {
    hide ImageFits, Encode, Frame, Acceptable, SlaveRests, Transact, AnswerPdu, Meaning, M.Poll, AnswerFrame;
    M.PollsFrame(c.lm, x.m);
    AnswerRead(c, x.m, w, j);
  }

  /** What the master has received is acceptable, and comes from the slave asked. */
  lemma AnswerRead(c: Setup, m: M.Master, w: World, j: Job)
    requires SetupOk(c) && WorldOk(c, w) && JobOk(j) && |m.rcv| == MB_SER_PDU_SIZE_MAX
    requires m.pos == |AnswerFrame(c, w, j)| && m.rcv[..m.pos] == AnswerFrame(c, w, j)
    ensures M.RtuReceiveOk(m) && m.rcv[0] == c.address
  {
    hide ImageFits, Encode, Frame, Acceptable, Transact, AnswerPdu, Meaning;
    FrameAccepted(c.address, AnswerPdu(Meaning(c.ls, w.data, j.r), j.r));
    assert m.rcv[0] == m.rcv[..m.pos][0];
  }

  lemma EncodeIsHandled(r: Requests.Request)
    requires WellFormed(r)
    ensures M.Handled(Encode(r)[0])
  {
    hide RegBytes, Fields;
  }

  lemma PduBehindAddress(buf: seq<byte>, pdu: seq<byte>)
    requires 1 + |pdu| <= |buf| && buf[1..1 + |pdu|] == pdu
    ensures pdu <= buf[1..] && forall k :: 0 <= k < |pdu| ==> buf[1..][k] == pdu[k]
  {
    assert buf[1..][..|pdu|] == buf[1..1 + |pdu|];
  }

  lemma PduInFrame(buf: seq<byte>, address: byte, pdu: seq<byte>)
    requires |pdu| + 3 <= |buf| && buf[..|pdu| + 3] == Frame(address, pdu)
    ensures pdu <= buf[1..] && forall k :: 0 <= k < |pdu| ==> buf[1..][k] == pdu[k]
  {
    hide Frame;
    assert buf[1..1 + |pdu|] == buf[..|pdu| + 3][1..1 + |pdu|];
    PduBehindAddress(buf, pdu);
  }

  /** What the master makes of an executed frame: the transaction's image, and whether it was a success. */
  lemma MasterHandles(c: Setup, m: M.Master, w: World, j: Job)
    requires SetupOk(c) && WorldOk(c, w) && JobOk(j) && MasterAsks(c, m, w, j) && M.Executable(m)
    requires if m.broadcast then j.dest == MB_ADDRESS_BROADCAST && m.frame == M.InSend
             else j.dest == c.address && m.frame == M.InReceive && m.length == |AnswerFrame(c, w, j)| - 3
                  && m.rcv[..|AnswerFrame(c, w, j)|] == AnswerFrame(c, w, j)
    ensures M.Handle(c.lm, m).image == Transact(c, w, j).image
    ensures M.HandledWell(c.lm, m) <==> Transact(c, w, j).result == M.EV_MASTER_PROCESS_SUCESS
    ensures !M.HandledWell(c.lm, m) ==> Transact(c, w, j).result == M.EV_MASTER_ERROR_EXECUTE_FUNCTION
  {
    hide Encode, Frame, Absorbed, TakenForAll, M.TakeAll, Take, Meaning, Fits, ImageFits;
    var e, snd := Encode(j.r), m.snd[1..];
    PduBehindAddress(m.snd, e);
    RequestCode(j.r);
    EncodeIsHandled(j.r);
    assert snd[0] == e[0];
    if m.broadcast {
      TakesBroadcast(c.lm, m.image, MB_MASTER_TOTAL_SLAVE_NUM, Input(snd, snd, m.pduLen, true), j.r);
    } else {
      var a, g := Meaning(c.ls, w.data, j.r), AnswerFrame(c, w, j);
      var pdu, rcv := AnswerPdu(a, j.r), m.rcv[1..];
      PduInFrame(m.rcv, c.address, pdu);
      AnswerPduLength(c.ls, w.data, j.r);
      assert rcv[0] == pdu[0] && rcv[1] == pdu[1];
      if a.Refused? {
        RefusedIsException(c.ls, w.data, j.r);
      } else {
        RepliedIsReply(c.ls, w.data, j.r);
        TakesReply(c.lm, m.image, j.dest, c.ls, a.data, j.r, Input(snd, rcv, m.length, false));
        ReplyCode(c.ls, a.data, j.r);
      }
    }
  }

  lemma RepliedIsReply(l: Layout, d: Data, r: Requests.Request)
    requires Fits(l, d) && WellFormed(r) && Meaning(l, d, r).Replied?
    ensures CountOk(r) && WriteRangeOk(l, r) && ReadRangeOk(l, r)
    ensures Fits(l, Meaning(l, d, r).data) && Meaning(l, d, r).pdu == Reply(l, Meaning(l, d, r).data, r)
  {
    hide Reply, Written;
  }

  lemma ReplyCode(l: Layout, d: Data, r: Requests.Request)
    requires Fits(l, d) && WellFormed(r) && CountOk(r) && ReadRangeOk(l, r)
    ensures |Reply(l, d, r)| >= 1 && Reply(l, d, r)[0] == Encode(r)[0]
  {
    hide RegBytes, Fields;
  }

  /** In executing the frame the master reads nothing outside its buffers. */
  lemma MasterStaysInside(c: Setup, x: System, w: World, j: Job)
    requires SetupOk(c) && WorldOk(c, w) && JobOk(j) && InPhase(c, x, w, j, Concluding)
    ensures M.Executable(x.m) && M.StaysInside(x.m)
  {
    hide Encode, Frame, Absorbed, TakenForAll, Meaning, Fits, ImageFits, ReadsInside, SlaveRests;
    var m, e, snd := x.m, Encode(j.r), x.m.snd[1..];
    PduBehindAddress(m.snd, e);
    if m.broadcast {
      RepliesReadInside(c.ls, w.data, j.r, Input(snd, snd, m.pduLen, true));
    } else {
      var a, g := Meaning(c.ls, w.data, j.r), AnswerFrame(c, w, j);
      var pdu, rcv := AnswerPdu(a, j.r), m.rcv[1..];
      PduInFrame(m.rcv, c.address, pdu);
      AnswerPduLength(c.ls, w.data, j.r);
      assert rcv[0] == pdu[0];
      if a.Replied? {
        RepliedIsReply(c.ls, w.data, j.r);
        RepliesReadInside(c.ls, a.data, j.r, Input(snd, rcv, m.length, false));
      }
    }
  }

  lemma MasterConcludes(c: Setup, x: System, w: World, j: Job)
    requires SetupOk(c) && WorldOk(c, w) && JobOk(j) && InPhase(c, x, w, j, Concluding)
    ensures var y := x.(m := M.Poll(c.lm, x.m));
            InPhase(c, y, w, j, Failing) || InPhase(c, y, Done(c, w, j), j, Idle)
  {
    hide ImageFits, Fits, Encode, Frame, SlaveRests, Transact, AnswerPdu, Meaning, M.HandledWell, M.Handle,
      AnswerFrame, M.Poll;
    M.PollsExecute(c.lm, x.m);
    var m := x.m.(events := {});
    MasterHandles(c, m, w, j);
    M.HandleKeepsRest(c.lm, m);
    assert w.log + [M.Accepted] + [M.Finished(M.EV_MASTER_PROCESS_SUCESS), M.Released] ==
           w.log + [M.Accepted, M.Finished(M.EV_MASTER_PROCESS_SUCESS), M.Released];
  }

  lemma MasterGivesUp(c: Setup, x: System, w: World, j: Job)
    requires SetupOk(c) && WorldOk(c, w) && JobOk(j) && InPhase(c, x, w, j, Failing)
    ensures InPhase(c, x.(m := M.Poll(c.lm, x.m)), Done(c, w, j), j, Idle)
  {
    hide ImageFits, Fits, Encode, Frame, SlaveRests, Transact, AnswerPdu, Meaning, AnswerFrame, M.Poll;
    M.PollsError(c.lm, x.m);
    var result := Transact(c, w, j).result;
    assert w.log + [M.Accepted] + [M.Finished(result), M.Released] ==
           w.log + [M.Accepted, M.Finished(result), M.Released];
  }

  // ---------- One step ----------

  lemma PhaseShaped(c: Setup, x: System, w: World, j: Job, p: Phase)
    requires SetupOk(c) && WorldOk(c, w) && JobOk(j) && InPhase(c, x, w, j, p)
    ensures Shaped(c, x)
  {
    hide ImageFits, Fits, Encode, Frame, Transact, AnswerPdu, Meaning, AnswerFrame, RequestFrame;
  }

  /** Polling the event that its frame was sent changes nothing else in the slave. */
  lemma SlaveNotes(c: Setup, x: System, other: S.Event)
    requires Shaped(c, x) && x.s.enabled && x.s.events == {S.EV_FRAME_SENT}
    ensures Next(c, x, SlavePoll(other)) == x.(s := x.s.(events := {}))
  {
    hide S.Poll;
    SlaveNotesSent(c, x.s, other);
  }

  /** The phase does not depend on that event. */
  lemma PhaseIgnoresNote(c: Setup, x: System, w: World, j: Job, p: Phase)
    requires SetupOk(c) && WorldOk(c, w) && JobOk(j) && x.s.events == {S.EV_FRAME_SENT}
    requires InPhase(c, x, w, j, p)
    ensures x.s.enabled && InPhase(c, x.(s := x.s.(events := {})), w, j, p)
  {
    hide ImageFits, Fits, Encode, Frame, Transact, AnswerPdu, Meaning, AnswerFrame, RequestFrame, Awaiting,
      MasterBusy, MasterHears;
  }

  lemma FromIdle(c: Setup, x: System, w: World, j: Job, step: Step)
    requires SetupOk(c) && WorldOk(c, w) && JobOk(j) && InPhase(c, x, w, j, Idle) && Enabled(x, step)
    ensures Shaped(c, x)
    ensures if step.Request? then InPhase(c, Next(c, x, step), w, step.job, Asked)
            else step.SlavePoll? && InPhase(c, Next(c, x, step), w, j, Idle)
  {
    hide ImageFits, Fits, Encode, Frame, Transact, AnswerPdu, Meaning, AnswerFrame, RequestFrame, S.Poll;
    PhaseShaped(c, x, w, j, Idle);
    match step
    case Request(job) => AskBuilds(x.m, job);
    case SlavePoll(other) =>
      PhaseIgnoresNote(c, x, w, j, Idle);
      SlaveNotes(c, x, other);
    case _ =>
  }

  lemma AskBuilds(m: M.Master, j: Job)
    requires |m.snd| == MB_PDU_SIZE_MAX && JobOk(j) && m.token >= 1
    ensures M.Ask(m, j.dest, j.r).snd[1..1 + |Encode(j.r)|] == Encode(j.r)
  {
    hide Encode;
  }

  lemma FromAsked(c: Setup, x: System, w: World, j: Job, step: Step)
    requires SetupOk(c) && WorldOk(c, w) && JobOk(j) && InPhase(c, x, w, j, Asked) && Enabled(x, step)
    ensures Shaped(c, x)
    ensures if step.MasterPoll? then InPhase(c, Next(c, x, step), w, j, Sending)
            else step.SlavePoll? && InPhase(c, Next(c, x, step), w, j, Asked)
  {
    hide ImageFits, Fits, Encode, Frame, Transact, AnswerPdu, Meaning, AnswerFrame, S.Poll, Crc16, CheckOctets;
    PhaseShaped(c, x, w, j, Asked);
    match step
    case MasterPoll =>
    case SlavePoll(other) =>
      PhaseIgnoresNote(c, x, w, j, Asked);
      SlaveNotes(c, x, other);
    case _ =>
  }

  lemma FromSending(c: Setup, x: System, w: World, j: Job, step: Step)
    requires SetupOk(c) && WorldOk(c, w) && JobOk(j) && InPhase(c, x, w, j, Sending) && Enabled(x, step)
    ensures Shaped(c, x)
    ensures if step.MasterSends? then InPhase(c, Next(c, x, step), w, j, if x.m.left != 0 then Sending else Sent)
            else step.SlavePoll? && InPhase(c, Next(c, x, step), w, j, Sending)
  {
    hide ImageFits, Fits, Encode, Frame, Transact, AnswerPdu,
      Meaning, AnswerFrame, RequestFrame, S.Poll, SlaveHears, S.RtuByteReceived;
    PhaseShaped(c, x, w, j, Sending);
    SlaveIsHearing(c, x.s, w.data, RequestFrame(j), x.m.next);
    match step
    case MasterSends =>
      var f := RequestFrame(j);
      if x.m.left != 0 {
        assert x.m.snd[x.m.next] == x.m.snd[..|f|][x.m.next];
        SlaveHearsNext(c, x.s, w.data, f, x.m.next);
      } else {
        assert x.m.snd[0] == x.m.snd[..|f|][0] == j.dest by { FirstOctet(j); }
      }
    case SlavePoll(other) =>
      PhaseIgnoresNote(c, x, w, j, Sending);
      SlaveNotes(c, x, other);
    case _ =>
  }

  lemma FirstOctet(j: Job)
    requires JobOk(j)
    ensures RequestFrame(j)[0] == j.dest
  {
    hide Encode, Frame;
  }

  lemma SlaveIsHearing(c: Setup, s: S.Slave, data: Data, f: seq<byte>, k: nat)
    requires k <= |f| <= MB_SER_PDU_SIZE_MAX && SlaveHears(c, s, data, f, k)
    ensures !s.txOn && (s.events == {} || s.events == {S.EV_FRAME_SENT})
  {
    hide Fits;
  }

  lemma FromSent(c: Setup, x: System, w: World, j: Job, step: Step)
    requires SetupOk(c) && WorldOk(c, w) && JobOk(j) && InPhase(c, x, w, j, Sent) && Enabled(x, step)
    ensures Shaped(c, x)
    ensures if step.SlaveTimer? then InPhase(c, Next(c, x, step), w, j, Heard)
            else step.SlavePoll? && InPhase(c, Next(c, x, step), w, j, Sent)
  {
    hide ImageFits, Fits, Encode, Frame, Transact, AnswerPdu, Meaning, AnswerFrame, RequestFrame, S.Poll;
    PhaseShaped(c, x, w, j, Sent);
    match step
    case SlavePoll(other) =>
      PhaseIgnoresNote(c, x, w, j, Sent);
      SlaveNotes(c, x, other);
    case _ =>
  }

  lemma FromHeard(c: Setup, x: System, w: World, j: Job, step: Step)
    requires SetupOk(c) && WorldOk(c, w) && JobOk(j) && InPhase(c, x, w, j, Heard) && Enabled(x, step)
    ensures Shaped(c, x) && step.SlavePoll?
    ensures InPhase(c, Next(c, x, step), w, j,
                    if j.dest == c.address || j.dest == MB_ADDRESS_BROADCAST then Executing else Silent)
  {
    hide ImageFits, Fits, Encode, Frame, AnswerPdu, Meaning, AnswerFrame, RequestFrame, S.Poll, Absorbed, TakenForAll;
    PhaseShaped(c, x, w, j, Heard);
    match step
    case SlavePoll(other) => SlaveTakesFrame(c, x.s, w.data, j, other);
    case _ =>
  }

  lemma FromExecuting(c: Setup, x: System, w: World, j: Job, step: Step)
    requires SetupOk(c) && WorldOk(c, w) && JobOk(j) && InPhase(c, x, w, j, Executing) && Enabled(x, step)
    ensures Shaped(c, x) && step.SlavePoll?
    ensures InPhase(c, Next(c, x, step), w, j, if j.dest == MB_ADDRESS_BROADCAST then Silent else Answering)
  {
    hide ImageFits, Fits, Encode, Frame, AnswerPdu, Meaning, AnswerFrame, RequestFrame, S.Poll, Transact;
    PhaseShaped(c, x, w, j, Executing);
    match step
    case SlavePoll(other) => SlaveExecutes(c, x.s, w, j, other);
    case _ =>
  }

  lemma FromSilent(c: Setup, x: System, w: World, j: Job, step: Step)
    requires SetupOk(c) && WorldOk(c, w) && JobOk(j) && InPhase(c, x, w, j, Silent) && Enabled(x, step)
    ensures Shaped(c, x)
    ensures if step.MasterTimer? then
              InPhase(c, Next(c, x, step), w, j, if j.dest == MB_ADDRESS_BROADCAST then Concluding else Failing)
            else step.SlavePoll? && InPhase(c, Next(c, x, step), w, j, Silent)
  {
    hide ImageFits, Fits, Encode, Frame, AnswerPdu, Meaning, AnswerFrame, RequestFrame, S.Poll, Absorbed, TakenForAll;
    PhaseShaped(c, x, w, j, Silent);
    match step
    case MasterTimer =>
    case SlavePoll(other) =>
      PhaseIgnoresNote(c, x, w, j, Silent);
      SlaveNotes(c, x, other);
    case _ =>
  }

  lemma FromAnswering(c: Setup, x: System, w: World, j: Job, step: Step)
    requires SetupOk(c) && WorldOk(c, w) && JobOk(j) && InPhase(c, x, w, j, Answering) && Enabled(x, step)
    ensures Shaped(c, x) && step.SlaveSends?
    ensures InPhase(c, Next(c, x, step), w, j, if x.s.count != 0 then Answering else Answered)
  {
    hide ImageFits, Fits, Encode, Frame, Transact, AnswerPdu, Meaning, AnswerFrame, RequestFrame, M.RtuByteReceived,
      MasterHears;
    PhaseShaped(c, x, w, j, Answering);
    MasterIsHearing(c, x.m, w, j, AnswerFrame(c, w, j), x.s.next);
    match step
    case SlaveSends =>
      var g := AnswerFrame(c, w, j);
      if x.s.count != 0 {
        assert x.s.buf[x.s.next] == x.s.buf[..|g|][x.s.next];
        MasterHearsNext(c, x.m, w, j, g, x.s.next);
      }
    case _ =>
  }

  lemma MasterIsHearing(c: Setup, m: M.Master, w: World, j: Job, g: seq<byte>, k: nat)
    requires JobOk(j) && k <= |g| <= MB_SER_PDU_SIZE_MAX && MasterHears(c, m, w, j, g, k)
    ensures !m.txOn && m.events == {} && m.token == 0
  {
    hide Encode, ImageFits;
  }

  lemma FromAnswered(c: Setup, x: System, w: World, j: Job, step: Step)
    requires SetupOk(c) && WorldOk(c, w) && JobOk(j) && InPhase(c, x, w, j, Answered) && Enabled(x, step)
    ensures Shaped(c, x)
    ensures if step.MasterTimer? then InPhase(c, Next(c, x, step), w, j, Read)
            else step.SlavePoll? && InPhase(c, Next(c, x, step), w, j, Answered)
  {
    hide ImageFits, Fits, Encode, Frame, Transact, AnswerPdu, Meaning, AnswerFrame, RequestFrame, S.Poll;
    PhaseShaped(c, x, w, j, Answered);
    match step
    case MasterTimer =>
    case SlavePoll(other) =>
      PhaseIgnoresNote(c, x, w, j, Answered);
      SlaveNotes(c, x, other);
    case _ =>
  }

  lemma FromRead(c: Setup, x: System, w: World, j: Job, step: Step)
    requires SetupOk(c) && WorldOk(c, w) && JobOk(j) && InPhase(c, x, w, j, Read) && Enabled(x, step)
    ensures Shaped(c, x)
    ensures if step.MasterPoll? then InPhase(c, Next(c, x, step), w, j, Concluding)
            else step.SlavePoll? && InPhase(c, Next(c, x, step), w, j, Read)
  {
    hide ImageFits, Fits, Encode, Frame, Transact, AnswerPdu, Meaning, AnswerFrame, RequestFrame, S.Poll, M.Poll;
    PhaseShaped(c, x, w, j, Read);
    match step
    case MasterPoll => MasterReads(c, x, w, j);
    case SlavePoll(other) =>
      PhaseIgnoresNote(c, x, w, j, Read);
      SlaveNotes(c, x, other);
    case _ =>
  }

  lemma FromConcluding(c: Setup, x: System, w: World, j: Job, step: Step)
    requires SetupOk(c) && WorldOk(c, w) && JobOk(j) && InPhase(c, x, w, j, Concluding) && Enabled(x, step)
    ensures Shaped(c, x)
    ensures if step.MasterPoll? then
              InPhase(c, Next(c, x, step), w, j, Failing) || InPhase(c, Next(c, x, step), Done(c, w, j), j, Idle)
            else step.SlavePoll? && InPhase(c, Next(c, x, step), w, j, Concluding)
  {
    hide ImageFits, Fits, Encode, Frame, Transact, AnswerPdu, Meaning, AnswerFrame, RequestFrame, S.Poll, M.Poll, Done;
    PhaseShaped(c, x, w, j, Concluding);
    match step
    case MasterPoll => MasterConcludes(c, x, w, j);
    case SlavePoll(other) =>
      PhaseIgnoresNote(c, x, w, j, Concluding);
      SlaveNotes(c, x, other);
    case _ =>
  }

  lemma FromFailing(c: Setup, x: System, w: World, j: Job, step: Step)
    requires SetupOk(c) && WorldOk(c, w) && JobOk(j) && InPhase(c, x, w, j, Failing) && Enabled(x, step)
    ensures Shaped(c, x)
    ensures if step.MasterPoll? then InPhase(c, Next(c, x, step), Done(c, w, j), j, Idle)
            else step.SlavePoll? && InPhase(c, Next(c, x, step), w, j, Failing)
  {
    hide ImageFits, Fits, Encode, Frame, Transact, AnswerPdu, Meaning, AnswerFrame, RequestFrame, S.Poll, M.Poll, Done;
    PhaseShaped(c, x, w, j, Failing);
    match step
    case MasterPoll => MasterGivesUp(c, x, w, j);
    case SlavePoll(other) =>
      PhaseIgnoresNote(c, x, w, j, Failing);
      SlaveNotes(c, x, other);
    case _ =>
  }
}
