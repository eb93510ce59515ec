/** Every run of master and slave does one transaction after the other. */
module ExchangeRuns {
  import opened Bytes
  import opened Modbus
  import opened Rtu
  import opened Store
  import opened Requests
  import opened Image
  import opened Agreement
  import opened Transaction
  import opened Coherence
  import opened CoilCoherence
  import opened Exchange
  import M = MasterMachine
  import S = SlaveMachine

  /** The steps that can still come before the transaction in phase `p` is over, and the slave at rest. */
  function Budget(x: System, p: Phase): nat {
    var note := if x.s.events == {} then 0 else 1;
    match p
    case Idle => note
    case Failing => 1 + note
    case Concluding => 2 + note
    case Read => 3 + note
    case Answered => 4 + note
    case Answering => x.s.count + 6
    case Silent => 3 + note
    case Executing => MB_SER_PDU_SIZE_MAX + 7
    case Heard => MB_SER_PDU_SIZE_MAX + 8
    case Sent => MB_SER_PDU_SIZE_MAX + 9 + note
    case Sending => x.m.left + MB_SER_PDU_SIZE_MAX + 10 + note
    case Asked => x.m.pduLen + MB_SER_PDU_SIZE_MAX + 14 + note
  }

  lemma NoteSpends(c: Setup, x: System, w: World, j: Job, p: Phase, step: Step)
    requires SetupOk(c) && WorldOk(c, w) && JobOk(j) && InPhase(c, x, w, j, p) && Enabled(x, step) && Shaped(c, x)
    requires step.SlavePoll? && x.s.events == {S.EV_FRAME_SENT}
    ensures Budget(Next(c, x, step), p) < Budget(x, p)
  {
    hide ImageFits, Fits, Encode, Frame, Transact, AnswerPdu, Meaning, AnswerFrame, RequestFrame, S.Poll, Awaiting,
      MasterBusy, MasterHears;
    SlaveNotesSent(c, x.s, step.other);
  }

  /** Sending uses up octets. */
  lemma OctetSpends(c: Setup, x: System, w: World, j: Job, p: Phase, step: Step)
    requires SetupOk(c) && WorldOk(c, w) && JobOk(j) && InPhase(c, x, w, j, p) && Enabled(x, step) && Shaped(c, x)
    requires || (p == Sending && step.MasterSends? && x.m.left != 0)
             || (p == Answering && step.SlaveSends? && x.s.count != 0)
    ensures Budget(Next(c, x, step), p) < Budget(x, p)
  {
    hide ImageFits, Fits, Encode, Frame, Transact, AnswerPdu, Meaning, AnswerFrame, RequestFrame, Awaiting,
      MasterBusy, MasterHears, M.RtuByteReceived;
    if p == Sending {
      SlaveIsHearing(c, x.s, w.data, RequestFrame(j), x.m.next);
    }
  }

  lemma OctetsToSend(c: Setup, x: System, w: World, j: Job, p: Phase)
    requires SetupOk(c) && WorldOk(c, w) && JobOk(j) && InPhase(c, x, w, j, p)
    ensures p == Asked ==> x.m.pduLen == |Encode(j.r)|
    ensures p == Sending ==> x.m.left <= |Encode(j.r)| + 3
    ensures p == Answering ==> x.s.count < MB_SER_PDU_SIZE_MAX
  {
    hide ImageFits, Fits, Encode, Frame, Transact, AnswerPdu, Meaning, SlaveHears, MasterHears;
  }

  lemma PhaseSpends(c: Setup, x: System, w: World, j: Job, p: Phase, y: System, v: World, q: Phase)
    requires SetupOk(c) && WorldOk(c, w) && WorldOk(c, v) && JobOk(j) && InPhase(c, x, w, j, p)
    requires InPhase(c, y, v, j, q)
    requires match p case Idle => false case Asked => q == Sending case Sending => q == Sent case Sent => q == Heard
               case Heard => q == Executing || q == Silent case Executing => q == Silent || q == Answering
               case Silent => q == Concluding || q == Failing case Answering => q == Answered case Answered => q == Read
               case Read => q == Concluding case Concluding => q == Failing || q == Idle case Failing => q == Idle
    requires x.s == y.s || p == Sent || p == Heard || p == Executing || p == Answering
    ensures Budget(y, q) < Budget(x, p)
  {
    hide InPhase, Encode, JobOk;
    OctetsToSend(c, x, w, j, p);
    OctetsToSend(c, y, v, j, q);
  }

  /** A step that is not a request takes the transaction further, or ends it. */
  lemma StepFrom(c: Setup, x: System, w: World, j: Job, p: Phase, step: Step) returns (q: Phase)
    requires SetupOk(c) && WorldOk(c, w) && JobOk(j) && InPhase(c, x, w, j, p) && Enabled(x, step) && !step.Request?
    ensures Shaped(c, x) && Budget(Next(c, x, step), q) < Budget(x, p)
    ensures InPhase(c, Next(c, x, step), if p != Idle && q == Idle then Done(c, w, j) else w, j, q)
    ensures p == Idle ==> q == Idle
  {
    hide InPhase, Next, Done, Transact, JobOk, Budget;
    PhaseShaped(c, x, w, j, p);
    q := p;
    match p {
      case Idle => FromIdle(c, x, w, j, step);
      case Asked => FromAsked(c, x, w, j, step); q := if step.MasterPoll? then Sending else p;
      case Sending => FromSending(c, x, w, j, step); q := if step.MasterSends? && x.m.left == 0 then Sent else p;
      case Sent => FromSent(c, x, w, j, step); q := if step.SlaveTimer? then Heard else p;
      case Heard => FromHeard(c, x, w, j, step);
        q := if j.dest == c.address || j.dest == MB_ADDRESS_BROADCAST then Executing else Silent;
      case Executing => FromExecuting(c, x, w, j, step);
        q := if j.dest == MB_ADDRESS_BROADCAST then Silent else Answering;
      case Silent => FromSilent(c, x, w, j, step);
        q := if !step.MasterTimer? then p else if j.dest == MB_ADDRESS_BROADCAST then Concluding else Failing;
      case Answering => FromAnswering(c, x, w, j, step); q := if x.s.count != 0 then p else Answered;
      case Answered => FromAnswered(c, x, w, j, step); q := if step.MasterTimer? then Read else p;
      case Read => FromRead(c, x, w, j, step); q := if step.MasterPoll? then Concluding else p;
      case Concluding => FromConcluding(c, x, w, j, step);
        q := if !step.MasterPoll? then p else if InPhase(c, Next(c, x, step), w, j, Failing) then Failing else Idle;
      case Failing => FromFailing(c, x, w, j, step); q := if step.MasterPoll? then Idle else p;
    }
    if q != p {
      if step.MasterPoll? || step.MasterTimer? || step.MasterSends? {
        SlaveKept(c, x, step);
      }
      PhaseSpends(c, x, w, j, p, Next(c, x, step), if q == Idle then Done(c, w, j) else w, q);
    } else if (p == Sending && step.MasterSends?) || p == Answering {
      OctetSpends(c, x, w, j, p, step);
    } else {
      OnlyNotes(c, x, w, j, p, step);
      NoteSpends(c, x, w, j, p, step);
    }
  }

  lemma SlaveKept(c: Setup, x: System, step: Step)
    requires Shaped(c, x) && Enabled(x, step)
    requires (step.MasterPoll? || step.MasterTimer? || (step.MasterSends? && x.m.left == 0))
    ensures Next(c, x, step).s == x.s
  {
    hide M.Poll, M.RtuTimerExpired;
  }

  lemma OnlyNotes(c: Setup, x: System, w: World, j: Job, p: Phase, step: Step)
    requires SetupOk(c) && WorldOk(c, w) && JobOk(j) && InPhase(c, x, w, j, p) && Enabled(x, step) && step.SlavePoll?
    requires p != Heard && p != Executing && p != Answering
    ensures x.s.events == {S.EV_FRAME_SENT}
  {
    hide ImageFits, Fits, Encode, Frame, Transact, AnswerPdu, Meaning, AnswerFrame, RequestFrame, Awaiting,
      MasterBusy, MasterHears;
  }

  /** While a transaction is under way some callback or poll loop can run. */
  lemma NoDeadlock(c: Setup, x: System, w: World, j: Job, p: Phase)
    requires SetupOk(c) && WorldOk(c, w) && JobOk(j) && InPhase(c, x, w, j, p) && p != Idle
    ensures exists step: Step :: !step.Request? && Enabled(x, step)
  {
    hide ImageFits, Fits, Encode, Frame, Transact, AnswerPdu, Meaning, AnswerFrame, RequestFrame, MasterBusy;
    assert x.m.events != {} ==> Enabled(x, MasterPoll);
    assert x.m.txOn ==> Enabled(x, MasterSends);
    assert x.s.events != {} ==> Enabled(x, SlavePoll(S.EV_READY));
    assert x.s.txOn ==> Enabled(x, SlaveSends);
    assert x.s.timerOn && !x.m.txOn && x.s.events == {} ==> Enabled(x, SlaveTimer);
    assert x.m.timerOn && Resting(x.s) ==> Enabled(x, MasterTimer);
  }

  // ---------- Assertions ----------

  /**
   * What the callbacks on either side assert, an octet put out by one being received by the other; and that the
   * master takes fewer octets than it has room for, and executes nothing that reads outside its buffers.
   */
  predicate AssertionsHold(x: System, step: Step)
    requires |x.m.snd| == MB_PDU_SIZE_MAX && |x.m.rcv| == MB_SER_PDU_SIZE_MAX
  {
    match step
    case Request(_) => true
    case MasterPoll =>
      && (M.Posted(x.m.events) == M.EV_MASTER_FRAME_RECEIVED ==> x.m.pos < MB_SER_PDU_SIZE_MAX)
      && (M.Posted(x.m.events) == M.EV_MASTER_EXECUTE ==> M.Executable(x.m) && M.StaysInside(x.m))
    case MasterSends => x.m.rcvState == M.STATE_M_RX_IDLE && (x.s.rxOn ==> x.s.snd == S.STATE_TX_IDLE)
    case MasterTimer => x.m.sndState == M.STATE_M_TX_XFWR || x.m.sndState == M.STATE_M_TX_IDLE
    case SlavePoll(_) => x.s.pos <= MB_SER_PDU_SIZE_MAX
    case SlaveSends =>
      && x.s.rcv == S.STATE_RX_IDLE
      && (x.m.rxOn ==> x.m.sndState == M.STATE_M_TX_IDLE || x.m.sndState == M.STATE_M_TX_XFWR)
    case SlaveTimer => x.s.rcv != S.STATE_RX_IDLE
  }

  lemma PhaseAssertions(c: Setup, x: System, w: World, j: Job, p: Phase, step: Step)
    requires SetupOk(c) && WorldOk(c, w) && JobOk(j) && InPhase(c, x, w, j, p) && Enabled(x, step)
    ensures Shaped(c, x) && AssertionsHold(x, step)
  {
    hide ImageFits, Fits, Encode, Frame, Transact, AnswerPdu, Meaning, AnswerFrame, RequestFrame, M.StaysInside;
    PhaseShaped(c, x, w, j, p);
    if p == Concluding {
      MasterStaysInside(c, x, w, j);
    }
    if p == Sending {
      SlaveIsHearing(c, x.s, w.data, RequestFrame(j), x.m.next);
    }
  }

  // ---------- Runs ----------

  /** A state some transaction can be in. */
  ghost predicate Inv(c: Setup, x: System) {
    SetupOk(c) && exists w: World, j: Job, p: Phase :: WorldOk(c, w) && JobOk(j) && InPhase(c, x, w, j, p)
  }

  lemma StepKeepsInv(c: Setup, x: System, step: Step)
    requires Inv(c, x) && Enabled(x, step)
    ensures Shaped(c, x) && Inv(c, Next(c, x, step))
  {
    hide InPhase, Next, Done, Transact, JobOk, Budget;
    var w: World, j: Job, p: Phase :| WorldOk(c, w) && JobOk(j) && InPhase(c, x, w, j, p);
    if step.Request? {
      OnlyWhenIdle(c, x, w, j, p, step);
      FromIdle(c, x, w, j, step);
    } else {
      var q := StepFrom(c, x, w, j, p, step);
    }
  }

  /** In no run of the two does an assertion fail, or the master read outside its buffers. */
  lemma NoAssertionFails(c: Setup, x: System, step: Step)
    requires Inv(c, x) && Enabled(x, step)
    ensures Shaped(c, x) && AssertionsHold(x, step)
  {
    hide InPhase, JobOk, Enabled, AssertionsHold, Shaped;
    var w: World, j: Job, p: Phase :| WorldOk(c, w) && JobOk(j) && InPhase(c, x, w, j, p);
    PhaseAssertions(c, x, w, j, p, step);
  }

  lemma OnlyWhenIdle(c: Setup, x: System, w: World, j: Job, p: Phase, step: Step)
    requires SetupOk(c) && WorldOk(c, w) && JobOk(j) && InPhase(c, x, w, j, p) && Enabled(x, step) && step.Request?
    ensures p == Idle && JobOk(step.job)
  {
    hide ImageFits, Fits, Encode, Frame, Transact, AnswerPdu, Meaning, AnswerFrame, RequestFrame;
  }

  ghost predicate IsRun(c: Setup, x: System, run: seq<Step>)
    requires Inv(c, x)
    decreases |run|
  {
    run == [] ||
    (Enabled(x, run[0]) && (StepKeepsInv(c, x, run[0]); IsRun(c, Next(c, x, run[0]), run[1..])))
  }

  /** The state a run leads to. */
  ghost function After(c: Setup, x: System, run: seq<Step>): (y: System)
    requires Inv(c, x) && IsRun(c, x, run)
    decreases |run|
  {
    if run == [] then x else (StepKeepsInv(c, x, run[0]); After(c, Next(c, x, run[0]), run[1..]))
  }

  /** The requests a run makes. */
  function Jobs(run: seq<Step>): seq<Job> {
    if run == [] then [] else (match run[0] case Request(job) => [job] case _ => []) + Jobs(run[1..])
  }

  predicate AllOk(jobs: seq<Job>) {
    forall j <- jobs :: JobOk(j)
  }

  ghost predicate UnderWay(c: Setup, x: System, w: World, j: Job, p: Phase)
    requires SetupOk(c) && WorldOk(c, w) && JobOk(j)
  {
    p != Idle && InPhase(c, x, w, j, p)
  }

  ghost predicate Busy(c: Setup, x: System, w: World, j: Job)
    requires SetupOk(c) && WorldOk(c, w) && JobOk(j)
  {
    exists p: Phase :: UnderWay(c, x, w, j, p)
  }

  /** All of `jobs` done from `w` and nothing under way, or all but the last and that one under way. */
  ghost predicate Stands(c: Setup, w: World, jobs: seq<Job>, y: System)
    requires SetupOk(c) && WorldOk(c, w) && AllOk(jobs)
  {
    || AtRest(c, y, DoneAll(c, w, jobs))
    || (jobs != [] && Busy(c, y, DoneAll(c, w, jobs[..|jobs| - 1]), jobs[|jobs| - 1]))
  }

  /** The job under way, if there is one. */
  function Pending(p: Phase, j: Job): seq<Job> {
    if p == Idle then [] else [j]
  }

  lemma IdleIsRest(c: Setup, x: System, w: World, j: Job, p: Phase)
    requires SetupOk(c) && WorldOk(c, w) && JobOk(j)
    ensures InPhase(c, x, w, j, Idle) <==> AtRest(c, x, w)
  {
    hide Transact, AtRest, AnswerFrame, RequestFrame;
  }

  lemma StandsFurther(c: Setup, w: World, j: Job, jobs: seq<Job>, y: System)
    requires SetupOk(c) && WorldOk(c, w) && JobOk(j) && AllOk(jobs) && Stands(c, Done(c, w, j), jobs, y)
    ensures AllOk([j] + jobs) && Stands(c, w, [j] + jobs, y)
  {
    hide InPhase, Done, Transact, JobOk, AtRest, UnderWay;
    var all := [j] + jobs;
    assert all[1..] == jobs;
    if jobs != [] {
      assert all[..|all| - 1][1..] == jobs[..|jobs| - 1];
    }
  }

  lemma {:induction false} RunSerializes(c: Setup, x: System, w: World, j: Job, p: Phase, run: seq<Step>)
    requires SetupOk(c) && WorldOk(c, w) && JobOk(j) && InPhase(c, x, w, j, p) && Inv(c, x) && IsRun(c, x, run)
    ensures AllOk(Pending(p, j) + Jobs(run))
    ensures Stands(c, w, Pending(p, j) + Jobs(run), After(c, x, run))
    decreases |run|
  {
    hide InPhase, Next, Done, Transact, JobOk, Budget, Inv, Enabled, AtRest;
    if run == [] {
      IdleIsRest(c, x, w, j, p);
      assert Pending(p, j) + Jobs(run) == Pending(p, j);
      if p != Idle {
        assert [j][..0] == [];
        assert DoneAll(c, w, [j][..0]) == w;
        assert UnderWay(c, x, w, j, p);
      }
    } else {
      var step, rest := run[0], run[1..];
      assert Enabled(x, step);
      StepKeepsInv(c, x, step);
      var y := Next(c, x, step);
      if step.Request? {
        OnlyWhenIdle(c, x, w, j, p, step);
        FromIdle(c, x, w, j, step);
        RunSerializes(c, y, w, step.job, Asked, rest);
        assert Pending(p, j) + Jobs(run) == Pending(Asked, step.job) + Jobs(rest);
      } else {
        var q := StepFrom(c, x, w, j, p, step);
        assert Jobs(run) == Jobs(rest);
        if p != Idle && q == Idle {
          RunSerializes(c, y, Done(c, w, j), j, q, rest);
          assert Pending(q, j) + Jobs(rest) == Jobs(rest);
          StandsFurther(c, w, j, Jobs(rest), After(c, y, rest));
        } else {
          RunSerializes(c, y, w, j, q, rest);
          assert Pending(q, j) == Pending(p, j);
        }
      }
    }
  }

  const ANY_JOB := Job(0, ReadHolding(0, 0))

  lemma RestIsIdle(c: Setup, x: System, w: World)
    requires SetupOk(c) && WorldOk(c, w) && AtRest(c, x, w)
    ensures JobOk(ANY_JOB) && InPhase(c, x, w, ANY_JOB, Idle) && Inv(c, x)
  {
    hide Transact, AtRest, AnswerFrame, RequestFrame, RegBytes;
  }

  /**
   * Whatever the interleaving, whenever no request is under way the master's image, the slave's data and the
   * reported results are those of doing the requests made so far one after the other, each as one step; and
   * while one is under way, all before it have been done and reported so.
   */
  lemma Serializable(c: Setup, x: System, w: World, run: seq<Step>)
    requires SetupOk(c) && WorldOk(c, w) && AtRest(c, x, w) && Inv(c, x) && IsRun(c, x, run)
    ensures AllOk(Jobs(run))
    ensures var y, jobs := After(c, x, run), Jobs(run);
            && (y.m.token == 0 || y.m.token == 1)
            && (y.m.token == 1 ==> World(y.m.image, y.s.data, y.m.log) == DoneAll(c, w, jobs))
            && (y.m.token == 0 ==> jobs != [] && y.m.log == DoneAll(c, w, jobs[..|jobs| - 1]).log + [M.Accepted])
  {
    hide InPhase, IsRun, JobOk, Inv, Enabled, DoneAll, After, Jobs, AtRest, Busy;
    RestIsIdle(c, x, w);
    RunSerializes(c, x, w, ANY_JOB, Idle, run);
    var y, jobs := After(c, x, run), Jobs(run);
    assert Pending(Idle, ANY_JOB) + jobs == jobs;
    if AtRest(c, y, DoneAll(c, w, jobs)) {
      WorldAtRest(c, y, DoneAll(c, w, jobs));
    } else {
      NotedWhileBusy(c, y, DoneAll(c, w, jobs[..|jobs| - 1]), jobs[|jobs| - 1]);
    }
  }

  lemma WorldAtRest(c: Setup, x: System, w: World)
    requires SetupOk(c) && WorldOk(c, w) && AtRest(c, x, w)
    ensures x.m.token == 1 && World(x.m.image, x.s.data, x.m.log) == w
  {
    hide ImageFits, Fits;
  }

  lemma NotedWhileBusy(c: Setup, x: System, w: World, j: Job)
    requires SetupOk(c) && WorldOk(c, w) && JobOk(j) && Busy(c, x, w, j)
    ensures x.m.token == 0 && x.m.log == w.log + [M.Accepted]
  {
    hide InPhase, JobOk;
    var p: Phase :| UnderWay(c, x, w, j, p);
    BusyUnderWay(c, x, w, j, p);
  }

  lemma BusyUnderWay(c: Setup, x: System, w: World, j: Job, p: Phase)
    requires SetupOk(c) && WorldOk(c, w) && JobOk(j) && UnderWay(c, x, w, j, p)
    ensures x.m.token == 0 && x.m.log == w.log + [M.Accepted]
  {
    hide ImageFits, Fits, Encode, Frame, Transact, AnswerPdu, Meaning, AnswerFrame, RequestFrame;
  }

  lemma {:induction false} RunSettles(c: Setup, x: System, w: World, j: Job, p: Phase, run: seq<Step>)
    requires SetupOk(c) && WorldOk(c, w) && JobOk(j) && InPhase(c, x, w, j, p) && Inv(c, x) && IsRun(c, x, run)
    requires Jobs(run) == []
    ensures |run| <= Budget(x, p)
    ensures (forall step: Step :: Enabled(After(c, x, run), step) ==> step.Request?) ==>
              AtRest(c, After(c, x, run), if p == Idle then w else Done(c, w, j))
    decreases |run|
  {
    hide InPhase, Next, Done, Transact, JobOk, Budget, Inv, Enabled, AtRest;
    if run == [] {
      IdleIsRest(c, x, w, j, p);
      if p != Idle {
        NoDeadlock(c, x, w, j, p);
      }
    } else {
      assert Enabled(x, run[0]);
      StepKeepsInv(c, x, run[0]);
      var q := StepFrom(c, x, w, j, p, run[0]);
      RunSettles(c, Next(c, x, run[0]), if p != Idle && q == Idle then Done(c, w, j) else w, j, q, run[1..]);
    }
  }

  /**
   * A request made at rest is always completed: however the callbacks, timers and polls come, no more than
   * this many can come, and when none can any more the system is at rest with the transaction done.
   */
  lemma RequestCompletes(c: Setup, x: System, w: World, job: Job, run: seq<Step>)
    requires SetupOk(c) && WorldOk(c, w) && AtRest(c, x, w) && JobOk(job)
    requires Enabled(x, Request(job)) && Shaped(c, x) && Inv(c, Next(c, x, Request(job)))
    requires IsRun(c, Next(c, x, Request(job)), run) && Jobs(run) == []
    ensures |run| <= |Encode(job.r)| + MB_SER_PDU_SIZE_MAX + 15
    ensures var y := After(c, Next(c, x, Request(job)), run);
            (forall step: Step :: Enabled(y, step) ==> step.Request?) ==> AtRest(c, y, Done(c, w, job))
  {
    hide InPhase, IsRun, JobOk, Inv, Enabled, AtRest, Done, Encode;
    RestIsIdle(c, x, w);
    FromIdle(c, x, w, ANY_JOB, Request(job));
    RunSettles(c, Next(c, x, Request(job)), w, job, Asked, run);
  }

  // ---------- Runs there are ----------

  /** From any phase a run finishes the transaction and then does `jobs`, in this order. */
  lemma {:induction false} Perform(c: Setup, x: System, w: World, j: Job, p: Phase, jobs: seq<Job>)
    returns (run: seq<Step>)
    requires SetupOk(c) && WorldOk(c, w) && JobOk(j) && InPhase(c, x, w, j, p) && Inv(c, x) && AllOk(jobs)
    ensures IsRun(c, x, run) && Jobs(run) == jobs
    ensures AtRest(c, After(c, x, run), DoneAll(c, if p == Idle then w else Done(c, w, j), jobs))
    decreases |jobs|, Budget(x, p)
  {
    hide InPhase, Next, Done, Transact, JobOk, Budget, Inv, Enabled, AtRest;
    if p == Idle {
      IdleIsRest(c, x, w, j, p);
      if jobs == [] {
        run := [];
      } else {
        var step := Request(jobs[0]);
        RestTakesRequest(c, x, w, jobs[0]);
        StepKeepsInv(c, x, step);
        FromIdle(c, x, w, j, step);
        var rest := Perform(c, Next(c, x, step), w, jobs[0], Asked, jobs[1..]);
        run := [step] + rest;
        assert run[1..] == rest;
      }
    } else {
      NoDeadlock(c, x, w, j, p);
      var step: Step :| !step.Request? && Enabled(x, step);
      StepKeepsInv(c, x, step);
      var q := StepFrom(c, x, w, j, p, step);
      var rest := Perform(c, Next(c, x, step), if q == Idle then Done(c, w, j) else w, j, q, jobs);
      run := [step] + rest;
      assert run[1..] == rest;
    }
  }

  lemma RestTakesRequest(c: Setup, x: System, w: World, job: Job)
    requires AtRest(c, x, w) && JobOk(job)
    ensures Enabled(x, Request(job))
  {
    hide JobOk;
  }

  /** Master and slave in a state of rest. */
  function RestingSystem(c: Setup, w: World): System {
    System(
      M.Master(M.STATE_M_RX_IDLE, M.STATE_M_TX_IDLE, seq(MB_PDU_SIZE_MAX, _ => 0), 0, 0, 0,
        seq(MB_SER_PDU_SIZE_MAX, _ => 0), 0, false, M.MB_TMODE_T35, true, false, false, {},
        M.STATE_ESTABLISHED, 0, M.EV_ERROR_RESPOND_TIMEOUT, M.InReceive,
        0, 0, w.image, 1, w.log),
      S.Slave(S.STATE_RX_IDLE, S.STATE_TX_IDLE, seq(MB_SER_PDU_SIZE_MAX, _ => 0), 0, 0, 0,
        true, false, false, {}, true, c.address, 0, 0, w.data))
  }

  lemma RestingSystemRests(c: Setup, w: World)
    requires SetupOk(c) && WorldOk(c, w)
    ensures AtRest(c, RestingSystem(c, w), w)
  {
    hide ImageFits, Fits;
  }

  /**
   * Any requests can be made and will be carried out in order: from any image and data there is a system at rest
   * and a run of it that makes just these requests and ends at rest.
   */
  lemma EverySequenceRuns(c: Setup, w: World, jobs: seq<Job>) returns (x: System, run: seq<Step>)
    requires SetupOk(c) && WorldOk(c, w) && AllOk(jobs)
    ensures AtRest(c, x, w) && Inv(c, x) && IsRun(c, x, run) && Jobs(run) == jobs
    ensures AtRest(c, After(c, x, run), DoneAll(c, w, jobs))
  {
    hide InPhase, IsRun, JobOk, Inv, AtRest, DoneAll, After, Jobs;
    x := RestingSystem(c, w);
    RestingSystemRests(c, w);
    RestIsIdle(c, x, w);
    run := Perform(c, x, w, ANY_JOB, Idle, jobs);
  }

  // ---------- End to end ----------

  lemma {:induction false} DoneAllLast(c: Setup, w: World, jobs: seq<Job>)
    requires SetupOk(c) && WorldOk(c, w) && AllOk(jobs) && jobs != []
    ensures AllOk(jobs[..|jobs| - 1])
    ensures DoneAll(c, w, jobs) == Done(c, DoneAll(c, w, jobs[..|jobs| - 1]), jobs[|jobs| - 1])
    decreases |jobs|
  {
    hide Done, JobOk;
    if |jobs| > 1 {
      DoneAllLast(c, Done(c, w, jobs[0]), jobs[1..]);
      assert jobs[1..][..|jobs| - 2] == jobs[..|jobs| - 1][1..];
    }
  }

  /** What is to hold of image and data after job `j`, done in world `before` with the result reported. */
  ghost predicate EndToEnd(c: Setup, before: World, j: Job, image: Image, data: Data, result: M.Result)
    requires WorldOk(c, before) && ImageFits(c.lm, image) && Fits(c.ls, data)
    requires 1 <= j.dest <= MB_MASTER_TOTAL_SLAVE_NUM && WellFormed(j.r)
  {
    && RegsOtherwiseKept(c.lm, before.image, image, j.dest, c.ls, data, j.r)
    && (PaddingClear(j.r) ==> CoilsOtherwiseKept(c.lm, before.image, image, j.dest, c.ls, data, j.r))
    && (result == M.EV_MASTER_PROCESS_SUCESS ==> AgreesWhereNamed(c, image, data, j))
  }

  /** The last job is for this slave. */
  ghost predicate LastIsHere(c: Setup, jobs: seq<Job>)
    requires AllOk(jobs) && jobs != []
  {
    var j := jobs[|jobs| - 1];
    JobOk(j) && j.dest == c.address
  }

  ghost predicate LastEndToEnd(c: Setup, w: World, jobs: seq<Job>, y: System)
    requires SetupOk(c) && WorldOk(c, w) && AllOk(jobs) && jobs != []
  {
    var j := jobs[|jobs| - 1];
    && JobOk(j) && 1 <= j.dest && ImageFits(c.lm, y.m.image) && Fits(c.ls, y.s.data)
    && |y.m.log| >= 3 && y.m.log[|y.m.log| - 2].Finished?
    && EndToEnd(c, DoneAll(c, w, jobs[..|jobs| - 1]), j, y.m.image, y.s.data, y.m.log[|y.m.log| - 2].result)
  }

  lemma TransactionEndToEnd(c: Setup, w: World, j: Job)
    requires SetupOk(c) && WorldOk(c, w) && JobOk(j) && j.dest == c.address
    ensures var o := Transact(c, w, j); EndToEnd(c, w, j, o.image, o.data, o.result)
  {
    hide Transact, AgreesWhereNamed, RegsOtherwiseKept, CoilsOtherwiseKept, Encode, PaddingClear;
    TransactionAgrees(c, w, j);
  }

  /**
   * End to end: after any run from rest, when the last request was to the slave and its reported result is a
   * success, the master's image holds the slave's value of every register and coil the request read or wrote;
   * whatever the result, the image differs nowhere else from what it was before that request, as to coils if the
   * request's padding bits are clear.
   */
  lemma ImageAgreesAfterRun(c: Setup, x: System, w: World, run: seq<Step>)
    requires SetupOk(c) && WorldOk(c, w) && AtRest(c, x, w) && Inv(c, x) && IsRun(c, x, run)
    requires After(c, x, run).m.token == 1 && Jobs(run) != [] && AllOk(Jobs(run)) && LastIsHere(c, Jobs(run))
    ensures LastEndToEnd(c, w, Jobs(run), After(c, x, run))
  {
    hide InPhase, IsRun, Inv, Enabled, Transact, DoneAll, EndToEnd, PaddingClear, AtRest, After, Jobs, Encode;
    var jobs := Jobs(run);
    var j := jobs[|jobs| - 1];
    Serializable(c, x, w, run);
    DoneAllLast(c, w, jobs);
    TransactionEndToEnd(c, DoneAll(c, w, jobs[..|jobs| - 1]), j);
  }

  /** Over whole runs: whenever no request is under way, the image holds every register of the slave. */
  lemma CoherentAfterRun(c: Setup, x: System, w: World, run: seq<Step>)
    requires SetupOk(c) && WorldOk(c, w) && AtRest(c, x, w) && Inv(c, x) && IsRun(c, x, run)
    requires c.lm == c.ls && c.address <= MB_MASTER_TOTAL_SLAVE_NUM && Coherent(c, w.image, w.data)
    requires After(c, x, run).m.token == 1 && Faithful(c, Jobs(run))
    ensures var y := After(c, x, run);
            WorldOk(c, World(y.m.image, y.s.data, [])) && Coherent(c, y.m.image, y.s.data)
  {
    hide InPhase, IsRun, Inv, Enabled, Transact, DoneAll, AtRest, After, Jobs, Coherent, Faithful;
    Serializable(c, x, w, run);
    CoherentThroughout(c, w, Jobs(run));
  }

  /** And every coil, if no broadcast has padding bits set. */
  lemma CoilsCoherentAfterRun(c: Setup, x: System, w: World, run: seq<Step>)
    requires SetupOk(c) && WorldOk(c, w) && AtRest(c, x, w) && Inv(c, x) && IsRun(c, x, run)
    requires c.lm == c.ls && c.address <= MB_MASTER_TOTAL_SLAVE_NUM && CoilsCoherent(c, w.image, w.data)
    requires After(c, x, run).m.token == 1 && AllClean(Jobs(run))
    ensures var y := After(c, x, run);
            WorldOk(c, World(y.m.image, y.s.data, [])) && CoilsCoherent(c, y.m.image, y.s.data)
  {
    hide InPhase, IsRun, Inv, Enabled, Transact, DoneAll, AtRest, After, Jobs, CoilsCoherent, AllClean;
    Serializable(c, x, w, run);
    CoilsCoherentThroughout(c, w, Jobs(run));
  }
}
