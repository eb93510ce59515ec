/** A request and all it leads to, as one step: what the slave's data, the master's image and the result become. */
module Transaction {
  import opened Bytes
  import opened Octets
  import opened Modbus
  import opened Store
  import opened Requests
  import opened Image
  import opened MasterFunctions
  import opened Agreement
  import opened MasterMachine

  /** What the master and the slave on its bus know, and where the slave is. */
  datatype Setup = Setup(lm: Layout, ls: Layout, address: byte)

  datatype Job = Job(dest: byte, r: Request)

  /** The image, the slave's data, and the notes of the requests so far. */
  datatype World = World(image: Image, data: Data, log: seq<Note>)

  predicate SetupOk(c: Setup) {
    1 <= c.address
  }

  predicate WorldOk(c: Setup, w: World) {
    ImageFits(c.lm, w.image) && Fits(c.ls, w.data)
  }

  predicate JobOk(j: Job) {
    Sendable(j.r) && LegalArguments(j.dest, j.r)
  }

  /** What the master takes for one slave from its own broadcast: what was written, nothing for reads. */
  function TakenFromBroadcast(l: Layout, m: Image, dest: byte, r: Request): (t: Taken)
    requires ImageFits(l, m) && 1 <= dest <= MB_MASTER_TOTAL_SLAVE_NUM && WellFormed(r)
    ensures ImageFits(l, t.image)
  {
    if r.ReadHolding? || r.ReadCoils? || r.ReadWriteRegisters? then Taken(MB_EX_NONE, m)
    else if r.WriteCoils? && r.count == 0 then Taken(MB_EX_ILLEGAL_DATA_VALUE, m)
    else if !WriteRangeOk(l, r) then Taken(MB_EX_ILLEGAL_DATA_ADDRESS, m)
    else Taken(MB_EX_NONE, AbsorbedWrite(l, m, dest, r))
  }

  /** The same for slaves 1 to `j`. */
  function TakenForAll(l: Layout, m: Image, j: byte, r: Request): (t: Taken)
    requires ImageFits(l, m) && 1 <= j <= MB_MASTER_TOTAL_SLAVE_NUM && WellFormed(r)
    ensures ImageFits(l, t.image)
    decreases j
  {
    if j == 1 then TakenFromBroadcast(l, m, 1, r)
    else TakenFromBroadcast(l, TakenForAll(l, m, j - 1, r).image, j, r)
  }

  /** The PDU a slave answers with, an exception being reported with the function code marked. */
  function AnswerPdu(a: Answer, r: Request): (pdu: seq<byte>)
    requires WellFormed(r)
  {
    match a
    case Refused(why, _) => [Encode(r)[0] + MB_FUNC_ERROR, why.Code()]
    case Replied(pdu, _) => pdu
  }

  datatype Outcome = Outcome(result: Result, image: Image, data: Data)

  function Settled(t: Taken, data: Data): Outcome {
    Outcome(if t.exception == MB_EX_NONE then EV_MASTER_PROCESS_SUCESS else EV_MASTER_ERROR_EXECUTE_FUNCTION,
            t.image, data)
  }

  /** A broadcast is executed by all and answered by none; what no slave answers times out. */
  function Transact(c: Setup, w: World, j: Job): (o: Outcome)
    requires SetupOk(c) && WorldOk(c, w) && JobOk(j)
    ensures ImageFits(c.lm, o.image) && Fits(c.ls, o.data)
  {
    var a := Meaning(c.ls, w.data, j.r);
    if j.dest == MB_ADDRESS_BROADCAST then Settled(TakenForAll(c.lm, w.image, MB_MASTER_TOTAL_SLAVE_NUM, j.r), a.data)
    else if j.dest != c.address then Outcome(EV_MASTER_ERROR_RESPOND_TIMEOUT, w.image, w.data)
    else if a.Refused? then Outcome(EV_MASTER_ERROR_EXECUTE_FUNCTION, w.image, a.data)
    else Settled(Absorbed(c.lm, w.image, j.dest, c.ls, a.data, j.r), a.data)
  }

  /** The world after the transaction. */
  function Done(c: Setup, w: World, j: Job): (v: World)
    requires SetupOk(c) && WorldOk(c, w) && JobOk(j)
    ensures WorldOk(c, v)
  {
    var o := Transact(c, w, j);
    World(o.image, o.data, w.log + [Accepted, Finished(o.result), Released])
  }

  /** One transaction after the other. */
  function DoneAll(c: Setup, w: World, jobs: seq<Job>): (v: World)
    requires SetupOk(c) && WorldOk(c, w) && forall j <- jobs :: JobOk(j)
    ensures WorldOk(c, v)
    decreases |jobs|
  {
    if jobs == [] then w else DoneAll(c, Done(c, w, jobs[0]), jobs[1..])
  }

  // ---------- What the master takes from its own broadcast ----------

  lemma TakesOwnRegister(l: Layout, m: Image, dest: byte, i: Input, r: Request)
    requires ImageFits(l, m) && 1 <= dest <= MB_MASTER_TOTAL_SLAVE_NUM && InputOk(i) && r.WriteRegister?
    requires WellFormed(r) && i.frame == i.snd && i.len == |Encode(r)| && i.broadcast && Encode(r) <= i.snd
    ensures TakeWriteRegister(l, m, dest, i) == TakenFromBroadcast(l, m, dest, r)
  {
    hide Word, SetRegs, Fields;
    assert i.frame[1..5] == Encode(r)[1..5] == Fields(r.addr, r.value);
    FieldsAt(i.frame, 1, r.addr, r.value);
    assert RegsOf(i.frame[3..5], 1) == [Word(i.frame[3], i.frame[4])];
  }

  lemma TakesOwnRegisters(l: Layout, m: Image, dest: byte, i: Input, r: Request)
    requires ImageFits(l, m) && 1 <= dest <= MB_MASTER_TOTAL_SLAVE_NUM && InputOk(i) && r.WriteRegisters?
    requires WellFormed(r) && i.frame == i.snd && i.len == |Encode(r)| && i.broadcast && Encode(r) <= i.snd
    ensures TakeWriteRegisters(l, m, dest, i) == TakenFromBroadcast(l, m, dest, r)
  {
    hide Word, RegBytes, RegsOf, SetRegs, Fields;
    var n := |r.values|;
    PrefixParts(i.snd, [MB_FUNC_WRITE_MULTIPLE_REGISTERS] + Fields(r.addr, n) + [2 * n], RegBytes(r.values));
    assert i.snd[1..5] == i.snd[..6][1..5] == Fields(r.addr, n) && i.snd[5] == i.snd[..6][5];
    FieldsAt(i.snd, 1, r.addr, n);
    assert Clip(i.snd, 6, 2 * n) == RegBytes(r.values) == RegBytes(r.values) + [];
    RegsRoundTrip(r.values, []);
  }

  lemma TakesOwnCoil(l: Layout, m: Image, dest: byte, i: Input, r: Request)
    requires ImageFits(l, m) && 1 <= dest <= MB_MASTER_TOTAL_SLAVE_NUM && InputOk(i) && r.WriteCoil?
    requires WellFormed(r) && i.frame == i.snd && i.len == |Encode(r)| && i.broadcast && Encode(r) <= i.snd
    ensures TakeWriteCoil(l, m, dest, i) == TakenFromBroadcast(l, m, dest, r)
  {
    hide Word, BitString, SetBits;
    var v := if r.on then 0xFF00 else 0;
    assert i.frame[1..5] == Encode(r)[1..5] == Fields(r.addr, v);
    FieldsAt(i.frame, 1, r.addr, v);
    assert i.frame[3] == Hi(v) && i.frame[4] == Lo(v);
  }

  lemma TakesOwnCoils(l: Layout, m: Image, dest: byte, i: Input, r: Request)
    requires ImageFits(l, m) && 1 <= dest <= MB_MASTER_TOTAL_SLAVE_NUM && InputOk(i) && r.WriteCoils?
    requires WellFormed(r) && i.frame == i.snd && i.len == |Encode(r)| && i.broadcast && Encode(r) <= i.snd
    ensures TakeWriteCoils(l, m, dest, i) == TakenFromBroadcast(l, m, dest, r)
  {
    hide Word, BitString, SetBits, Fields;
    var n := r.count;
    PrefixParts(i.snd, [MB_FUNC_WRITE_MULTIPLE_COILS] + Fields(r.addr, n) + [CoilBytes(n)], r.packed);
    assert i.snd[1..5] == i.snd[..6][1..5] == Fields(r.addr, n) && i.snd[5] == i.snd[..6][5];
    FieldsAt(i.snd, 1, r.addr, n);
  }

  lemma TakesOwn(l: Layout, m: Image, dest: byte, i: Input, r: Request)
    requires ImageFits(l, m) && 1 <= dest <= MB_MASTER_TOTAL_SLAVE_NUM && InputOk(i)
    requires WellFormed(r) && i.frame == i.snd && i.len == |Encode(r)| && i.broadcast && Encode(r) <= i.snd
    ensures Take(l, m, dest, i) == TakenFromBroadcast(l, m, dest, r)
  {
    hide TakeWriteRegister, TakeWriteRegisters, TakeWriteCoil, TakeWriteCoils, RegBytes, Fields, AbsorbedWrite;
    assert i.frame[0] == Encode(r)[0];
    match r
    case WriteRegister(_, _) => TakesOwnRegister(l, m, dest, i, r);
    case WriteRegisters(_, _) => TakesOwnRegisters(l, m, dest, i, r);
    case WriteCoil(_, _) => TakesOwnCoil(l, m, dest, i, r);
    case WriteCoils(_, _, _) => TakesOwnCoils(l, m, dest, i, r);
    case _ =>
  }

  /** The loop over the slaves takes for every one what the broadcast wrote. */
  lemma {:induction false} TakesBroadcast(l: Layout, m: Image, j: byte, i: Input, r: Request)
    requires ImageFits(l, m) && 1 <= j <= MB_MASTER_TOTAL_SLAVE_NUM && InputOk(i)
    requires WellFormed(r) && i.frame == i.snd && i.len == |Encode(r)| && i.broadcast && Encode(r) <= i.snd
    ensures TakeAll(l, m, j, i) == TakenForAll(l, m, j, r)
    decreases j
  {
    hide Take, TakenFromBroadcast, Encode;
    if j == 1 {
      TakesOwn(l, m, 1, i, r);
    } else {
      TakesBroadcast(l, m, j - 1, i, r);
      TakesOwn(l, TakeAll(l, m, j - 1, i).image, j, i, r);
    }
  }

  // ---------- Nothing is read outside the buffers ----------

  lemma SentFields(r: Request, snd: seq<byte>)
    requires WellFormed(r) && Encode(r) <= snd
    ensures r.ReadHolding? || r.ReadCoils? || r.WriteCoils? || r.ReadWriteRegisters? ==> Word(snd[3], snd[4]) == r.count
    ensures r.WriteRegisters? ==> Word(snd[3], snd[4]) == |r.values|
    ensures r.ReadWriteRegisters? ==> |snd| >= 9 && Word(snd[7], snd[8]) == |r.values|
  {
    hide Word, RegBytes, Fields;
    match r
    case ReadHolding(a, n) =>
      assert snd[1..5] == Encode(r)[1..5] == Fields(a, n);
      FieldsAt(snd, 1, a, n);
    case ReadCoils(a, n) =>
      assert snd[1..5] == Encode(r)[1..5] == Fields(a, n);
      FieldsAt(snd, 1, a, n);
    case WriteRegisters(a, values) =>
      assert snd[1..5] == Encode(r)[1..5] == Fields(a, |values|);
      FieldsAt(snd, 1, a, |values|);
    case WriteCoils(a, n, packed) =>
      assert snd[1..5] == Encode(r)[1..5] == Fields(a, n);
      FieldsAt(snd, 1, a, n);
    case ReadWriteRegisters(a, n, wa, values) =>
      assert snd[1..5] == Encode(r)[1..5] == Fields(a, n);
      FieldsAt(snd, 1, a, n);
      assert snd[5..9] == Encode(r)[5..9] == Fields(wa, |values|);
      FieldsAt(snd, 5, wa, |values|);
    case _ =>
  }

  /** The reply to a request, and a broadcast request itself, are handled within the buffers. */
  lemma RepliesReadInside(l: Layout, d: Data, r: Request, i: Input)
    requires Fits(l, d) && WellFormed(r) && InputOk(i) && Encode(r) <= i.snd
    requires if i.broadcast then i.frame == i.snd
             else |i.frame| == MB_SER_PDU_SIZE_MAX - 1 && CountOk(r) && ReadRangeOk(l, r) && Reply(l, d, r) <= i.frame
    ensures ReadsInside(i)
  {
    hide Word, RegBytes, Fields, PackBits;
    SentFields(r, i.snd);
    assert i.frame[0] == Encode(r)[0];
    if r.WriteCoils? {
      assert i.frame[1..5] == Encode(r)[1..5] == Fields(r.addr, r.count) by {
        if !i.broadcast {
          assert Reply(l, d, r) == Encode(r)[..5];
        }
      }
      FieldsAt(i.frame, 1, r.addr, r.count);
    }
  }

  /**
   * Of a reply with the request's own function code, what reads past a buffer: a byte count of 254, which is of
   * 127 registers asked for; a count of coils beyond 2024 that were asked for; a count of coils in the reply that
   * is not the request's, and of at least 247 octets.
   */
  lemma ReadsInsideIff(r: Request, i: Input)
    requires Sendable(r) && InputOk(i) && Encode(r) <= i.snd
    requires !i.broadcast && |i.frame| == MB_SER_PDU_SIZE_MAX - 1 && i.frame[0] == Encode(r)[0]
    ensures ReadsInside(i) <==>
            match r
            case ReadHolding(_, n) => !(i.len >= 2 && n == 127 && i.frame[1] == 254)
            case ReadWriteRegisters(_, n, _, _) => !(i.len >= 2 && n == 127 && i.frame[1] == 254)
            case ReadCoils(_, n) => !(i.len >= 2 && n > 2024 && i.frame[1] == CoilBytes(n) % 0x100)
            case WriteCoils(_, n, _) =>
              var k := CoilBytes(Word(i.frame[3], i.frame[4]));
              !(i.len == 5 && k >= 247 && k % 0x100 == CoilBytes(n))
            case _ => true
  {
    hide Word, RegBytes, Fields, PackBits;
    SentFields(r, i.snd);
    SendableIff(r);
    SentCounts(r, i.snd);
  }

  lemma SentCounts(r: Request, snd: seq<byte>)
    requires WellFormed(r) && Encode(r) <= snd
    ensures r.WriteCoils? ==> snd[5] == CoilBytes(r.count)
    ensures r.WriteRegisters? ==> snd[5] == 2 * |r.values|
  {
    hide Word, RegBytes;
    assert forall k :: 0 <= k < |Encode(r)| ==> snd[k] == Encode(r)[k];
  }

  /** A reply of two octets to a request for 127 registers, which the request function takes, reads past its end. */
  lemma ReadsPastExample(a: u16, i: Input)
    requires InputOk(i) && Encode(ReadHolding(a, 127)) <= i.snd
    requires !i.broadcast && |i.frame| == MB_SER_PDU_SIZE_MAX - 1 && i.len == 2
    requires i.frame[..2] == [MB_FUNC_READ_HOLDING_REGISTER, 254]
    ensures Sendable(ReadHolding(a, 127)) && LegalArguments(1, ReadHolding(a, 127)) && !ReadsInside(i)
  {
    assert i.frame[0] == i.frame[..2][0] && i.frame[1] == i.frame[..2][1];
    ReadsInsideIff(ReadHolding(a, 127), i);
  }
}
