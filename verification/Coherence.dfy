/** What transactions make of the master's image: where it agrees with the slave's data, and where it cannot. */
module Coherence {
  import opened Bytes
  import opened Octets
  import opened Modbus
  import opened CoilCopy
  import opened Store
  import opened Requests
  import opened Image
  import opened Agreement
  import opened Transaction
  import M = MasterMachine

  /** The image of one slave after a transaction with it agrees wherever the request succeeded in naming. */
  ghost predicate AgreesWhereNamed(c: Setup, image: Image, data: Data, j: Job)
    requires ImageFits(c.lm, image) && Fits(c.ls, data) && 1 <= j.dest <= MB_MASTER_TOTAL_SLAVE_NUM
  {
    && (forall a: u16 :: NamesReg(j.r, a) ==> SameReg(c.lm, image, j.dest, c.ls, data, a))
    && (forall a: u16 :: NamesCoil(j.r, a) ==> SameCoil(c.lm, image, j.dest, c.ls, data, a))
  }

  /**
   * A transaction with the slave: on success the image holds the slave's value of every register and coil read
   * or written; whatever the result, every other entry of the image, of this slave and of all others, is kept,
   * coils if the request's padding is clear; an exception leaves the image as it was.
   */
  lemma TransactionAgrees(c: Setup, w: World, j: Job)
    requires SetupOk(c) && WorldOk(c, w) && JobOk(j) && j.dest == c.address
    ensures var o := Transact(c, w, j);
            && (o.result == M.EV_MASTER_PROCESS_SUCESS ==> AgreesWhereNamed(c, o.image, o.data, j))
            && RegsOtherwiseKept(c.lm, w.image, o.image, j.dest, c.ls, o.data, j.r)
            && (PaddingClear(j.r) ==> CoilsOtherwiseKept(c.lm, w.image, o.image, j.dest, c.ls, o.data, j.r))
            && (Meaning(c.ls, w.data, j.r).Refused? ==>
                  o.result == M.EV_MASTER_ERROR_EXECUTE_FUNCTION && o.image == w.image)
  {
    hide Absorbed, NamesReg, NamesCoil, SameReg, SameCoil, Meaning, PaddingClear, RegIndex, CoilIndex, Encode;
    AnswerKeepsFit(c.ls, w.data, j.r);
    if Meaning(c.ls, w.data, j.r).Replied? {
      RegistersAgree(c.lm, w.image, j.dest, c.ls, w.data, j.r);
      CoilsAgree(c.lm, w.image, j.dest, c.ls, w.data, j.r);
    }
  }

  lemma AnswerKeepsFit(l: Layout, d: Data, r: Request)
    requires Fits(l, d) && WellFormed(r)
    ensures Fits(l, Meaning(l, d, r).data)
    ensures Meaning(l, d, r).Replied? ==> ReadRangeOk(l, r)
  {
    hide Reply, Written;
  }

  // ---------- Coherence of all registers ----------

  /** Every register of the slave is what the image says it is. */
  ghost predicate Coherent(c: Setup, image: Image, data: Data)
    requires ImageFits(c.lm, image) && Fits(c.ls, data) && 1 <= c.address <= MB_MASTER_TOTAL_SLAVE_NUM
  {
    forall a: u16 :: HasRegs(c.ls, a, 1) ==> SameReg(c.lm, image, c.address, c.ls, data, a)
  }

  function RegNow(l: Layout, d: Data, a: u16): u16
    requires Fits(l, d) && HasRegs(l, a, 1)
  {
    d.holding[a - l.holding.start]
  }

  function ImageRegNow(l: Layout, m: Image, dest: byte, a: u16): u16
    requires ImageFits(l, m) && HasRegs(l, a, 1) && 1 <= dest <= MB_MASTER_TOTAL_SLAVE_NUM
  {
    RegInside(l, dest, a);
    m.holding[RegIndex(l, dest, a)]
  }

  lemma RegInside(l: Layout, dest: byte, a: u16)
    requires HasRegs(l, a, 1) && 1 <= dest <= MB_MASTER_TOTAL_SLAVE_NUM
    ensures RegIndex(l, dest, a) < 16 * l.holding.count
  {
    RowInside(dest, l.holding.count);
  }

  lemma RowBehind(x: nat, y: nat, size: nat, i: nat, k: nat)
    requires x < y && i < size
    ensures x * size + i < y * size + k
  {
    var more := y - x - 1;
    assert y * size == x * size + size + more * size;
  }

  lemma RowsApart(e: byte, dest: byte, size: nat, i: nat, k: nat)
    requires 1 <= e <= MB_MASTER_TOTAL_SLAVE_NUM && 1 <= dest <= MB_MASTER_TOTAL_SLAVE_NUM && e != dest && i < size
    requires k < size
    ensures Row(e, size) + i != Row(dest, size) + k
  {
    if e < dest {
      RowBehind(e - 1, dest - 1, size, i, k);
    } else {
      RowBehind(dest - 1, e - 1, size, k, i);
    }
  }

  lemma SetRegsAt(l: Layout, m: Image, dest: byte, x: u16, regs: seq<u16>, e: byte, a: u16)
    requires ImageFits(l, m) && HasRegs(l, x, |regs|) && HasRegs(l, a, 1)
    requires 1 <= dest <= MB_MASTER_TOTAL_SLAVE_NUM && 1 <= e <= MB_MASTER_TOTAL_SLAVE_NUM
    ensures ImageRegNow(l, SetRegs(l, m, dest, x, regs), e, a) ==
            if e == dest && x <= a < x + |regs| then regs[a - x] else ImageRegNow(l, m, e, a)
  {
    hide Row;
    RegInside(l, e, a);
    if e != dest && regs != [] {
      if RegIndex(l, dest, x) <= RegIndex(l, e, a) < RegIndex(l, dest, x) + |regs| {
        var k := RegIndex(l, e, a) - Row(dest, l.holding.count);
        RowsApart(e, dest, l.holding.count, a - l.holding.start, k);
      }
    }
  }

  lemma WriteRegsAt(l: Layout, d: Data, x: u16, regs: seq<u16>, a: u16)
    requires Fits(l, d) && HasRegs(l, x, |regs|) && HasRegs(l, a, 1)
    ensures RegNow(l, WriteRegs(l, d, x, regs), a) == if x <= a < x + |regs| then regs[a - x] else RegNow(l, d, a)
  {
  }

  /** The registers a request writes. */
  function WriteAddr(r: Request): u16 {
    match r
    case WriteRegister(x, _) => x
    case WriteRegisters(x, _) => x
    case ReadWriteRegisters(_, _, x, _) => x
    case _ => 0
  }

  function WriteValues(r: Request): seq<u16> {
    match r
    case WriteRegister(_, v) => [v]
    case WriteRegisters(_, values) => values
    case ReadWriteRegisters(_, _, _, values) => values
    case _ => []
  }

  predicate Writes(r: Request, a: u16) {
    WriteAddr(r) <= a < WriteAddr(r) + |WriteValues(r)|
  }

  /** The slave writes, and the master takes nothing: function 23 refused for its read part, or broadcast. */
  predicate Overlooked(c: Setup, j: Job)
    requires WellFormed(j.r)
  {
    && j.r.ReadWriteRegisters? && CountOk(j.r) && WriteRangeOk(c.ls, j.r)
    && (j.dest == MB_ADDRESS_BROADCAST || (j.dest == c.address && !ReadRangeOk(c.ls, j.r)))
  }

  /** The master takes what the slave refuses: more registers in a broadcast than the slave accepts. */
  predicate Imagined(c: Setup, j: Job)
    requires WellFormed(j.r)
  {
    j.dest == MB_ADDRESS_BROADCAST && j.r.WriteRegisters? && !CountOk(j.r) && WriteRangeOk(c.ls, j.r)
  }

  /** The values the request writes are those the slave has already. */
  ghost predicate WritesNothingNew(l: Layout, d: Data, r: Request)
    requires Fits(l, d)
  {
    forall a: u16 :: Writes(r, a) && HasRegs(l, a, 1) ==> RegNow(l, d, a) == WriteValues(r)[a - WriteAddr(r)]
  }

  /** The slave's register after the transaction. */
  lemma SlaveRegAfter(c: Setup, w: World, j: Job, a: u16)
    requires SetupOk(c) && WorldOk(c, w) && JobOk(j) && HasRegs(c.ls, a, 1)
    ensures RegNow(c.ls, Transact(c, w, j).data, a) ==
            if (j.dest == MB_ADDRESS_BROADCAST || j.dest == c.address)
              && CountOk(j.r) && WriteRangeOk(c.ls, j.r) && Writes(j.r, a)
            then WriteValues(j.r)[a - WriteAddr(j.r)] else RegNow(c.ls, w.data, a)
  {
    hide Absorbed, TakenForAll, Reply, ReadRangeOk, Encode, WriteRegs, WriteBits;
    if CountOk(j.r) && WriteRangeOk(c.ls, j.r) {
      WrittenAt(c.ls, w.data, j.r, a);
    }
  }

  lemma WrittenAt(l: Layout, d: Data, r: Request, a: u16)
    requires Fits(l, d) && WellFormed(r) && WriteRangeOk(l, r) && HasRegs(l, a, 1)
    ensures RegNow(l, Written(l, d, r), a) == if Writes(r, a) then WriteValues(r)[a - WriteAddr(r)] else RegNow(l, d, a)
  {
    hide BitString, Stored, WriteRegs;
    if r.WriteRegister? || r.WriteRegisters? || r.ReadWriteRegisters? {
      WriteRegsAt(l, d, WriteAddr(r), WriteValues(r), a);
    }
  }

  predicate Reads(r: Request, a: u16) {
    match r
    case ReadHolding(x, n) => x <= a < x + n
    case ReadWriteRegisters(x, n, _, _) => x <= a < x + n
    case _ => false
  }

  /** The image's register after it has taken a reply: the slave's value where the request read, else what it wrote. */
  lemma AbsorbedAt(c: Setup, m: Image, d: Data, r: Request, a: u16)
    requires SetupOk(c) && ImageFits(c.lm, m) && Fits(c.ls, d) && WellFormed(r) && HasRegs(c.ls, a, 1)
    requires c.lm == c.ls && c.address <= MB_MASTER_TOTAL_SLAVE_NUM && WriteRangeOk(c.ls, r) && ReadRangeOk(c.ls, r)
    ensures ImageRegNow(c.lm, Absorbed(c.lm, m, c.address, c.ls, d, r).image, c.address, a) ==
            if Reads(r, a) then RegNow(c.ls, d, a)
            else if Writes(r, a) then WriteValues(r)[a - WriteAddr(r)]
            else ImageRegNow(c.lm, m, c.address, a)
  {
    hide SetRegs, RegIndex, BitString, Stored;
    var w := AbsorbedWrite(c.lm, m, c.address, r);
    if r.WriteRegister? || r.WriteRegisters? || r.ReadWriteRegisters? {
      SetRegsAt(c.lm, m, c.address, WriteAddr(r), WriteValues(r), c.address, a);
    }
    if r.ReadHolding? || r.ReadWriteRegisters? {
      SetRegsAt(c.lm, w, c.address, r.addr, ReadRegs(c.ls, d, r.addr, r.count), c.address, a);
    }
  }

  /** Of a broadcast each slave's row takes what was written, unless it was to be read as well. */
  lemma {:induction false} TakenForAllAt(l: Layout, m: Image, j: byte, r: Request, e: byte, a: u16)
    requires ImageFits(l, m) && 1 <= j <= MB_MASTER_TOTAL_SLAVE_NUM && WellFormed(r) && HasRegs(l, a, 1)
    requires 1 <= e <= MB_MASTER_TOTAL_SLAVE_NUM
    ensures ImageRegNow(l, TakenForAll(l, m, j, r).image, e, a) ==
            if e <= j && !r.ReadWriteRegisters? && WriteRangeOk(l, r) && Writes(r, a)
            then WriteValues(r)[a - WriteAddr(r)]
            else ImageRegNow(l, m, e, a)
    decreases j
  {
    hide TakenFromBroadcast, ImageRegNow;
    if j == 1 {
      TakenAt(l, m, 1, r, e, a);
    } else {
      TakenForAllAt(l, m, j - 1, r, e, a);
      TakenAt(l, TakenForAll(l, m, j - 1, r).image, j, r, e, a);
    }
  }

  lemma TakenAt(l: Layout, m: Image, j: byte, r: Request, e: byte, a: u16)
    requires ImageFits(l, m) && 1 <= j <= MB_MASTER_TOTAL_SLAVE_NUM && WellFormed(r) && HasRegs(l, a, 1)
    requires 1 <= e <= MB_MASTER_TOTAL_SLAVE_NUM
    ensures ImageRegNow(l, TakenFromBroadcast(l, m, j, r).image, e, a) ==
            if e == j && !r.ReadWriteRegisters? && WriteRangeOk(l, r) && Writes(r, a)
            then WriteValues(r)[a - WriteAddr(r)]
            else ImageRegNow(l, m, e, a)
  {
    hide SetRegs, RegIndex, BitString, Stored;
    if (r.WriteRegister? || r.WriteRegisters?) && WriteRangeOk(l, r) {
      SetRegsAt(l, m, j, WriteAddr(r), WriteValues(r), e, a);
    }
  }

  /** One register, after the transaction. */
  lemma RegAfter(c: Setup, w: World, j: Job, a: u16)
    requires SetupOk(c) && WorldOk(c, w) && JobOk(j) && HasRegs(c.ls, a, 1)
    requires c.lm == c.ls && c.address <= MB_MASTER_TOTAL_SLAVE_NUM
    requires ImageRegNow(c.lm, w.image, c.address, a) == RegNow(c.ls, w.data, a)
    ensures var o := Transact(c, w, j);
            ImageRegNow(c.lm, o.image, c.address, a) == RegNow(c.ls, o.data, a) <==>
            ((Overlooked(c, j) || Imagined(c, j)) && Writes(j.r, a) ==>
               RegNow(c.ls, w.data, a) == WriteValues(j.r)[a - WriteAddr(j.r)])
  {
    hide Absorbed, TakenForAll, Reply, Encode, WriteRegs, WriteBits, ImageRegNow, RegNow, Written;
    SlaveRegAfter(c, w, j, a);
    if j.dest == MB_ADDRESS_BROADCAST {
      TakenForAllAt(c.lm, w.image, MB_MASTER_TOTAL_SLAVE_NUM, j.r, c.address, a);
    } else if j.dest == c.address && CountOk(j.r) && WriteRangeOk(c.ls, j.r) && ReadRangeOk(c.ls, j.r) {
      AbsorbedAt(c, w.image, Meaning(c.ls, w.data, j.r).data, j.r, a);
    }
  }

  /**
   * If the image was coherent before a transaction it is coherent after, with two exceptions, in which it is
   * coherent just when the request wrote what was there already: function 23 that the slave carries out halfway
   * or that was broadcast, and a broadcast of more registers than the slave accepts.
   */
  lemma CoherenceKept(c: Setup, w: World, j: Job)
    requires SetupOk(c) && WorldOk(c, w) && JobOk(j) && c.lm == c.ls && c.address <= MB_MASTER_TOTAL_SLAVE_NUM
    requires Coherent(c, w.image, w.data)
    ensures var o := Transact(c, w, j);
            Coherent(c, o.image, o.data) <==>
            (Overlooked(c, j) || Imagined(c, j) ==> WritesNothingNew(c.ls, w.data, j.r))
  {
    hide Transact, Overlooked, Imagined, Encode, RegIndex, WriteValues;
    var o := Transact(c, w, j);
    forall a: u16 | HasRegs(c.ls, a, 1)
      ensures SameReg(c.lm, o.image, c.address, c.ls, o.data, a) <==>
              ((Overlooked(c, j) || Imagined(c, j)) && Writes(j.r, a) ==>
                 RegNow(c.ls, w.data, a) == WriteValues(j.r)[a - WriteAddr(j.r)])
    {
      assert SameReg(c.lm, w.image, c.address, c.ls, w.data, a);
      RegAfter(c, w, j, a);
    }
  }

  /** Function 23 as the example of the first exception: refused for what it reads, it has written all the same. */
  lemma HalfDoneExample()
    ensures var l := Layout(Area(0, 4), Area(0, 0));
            var j := Job(1, ReadWriteRegisters(4, 1, 0, [7]));
            var w := World(Image(seq(64, _ => 0), seq(16, _ => false)), Data(seq(4, _ => 0), seq(16, _ => false)), []);
            var c := Setup(l, l, 1);
            && SetupOk(c) && WorldOk(c, w) && JobOk(j) && Coherent(c, w.image, w.data)
            && var o := Transact(c, w, j);
               o.result == M.EV_MASTER_ERROR_EXECUTE_FUNCTION && o.image == w.image && !Coherent(c, o.image, o.data)
  {
    hide RegIndex, Transact;
    var l := Layout(Area(0, 4), Area(0, 0));
    var j := Job(1, ReadWriteRegisters(4, 1, 0, [7]));
    var w := World(Image(seq(64, _ => 0), seq(16, _ => false)), Data(seq(4, _ => 0), seq(16, _ => false)), []);
    var c := Setup(l, l, 1);
    assert JobOk(j);
    forall a: u16 | HasRegs(l, a, 1) ensures SameReg(l, w.image, 1, l, w.data, a) {
      RegInside(l, 1, a);
    }
    assert Writes(j.r, 0) && HasRegs(l, 0, 1) && RegNow(l, w.data, 0) == 0;
    assert Overlooked(c, j);
    CoherenceKept(c, w, j);
    TransactionAgrees(c, w, j);
  }

  /** No request is one of the two exceptions. */
  predicate Faithful(c: Setup, jobs: seq<Job>) {
    forall j <- jobs :: JobOk(j) && !Overlooked(c, j) && !Imagined(c, j)
  }

  lemma {:induction false} CoherentThroughout(c: Setup, w: World, jobs: seq<Job>)
    requires SetupOk(c) && WorldOk(c, w) && c.lm == c.ls && c.address <= MB_MASTER_TOTAL_SLAVE_NUM
    requires Faithful(c, jobs) && Coherent(c, w.image, w.data)
    ensures Coherent(c, DoneAll(c, w, jobs).image, DoneAll(c, w, jobs).data)
    decreases |jobs|
  {
    hide Coherent, Transact, Overlooked, Imagined, JobOk;
    if jobs != [] {
      CoherenceKept(c, w, jobs[0]);
      CoherentThroughout(c, Done(c, w, jobs[0]), jobs[1..]);
    }
  }
}
