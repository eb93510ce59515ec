/** Coherence of the coils: the image of a slave against its data, over sequences of transactions. */
module CoilCoherence {
  import opened Bytes
  import opened Octets
  import opened Modbus
  import opened CoilCopy
  import opened Store
  import opened Requests
  import opened Image
  import opened Agreement
  import opened Transaction

  function CoilNow(l: Layout, d: Data, a: u16): bool
    requires Fits(l, d) && HasCoils(l, a, 1)
  {
    d.coils[a - l.coils.start]
  }

  function ImageCoilNow(l: Layout, m: Image, dest: byte, a: u16): bool
    requires ImageFits(l, m) && HasCoils(l, a, 1) && 1 <= dest <= MB_MASTER_TOTAL_SLAVE_NUM
  {
    CoilInside(l, dest, a);
    m.coils[CoilIndex(l, dest, a)]
  }

  lemma CoilInside(l: Layout, dest: byte, a: u16)
    requires HasCoils(l, a, 1) && 1 <= dest <= MB_MASTER_TOTAL_SLAVE_NUM
    ensures CoilIndex(l, dest, a) < 8 * 16 * Stride(l)
  {
    RowInside(dest, Stride(l));
  }

  /** Every coil of the slave is what the image says it is. */
  ghost predicate CoilsCoherent(c: Setup, image: Image, data: Data)
    requires ImageFits(c.lm, image) && Fits(c.ls, data) && 1 <= c.address <= MB_MASTER_TOTAL_SLAVE_NUM
  {
    forall a: u16 :: HasCoils(c.ls, a, 1) ==> SameCoil(c.lm, image, c.address, c.ls, data, a)
  }

  // ---------- Writes of coils, their padding included ----------

  predicate WritesCoils(r: Request) {
    r.WriteCoil? || r.WriteCoils?
  }

  /** The number of coils a request writes, and their packed bits with the padding. */
  function CoilCount(r: Request): u16
    requires WritesCoils(r)
  {
    if r.WriteCoil? then 1 else r.count
  }

  function CoilBits(r: Request): (v: seq<bool>)
    requires WritesCoils(r) && WellFormed(r)
    ensures |v| == 8 * CoilBytes(CoilCount(r))
  {
    match r
    case WriteCoil(_, on) => BitString([if on then 1 else 0])
    case WriteCoils(_, _, packed) => BitString(packed)
  }

  /** What the bit at `p` becomes when `n` bits of `v` are stored at `at`. */
  function Over(was: bool, v: seq<bool>, n: nat, at: nat, p: nat): bool
    requires 8 * CoilBytes(n) <= |v|
  {
    if p < at || at + 8 * CoilBytes(n) <= p then was
    else if p < at + n then v[p - at]
    else was || v[p - at]
  }

  /** A padding bit of the request that comes, in the row before, on the place of coil `a` of the next slave. */
  predicate Spills(l: Layout, r: Request, a: u16)
    requires WritesCoils(r) && WellFormed(r) && WriteRangeOk(l, r) && HasCoils(l, a, 1)
  {
    var k := 8 * Stride(l) + a - r.addr;
    k < |CoilBits(r)| && CoilBits(r)[k]
  }

  lemma WriteBitsAt(l: Layout, d: Data, x: u16, n: nat, v: seq<bool>, a: u16)
    requires Fits(l, d) && HasCoils(l, x, n) && 8 * CoilBytes(n) <= |v| && HasCoils(l, a, 1)
    ensures CoilNow(l, WriteBits(l, d, x, n, v), a) ==
            Over(CoilNow(l, d, a), v, n, x - l.coils.start, a - l.coils.start)
  {
  }

  /** Storing in slave `dest`'s row: that row is written, and padding may spill into the next. */
  lemma SetBitsAt(l: Layout, m: Image, dest: byte, r: Request, e: byte, a: u16)
    requires ImageFits(l, m) && WritesCoils(r) && WellFormed(r) && WriteRangeOk(l, r) && HasCoils(l, a, 1)
    requires 1 <= dest <= MB_MASTER_TOTAL_SLAVE_NUM && 1 <= e <= MB_MASTER_TOTAL_SLAVE_NUM
    ensures var before, n := ImageCoilNow(l, m, e, a), CoilCount(r);
            ImageCoilNow(l, SetBits(l, m, dest, r.addr, n, CoilBits(r)), e, a) ==
            if e == dest then Over(before, CoilBits(r), n, r.addr - l.coils.start, a - l.coils.start)
            else if e == dest + 1 then before || Spills(l, r, a)
            else before
  {
    hide Row, Stored, BitString, CoilBits;
    var n, v, at, p := CoilCount(r), CoilBits(r), CoilIndex(l, dest, r.addr), CoilIndex(l, e, a);
    CoilInside(l, e, a);
    StoredAt(m.coils, at, n, v, p);
    RowsOf(l, dest, e);
  }

  lemma StoredAt(b: seq<bool>, at: nat, n: nat, v: seq<bool>, p: nat)
    requires 8 * CoilBytes(n) <= |v| && at + 8 * CoilBytes(n) <= |b| && p < |b|
    ensures Stored(b, at, n, v)[p] == Over(b[p], v, n, at, p)
  {
  }

  lemma RowsOf(l: Layout, d: byte, e: byte)
    requires 1 <= d <= MB_MASTER_TOTAL_SLAVE_NUM && 1 <= e <= MB_MASTER_TOTAL_SLAVE_NUM
    ensures e < d ==> Row(e, Stride(l)) + Stride(l) <= Row(d, Stride(l))
    ensures e == d + 1 ==> Row(e, Stride(l)) == Row(d, Stride(l)) + Stride(l)
    ensures e > d + 1 ==> Row(d, Stride(l)) + 2 * Stride(l) <= Row(e, Stride(l))
  {
    var s := Stride(l);
    if e < d {
      Distance(e - 1, d - 1, 1, s);
    } else if e > d + 1 {
      Distance(d - 1, e - 1, 2, s);
    } else if e == d + 1 {
      Distance(d - 1, e - 1, 1, s);
      assert (e - 1) * s == (d - 1) * s + s;
    }
  }

  lemma Distance(x: nat, y: nat, k: nat, s: nat)
    requires x + k <= y
    ensures x * s + k * s <= y * s
  {
    var rest := y - x - k;
    assert y * s == x * s + k * s + rest * s;
  }

  // ---------- One coil, after a transaction ----------

  /** The slave carries out a write of coils. */
  predicate SlaveWritesCoils(c: Setup, j: Job)
    requires WellFormed(j.r)
  {
    && WritesCoils(j.r) && CountOk(j.r) && WriteRangeOk(c.ls, j.r)
    && (j.dest == MB_ADDRESS_BROADCAST || j.dest == c.address)
  }

  lemma SlaveCoilAfter(c: Setup, w: World, j: Job, a: u16)
    requires SetupOk(c) && WorldOk(c, w) && JobOk(j) && HasCoils(c.ls, a, 1)
    ensures CoilNow(c.ls, Transact(c, w, j).data, a) ==
            if !SlaveWritesCoils(c, j) then CoilNow(c.ls, w.data, a)
            else Over(CoilNow(c.ls, w.data, a), CoilBits(j.r), CoilCount(j.r),
                      j.r.addr - c.ls.coils.start, a - c.ls.coils.start)
  {
    hide Absorbed, TakenForAll, Reply, ReadRangeOk, Encode, WriteRegs, WriteBits, BitString, CoilNow, Over;
    if CountOk(j.r) && WriteRangeOk(c.ls, j.r) {
      WrittenCoil(c.ls, w.data, j.r, a);
    }
  }

  lemma WrittenCoil(l: Layout, d: Data, r: Request, a: u16)
    requires Fits(l, d) && WellFormed(r) && WriteRangeOk(l, r) && HasCoils(l, a, 1)
    ensures CoilNow(l, Written(l, d, r), a) ==
            if !WritesCoils(r) then CoilNow(l, d, a)
            else Over(CoilNow(l, d, a), CoilBits(r), CoilCount(r), r.addr - l.coils.start, a - l.coils.start)
  {
    hide BitString, Stored, Splice, Over;
    if WritesCoils(r) {
      WriteBitsAt(l, d, r.addr, CoilCount(r), CoilBits(r), a);
    }
  }

  /**
   * The image's coil after a reply: what the slave has where the request read coils, else written as the slave
   * does.
   */
  lemma AbsorbedCoil(c: Setup, m: Image, d: Data, r: Request, a: u16)
    requires SetupOk(c) && ImageFits(c.lm, m) && Fits(c.ls, d) && WellFormed(r) && HasCoils(c.ls, a, 1)
    requires c.lm == c.ls && c.address <= MB_MASTER_TOTAL_SLAVE_NUM && WriteRangeOk(c.ls, r) && ReadRangeOk(c.ls, r)
    ensures var before := ImageCoilNow(c.lm, m, c.address, a);
            ImageCoilNow(c.lm, Absorbed(c.lm, m, c.address, c.ls, d, r).image, c.address, a) ==
            if WritesCoils(r) then
              Over(before, CoilBits(r), CoilCount(r), r.addr - c.ls.coils.start, a - c.ls.coils.start)
            else if r.ReadCoils? && r.addr <= a < r.addr + r.count then CoilNow(c.ls, d, a)
            else before
  {
    hide BitString, Stored, Splice, Over, CoilBits, Row, RegIndex;
    if WritesCoils(r) {
      SetBitsAt(c.lm, m, c.address, r, c.address, a);
      CoilsTaken(c.lm, m, c.address, r);
    } else if r.ReadCoils? {
      var v, at := Padded(ReadBits(c.ls, d, r.addr, r.count)), CoilIndex(c.lm, c.address, r.addr);
      CoilInside(c.lm, c.address, a);
      StoredAt(m.coils, at, r.count, v, CoilIndex(c.lm, c.address, a));
      OverPadded(ImageCoilNow(c.lm, m, c.address, a), ReadBits(c.ls, d, r.addr, r.count), at,
        CoilIndex(c.lm, c.address, a));
    }
  }

  lemma CoilsTaken(l: Layout, m: Image, dest: byte, r: Request)
    requires ImageFits(l, m) && 1 <= dest <= MB_MASTER_TOTAL_SLAVE_NUM
    requires WritesCoils(r) && WellFormed(r) && WriteRangeOk(l, r)
    ensures AbsorbedWrite(l, m, dest, r) == SetBits(l, m, dest, r.addr, CoilCount(r), CoilBits(r))
  {
    hide SetBits;
  }

  lemma OverPadded(was: bool, bits: seq<bool>, at: nat, p: nat)
    ensures Over(was, Padded(bits), |bits|, at, p) == if at <= p < at + |bits| then bits[p - at] else was
  {
  }

  /** The image's coil after a broadcast was taken for slaves 1 to `j`. */
  lemma {:induction false} BroadcastCoil(l: Layout, m: Image, j: byte, r: Request, e: byte, a: u16)
    requires ImageFits(l, m) && 1 <= j <= MB_MASTER_TOTAL_SLAVE_NUM && WellFormed(r) && HasCoils(l, a, 1)
    requires 1 <= e <= MB_MASTER_TOTAL_SLAVE_NUM
    ensures var before := ImageCoilNow(l, m, e, a);
            ImageCoilNow(l, TakenForAll(l, m, j, r).image, e, a) ==
            if !WritesCoils(r) || !WriteRangeOk(l, r) || CoilCount(r) == 0 || j < e - 1 then before
            else
              var spilled := before || (e > 1 && Spills(l, r, a));
              if j == e - 1 then spilled
              else Over(spilled, CoilBits(r), CoilCount(r), r.addr - l.coils.start, a - l.coils.start)
    decreases j
  {
    hide ImageCoilNow, TakenFromBroadcast, Over, CoilBits, Spills;
    if j == 1 {
      BroadcastStep(l, m, 1, r, e, a);
    } else {
      BroadcastCoil(l, m, j - 1, r, e, a);
      BroadcastStep(l, TakenForAll(l, m, j - 1, r).image, j, r, e, a);
    }
  }

  lemma BroadcastStep(l: Layout, m: Image, j: byte, r: Request, e: byte, a: u16)
    requires ImageFits(l, m) && 1 <= j <= MB_MASTER_TOTAL_SLAVE_NUM && WellFormed(r) && HasCoils(l, a, 1)
    requires 1 <= e <= MB_MASTER_TOTAL_SLAVE_NUM
    ensures var before := ImageCoilNow(l, m, e, a);
            ImageCoilNow(l, TakenFromBroadcast(l, m, j, r).image, e, a) ==
            if !WritesCoils(r) || !WriteRangeOk(l, r) || CoilCount(r) == 0 then before
            else if e == j then Over(before, CoilBits(r), CoilCount(r), r.addr - l.coils.start, a - l.coils.start)
            else if e == j + 1 then before || Spills(l, r, a)
            else before
  {
    hide BitString, Stored, Splice, Over, CoilBits, Row, RegIndex, Spills, SetBits;
    if WritesCoils(r) && WriteRangeOk(l, r) {
      SetBitsAt(l, m, j, r, e, a);
      CoilsTaken(l, m, j, r);
    }
  }

  /** A broadcast's padding bit that the master sets in the slave's row and the slave does not set. */
  predicate SpilledOn(c: Setup, j: Job, a: u16)
    requires WellFormed(j.r) && HasCoils(c.ls, a, 1)
  {
    && j.dest == MB_ADDRESS_BROADCAST && c.address > 1 && SlaveWritesCoils(c, j)
    && Spills(c.ls, j.r, a) && !NamesCoil(j.r, a)
  }

  /** Where padding spills the slave keeps what it had. */
  lemma SpilledKept(c: Setup, w: World, j: Job, a: u16)
    requires SetupOk(c) && WorldOk(c, w) && JobOk(j) && HasCoils(c.ls, a, 1) && SpilledOn(c, j, a)
    ensures CoilNow(c.ls, Transact(c, w, j).data, a) == CoilNow(c.ls, w.data, a)
  {
    hide Transact, CoilNow, CoilBits, Encode, BitString;
    SlaveCoilAfter(c, w, j, a);
  }

  lemma CoilAfter(c: Setup, w: World, j: Job, a: u16)
    requires SetupOk(c) && WorldOk(c, w) && JobOk(j) && HasCoils(c.ls, a, 1)
    requires c.lm == c.ls && c.address <= MB_MASTER_TOTAL_SLAVE_NUM
    requires ImageCoilNow(c.lm, w.image, c.address, a) == CoilNow(c.ls, w.data, a)
    ensures var o := Transact(c, w, j);
            ImageCoilNow(c.lm, o.image, c.address, a) == CoilNow(c.ls, o.data, a) <==>
            (SpilledOn(c, j, a) ==> CoilNow(c.ls, w.data, a))
  {
    hide Absorbed, TakenForAll, Reply, Encode, WriteRegs, WriteBits, ImageCoilNow, CoilNow, Written, CoilBits, Spills;
    SlaveCoilAfter(c, w, j, a);
    if SpilledOn(c, j, a) {
      SpilledKept(c, w, j, a);
    }
    if j.dest == MB_ADDRESS_BROADCAST {
      BroadcastCoil(c.lm, w.image, MB_MASTER_TOTAL_SLAVE_NUM, j.r, c.address, a);
    } else if j.dest == c.address && CountOk(j.r) && WriteRangeOk(c.ls, j.r) && ReadRangeOk(c.ls, j.r) {
      AbsorbedCoil(c, w.image, Meaning(c.ls, w.data, j.r).data, j.r, a);
    }
  }

  // ---------- Coherence of all coils ----------

  /**
   * If the image's coils were coherent before a transaction they are after, but for broadcasts whose padding bits
   * are set: the master stores each row's padding into the next row, the slave stores nothing there. They are then
   * coherent just when every coil so hit was set in the slave before.
   */
  lemma CoilCoherenceKept(c: Setup, w: World, j: Job)
    requires SetupOk(c) && WorldOk(c, w) && JobOk(j) && c.lm == c.ls && c.address <= MB_MASTER_TOTAL_SLAVE_NUM
    requires CoilsCoherent(c, w.image, w.data)
    ensures var o := Transact(c, w, j);
            CoilsCoherent(c, o.image, o.data) <==>
            forall a: u16 :: HasCoils(c.ls, a, 1) && SpilledOn(c, j, a) ==> CoilNow(c.ls, w.data, a)
  {
    hide Transact, Encode, CoilIndex, SpilledOn;
    var o := Transact(c, w, j);
    forall a: u16 | HasCoils(c.ls, a, 1)
      ensures SameCoil(c.lm, o.image, c.address, c.ls, o.data, a) <==>
              (SpilledOn(c, j, a) ==> CoilNow(c.ls, w.data, a))
    {
      assert SameCoil(c.lm, w.image, c.address, c.ls, w.data, a);
      CoilAfter(c, w, j, a);
    }
  }

  /** A broadcast has no padding bits set. */
  predicate Clean(j: Job)
    requires JobOk(j)
  {
    j.dest == MB_ADDRESS_BROADCAST ==> PaddingClear(j.r)
  }

  predicate AllClean(jobs: seq<Job>) {
    forall j <- jobs :: JobOk(j) && Clean(j)
  }

  lemma NothingSpills(c: Setup, j: Job)
    requires JobOk(j) && Clean(j)
    ensures forall a: u16 :: HasCoils(c.ls, a, 1) ==> !SpilledOn(c, j, a)
  {
    hide BitString, Encode;
    if j.r.WriteCoil? {
      OneCoil(j.r.on);
    }
  }

  lemma {:induction false} CoilsCoherentThroughout(c: Setup, w: World, jobs: seq<Job>)
    requires SetupOk(c) && WorldOk(c, w) && c.lm == c.ls && c.address <= MB_MASTER_TOTAL_SLAVE_NUM
    requires AllClean(jobs) && CoilsCoherent(c, w.image, w.data)
    ensures CoilsCoherent(c, DoneAll(c, w, jobs).image, DoneAll(c, w, jobs).data)
    decreases |jobs|
  {
    hide CoilsCoherent, Transact, JobOk, SpilledOn, PaddingClear;
    if jobs != [] {
      CoilCoherenceKept(c, w, jobs[0]);
      NothingSpills(c, jobs[0]);
      CoilsCoherentThroughout(c, Done(c, w, jobs[0]), jobs[1..]);
    }
  }

  /**
   * One coil of each slave's eight broadcast with a padding bit set: the next slave's first coil is set in the
   * image.
   */
  lemma SpilledExample()
    ensures var l := Layout(Area(0, 0), Area(0, 8));
            var j := Job(MB_ADDRESS_BROADCAST, WriteCoils(7, 1, [3]));
            var w := World(Image([], seq(144, _ => false)), Data([], seq(24, _ => false)), []);
            var c := Setup(l, l, 2);
            && SetupOk(c) && WorldOk(c, w) && JobOk(j) && CoilsCoherent(c, w.image, w.data)
            && !CoilsCoherent(c, Transact(c, w, j).image, Transact(c, w, j).data)
  {
    hide CoilIndex, Transact;
    var l := Layout(Area(0, 0), Area(0, 8));
    var j := Job(MB_ADDRESS_BROADCAST, WriteCoils(7, 1, [3]));
    var w := World(Image([], seq(144, _ => false)), Data([], seq(24, _ => false)), []);
    var c := Setup(l, l, 2);
    assert JobOk(j);
    forall a: u16 | HasCoils(l, a, 1) ensures SameCoil(l, w.image, 2, l, w.data, a) {
      CoilInside(l, 2, a);
    }
    BitStringAt([3], 0, 1);
    assert Bits(3, 8)[1] == Bits(1, 7)[0] == true;
    assert SpilledOn(c, j, 0);
    CoilCoherenceKept(c, w, j);
  }
}
