/** The master's requests and what its handlers take from the replies. */
module MasterFunctions {
  import opened Bytes
  import opened Octets
  import opened Modbus
  import opened Store
  import opened Image

  /** Octets of the send buffer from the PDU on. */
  const SEND_SIZE := MB_PDU_SIZE_MAX - 1

  /** Outcome of a reply handler: the exception and the image. */
  datatype Taken = Taken(exception: Exception, image: Image)

  /** `n` octets from `from`; past the end of the buffer, where the program must not read, zeros. */
  function Clip(s: seq<byte>, from: nat, n: nat): (r: seq<byte>)
    ensures |r| == n
    ensures from + n <= |s| ==> r == s[from..from + n]
  {
    if from + n <= |s| then s[from..from + n] else seq(n, _ => 0)
  }

  function TakeRegs(l: Layout, m: Image, dest: byte, a: u16, n: u16, s: seq<byte>): (t: Taken)
    requires ImageFits(l, m) && 1 <= dest <= MB_MASTER_TOTAL_SLAVE_NUM && 2 * n <= |s|
    ensures ImageFits(l, t.image)
  {
    if HasRegs(l, a, n) then Taken(MB_EX_NONE, SetRegs(l, m, dest, a, RegsOf(s, n)))
    else Taken(MB_EX_ILLEGAL_DATA_ADDRESS, m)
  }

  function TakeBits(l: Layout, m: Image, dest: byte, a: u16, n: u16, s: seq<byte>): (t: Taken)
    requires ImageFits(l, m) && 1 <= dest <= MB_MASTER_TOTAL_SLAVE_NUM && |s| == CoilBytes(n)
    ensures ImageFits(l, t.image)
  {
    if HasCoils(l, a, n) then Taken(MB_EX_NONE, SetBits(l, m, dest, a, n, BitString(s)))
    else Taken(MB_EX_ILLEGAL_DATA_ADDRESS, m)
  }

  /** The arguments of a handler: the send buffer, the frame, its length, and whether it was a broadcast. */
  datatype Input = Input(snd: seq<byte>, frame: seq<byte>, len: nat, broadcast: bool)

  predicate InputOk(i: Input) {
    |i.snd| == SEND_SIZE && SEND_SIZE <= |i.frame|
  }

  function TakeWriteRegister(l: Layout, m: Image, dest: byte, i: Input): (t: Taken)
    requires ImageFits(l, m) && 1 <= dest <= MB_MASTER_TOTAL_SLAVE_NUM && InputOk(i)
    ensures ImageFits(l, t.image)
  {
    if i.len != 5 then Taken(MB_EX_ILLEGAL_DATA_VALUE, m)
    else TakeRegs(l, m, dest, Word(i.frame[1], i.frame[2]), 1, i.frame[3..5])
  }

  function TakeWriteRegisters(l: Layout, m: Image, dest: byte, i: Input): (t: Taken)
    requires ImageFits(l, m) && 1 <= dest <= MB_MASTER_TOTAL_SLAVE_NUM && InputOk(i)
    ensures ImageFits(l, t.image)
  {
    var n := Word(i.snd[3], i.snd[4]);
    if !(i.len == 5 || i.broadcast) || i.snd[5] != 2 * n then Taken(MB_EX_ILLEGAL_DATA_VALUE, m)
    else TakeRegs(l, m, dest, Word(i.snd[1], i.snd[2]), n, Clip(i.snd, 6, 2 * n))
  }

  function TakeReadRegisters(l: Layout, m: Image, dest: byte, i: Input): (t: Taken)
    requires ImageFits(l, m) && 1 <= dest <= MB_MASTER_TOTAL_SLAVE_NUM && InputOk(i)
    ensures ImageFits(l, t.image)
  {
    var n := Word(i.snd[3], i.snd[4]);
    if i.broadcast then Taken(MB_EX_NONE, m)
    else if i.len < 2 || n < 1 || 2 * n != i.frame[1] then Taken(MB_EX_ILLEGAL_DATA_VALUE, m)
    else TakeRegs(l, m, dest, Word(i.snd[1], i.snd[2]), n, Clip(i.frame, 2, 2 * n))
  }

  /** The written registers are taken first, then those read; a reply of one octet is taken for success. */
  function TakeReadWriteRegisters(l: Layout, m: Image, dest: byte, i: Input): (t: Taken)
    requires ImageFits(l, m) && 1 <= dest <= MB_MASTER_TOTAL_SLAVE_NUM && InputOk(i)
    ensures ImageFits(l, t.image)
  {
    var n, nw := Word(i.snd[3], i.snd[4]), Word(i.snd[7], i.snd[8]);
    if i.broadcast || i.len < 2 then Taken(MB_EX_NONE, m)
    else if 2 * n != i.frame[1] then Taken(MB_EX_ILLEGAL_DATA_VALUE, m)
    else
      var w := TakeRegs(l, m, dest, Word(i.snd[5], i.snd[6]), nw, Clip(i.snd, 10, 2 * nw));
      if w.exception != MB_EX_NONE then w
      else TakeRegs(l, w.image, dest, Word(i.snd[1], i.snd[2]), n, Clip(i.frame, 2, 2 * n))
  }

  function TakeReadCoils(l: Layout, m: Image, dest: byte, i: Input): (t: Taken)
    requires ImageFits(l, m) && 1 <= dest <= MB_MASTER_TOTAL_SLAVE_NUM && InputOk(i)
    ensures ImageFits(l, t.image)
  {
    var n := Word(i.snd[3], i.snd[4]);
    if i.broadcast then Taken(MB_EX_NONE, m)
    else if i.len < 2 || n < 1 || CoilBytes(n) % 0x100 != i.frame[1] then Taken(MB_EX_ILLEGAL_DATA_VALUE, m)
    else TakeBits(l, m, dest, Word(i.snd[1], i.snd[2]), n, Clip(i.frame, 2, CoilBytes(n)))
  }

  function TakeWriteCoil(l: Layout, m: Image, dest: byte, i: Input): (t: Taken)
    requires ImageFits(l, m) && 1 <= dest <= MB_MASTER_TOTAL_SLAVE_NUM && InputOk(i)
    ensures ImageFits(l, t.image)
  {
    if i.len != 5 || !(i.frame[4] == 0 && (i.frame[3] == 0xFF || i.frame[3] == 0)) then
      Taken(MB_EX_ILLEGAL_DATA_VALUE, m)
    else TakeBits(l, m, dest, Word(i.frame[1], i.frame[2]), 1, [if i.frame[3] == 0xFF then 1 else 0])
  }

  /** Address and count come from the reply, the coils from the send buffer. */
  function TakeWriteCoils(l: Layout, m: Image, dest: byte, i: Input): (t: Taken)
    requires ImageFits(l, m) && 1 <= dest <= MB_MASTER_TOTAL_SLAVE_NUM && InputOk(i)
    ensures ImageFits(l, t.image)
  {
    var n := Word(i.frame[3], i.frame[4]);
    if !(i.len == 5 || i.broadcast) || n < 1 || CoilBytes(n) % 0x100 != i.snd[5] then
      Taken(MB_EX_ILLEGAL_DATA_VALUE, m)
    else TakeBits(l, m, dest, Word(i.frame[1], i.frame[2]), n, Clip(i.snd, 6, CoilBytes(n)))
  }

  /** Dispatch on the function code of the reply. */
  function Take(l: Layout, m: Image, dest: byte, i: Input): (t: Taken)
    requires ImageFits(l, m) && 1 <= dest <= MB_MASTER_TOTAL_SLAVE_NUM && InputOk(i)
    ensures ImageFits(l, t.image)
  {
    var fc := i.frame[0];
    if fc == MB_FUNC_READ_HOLDING_REGISTER then TakeReadRegisters(l, m, dest, i)
    else if fc == MB_FUNC_WRITE_MULTIPLE_REGISTERS then TakeWriteRegisters(l, m, dest, i)
    else if fc == MB_FUNC_WRITE_REGISTER then TakeWriteRegister(l, m, dest, i)
    else if fc == MB_FUNC_READWRITE_MULTIPLE_REGISTERS then TakeReadWriteRegisters(l, m, dest, i)
    else if fc == MB_FUNC_READ_COILS then TakeReadCoils(l, m, dest, i)
    else if fc == MB_FUNC_WRITE_SINGLE_COIL then TakeWriteCoil(l, m, dest, i)
    else if fc == MB_FUNC_WRITE_MULTIPLE_COILS then TakeWriteCoils(l, m, dest, i)
    else Taken(MB_EX_ILLEGAL_FUNCTION, m)
  }

  // ---------- What the handlers read ----------

  predicate ReadsOfWriteRegisters(i: Input)
    requires InputOk(i)
  {
    var n := Word(i.snd[3], i.snd[4]);
    (i.len == 5 || i.broadcast) && i.snd[5] == 2 * n ==> 6 + 2 * n <= |i.snd|
  }

  predicate ReadsOfReadRegisters(i: Input)
    requires InputOk(i)
  {
    var n := Word(i.snd[3], i.snd[4]);
    !i.broadcast && i.len >= 2 && 2 * n == i.frame[1] ==> 2 + 2 * n <= |i.frame|
  }

  predicate ReadsOfReadWriteRegisters(i: Input)
    requires InputOk(i)
  {
    var n, nw := Word(i.snd[3], i.snd[4]), Word(i.snd[7], i.snd[8]);
    !i.broadcast && i.len >= 2 && 2 * n == i.frame[1] ==> 10 + 2 * nw <= |i.snd| && 2 + 2 * n <= |i.frame|
  }

  predicate ReadsOfReadCoils(i: Input)
    requires InputOk(i)
  {
    var n := Word(i.snd[3], i.snd[4]);
    !i.broadcast && i.len >= 2 && CoilBytes(n) % 0x100 == i.frame[1] ==> 2 + CoilBytes(n) <= |i.frame|
  }

  predicate ReadsOfWriteCoils(i: Input)
    requires InputOk(i)
  {
    var n := Word(i.frame[3], i.frame[4]);
    (i.len == 5 || i.broadcast) && CoilBytes(n) % 0x100 == i.snd[5] ==> 6 + CoilBytes(n) <= |i.snd|
  }

  /** The handler of the frame reads nothing past the end of the buffers; the program does not test this. */
  predicate ReadsInside(i: Input)
    requires InputOk(i)
  {
    var fc := i.frame[0];
    if fc == MB_FUNC_READ_HOLDING_REGISTER then ReadsOfReadRegisters(i)
    else if fc == MB_FUNC_WRITE_MULTIPLE_REGISTERS then ReadsOfWriteRegisters(i)
    else if fc == MB_FUNC_READWRITE_MULTIPLE_REGISTERS then ReadsOfReadWriteRegisters(i)
    else if fc == MB_FUNC_READ_COILS then ReadsOfReadCoils(i)
    else if fc == MB_FUNC_WRITE_MULTIPLE_COILS then ReadsOfWriteCoils(i)
    else true
  }
}
