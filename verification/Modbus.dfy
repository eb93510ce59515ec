/** The codes shared by both sides of the protocol. */
module Modbus {
  import opened Bytes

  datatype ErrorCode =
    | MB_ENOERR | MB_ENOREG | MB_EINVAL | MB_EPORTERR | MB_ENORES | MB_EIO | MB_EILLSTATE | MB_ETIMEDOUT

  datatype Exception =
    | MB_EX_NONE
    | MB_EX_ILLEGAL_FUNCTION
    | MB_EX_ILLEGAL_DATA_ADDRESS
    | MB_EX_ILLEGAL_DATA_VALUE
    | MB_EX_SLAVE_DEVICE_FAILURE
    | MB_EX_SLAVE_BUSY
  {
    function Code(): (c: byte)
      ensures c == 0 <==> this == MB_EX_NONE
    {
      match this
      case MB_EX_NONE => 0
      case MB_EX_ILLEGAL_FUNCTION => 1
      case MB_EX_ILLEGAL_DATA_ADDRESS => 2
      case MB_EX_ILLEGAL_DATA_VALUE => 3
      case MB_EX_SLAVE_DEVICE_FAILURE => 4
      case MB_EX_SLAVE_BUSY => 6
    }
  }

  datatype RegisterMode = MB_REG_READ | MB_REG_WRITE

  /** The exception a register callback's error is reported as. */
  function prveMBError2Exception(e: ErrorCode): (x: Exception)
    ensures x == MB_EX_NONE <==> e == MB_ENOERR
    ensures x == MB_EX_ILLEGAL_DATA_ADDRESS <==> e == MB_ENOREG
    ensures x == MB_EX_SLAVE_BUSY <==> e == MB_ETIMEDOUT
    ensures x != MB_EX_ILLEGAL_FUNCTION && x != MB_EX_ILLEGAL_DATA_VALUE
  {
    match e
    case MB_ENOERR => MB_EX_NONE
    case MB_ENOREG => MB_EX_ILLEGAL_DATA_ADDRESS
    case MB_ETIMEDOUT => MB_EX_SLAVE_BUSY
    case _ => MB_EX_SLAVE_DEVICE_FAILURE
  }

  const MB_ADDRESS_BROADCAST: byte := 0

  const MB_FUNC_READ_COILS: byte := 1
  const MB_FUNC_READ_HOLDING_REGISTER: byte := 3
  const MB_FUNC_WRITE_SINGLE_COIL: byte := 5
  const MB_FUNC_WRITE_REGISTER: byte := 6
  const MB_FUNC_WRITE_MULTIPLE_COILS: byte := 15
  const MB_FUNC_WRITE_MULTIPLE_REGISTERS: byte := 16
  const MB_FUNC_READWRITE_MULTIPLE_REGISTERS: byte := 23
  const MB_FUNC_ERROR: byte := 128

  const MB_PDU_SIZE_MAX := 253

  /** The size in RTU framing of the largest frame; address and CRC take three octets of it. */
  const MB_SER_PDU_SIZE_MIN := 4
  const MB_SER_PDU_SIZE_MAX := 256

  const MB_MASTER_TOTAL_SLAVE_NUM: byte := 16

  /** Function handlers pass the callbacks an address one too high; the callbacks take it back. */
  function OneUp(a: u16): u16 {
    (a + 1) % 0x1_0000
  }

  function OneDown(a: u16): u16 {
    (a + 0xFFFF) % 0x1_0000
  }

  /** Also where the address wraps. */
  lemma OneDownUndoesUp(a: u16)
    ensures OneDown(OneUp(a)) == a
  {
  }

  /** Whether the `n` addresses from `a` lie among the `count` from `start`. */
  predicate InRange(a: nat, n: nat, start: nat, count: nat) {
    start <= a && a + n <= start + count
  }

  /** The octets that hold `n` coils. */
  function CoilBytes(n: nat): nat {
    if n % 8 != 0 then n / 8 + 1 else n / 8
  }
}
