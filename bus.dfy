/**
 * The I2C bus as the drivers see it (the i2c-bus package). The bus is a
 * collaborator: a driver issues transactions and the model is told, as a
 * parameter, what the bus answered to each of them.
 */
module Bus {
  /** 2 to the power n: the weight of bit n in a register or a shifted byte. */
  function Pow2(n: nat): (r: nat)
    ensures r >= 1
  {
    if n == 0 then 1 else 2 * Pow2(n - 1)
  }

  /** A value the Uint8 world can hold. */
  type Byte = x: int | 0 <= x < 256

  /** One transaction a driver issues on the bus. */
  datatype BusOp =
    | WriteByte(addr: int, register: int, value: int)
    | SendByte(addr: int, value: int)
    | ReadByte(addr: int, register: int)
    | ReceiveByte(addr: int)
    | WriteBlock(addr: int, register: int, data: seq<int>)
    | ReadBlock(addr: int, register: int, length: int)

  /** What the bus answered to a write: `callback(null)` or `callback(err)` with an error code. */
  datatype BusResult = Done | Failed(code: string)

  /** What the bus answered to a one-byte read. */
  datatype ByteReply = Read(value: Byte) | ReadFailed(code: string)
}
