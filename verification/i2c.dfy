/**
 * The SMBus byte transactions the bm driver issues through its
 * `struct i2c_client`. The transport itself is not modelled: what the chip
 * answers is a function the caller supplies, and the client object keeps a
 * log of every transaction in the order issued. Each method builds the bus
 * call and the log entry from the same arguments, so the log is exactly
 * what was sent.
 */
module I2c {

  /** One SMBus byte transaction. */
  datatype Transaction = ReadByte(reg: int) | WriteByte(reg: int, value: int)

  class I2cClient {
    /** Every transaction issued through this client, oldest first. */
    ghost var log: seq<Transaction>

    constructor ()
      ensures log == []
    {
      log := [];
    }

    /**
     * `i2c_smbus_read_byte_data(client, reg)`: `bus(reg)` is the chip's byte
     * or a negative error code.
     */
    method SmbusReadByte(bus: int -> int, reg: int) returns (r: int)
      modifies this
      ensures log == old(log) + [ReadByte(reg)]
      ensures r == bus(reg)
    {
      r := bus(reg);
      log := log + [ReadByte(reg)];
    }

    /**
     * `i2c_smbus_write_byte_data(client, reg, value)`: `bus(reg, value)` is
     * 0 or a negative error code.
     */
    method SmbusWriteByte(bus: (int, int) -> int, reg: int, value: int) returns (r: int)
      modifies this
      ensures log == old(log) + [WriteByte(reg, value)]
      ensures r == bus(reg, value)
    {
      r := bus(reg, value);
      log := log + [WriteByte(reg, value)];
    }
  }
}
