/**
 * The chip initialisation done by `bm_probe` when the I2C core binds the
 * driver: one read of WHO_AM_I (only logged), then a fixed list of register
 * writes whose results are never looked at, then success.
 */
module BmProbe {
  import opened Registers
  import opened I2c

  /** The initialisation writes, in the order the probe issues them. */
  const INIT_WRITES: seq<Transaction> := [
    WriteByte(CTRL_REG2, 0x40),       // device reset
    WriteByte(CTRL_REG1, 0x39),       // output data rate, 640 ms period
    WriteByte(XYZ_DATA_CFG, MODE_2G), // full scale 2g
    WriteByte(CTRL_REG2, 0x00),       // normal power mode
    WriteByte(CTRL_REG4, 0x00)        // all interrupts disabled
  ]

  /** Every transaction the probe issues, in order. */
  const PROBE_TRANSACTIONS: seq<Transaction> := [ReadByte(WHO_AM_I)] + INIT_WRITES

  /**
   * The probe issues exactly five writes, with these addresses and values,
   * in this order.
   */
  lemma InitWritesResolved()
    ensures INIT_WRITES == [
      WriteByte(0x2B, 0x40), WriteByte(0x2A, 0x39), WriteByte(0x0E, 0x00),
      WriteByte(0x2B, 0x00), WriteByte(0x2D, 0x00)]
  {
    DerivedAddresses();
    ModeValues();
  }

  /**
   * The reset is the first write, and CTRL_REG2 is written only by it and by
   * the later write that brings the chip back to normal mode, after the rate
   * and scale are configured.
   */
  lemma ResetThenConfigureThenActivate(i: int)
    requires 0 <= i < |INIT_WRITES|
    ensures INIT_WRITES[i].reg == CTRL_REG2 <==> i == 0 || i == 3
    ensures INIT_WRITES[i].reg == CTRL_REG1 || INIT_WRITES[i].reg == XYZ_DATA_CFG ==> 0 < i < 3
    ensures INIT_WRITES[i].reg == XYZ_DATA_CFG ==> INIT_WRITES[i].value == MODE_2G
  {
    DerivedAddresses();
  }

  /**
   * `bm_probe`: issues the transactions through `client`, with `readBus` and
   * `writeBus` answering the reads and the writes, and returns 0 whatever
   * the answers were.
   */
  method Probe(client: I2cClient, readBus: int -> int, writeBus: (int, int) -> int) returns (rc: int)
    modifies client
    ensures rc == 0
    ensures client.log == old(client.log) + PROBE_TRANSACTIONS
  {
    var chipId := client.SmbusReadByte(readBus, WHO_AM_I);

    var ignored := client.SmbusWriteByte(writeBus, CTRL_REG2, 0x40);
    ignored := client.SmbusWriteByte(writeBus, CTRL_REG1, 0x39);
    ignored := client.SmbusWriteByte(writeBus, XYZ_DATA_CFG, MODE_2G);
    ignored := client.SmbusWriteByte(writeBus, CTRL_REG2, 0x00);
    ignored := client.SmbusWriteByte(writeBus, CTRL_REG4, 0x00);

    rc := 0;
  }
}
