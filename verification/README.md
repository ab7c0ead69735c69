# MMA8452Q `bm` driver — a Dafny model

`bm.c` is a Linux I2C driver for the MMA8452Q three-axis accelerometer. It
exposes a misc character device, `bm`, and this model covers its three pieces
of sequential logic:

- **The register map** (`registers.dfy`, module `Registers`). The C register
  enum and the scale-mode enum are tables of enumerators, each with or
  without an initialiser. `EnumValue` applies C's rule: an initialiser gives
  the value; otherwise the value is the previous one plus one. Lemmas pin the
  derived addresses (WHO_AM_I = 0x0D, CTRL_REG1 = 0x2A, OFF_Z = 0x31, ...),
  show that no two registers share an address, and show that each register
  constant is read from the position of the enumerator with its C name.
- **The SMBus client** (`i2c.dfy`, module `I2c`). `I2cClient` stands for the
  driver's `struct i2c_client`. Its two methods, one per SMBus call the
  driver makes, send a transaction to a bus parameter and append the same
  transaction to the client's log. The driver's code issues every
  transaction through them.
- **The read path `bm_read`** (`read.dfy`, module `BmRead`):
  - `BmFile.Read` is a method on a class that holds the file offset `*offp`.
    It builds the local `data[6]` array, reads STATUS through the client,
    and fills the array from registers 0x01..0x06 (`ReadSample`) when bit 3
    of the status is set. It then clamps `count` in 64-bit unsigned
    arithmetic, copies the range, and advances the offset.
  - The method is proved against the function `ReadSpec`. The properties of
    one call and of a sequence of calls (`Drain`) are lemmas about that
    function.
  - The bus is a parameter `bus: int -> int` from register address to the
    SMBus result, where a negative value is an error. Passing a different
    function on each call models a sensor that took a new sample in between.
  - The array's initial contents are indeterminate in C. They are a
    parameter, `garbage`, so the model picks no values for them.
- **The initialisation in `bm_probe`** (`probe.dfy`, module `BmProbe`). The
  probe reads WHO_AM_I and then issues five writes. The writes form the
  constant list `INIT_WRITES`, and `PROBE_TRANSACTIONS` is the WHO_AM_I read
  followed by them. The method `Probe` issues them through the client,
  ignores every result and returns 0.

What the code does and does not do, as the model shows it:

- Every read call fetches again, whatever the offset. `SplitReadMixesSamples`
  and `TornReadExactly` show that two partial reads can return halves of two
  different samples.
- Bus errors are not checked:
  - A failed STATUS read that returns -1..-8 has bit 3 set, so it counts as
    "data ready" (`SmallErrorsReadAsReady`).
  - A failed sample read is stored as its low byte (`BurstErrorBecomesData`).
- When the ready bit is clear, the uninitialised buffer is served
  (`NotReadyServesGarbage`).
- While the offset is at most 6 and `pos + count` does not wrap at 2^64, the
  clamp keeps the copy inside `data`, and the returned count is at most the
  requested count. At offset 6 the call returns 0. The offset grows by
  exactly the returned count.
- When the copy to user space fails, the call returns -EFAULT and the offset
  does not move. A copy of zero bytes cannot fail, so at the end of the
  buffer the call returns 0 even when the user buffer is not writable.

## Model

| member | source | states |
|---|---|---|
| `Registers.CountFromZero` | bm.c:13-73 | under the C rule `EnumValue` applies, enumerators before the first initialiser take the values 0, 1, 2, ... by position (both enums here start with one) |
| `Registers.RunFromAnchor` | bm.c:13-65 | after an explicit initialiser, each enumerator without one is the anchor's value plus its distance from the anchor |
| `Registers.Increasing` | bm.c:13-65 | when every initialiser exceeds the value before it, the enum's values strictly increase |
| `Registers.RegisterEnumShape` | bm.c:13-65 | the register enum has 43 enumerators, with initialisers only at STATUS (0x00), SYSMOD (0x0B) and TRANSIENT_CFG (0x1D) |
| `Registers.SampleAddresses` | bm.c:14-20 | STATUS is 0x00 and OUT_X_MSB .. OUT_Z_LSB are 0x01 .. 0x06 in order |
| `Registers.DerivedAddresses` | bm.c:22-64 | SYSMOD 0x0B, WHO_AM_I 0x0D, XYZ_DATA_CFG 0x0E, TRANSIENT_CFG 0x1D, CTRL_REG1 0x2A, CTRL_REG2 0x2B, CTRL_REG4 0x2D, OFF_Z 0x31, REG_END 0x32 |
| `Registers.ModeValues` | bm.c:69-73 | MODE_2G, MODE_4G and MODE_8G are 0, 1 and 2 |
| `Registers.AddressesDistinct` | bm.c:13-65 | any enumerator declared earlier in the register enum has a smaller address than any declared later, so all addresses are distinct |
| `BmRead.DataReady` | bm.c:84 | for any `int` result, negative ones included, the ready test is bit 3 of the low byte of its two's complement form |
| `BmRead.DataReadyIsMask` | bm.c:84 | for every 32-bit `int`, the ready test is bit 3 of its 32-bit two's complement pattern |
| `BmRead.DataReadyIsByteMask` | bm.c:84 | on a byte, the ready test is exactly the C mask `& 0x08` |
| `BmRead.SmallErrorsReadAsReady` | bm.c:82-84 | the negative results -1 .. -8 pass the ready test, because the status is not checked for errors |
| `BmRead.LowByte` | bm.c:85-90 | storing a bus result in `unsigned char` keeps it modulo 256, and a result in 0..255 is kept unchanged |
| `BmRead.Burst` | bm.c:85-90 | the burst yields exactly six bytes; `BmRead.BurstOrder` gives their sources |
| `BmRead.Fetched` | bm.c:79-91 | the buffer after the fetch always has six bytes, whether or not the ready bit was set |
| `BmRead.BurstOrder` | bm.c:85-90 | the burst reads addresses 0x01..0x06 in order, and byte i is the low byte of the result for `OUT_X_MSB + i` |
| `BmRead.BurstErrorBecomesData` | bm.c:85-90 | an error result (-EIO) from a sample register is stored in the buffer as the byte 251 |
| `BmRead.BusReads` | bm.c:82-91 | one call issues the STATUS read first, and seven transactions when the ready bit is set, one otherwise |
| `BmRead.ReadyGating` | bm.c:82-91 | a sample register is read exactly when bit 3 of the status result is set; then the reads are 0x00, 0x01, ..., 0x06 in order; otherwise only STATUS is read |
| `BmRead.Wrap` | bm.c:110-111 | an unsigned 64-bit sum or difference lands in [0, 2^64) and differs from the exact result by at most one 2^64 |
| `BmRead.Clamp` | bm.c:110-111 | in 64-bit unsigned arithmetic, with `pos` ≤ 6 and no wrap of `pos + count`, the count becomes min(count, 6 - pos) |
| `BmRead.ClampPastEnd` | bm.c:110-111 | for `pos` > 6 the subtraction wraps, giving 2^64 - (pos - 6), which is more than the buffer holds |
| `BmRead.ClampSumWraps` | bm.c:110-111 | when `pos + count` wraps past 2^64, the count is not clamped and the copy would run past `data` |
| `BmRead.CopyToUser` | bm.c:112 | the copy reports between 0 and `n` bytes not copied, and 0 exactly when the user buffer is writable or `n` is 0 |
| `BmRead.ReadSpec` | bm.c:77-117 | the call fails with -EFAULT exactly when at least one byte is due and the user buffer is not writable, and then the offset is unchanged. Otherwise at most `count` bytes are returned; they are exactly `data[pos..pos+ret)`; the offset grows by `ret` and stays ≤ 6; the read is short only at the end of the buffer |
| `BmRead.EndOfStream` | bm.c:110-116 | at offset 6 every call returns 0 bytes and the offset stays 6, whether or not the user buffer is writable |
| `BmRead.ReadyCall` | bm.c:84-116 | with the ready bit set, the bytes delivered come from the burst just read |
| `BmRead.NotReadyServesGarbage` | bm.c:79-116 | with the ready bit clear, the bytes delivered are the buffer's uninitialised contents |
| `BmRead.Drain` | bm.c:110-116 | over any sequence of successful calls, the offset stays between its start and 6, and the number of bytes delivered equals the distance the offset moved |
| `BmRead.DrainEnd` | bm.c:110-116 | a sequence of successful calls ends at min(start + total requested, 6) |
| `BmRead.DrainOneSample` | bm.c:80-116 | if every call sees the ready bit and the same sample, the concatenated bytes are the contiguous range of that sample from the start offset |
| `BmRead.SplitReadMixesSamples` | bm.c:80-91 | two 3-byte calls that both see the ready bit return the first half of the first sample followed by the second half of the second sample |
| `BmRead.TornReadExactly` | bm.c:80-91 | for two 3-byte calls that both see the ready bit, the six bytes read differ from the first sample exactly when the samples' last three bytes differ, and from the second exactly when their first three bytes differ |
| `BmRead.TornRead` | bm.c:80-91 | an instance: when every sample byte changes from 0 to 1 between two 3-byte calls, the six bytes read are 0,0,0,1,1,1 and match neither sample |
| `BmRead.MidBurstChange` | bm.c:85-90 | when the sample changes after the k-th sample register is read, the buffer holds the first sample's first k bytes followed by the second sample's remaining bytes |
| `BmRead.ReadSample` | bm.c:85-90 | the six sample reads go through the client in order 0x01..0x06, and the buffer then holds their low bytes (`Burst`) |
| `BmRead.BmFile.constructor` | bm.c:77-80 | a file is opened at offset 0 |
| `BmRead.BmFile.Read` | bm.c:77-117 | one call of `bm_read`: the transactions it issues through the client are those of `BusReads`, and its return value, delivered bytes and new offset are those of `ReadSpec` |
| `BmProbe.InitWritesResolved` | bm.c:137-142 | the probe writes exactly (0x2B,0x40), (0x2A,0x39), (0x0E,0), (0x2B,0), (0x2D,0), in this order |
| `BmProbe.ResetThenConfigureThenActivate` | bm.c:137-142 | CTRL_REG2 is written only by the first write (reset) and the fourth (activation), the rate and scale writes fall between them, and XYZ_DATA_CFG receives MODE_2G |
| `BmProbe.Probe` | bm.c:131-171 | the probe issues through the client exactly `PROBE_TRANSACTIONS`, the WHO_AM_I read and then the five writes of `INIT_WRITES`, and returns 0 whatever the bus answers |
| `I2c.I2cClient.constructor` | bm.c:75 | a new client has issued nothing |
| `I2c.I2cClient.SmbusReadByte` | bm.c:82-90 | a byte read returns the bus's answer for that register and appends that read, and nothing else, to the log |
| `I2c.I2cClient.SmbusWriteByte` | bm.c:137-142 | a byte write returns the bus's answer for that register and value and appends that write, and nothing else, to the log |

## Left out

- Module and device registration is not modelled: `misc_register` (its result
  is ignored too), `i2c_add_driver`/`i2c_del_driver`, `module_init`/`module_exit`,
  `bm_remove`, the `file_operations`, `miscdevice` and `i2c_device_id` tables.
  It is lifecycle wiring with no logic.
- The SMBus transport behind `i2c_smbus_read_byte_data` /
  `i2c_smbus_write_byte_data` is not part of this model. What the chip
  answers is a function parameter of the client's methods. Each register is
  read at most once per call, so a function from address to answer covers
  every sequence of answers, including a burst that spans two samples
  (`BmRead.MidBurstChange`).
- `copy_to_user` is reduced to whether the user buffer accepts the bytes:
  all of them or none. A partial copy before a failure is not modelled: the
  delivered bytes are then empty.
- The global `bm_client` and the lack of locking around `bm_read` are not
  modelled. Concurrency is out of scope.
- `mdelay` and the debug `printk` calls are not modelled. The chip-ID read
  in `bm_probe` is kept as an issued transaction, but its value is only
  logged.
- `BmRead.BmFile.Read` requires the offset to be at most 6 and `offset + count`
  not to wrap at 2^64. Outside those bounds the C copies from outside `data`,
  which an array of six cannot represent. `BmRead.ClampPastEnd` and
  `BmRead.ClampSumWraps` state the count the C computes in those cases.
- `size_t` and `unsigned long` are taken as 64 bits wide. On a 32-bit kernel
  the same arithmetic applies modulo 2^32.
- `Registers` names as constants the registers the driver reads or writes,
  the two anchors SYSMOD and TRANSIENT_CFG, and OFF_Z and REG_END, which
  mark the last register and the end of the map. Every other register
  stands in `RegisterEnum` under its C name only.
- `BmRead.DataReadyIsMask` states the mask test as bit 3 of the 32-bit
  pattern in integer arithmetic. A statement through a 32-bit bit-vector
  conversion exceeds the solver limit `--resource-limit 2000000`;
  `BmRead.DataReadyIsByteMask` states the `&` form on bytes.
