/**
 * The read path of the bm character device (`bm_read`).
 *
 * Each call reads the STATUS register; when its data-ready bit is set it
 * reads the six sample registers into a local 6-byte buffer, then clamps the
 * requested count against that buffer using the file offset, copies the
 * clamped range to the caller and advances the offset by what it copied.
 *
 * The chip's answers are a parameter `bus: int -> int` from register address
 * to the `int` the SMBus read returns (negative on error), and every read
 * goes through the `I2cClient`, which logs it; a caller that passes a
 * different function on each call models a sensor that has taken a new
 * sample in between. `copy_to_user` is reduced to whether the user buffer
 * accepts the bytes.
 */
module BmRead {
  import opened Registers
  import opened I2c

  newtype byte = x: int | 0 <= x < 256

  /** One past the largest `size_t` / `unsigned long` of a 64-bit kernel. */
  const WORD: int := 0x1_0000_0000_0000_0000

  /** `sizeof(data)`: the sample buffer is six bytes. */
  const SAMPLE_SIZE: int := 6

  /** The errno `bm_read` negates when the copy to user space fails. */
  const EFAULT: int := 14

  /** The sample registers in the order the burst reads them. */
  const SAMPLE_REGISTERS: seq<int> := [OUT_X_MSB, OUT_X_LSB, OUT_Y_MSB, OUT_Y_LSB, OUT_Z_MSB, OUT_Z_LSB]

  /** The burst as bus transactions. */
  const SAMPLE_READS: seq<Transaction> := [
    ReadByte(OUT_X_MSB), ReadByte(OUT_X_LSB), ReadByte(OUT_Y_MSB),
    ReadByte(OUT_Y_LSB), ReadByte(OUT_Z_MSB), ReadByte(OUT_Z_LSB)]

  function Min(a: int, b: int): int
  {
    if a <= b then a else b
  }

  /**
   * `status & (1 << 3)` on the `int` the bus returned: bit 3 of its two's
   * complement form. Dafny's `%` is Euclidean, so `status % 256` is the low
   * byte of that form for negative values too, and the test looks at bit 3
   * of that byte.
   */
  predicate DataReady(status: int): (ready: bool)
    ensures ready <==> ((status % 256) / 8) % 2 == 1
  {
    Bit3OfLowByte(status);
    status % 16 >= 8
  }

  /** Bit 3 of an `int` lies in its low four bits, hence in its low byte. */
  lemma Bit3OfLowByte(status: int)
    ensures status % 16 >= 8 <==> ((status % 256) / 8) % 2 == 1
  {
    var r := status % 256;
    assert status == 256 * (status / 256) + r;
    assert status % 16 == r % 16;
  }

  /**
   * For every 32-bit `int` the bus can return, negative ones included, the
   * test is bit 3 of its 32-bit two's complement pattern.
   */
  lemma DataReadyIsMask(status: int)
    requires -0x8000_0000 <= status < 0x8000_0000
    ensures DataReady(status) <==> ((if status < 0 then status + 0x1_0000_0000 else status) / 8) % 2 == 1
  {
    if status < 0 {
      assert (status + 0x1_0000_0000) % 16 == status % 16;
      Bit3(status + 0x1_0000_0000);
    } else {
      Bit3(status);
    }
  }

  /** Bit 3 of a natural number, read off its value modulo 16. */
  lemma Bit3(u: nat)
    ensures (u / 8) % 2 == 1 <==> u % 16 >= 8
  {
    var q, r := u / 16, u % 16;
    assert u == 16 * q + r;
    assert u / 8 == 2 * q + r / 8;
  }

  /** On a byte, the test is the C mask `& 0x08` itself. */
  lemma DataReadyIsByteMask(b: bv8)
    ensures DataReady(b as int) <==> b & 0x08 == 0x08
  {
  }

  /**
   * The negative error codes -1 .. -8 have bit 3 set, so a failed STATUS
   * read with one of them counts as "data ready".
   */
  lemma SmallErrorsReadAsReady(e: int)
    requires 1 <= e <= 8
    ensures DataReady(-e)
  {
  }

  /** The conversion of the bus result to `unsigned char`: its low byte. */
  function LowByte(x: int): (b: byte)
    ensures (x - b as int) % 256 == 0
    ensures 0 <= x < 256 ==> b as int == x
  {
    (x % 256) as byte
  }

  /** The six burst reads, each result truncated to a byte. */
  function Burst(bus: int -> int): (s: seq<byte>)
    ensures |s| == SAMPLE_SIZE
  {
    [LowByte(bus(OUT_X_MSB)), LowByte(bus(OUT_X_LSB)),
     LowByte(bus(OUT_Y_MSB)), LowByte(bus(OUT_Y_LSB)),
     LowByte(bus(OUT_Z_MSB)), LowByte(bus(OUT_Z_LSB))]
  }

  /**
   * The buffer contents after the fetch: the burst when the ready bit is
   * set, otherwise the buffer's indeterminate contents `garbage` untouched.
   */
  function Fetched(bus: int -> int, garbage: seq<byte>): (s: seq<byte>)
    requires |garbage| == SAMPLE_SIZE
    ensures |s| == SAMPLE_SIZE
  {
    if DataReady(bus(STATUS)) then Burst(bus) else garbage
  }

  /** The transactions one call issues, in order. */
  function BusReads(bus: int -> int): (t: seq<Transaction>)
    ensures |t| == if DataReady(bus(STATUS)) then 1 + SAMPLE_SIZE else 1
    ensures t[0] == ReadByte(STATUS)
  {
    [ReadByte(STATUS)] + if DataReady(bus(STATUS)) then SAMPLE_READS else []
  }

  /**
   * The 64-bit unsigned result of adding or subtracting two 64-bit unsigned
   * values: the true result brought back into range by one 2^64.
   */
  function Wrap(x: int): (r: int)
    requires -WORD < x < 2 * WORD
    ensures 0 <= r < WORD
    ensures r == x || r == x + WORD || r == x - WORD
  {
    if x < 0 then x + WORD else if x >= WORD then x - WORD else x
  }

  /**
   * The count after `if (pos + count > sizeof(data)) count = sizeof(data) - pos;`
   * with both operations done in 64-bit unsigned arithmetic.
   */
  function Clamp(pos: int, count: int): (n: int)
    requires 0 <= pos < WORD && 0 <= count < WORD
    ensures 0 <= n < WORD
    ensures pos <= SAMPLE_SIZE && pos + count < WORD ==> n == Min(count, SAMPLE_SIZE - pos)
  {
    if Wrap(pos + count) > SAMPLE_SIZE then Wrap(SAMPLE_SIZE - pos) else count
  }

  /** Past the end of the buffer the subtraction wraps to a huge count. */
  lemma ClampPastEnd(pos: int, count: int)
    requires SAMPLE_SIZE < pos && 0 <= count && pos + count < WORD
    ensures Clamp(pos, count) == WORD - (pos - SAMPLE_SIZE)
    ensures Clamp(pos, count) > SAMPLE_SIZE
  {
  }

  /** When `pos + count` itself wraps, the count is not clamped at all. */
  lemma ClampSumWraps(pos: int, count: int)
    requires 0 <= pos <= SAMPLE_SIZE && count < WORD && WORD <= pos + count
    ensures Clamp(pos, count) == count
    ensures pos + Clamp(pos, count) > SAMPLE_SIZE
  {
  }

  /**
   * `copy_to_user` of `n` bytes: the number of bytes it could not copy. A
   * user buffer that does not accept them (`!writable`) takes none, and a
   * copy of nothing always succeeds.
   */
  function CopyToUser(n: int, writable: bool): (notCopied: int)
    requires 0 <= n
    ensures 0 <= notCopied <= n
    ensures notCopied == 0 <==> writable || n == 0
  {
    if writable then 0 else n
  }

  /** What one call hands back: its return value, the bytes copied, the new offset. */
  datatype Outcome = Outcome(ret: int, delivered: seq<byte>, offset: int)

  /**
   * One call of `bm_read` with the offset at `offset`, `count` bytes asked
   * for, the bus answering `bus`, the local buffer initially holding
   * `garbage`, and the user buffer accepting the bytes when `writable`.
   * The call fails only when there is at least one byte to copy and the
   * user buffer does not take it.
   */
  function ReadSpec(offset: int, count: int, bus: int -> int, garbage: seq<byte>, writable: bool): (o: Outcome)
    requires 0 <= offset <= SAMPLE_SIZE && 0 <= count && offset + count < WORD
    requires |garbage| == SAMPLE_SIZE
    ensures o.ret == -EFAULT <==> !writable && Min(count, SAMPLE_SIZE - offset) > 0
    ensures o.ret != -EFAULT ==> 0 <= o.ret <= count && o.ret == |o.delivered|
    ensures o.ret != -EFAULT ==> o.offset == offset + o.ret <= SAMPLE_SIZE
    ensures o.ret != -EFAULT ==> o.ret == count || o.offset == SAMPLE_SIZE
    ensures o.ret != -EFAULT ==> o.delivered == Fetched(bus, garbage)[offset..o.offset]
    ensures o.ret == -EFAULT ==> o.delivered == [] && o.offset == offset
  {
    var data := Fetched(bus, garbage);
    var n := Clamp(offset, count);
    if CopyToUser(n, writable) != 0 then Outcome(-EFAULT, [], offset)
    else Outcome(n, data[offset..offset + n], offset + n)
  }

  /**
   * At the end of the buffer a call returns 0 and leaves the offset at 6,
   * whether or not the user buffer is writable.
   */
  lemma EndOfStream(count: int, bus: int -> int, garbage: seq<byte>, writable: bool)
    requires 0 <= count < WORD - SAMPLE_SIZE && |garbage| == SAMPLE_SIZE
    ensures ReadSpec(SAMPLE_SIZE, count, bus, garbage, writable) == Outcome(0, [], SAMPLE_SIZE)
  {
  }

  /**
   * The sample registers are read exactly when the status result has bit 3
   * set; otherwise the call reads STATUS alone.
   */
  lemma ReadyGating(bus: int -> int, a: int)
    requires a in SAMPLE_REGISTERS
    ensures ReadByte(a) in BusReads(bus) <==> DataReady(bus(STATUS))
    ensures !DataReady(bus(STATUS)) ==> BusReads(bus) == [ReadByte(STATUS)]
    ensures DataReady(bus(STATUS)) ==> BusReads(bus) == [ReadByte(0x00), ReadByte(0x01), ReadByte(0x02), ReadByte(0x03), ReadByte(0x04), ReadByte(0x05), ReadByte(0x06)]
  {
    SampleAddresses();
  }

  /**
   * The burst reads addresses 0x01..0x06 in order and stores byte `i` from
   * register `OUT_X_MSB + i`, whatever that register returned.
   */
  lemma BurstOrder(bus: int -> int, i: int)
    requires 0 <= i < SAMPLE_SIZE
    ensures SAMPLE_REGISTERS == [0x01, 0x02, 0x03, 0x04, 0x05, 0x06]
    ensures Burst(bus)[i] == LowByte(bus(OUT_X_MSB + i))
    ensures OUT_X_MSB + i == i + 1
  {
    SampleAddresses();
  }

  /**
   * A bus error during the burst is stored as data: -EIO (-5) from OUT_Y_LSB
   * becomes the byte 251 at position 3.
   */
  lemma BurstErrorBecomesData(bus: int -> int)
    requires DataReady(bus(STATUS)) && bus(OUT_Y_LSB) == -5
    ensures Fetched(bus, [0, 0, 0, 0, 0, 0])[3] == 251
  {
  }

  /** With the ready bit set the call serves the fresh burst. */
  lemma ReadyCall(offset: int, count: int, bus: int -> int, garbage: seq<byte>)
    requires 0 <= offset <= SAMPLE_SIZE && 0 <= count && offset + count < WORD
    requires |garbage| == SAMPLE_SIZE && DataReady(bus(STATUS))
    ensures var o := ReadSpec(offset, count, bus, garbage, true);
      o.offset == offset + Min(count, SAMPLE_SIZE - offset) && o.delivered == Burst(bus)[offset..o.offset]
  {
  }

  /** With the ready bit clear the call serves the uninitialised buffer. */
  lemma NotReadyServesGarbage(offset: int, count: int, bus: int -> int, garbage: seq<byte>)
    requires 0 <= offset <= SAMPLE_SIZE && 0 <= count && offset + count < WORD
    requires |garbage| == SAMPLE_SIZE && !DataReady(bus(STATUS))
    ensures ReadSpec(offset, count, bus, garbage, true).delivered == garbage[offset..offset + Min(count, SAMPLE_SIZE - offset)]
  {
  }

  /** One call of a multi-call read: the count asked for and the world it meets. */
  datatype Call = Call(count: int, bus: int -> int, garbage: seq<byte>)

  predicate CallsValid(calls: seq<Call>)
  {
    forall i :: 0 <= i < |calls| ==> 0 <= calls[i].count < WORD - SAMPLE_SIZE && |calls[i].garbage| == SAMPLE_SIZE
  }

  function TotalCount(calls: seq<Call>): int
  {
    if calls == [] then 0 else calls[0].count + TotalCount(calls[1..])
  }

  /**
   * A sequence of successful calls starting at `offset`: the bytes they
   * deliver, concatenated, and the final offset.
   */
  function Drain(offset: int, calls: seq<Call>): (r: (seq<byte>, int))
    requires 0 <= offset <= SAMPLE_SIZE && CallsValid(calls)
    ensures offset <= r.1 <= SAMPLE_SIZE && |r.0| == r.1 - offset
    decreases |calls|
  {
    if calls == [] then ([], offset)
    else
      var o := ReadSpec(offset, calls[0].count, calls[0].bus, calls[0].garbage, true);
      var rest := Drain(o.offset, calls[1..]);
      (o.delivered + rest.0, rest.1)
  }

  /** Unfolds a drain by its first call. */
  lemma DrainCons(offset: int, c: Call, rest: seq<Call>)
    requires 0 <= offset <= SAMPLE_SIZE && 0 <= c.count < WORD - SAMPLE_SIZE && |c.garbage| == SAMPLE_SIZE
    requires CallsValid(rest)
    ensures CallsValid([c] + rest)
    ensures var o := ReadSpec(offset, c.count, c.bus, c.garbage, true);
      Drain(offset, [c] + rest) == (o.delivered + Drain(o.offset, rest).0, Drain(o.offset, rest).1)
  {
    assert ([c] + rest)[0] == c && ([c] + rest)[1..] == rest;
  }

  lemma {:induction false} TotalCountNonNegative(calls: seq<Call>)
    requires CallsValid(calls)
    ensures TotalCount(calls) >= 0
    decreases |calls|
  {
    if calls != [] {
      TotalCountNonNegative(calls[1..]);
    }
  }

  /**
   * The offset never passes the buffer: a drain ends at the smaller of the
   * buffer size and the offset plus everything asked for.
   */
  lemma {:induction false} DrainEnd(offset: int, calls: seq<Call>)
    requires 0 <= offset <= SAMPLE_SIZE && CallsValid(calls)
    ensures Drain(offset, calls).1 == Min(offset + TotalCount(calls), SAMPLE_SIZE)
    decreases |calls|
  {
    if calls != [] {
      TotalCountNonNegative(calls[1..]);
      var o := ReadSpec(offset, calls[0].count, calls[0].bus, calls[0].garbage, true);
      DrainEnd(o.offset, calls[1..]);
    }
  }

  /**
   * When every call of a drain sees the ready bit and the same sample, the
   * concatenated bytes are one contiguous range of that sample.
   */
  lemma {:induction false} DrainOneSample(offset: int, calls: seq<Call>, sample: seq<byte>)
    requires 0 <= offset <= SAMPLE_SIZE && CallsValid(calls)
    requires |sample| == SAMPLE_SIZE
    requires forall i :: 0 <= i < |calls| ==> DataReady(calls[i].bus(STATUS)) && Burst(calls[i].bus) == sample
    ensures Drain(offset, calls).0 == sample[offset..Drain(offset, calls).1]
    decreases |calls|
  {
    if calls != [] {
      var c, tail := calls[0], calls[1..];
      assert DataReady(c.bus(STATUS)) && Burst(c.bus) == sample;
      var o := ReadSpec(offset, c.count, c.bus, c.garbage, true);
      ReadyCall(offset, c.count, c.bus, c.garbage);
      assert o.delivered == sample[offset..o.offset];
      forall i | 0 <= i < |tail|
        ensures DataReady(tail[i].bus(STATUS)) && Burst(tail[i].bus) == sample
      {
        assert tail[i] == calls[i + 1];
      }
      assert CallsValid(tail);
      DrainOneSample(o.offset, tail, sample);
      var rest := Drain(o.offset, tail);
      assert Drain(offset, calls) == (o.delivered + rest.0, rest.1);
      JoinRanges(sample, offset, o.offset, rest.1, o.delivered, rest.0);
    }
  }

  /** Two adjacent ranges of a sequence join into one. */
  lemma JoinRanges(s: seq<byte>, a: int, b: int, c: int, x: seq<byte>, y: seq<byte>)
    requires 0 <= a <= b <= c <= |s|
    requires x == s[a..b] && y == s[b..c]
    ensures x + y == s[a..c]
  {
  }

  /** A bus whose STATUS is ready and whose six sample registers all read `v`. */
  function ConstantBus(v: int): int -> int
  {
    a => if a == STATUS then 0x08 else v
  }

  /** A constant bus reports data ready and yields six copies of its byte. */
  lemma ConstantBurst(v: byte)
    ensures DataReady(ConstantBus(v as int)(STATUS))
    ensures Burst(ConstantBus(v as int)) == [v, v, v, v, v, v]
  {
    SampleAddresses();
  }

  /**
   * Every call re-fetches, whatever the offset: two 3-byte calls that each
   * see the ready bit deliver the first half of the first call's sample and
   * the second half of the second call's.
   */
  lemma SplitReadMixesSamples(first: int -> int, second: int -> int, garbage: seq<byte>)
    requires |garbage| == SAMPLE_SIZE
    requires DataReady(first(STATUS)) && DataReady(second(STATUS))
    ensures var calls := [Call(3, first, garbage), Call(3, second, garbage)];
      CallsValid(calls) && Drain(0, calls) == (Burst(first)[..3] + Burst(second)[3..], SAMPLE_SIZE)
  {
    var c1, c2 := Call(3, first, garbage), Call(3, second, garbage);
    ReadyCall(0, 3, first, garbage);
    ReadyCall(3, 3, second, garbage);
    var tail := Burst(second)[3..];
    assert Burst(second)[3..6] == tail;
    assert Burst(first)[0..3] == Burst(first)[..3];
    assert Drain(SAMPLE_SIZE, []) == ([], SAMPLE_SIZE);
    DrainCons(3, c2, []);
    assert [c2] + [] == [c2] && tail + [] == tail;
    assert Drain(3, [c2]) == (tail, SAMPLE_SIZE);
    DrainCons(0, c1, [c2]);
    assert [c1] + [c2] == [c1, c2];
  }

  /**
   * A bus whose sample changes during the burst: registers up to `k` answer
   * from `first`, the later ones from `second`.
   */
  function Mixed(first: int -> int, second: int -> int, k: int): int -> int
  {
    a => if a <= k then first(a) else second(a)
  }

  /**
   * Each register is read at most once per call, so a sample that changes
   * after the `k`-th sample register is captured by one bus function: the
   * buffer holds the first sample's head and the second sample's tail.
   */
  lemma MidBurstChange(first: int -> int, second: int -> int, k: int)
    requires 0 <= k <= SAMPLE_SIZE
    ensures Burst(Mixed(first, second, k)) == Burst(first)[..k] + Burst(second)[k..]
  {
    var m, r := Mixed(first, second, k), Burst(first)[..k] + Burst(second)[k..];
    forall i | 0 <= i < SAMPLE_SIZE
      ensures Burst(m)[i] == r[i]
    {
      BurstOrder(m, i);
      BurstOrder(first, i);
      BurstOrder(second, i);
    }
  }

  /**
   * Two 3-byte calls that both see the ready bit return exactly the first
   * sample when the two samples agree on their last three bytes, exactly the
   * second when they agree on their first three, and otherwise neither.
   */
  lemma TornReadExactly(first: int -> int, second: int -> int, garbage: seq<byte>)
    requires |garbage| == SAMPLE_SIZE
    requires DataReady(first(STATUS)) && DataReady(second(STATUS))
    ensures var r := Drain(0, [Call(3, first, garbage), Call(3, second, garbage)]).0;
      (r != Burst(first) <==> Burst(first)[3..] != Burst(second)[3..]) &&
      (r != Burst(second) <==> Burst(first)[..3] != Burst(second)[..3])
  {
    var b1, b2 := Burst(first), Burst(second);
    SplitReadMixesSamples(first, second, garbage);
    var r := Drain(0, [Call(3, first, garbage), Call(3, second, garbage)]).0;
    assert b1 == b1[..3] + b1[3..];
    assert b2 == b2[..3] + b2[3..];
    assert r[..3] == b1[..3] && r[3..] == b2[3..];
  }

  /**
   * So a drain across a new sample is torn: with the sample changing from
   * all zeroes to all ones between the calls, the six bytes read are
   * neither sample.
   */
  lemma TornRead(garbage: seq<byte>)
    requires |garbage| == SAMPLE_SIZE
    ensures var calls := [Call(3, ConstantBus(0), garbage), Call(3, ConstantBus(1), garbage)];
      CallsValid(calls) &&
      Drain(0, calls).0 == [0, 0, 0, 1, 1, 1] &&
      Drain(0, calls).0 != Burst(ConstantBus(0)) &&
      Drain(0, calls).0 != Burst(ConstantBus(1))
  {
    ConstantBurst(0);
    ConstantBurst(1);
    SplitReadMixesSamples(ConstantBus(0), ConstantBus(1), garbage);
  }

  /**
   * The six sample reads of `bm_read`, each stored in `data` as the low byte
   * of what the bus returned.
   */
  method ReadSample(client: I2cClient, bus: int -> int, data: array<byte>)
    requires data.Length == SAMPLE_SIZE
    modifies client, data
    ensures client.log == old(client.log) + SAMPLE_READS
    ensures data[..] == Burst(bus)
  {
    var r := client.SmbusReadByte(bus, OUT_X_MSB);
    data[0] := LowByte(r);
    r := client.SmbusReadByte(bus, OUT_X_LSB);
    data[1] := LowByte(r);
    r := client.SmbusReadByte(bus, OUT_Y_MSB);
    data[2] := LowByte(r);
    r := client.SmbusReadByte(bus, OUT_Y_LSB);
    data[3] := LowByte(r);
    r := client.SmbusReadByte(bus, OUT_Z_MSB);
    data[4] := LowByte(r);
    r := client.SmbusReadByte(bus, OUT_Z_LSB);
    data[5] := LowByte(r);
  }

  /** An open `bm` device file: the file offset `*offp` that reads advance. */
  class BmFile {
    var offset: int

    /** A file is opened at offset 0. */
    constructor ()
      ensures offset == 0
    {
      offset := 0;
    }

    /**
     * `bm_read`, issuing its transactions through `client` (the driver's
     * `bm_client`): returns the byte count (or `-EFAULT`) and the bytes that
     * reached the user buffer.
     */
    method Read(client: I2cClient, count: int, bus: int -> int, garbage: seq<byte>, writable: bool)
      returns (ret: int, delivered: seq<byte>)
      requires 0 <= offset <= SAMPLE_SIZE && 0 <= count && offset + count < WORD
      requires |garbage| == SAMPLE_SIZE
      modifies this, client
      ensures client.log == old(client.log) + BusReads(bus)
      ensures Outcome(ret, delivered, offset) == ReadSpec(old(offset), count, bus, garbage, writable)
    {
      var data := new byte[SAMPLE_SIZE](i => if 0 <= i < |garbage| then garbage[i] else 0);
      assert data[..] == garbage;
      var pos := offset;

      var status := client.SmbusReadByte(bus, STATUS);
      if DataReady(status) {
        ReadSample(client, bus, data);
      }
      assert data[..] == Fetched(bus, garbage);

      var n := count;
      if Wrap(pos + n) > data.Length {
        n := Wrap(data.Length - pos);
      }
      assert n == Clamp(pos, count);
      if CopyToUser(n, writable) != 0 {
        return -EFAULT, [];
      }
      delivered := data[pos..pos + n];
      offset := offset + n;
      ret := n;
    }
  }
}
