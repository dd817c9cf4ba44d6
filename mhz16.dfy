/**
 * The MH-Z16 CO2 sensor (src/sensor/mhz-16-sensor.class.js). It sits behind
 * an SC16IS7xx I2C-to-UART bridge: the boot programs the bridge's UART, a
 * reading sends the 9-byte measure command through the transmit FIFO and
 * collects the 9-byte answer from the receive FIFO, and `parse` checks the
 * frame and reads the concentration out of it.
 */
module MHZ16 {
  import opened Wrappers
  import opened Bus

  // ------------------------------------------------------------ registers

  /** The bridge takes the register index in bits 3..6 of the sub-address. */
  function SubAddress(index: nat): (a: nat)
    requires index < 16
    ensures a % 8 == 0 && a / 8 == index && a < 128
  {
    index * 8
  }

  const IOCONTROL := SubAddress(0x0e)
  const FCR := SubAddress(0x02)
  const LCR := SubAddress(0x03)
  const DLL := SubAddress(0x00)
  const DLH := SubAddress(0x01)
  const THR := SubAddress(0x00)
  const RHR := SubAddress(0x00)
  const TX_LVL := SubAddress(0x08)
  const RX_LVL := SubAddress(0x09)

  const CMD_MEASURE: seq<Byte> := [0xff, 0x01, 0x9c, 0x00, 0x00, 0x00, 0x00, 0x00, 0x63]
  const FRAME_LENGTH := 9
  const TIMEOUT_MS := 9000

  const NO_BUS := "I2c not started can't boot humidity sensor"
  const TX_TOO_SHORT := "TxLVL length < cmd length"
  const TIMED_OUT := "Operation timed out"
  const NOT_IMPLEMENTED := "Detector type not implemented"

  // ------------------------------------------------------------ parse

  /** `reduce((a, b) => a + b, 0)` over the bytes. */
  function ByteSum(s: seq<Byte>): (r: int)
    ensures r >= 0
  {
    if |s| == 0 then 0 else ByteSum(s[..|s| - 1]) + s[|s| - 1]
  }

  /** JavaScript's ToInt32: the value modulo 2^32, read as two's complement. */
  function ToInt32(x: int): (r: int)
    ensures -0x8000_0000 <= r < 0x8000_0000
    ensures (r - x) % 0x1_0000_0000 == 0
  {
    var m := x % 0x1_0000_0000;
    if m >= 0x8000_0000 then m - 0x1_0000_0000 else m
  }

  /** `b << n` on a byte, with the operator's 32-bit signed result. */
  function Shl(b: Byte, n: nat): int
    requires n < 32
  {
    ToInt32(b * Pow2(n))
  }

  /** The frame's start byte, command echo and checksum are right. */
  predicate WellFormed(response: seq<Byte>)
    requires |response| == FRAME_LENGTH
  {
    response[0] == 0xff && response[1] == 0x9c && ByteSum(response) % 256 == 0xff
  }

  /** The concentration a well-formed frame carries, as the shift-and-add expression computes it. */
  function Ppm(response: seq<Byte>): int
    requires |response| == FRAME_LENGTH
  {
    Shl(response[2], 24) + Shl(response[3], 16) + Shl(response[4], 8) + response[5]
  }

  /** The value read out of bytes 2..5, most significant first, independently of the shifts. */
  function BigEndian(b2: Byte, b3: Byte, b4: Byte, b5: Byte): int
  {
    ((b2 * 256 + b3) * 256 + b4) * 256 + b5
  }

  /** parse: no value unless the answer is 9 bytes long and well formed. */
  function Parse(response: seq<Byte>): (r: Option<int>)
    ensures |response| != FRAME_LENGTH ==> r.None?
    ensures |response| == FRAME_LENGTH ==> (r.Some? <==> WellFormed(response))
    ensures r.Some? ==> r.value == Ppm(response)
  {
    if |response| != FRAME_LENGTH then None
    else if !WellFormed(response) then None
    else Some(Ppm(response))
  }

  lemma Pow2Values()
    ensures Pow2(8) == 0x100 && Pow2(16) == 0x1_0000 && Pow2(24) == 0x100_0000
  {
    assert Pow2(4) == 16;
    assert Pow2(8) == 256;
    assert Pow2(12) == 4096;
    assert Pow2(16) == 65536;
    assert Pow2(20) == 1048576;
  }

  /**
   * The shifts read bytes 2..5 big-endian, except that a byte 2 of 0x80 or
   * more lands in the sign bit of the 32-bit shift and the value goes negative.
   */
  lemma PpmIsBigEndian(response: seq<Byte>)
    requires |response| == FRAME_LENGTH
    ensures response[2] < 0x80 ==> Ppm(response) == BigEndian(response[2], response[3], response[4], response[5])
    ensures response[2] >= 0x80 ==>
      Ppm(response) == BigEndian(response[2], response[3], response[4], response[5]) - 0x1_0000_0000
    ensures response[2] < 0x80 <==> Ppm(response) >= 0
  {
    Pow2Values();
    var b2, b3, b4, b5 := response[2] as int, response[3] as int, response[4] as int, response[5] as int;
    assert BigEndian(b2, b3, b4, b5) == b2 * 0x100_0000 + b3 * 0x1_0000 + b4 * 0x100 + b5;
    ShlSmall(b3, 16);
    ShlSmall(b4, 8);
    if b2 < 0x80 {
      ShlSmall(b2, 24);
    } else {
      ToInt32High(b2 * 0x100_0000);
    }
  }

  lemma ShlSmall(b: Byte, n: nat)
    requires n == 8 || n == 16 || (n == 24 && b < 0x80)
    ensures Shl(b, n) == b * Pow2(n)
  {
    Pow2Values();
    ToInt32Small(b * Pow2(n));
  }

  lemma ToInt32Small(x: int)
    requires 0 <= x < 0x8000_0000
    ensures ToInt32(x) == x
  {
  }

  lemma ToInt32High(x: int)
    requires 0x8000_0000 <= x < 0x1_0000_0000
    ensures ToInt32(x) == x - 0x1_0000_0000
  {
  }

  /** The answer frame the sensor sends for a concentration that fits in 31 bits. */
  function Frame(ppm: int): (f: seq<Byte>)
    requires 0 <= ppm < 0x8000_0000
    ensures |f| == FRAME_LENGTH
  {
    var q1 := ppm / 0x100;
    var q2 := q1 / 0x100;
    var head: seq<Byte> := [0xff, 0x9c, q2 / 0x100, q2 % 0x100, q1 % 0x100, ppm % 0x100, 0, 0];
    head + [(0xff - ByteSum(head)) % 0x100]
  }

  lemma ByteSumStep(s: seq<Byte>, k: nat)
    requires k < |s|
    ensures ByteSum(s[..k + 1]) == ByteSum(s[..k]) + s[k]
  {
    assert s[..k + 1][..k] == s[..k];
  }

  lemma ByteSumAppend(s: seq<Byte>, b: Byte)
    ensures ByteSum(s + [b]) == ByteSum(s) + b
  {
    assert (s + [b])[..|s|] == s;
  }

  /** Round trip: parsing the frame for a concentration gives that concentration back. */
  lemma ParseFrame(ppm: int)
    requires 0 <= ppm < 0x8000_0000
    ensures Parse(Frame(ppm)) == Some(ppm)
  {
    var f := Frame(ppm);
    var head := f[..8];
    assert f == head + [f[8]];
    ByteSumAppend(head, f[8]);
    assert WellFormed(f);
    var q1 := ppm / 0x100;
    var q2 := q1 / 0x100;
    assert ppm == q1 * 0x100 + ppm % 0x100;
    assert q1 == q2 * 0x100 + q1 % 0x100;
    assert q2 == q2 / 0x100 * 0x100 + q2 % 0x100;
    assert q1 < 0x80_0000 && q2 < 0x8000 && f[2] == q2 / 0x100 < 0x80;
    assert BigEndian(f[2], f[3], f[4], f[5]) == ppm;
    PpmIsBigEndian(f);
  }

  /** The command frame itself is not an answer: its second byte is not 0x9c. */
  lemma CommandIsNoAnswer()
    ensures Parse(CMD_MEASURE).None?
  {
  }

  /** The buffer ff9c0000023300002f reads 563 ppm. */
  lemma ParseExample()
    ensures Parse([0xff, 0x9c, 0x00, 0x00, 0x02, 0x33, 0x00, 0x00, 0x2f]) == Some(563)
  {
    var f: seq<Byte> := [0xff, 0x9c, 0x00, 0x00, 0x02, 0x33, 0x00, 0x00, 0x2f];
    ByteSumStep(f, 0); ByteSumStep(f, 1); ByteSumStep(f, 2); ByteSumStep(f, 3);
    ByteSumStep(f, 4); ByteSumStep(f, 5); ByteSumStep(f, 6); ByteSumStep(f, 7);
    assert ByteSum(f) == 511 by { assert f[..8] == f[..|f| - 1]; }
    PpmIsBigEndian(f);
  }

  // ------------------------------------------------------------ boot

  /** The UART set-up: reset the I/O control, enable the FIFOs, 9600 baud through the divisor latch, 8N1. */
  const BOOT_WRITES: seq<(int, Byte)> :=
    [(IOCONTROL, 0x08), (FCR, 0x07), (LCR, 0x83), (DLL, 0x60), (DLH, 0x00), (LCR, 0x03)]

  datatype BootRun = BootRun(ops: seq<BusOp>, outcome: Outcome)

  /** One boot write fails the boot, except that EIO on the first one (the reset) is expected. */
  predicate Fatal(k: nat, reply: BusResult)
  {
    reply.Failed? && !(k == 0 && reply.code == "EIO")
  }

  /** The writes from index `k` on; the series stops at the first fatal reply. */
  function BootFrom(addr: int, replies: seq<BusResult>, k: nat): (b: BootRun)
    requires |replies| == |BOOT_WRITES| && k <= |BOOT_WRITES|
    ensures |b.ops| <= |BOOT_WRITES| - k
    ensures forall j :: 0 <= j < |b.ops| ==> b.ops[j] == WriteByte(addr, BOOT_WRITES[k + j].0, BOOT_WRITES[k + j].1)
    ensures b.outcome.Pass? <==> |b.ops| == |BOOT_WRITES| - k && forall j :: k <= j < |BOOT_WRITES| ==> !Fatal(j, replies[j])
    ensures b.outcome.Fail? ==>
      (|b.ops| >= 1 && Fatal(k + |b.ops| - 1, replies[k + |b.ops| - 1])
       && b.outcome.error == replies[k + |b.ops| - 1].code)
    decreases |BOOT_WRITES| - k
  {
    if k == |BOOT_WRITES| then BootRun([], Pass)
    else
      var op := WriteByte(addr, BOOT_WRITES[k].0, BOOT_WRITES[k].1);
      if Fatal(k, replies[k]) then BootRun([op], Fail(replies[k].code))
      else
        var rest := BootFrom(addr, replies, k + 1);
        BootRun([op] + rest.ops, rest.outcome)
  }

  /** boot: without a bus nothing is written; otherwise the six writes in order until one fails. */
  function Boot(bus: bool, addr: int, replies: seq<BusResult>): (b: BootRun)
    requires |replies| == |BOOT_WRITES|
    ensures !bus ==> b == BootRun([], Fail(NO_BUS))
    ensures bus ==> (b.outcome.Pass? <==> forall j :: 0 <= j < |BOOT_WRITES| ==> !Fatal(j, replies[j]))
    ensures bus && b.outcome.Pass? ==>
      b.ops == [WriteByte(addr, IOCONTROL, 0x08), WriteByte(addr, FCR, 0x07), WriteByte(addr, LCR, 0x83),
                WriteByte(addr, DLL, 0x60), WriteByte(addr, DLH, 0x00), WriteByte(addr, LCR, 0x03)]
  {
    if bus then BootFrom(addr, replies, 0) else BootRun([], Fail(NO_BUS))
  }

  /** A bridge that answers the reset with EIO still boots. */
  lemma ResetEioTolerated(addr: int)
    ensures Boot(true, addr, [Failed("EIO"), Done, Done, Done, Done, Done]).outcome == Pass
  {
  }

  /** EIO anywhere else stops the boot at that write. */
  lemma LaterEioFails(addr: int)
    ensures Boot(true, addr, [Done, Failed("EIO"), Done, Done, Done, Done]) ==
      BootRun([WriteByte(addr, IOCONTROL, 0x08), WriteByte(addr, FCR, 0x07)], Fail("EIO"))
  {
  }

  // ------------------------------------------------------------ receive loop

  datatype BlockReply = Block(data: seq<Byte>) | BlockFailed(code: string)

  /**
   * What the bridge answered in one round of the receive loop: the fill
   * level of the receive FIFO, the block read that follows a non-zero
   * level, and the time (ms since the loop started) the round ended.
   */
  datatype Round = Round(level: ByteReply, block: BlockReply, at: int)

  /** `Buffer.alloc(n)` filled by the read: the bytes the bus delivered, zeros where it delivered none. */
  function Fill(data: seq<Byte>, n: nat): (r: seq<Byte>)
    ensures |r| == n
    ensures forall i :: 0 <= i < n ==> r[i] == if i < |data| then data[i] else 0
  {
    seq(n, i requires 0 <= i < n => if i < |data| then data[i] else 0)
  }

  /** How the loop ends: all bytes in, a bus error, or no end before the answers run out. */
  datatype Receipt = Complete(data: seq<Byte>, at: int) | BusError(code: string, at: int) | Unfinished

  /** The `whilst` loop, round by round: each takes min(level, left) bytes; a zero level waits and asks again. */
  function Collect(rounds: seq<Round>, left: nat, data: seq<Byte>, t: int): (r: Receipt)
    ensures r.Complete? ==> |r.data| == |data| + left
    decreases |rounds|
  {
    if left == 0 then Complete(data, t)
    else if |rounds| == 0 then Unfinished
    else
      var rd := rounds[0];
      match rd.level
      case ReadFailed(code) => BusError(code, rd.at)
      case Read(level) =>
        var n := if level > left then left else level;
        if n == 0 then Collect(rounds[1..], left, data, rd.at)
        else if rd.block.BlockFailed? then BusError(rd.block.code, rd.at)
        else Collect(rounds[1..], left - n, data + Fill(rd.block.data, n), rd.at)
  }

  /**
   * The third step of readCO2: the 9-second timer wins unless the loop ends
   * before it; once it has fired, the loop's own end is not reported.
   */
  function Received(rounds: seq<Round>): (r: Result<seq<Byte>>)
    ensures r.Ok? ==> |r.value| == FRAME_LENGTH
  {
    match Collect(rounds, FRAME_LENGTH, [], 0)
    case Complete(data, t) => if t < TIMEOUT_MS then Ok(data) else Err(TIMED_OUT)
    case BusError(code, t) => if t < TIMEOUT_MS then Err(code) else Err(TIMED_OUT)
    case Unfinished => Err(TIMED_OUT)
  }

  /** The receive loop, with `left` counting down and `sensorData` growing. */
  method ReceiveFrame(rounds: seq<Round>) returns (r: Result<seq<Byte>>)
    ensures r == Received(rounds)
    ensures r.Ok? ==> |r.value| == FRAME_LENGTH
  {
    var sensorData: seq<Byte> := [];
    var left: nat := FRAME_LENGTH;
    var i := 0;
    var t := 0;
    var failure: Option<string> := None;
    while left > 0 && failure.None? && i < |rounds|
      invariant 0 <= i <= |rounds|
      invariant left <= FRAME_LENGTH
      invariant failure.None? ==> |sensorData| + left == FRAME_LENGTH
      invariant failure.None? ==> Collect(rounds, FRAME_LENGTH, [], 0) == Collect(rounds[i..], left, sensorData, t)
      invariant failure.Some? ==> Collect(rounds, FRAME_LENGTH, [], 0) == BusError(failure.value, t)
      decreases |rounds| - i, failure.None?
    {
      var rd := rounds[i];
      assert rounds[i..][0] == rd && rounds[i..][1..] == rounds[i + 1..];
      t := rd.at;
      if rd.level.ReadFailed? {
        failure := Some(rd.level.code);
      } else {
        var level := rd.level.value;
        if level > left {
          level := left;
        }
        left := left - level;
        if level != 0 {
          if rd.block.BlockFailed? {
            failure := Some(rd.block.code);
          } else {
            sensorData := sensorData + Fill(rd.block.data, level);
          }
        }
      }
      i := i + 1;
    }
    if failure.Some? {
      r := if t < TIMEOUT_MS then Err(failure.value) else Err(TIMED_OUT);
    } else if left == 0 {
      r := if t < TIMEOUT_MS then Ok(sensorData) else Err(TIMED_OUT);
    } else {
      r := Err(TIMED_OUT);
    }
  }

  /** A FIFO that holds the whole answer at once gives it in one round. */
  lemma OneRound(data: seq<Byte>, at: int)
    requires |data| == FRAME_LENGTH && 0 <= at < TIMEOUT_MS
    ensures Received([Round(Read(9), Block(data), at)]) == Ok(data)
  {
    var rounds := [Round(Read(9), Block(data), at)];
    assert rounds[1..] == [];
    assert Fill(data, 9) == data;
    assert Collect(rounds, 9, [], 0) == Collect([], 0, [] + data, at);
    assert [] + data == data;
    assert Collect(rounds, 9, [], 0) == Complete(data, at);
  }

  /** An empty FIFO until the timer fires: the reading times out. */
  lemma EmptyFifoTimesOut(at: int)
    ensures Received([Round(Read(0), Block([]), at)]) == Err(TIMED_OUT)
  {
    var rounds := [Round(Read(0), Block([]), at)];
    assert rounds[1..] == [];
    assert Collect(rounds, 9, [], 0) == Collect([], 9, [], at);
  }

  /** A level above what is still missing takes only what is missing. */
  lemma {:induction false} OverfullLevel(rest: seq<Byte>, data: seq<Byte>, t: int)
    requires |rest| == 4 && |data| == 5
    ensures Collect([Round(Read(200), Block(rest + [7]), t)], 4, data, 0) == Complete(data + rest, t)
  {
    assert Fill(rest + [7], 4) == rest;
  }

  // ------------------------------------------------------------ a reading

  /**
   * readCO2: reset the FIFOs, refuse to send when the transmit FIFO has room
   * for fewer than 9 bytes, send the measure command, collect the answer and
   * parse it (an ill-formed answer is a reading of null, not an error).
   */
  method ReadCO2(addr: int, reset: BusResult, txLevel: ByteReply, send: BusResult, rounds: seq<Round>)
    returns (r: Result<Option<int>>, ops: seq<BusOp>)
    ensures |ops| >= 1 && ops[0] == WriteByte(addr, FCR, 0x07)
    ensures reset.Failed? ==> r == Err(reset.code) && ops == [WriteByte(addr, FCR, 0x07)]
    ensures reset.Done? && txLevel.Read? && txLevel.value < FRAME_LENGTH ==>
      r == Err(TX_TOO_SHORT) && ops == [WriteByte(addr, FCR, 0x07), ReadByte(addr, TX_LVL)]
    ensures WriteBlock(addr, THR, CMD_MEASURE) in ops <==>
      reset.Done? && !(txLevel.Read? && txLevel.value < FRAME_LENGTH)
    ensures reset.Done? && !(txLevel.Read? && txLevel.value < FRAME_LENGTH) && send.Failed? ==> r == Err(send.code)
    ensures reset.Done? && !(txLevel.Read? && txLevel.value < FRAME_LENGTH) && send.Done? ==>
      r == match Received(rounds) case Ok(data) => Ok(Parse(data)) case Err(e) => Err(e)
  {
    ops := [WriteByte(addr, FCR, 0x07)];
    if reset.Failed? {
      return Err(reset.code), ops;
    }
    ops := ops + [ReadByte(addr, TX_LVL)];
    // A failed read leaves the level undefined, and `undefined < 9` is false.
    if txLevel.Read? && txLevel.value < FRAME_LENGTH {
      return Err(TX_TOO_SHORT), ops;
    }
    ops := ops + [WriteBlock(addr, THR, CMD_MEASURE)];
    if send.Failed? {
      return Err(send.code), ops;
    }
    var frame := ReceiveFrame(rounds);
    if frame.Err? {
      return Err(frame.error), ops;
    }
    r := Ok(Parse(frame.value));
  }

  // ------------------------------------------------------------ readSensor

  /** What one detector's turn of readSensor does. */
  datatype Turn =
    | Process(value: int)   // processSensorValue, then the next detector
    | Stall                 // no CO2 value: `next` is never called and the pass goes no further
    | Stop(error: string)   // the series ends with this error

  /** A detector of type co2 is read (an error is only logged); any other type ends the pass. */
  function TurnFor(kind: string, reading: Result<Option<int>>): (t: Turn)
    ensures t.Process? <==> kind == "co2" && reading.Ok? && reading.value.Some? && reading.value.value != 0
    ensures t.Stop? <==> kind != "co2"
    ensures t.Stop? ==> t.error == NOT_IMPLEMENTED
  {
    if kind != "co2" then Stop(NOT_IMPLEMENTED)
    else if reading.Ok? && reading.value.Some? && reading.value.value != 0 then Process(reading.value.value)
    else Stall
  }

  /** The values one pass of readSensor hands to processSensorValue, in detector order. */
  function PassValues(kinds: seq<string>, readings: seq<Result<Option<int>>>): (vs: seq<int>)
    requires |readings| == |kinds|
    ensures |vs| <= |kinds|
    ensures forall j :: 0 <= j < |vs| ==> TurnFor(kinds[j], readings[j]) == Process(vs[j])
    ensures |vs| < |kinds| ==> !TurnFor(kinds[|vs|], readings[|vs|]).Process?
  {
    if |kinds| == 0 then []
    else match TurnFor(kinds[0], readings[0])
      case Process(v) => [v] + PassValues(kinds[1..], readings[1..])
      case _ => []
  }

  /** A reading of 0 ppm is falsy and stalls the pass like a missing one. */
  lemma ZeroStalls(readings: seq<Result<Option<int>>>)
    requires |readings| == 2 && readings[0] == Ok(Some(0))
    ensures PassValues(["co2", "co2"], readings) == []
  {
  }
}
