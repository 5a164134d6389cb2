/**
 The Modbus RTU exchange of main/modules/sensor/ultrasonic_sensor.cpp: request, reception under
 a timeout, validation and decoding of the response, and the time a measurement can take.
 */
module ModbusFrame {
  import opened Prelude
  import opened Gf2Poly
  import opened Words
  import opened ModbusCrc
  import opened CrcTheory
  import opened CrcDistance
  import opened Uart

  const NODE_ADDRESS: Octet := 0x01
  const READ_HOLDING_REGISTERS: Octet := 0x03
  const START_ADDRESS: Word16 := 0x0001
  const REGISTER_COUNT: Word16 := 0x0005
  const WARMUP_DELAY_MS: nat := 10000
  const CHAR_TIMEOUT_MS: nat := 6000
  const INTER_FRAME_DELAY_MS: nat := 6000
  const REQUEST_SIZE: nat := 8
  const RESPONSE_SIZE: nat := 15

  const DISTANCE_SAMPLES: nat := 3
  const MAX_REPEAT_READ: nat := 5
  const MAX_DISTANCE_MM: int := 30000

  datatype Reading = Reading(distance: Word16, range: Word16, offset: int, baudrate: Word16, node: Word16)

  datatype FrameError =
    | BadLength
    | BadNode
    | Exception(code: Octet)
    | BadFunction
    | BadByteCount
    | BadCrc
    | Transport

  datatype Response = Decoded(reading: Reading) | Rejected(error: FrameError)

  function ReadU16Be(hi: Octet, lo: Octet): Word16 {
    0x100 * hi + lo
  }

  /** static_cast<int16_t> */
  function ToSigned16(w: Word16): int {
    if w < 0x8000 then w else w - 0x1_0000
  }

  /** uint16_t subtraction */
  function Sub16(a: Word16, b: Word16): Word16 {
    (a - b) % 0x1_0000
  }

  function LowByte(w: Word16): Octet { w % 0x100 }

  function HighByte(w: Word16): Octet { w / 0x100 }

  function WithCrc(body: seq<Octet>): seq<Octet> {
    body + [LowByte(Crc(body)), HighByte(Crc(body))]
  }

  /** What the driver makes of the bytes it received, checks in its order. */
  function ParseFrame(f: seq<Octet>): Response {
    if |f| != RESPONSE_SIZE then Rejected(BadLength)
    else if f[0] != NODE_ADDRESS then Rejected(BadNode)
    else if f[1] >= 0x80 then Rejected(Exception(f[2]))
    else if f[1] != READ_HOLDING_REGISTERS then Rejected(BadFunction)
    else if f[2] != 10 then Rejected(BadByteCount)
    else if !CheckPasses(f) then Rejected(BadCrc)
    else
      var range := ReadU16Be(f[5], f[6]);
      Decoded(Reading(Sub16(range, ReadU16Be(f[3], f[4])), range, ToSigned16(ReadU16Be(f[7], f[8])),
                      ReadU16Be(f[9], f[10]), ReadU16Be(f[11], f[12])))
  }

  // ---------------------------------------------------------------------------------------------
  // Exactly the honest frames are accepted
  // ---------------------------------------------------------------------------------------------

  type Registers = r: seq<Word16> | |r| == 5 witness [0, 0, 0, 0, 0]

  function BigEndian(regs: seq<Word16>): (data: seq<Octet>)
    ensures |data| == 2 * |regs|
    ensures forall i :: 0 <= i < |regs| ==> data[2 * i] == HighByte(regs[i]) && data[2 * i + 1] == LowByte(regs[i])
  {
    if regs == [] then [] else [HighByte(regs[0]), LowByte(regs[0])] + BigEndian(regs[1..])
  }

  lemma {:induction false} WithCrcPasses(body: seq<Octet>)
    ensures CheckPasses(WithCrc(body))
  {
    assert WithCrc(body)[..|body|] == body;
  }

  lemma {:induction false} PassingTrailer(f: seq<Octet>)
    requires |f| >= 2 && CheckPasses(f)
    ensures f == WithCrc(f[..|f| - 2])
  {
    SplitFrame(f, Crc(f[..|f| - 2]));
  }

  lemma {:induction false} SplitFrame(f: seq<Octet>, w: Word16)
    requires |f| >= 2 && w == TrailerWord(f[|f| - 2], f[|f| - 1])
    ensures f == f[..|f| - 2] + [LowByte(w), HighByte(w)]
  {
  }

  lemma {:induction false} SplitWord(hi: Octet, lo: Octet)
    ensures HighByte(ReadU16Be(hi, lo)) == hi && LowByte(ReadU16Be(hi, lo)) == lo
    ensures ReadU16Be(hi, lo) == TrailerWord(lo, hi)
  {
  }

  function RegistersOf(f: seq<Octet>): Registers
    requires |f| >= 13
  {
    [ReadU16Be(f[3], f[4]), ReadU16Be(f[5], f[6]), ReadU16Be(f[7], f[8]),
     ReadU16Be(f[9], f[10]), ReadU16Be(f[11], f[12])]
  }

  function HonestBody(regs: Registers): (body: seq<Octet>)
    ensures |body| == 13
  {
    [NODE_ADDRESS, READ_HOLDING_REGISTERS, 10] + BigEndian(regs)
  }

  /** The response a slave builds from five registers. */
  function HonestFrame(regs: Registers): (f: seq<Octet>)
    ensures |f| == RESPONSE_SIZE
  {
    WithCrc(HonestBody(regs))
  }

  predicate HasHeader(f: seq<Octet>) {
    |f| >= 3 && f[0] == NODE_ADDRESS && f[1] == READ_HOLDING_REGISTERS && f[2] == 10
  }

  lemma {:induction false} BigEndianAt(regs: Registers, i: nat)
    requires i < 5
    ensures HonestBody(regs)[3 + 2 * i] == HighByte(regs[i])
    ensures HonestBody(regs)[4 + 2 * i] == LowByte(regs[i])
  {
  }

  /** Five registers and the thirteen bytes that carry them determine each other. */
  lemma {:induction false} RegistersRoundTrip(regs: Registers)
    ensures HasHeader(HonestBody(regs)) && RegistersOf(HonestBody(regs)) == regs
  {
    BigEndianAt(regs, 0);
    BigEndianAt(regs, 1);
    BigEndianAt(regs, 2);
    BigEndianAt(regs, 3);
    BigEndianAt(regs, 4);
  }

  lemma {:induction false} BodyRoundTrip(body: seq<Octet>)
    requires |body| == 13 && HasHeader(body)
    ensures HonestBody(RegistersOf(body)) == body
  {
    var back := HonestBody(RegistersOf(body));
    forall i: nat | i < 5
      ensures back[3 + 2 * i] == body[3 + 2 * i] && back[4 + 2 * i] == body[4 + 2 * i]
    {
      SamePair(body, i);
    }
    SamePairs(back, body);
  }

  lemma {:induction false} SamePairs(a: seq<Octet>, b: seq<Octet>)
    requires |a| == |b| == 13 && HasHeader(a) && HasHeader(b)
    requires forall i: nat :: i < 5 ==> a[3 + 2 * i] == b[3 + 2 * i]
    requires forall i: nat :: i < 5 ==> a[4 + 2 * i] == b[4 + 2 * i]
    ensures a == b
  {
    forall k: nat | k < 13 ensures a[k] == b[k] {
      if k >= 3 {
        var i := (k - 3) / 2;
        assert a[3 + 2 * i] == b[3 + 2 * i] && a[4 + 2 * i] == b[4 + 2 * i];
      }
    }
  }

  lemma {:induction false} SamePair(body: seq<Octet>, i: nat)
    requires |body| == 13 && HasHeader(body) && i < 5
    ensures HonestBody(RegistersOf(body))[3 + 2 * i] == body[3 + 2 * i]
    ensures HonestBody(RegistersOf(body))[4 + 2 * i] == body[4 + 2 * i]
  {
    BigEndianAt(RegistersOf(body), i);
    SplitWord(body[3 + 2 * i], body[4 + 2 * i]);
  }

  /** Every honest frame is accepted and decoded to the registers it was built from. */
  lemma {:induction false} HonestFrameDecoded(regs: Registers)
    ensures ParseFrame(HonestFrame(regs))
            == Decoded(Reading(Sub16(regs[1], regs[0]), regs[1], ToSigned16(regs[2]), regs[3], regs[4]))
  {
    var f := HonestFrame(regs);
    WithCrcPasses(HonestBody(regs));
    RegistersRoundTrip(regs);
    assert f[..13] == HonestBody(regs);
    assert RegistersOf(f) == RegistersOf(HonestBody(regs));
    AcceptedReading(f);
  }

  /** A frame with the right header and a passing check yields its five registers. */
  lemma {:induction false} AcceptedReading(f: seq<Octet>)
    requires |f| == RESPONSE_SIZE && HasHeader(f) && CheckPasses(f)
    ensures var regs := RegistersOf(f);
            ParseFrame(f)
            == Decoded(Reading(Sub16(regs[1], regs[0]), regs[1], ToSigned16(regs[2]), regs[3], regs[4]))
  {
  }

  /** ... and nothing but honest frames is accepted. */
  lemma {:induction false} AcceptedFrameIsHonest(f: seq<Octet>)
    requires ParseFrame(f).Decoded?
    ensures f == HonestFrame(RegistersOf(f))
  {
    PassingTrailer(f);
    BodyRoundTrip(f[..13]);
    assert RegistersOf(f[..13]) == RegistersOf(f);
  }

  lemma {:induction false} AcceptedIff(f: seq<Octet>)
    requires |f| == RESPONSE_SIZE
    ensures ParseFrame(f).Decoded? <==> HasHeader(f) && CheckPasses(f)
  {
  }

  lemma {:induction false} HonestFramePasses(regs: Registers)
    ensures CheckPasses(HonestFrame(regs))
  {
    WithCrcPasses(HonestBody(regs));
  }

  /** A damaged response is accepted exactly if its header survived and the generator divides the error. */
  lemma {:induction false} DamagedResponse(regs: Registers, got: seq<Octet>)
    requires |got| == RESPONSE_SIZE
    ensures ParseFrame(got).Decoded?
            <==> HasHeader(got) && GeneratorDivides(ErrorPattern(HonestFrame(regs), got))
  {
    HonestFramePasses(regs);
    ErrorUndetectedIff(HonestFrame(regs), got);
    AcceptedIff(got);
  }

  /** An odd number of bits, two bits, or bits within a window of 16 on the line. */
  predicate Detectable(e: Poly, lo: nat, width: nat) {
    Weight(e) % 2 == 1 || Weight(e) == 2 || BurstWithin(e, lo, width)
  }

  /** A response hit by up to three flipped bits, by any odd number, or by a burst of 16, is rejected. */
  lemma {:induction false} DamagedResponseRejected(regs: Registers, got: seq<Octet>, lo: nat, width: nat)
    requires |got| == RESPONSE_SIZE && got != HonestFrame(regs)
    requires Detectable(ErrorPattern(HonestFrame(regs), got), lo, width)
    ensures ParseFrame(got).Rejected?
  {
    var sent := HonestFrame(regs);
    HonestFramePasses(regs);
    AcceptedIff(got);
    if Weight(ErrorPattern(sent, got)) % 2 == 1 {
      OddErrorsDetected(sent, got);
    } else if Weight(ErrorPattern(sent, got)) == 2 {
      TwoErrorsDetected(sent, got);
    } else {
      BurstErrorsDetected(sent, got, lo, width);
    }
  }

  /** parseReadResponse */
  method ParseReadResponse(response: array<Octet>, len: nat) returns (r: Response)
    requires len <= response.Length
    ensures r == ParseFrame(response[..len])
    ensures r.Decoded? <==> exists regs: Registers :: response[..len] == HonestFrame(regs)
  {
    ghost var f := response[..len];
    if ParseFrame(f).Decoded? {
      AcceptedFrameIsHonest(f);
    }
    forall regs: Registers | f == HonestFrame(regs) ensures ParseFrame(f).Decoded? {
      HonestFrameDecoded(regs);
    }
    if len != RESPONSE_SIZE {
      return Rejected(BadLength);
    }
    if response[0] != NODE_ADDRESS {
      return Rejected(BadNode);
    }
    if response[1] >= 0x80 {
      return Rejected(Exception(response[2]));
    }
    if response[1] != READ_HOLDING_REGISTERS {
      return Rejected(BadFunction);
    }
    if response[2] != 10 {
      return Rejected(BadByteCount);
    }
    var expectedCrc := ModbusCrc16(response, len - 2);
    var actualCrc := TrailerWord(response[len - 2], response[len - 1]);
    assert response[..len - 2] == f[..len - 2];
    if expectedCrc != actualCrc {
      return Rejected(BadCrc);
    }
    var distance := ReadU16Be(response[3], response[4]);
    var range := ReadU16Be(response[5], response[6]);
    var offset := ToSigned16(ReadU16Be(response[7], response[8]));
    var baudrate := ReadU16Be(response[9], response[10]);
    var node := ReadU16Be(response[11], response[12]);
    distance := Sub16(range, distance);
    return Decoded(Reading(distance, range, offset, baudrate, node));
  }

  /** buildReadRequest: read five holding registers from address 1 of node 1. */
  method BuildReadRequest(frame: array<Octet>)
    requires frame.Length == REQUEST_SIZE
    modifies frame
    ensures frame[..] == WithCrc([NODE_ADDRESS, READ_HOLDING_REGISTERS, 0, 1, 0, 5])
    ensures CheckPasses(frame[..])
  {
    frame[0] := NODE_ADDRESS;
    frame[1] := READ_HOLDING_REGISTERS;
    frame[2] := HighByte(START_ADDRESS);
    frame[3] := LowByte(START_ADDRESS);
    frame[4] := HighByte(REGISTER_COUNT);
    frame[5] := LowByte(REGISTER_COUNT);
    ghost var body := [NODE_ADDRESS, READ_HOLDING_REGISTERS, 0, 1, 0, 5];
    assert frame[..6] == body;
    var crc := ModbusCrc16(frame, REQUEST_SIZE - 2);
    frame[6] := LowByte(crc);
    frame[7] := HighByte(crc);
    assert frame[..] == body + [LowByte(crc), HighByte(crc)];
    WithCrcPasses(body);
  }

  // ---------------------------------------------------------------------------------------------
  // Exchange under a timeout
  // ---------------------------------------------------------------------------------------------

  /** The longest one exchange can take, in ticks. */
  const EXCHANGE_TICKS: nat := 1200

  /**
   exchangeSensorFrame: sends the request and reads on until the buffer is full.  Success means that
   the buffer holds exactly the bytes received since the request; failure means a short write or a
   full timeout with fewer bytes.
   */
  method ExchangeSensorFrame(port: Port<Octet>, tx: seq<Octet>, rxData: array<Octet>)
    returns (ok: bool, ghost taken: bool)
    modifies port, rxData
    ensures old(port.now) <= port.now <= old(port.now) + EXCHANGE_TICKS
    ensures port.sent == old(port.sent) + tx
    ensures ok ==> taken && port.received == old(port.received) + rxData[..]
    ensures !taken ==> port.received == old(port.received)
    ensures old(port.received) <= port.received
    ensures taken && !ok ==> |port.received| < |old(port.received)| + rxData.Length
    ensures taken && !ok ==> port.now == old(port.now) + EXCHANGE_TICKS
  {
    port.Flush();
    var written := port.Write(tx);
    taken := written == |tx|;
    if written != |tx| {
      return false, taken;
    }
    port.Delay(MsToTicks(INTER_FRAME_DELAY_MS));
    var received := 0;
    var t0 := port.now;
    assert old(port.received) + rxData[..0] == port.received;
    while received < rxData.Length
      invariant received <= rxData.Length
      invariant t0 == old(port.now) + 600 && t0 <= port.now <= t0 + 600
      invariant port.sent == old(port.sent) + tx && port.received == old(port.received) + rxData[..received]
      decreases rxData.Length - received, t0 + 600 - port.now
    {
      var elapsed := TicksToMs(port.now - t0);
      if elapsed >= CHAR_TIMEOUT_MS {
        break;
      }
      var remaining := CHAR_TIMEOUT_MS - elapsed;
      var chunkTimeout := if remaining < 500 then remaining else 500;
      ghost var filled := rxData[..received];
      var chunk := port.Read(rxData.Length - received, MsToTicks(chunkTimeout));
      if |chunk| > 0 {
        forall i | 0 <= i < |chunk| {
          rxData[received + i] := chunk[i];
        }
        assert rxData[..received] == filled;
        assert rxData[..received + |chunk|] == filled + chunk;
        Append(old(port.received), filled, chunk);
        received := received + |chunk|;
      } else {
        assert filled + chunk == filled;
        Append(old(port.received), filled, chunk);
      }
    }
    assert rxData[..rxData.Length] == rxData[..];
    ok := received == rxData.Length;
  }

  lemma {:induction false} Append(history: seq<Octet>, filled: seq<Octet>, chunk: seq<Octet>)
    ensures history + filled + chunk == history + (filled + chunk)
  {
  }

  /** readRegisters: build, exchange, parse the fifteen bytes received since the request. */
  method ReadRegisters(port: Port<Octet>) returns (r: Response)
    modifies port
    ensures old(port.now) <= port.now <= old(port.now) + EXCHANGE_TICKS
    ensures port.sent == old(port.sent) + WithCrc([NODE_ADDRESS, READ_HOLDING_REGISTERS, 0, 1, 0, 5])
    ensures old(port.received) <= port.received
    ensures r != Rejected(Transport) ==>
              && |port.received| == |old(port.received)| + RESPONSE_SIZE
              && r == ParseFrame(port.received[|old(port.received)|..])
    ensures r.Decoded? ==>
              exists regs: Registers :: port.received == old(port.received) + HonestFrame(regs)
  {
    var request := new Octet[REQUEST_SIZE];
    var response := new Octet[RESPONSE_SIZE];
    BuildReadRequest(request);
    var ok;
    ghost var taken;
    ok, taken := ExchangeSensorFrame(port, request[..], response);
    if !ok {
      return Rejected(Transport);
    }
    assert port.received[|old(port.received)|..] == response[..];
    assert response[..response.Length] == response[..];
    r := ParseReadResponse(response, response.Length);
  }

  predicate IsValidDistance(mm: int) {
    0 < mm <= MAX_DISTANCE_MM
  }

  /** Since position from, an honest frame with this distance was received. */
  ghost predicate SampleReceived(received: seq<Octet>, from: nat, mm: int) {
    exists at: nat, regs: Registers ::
      from <= at && SliceAt(received, HonestFrame(regs), at) && Sub16(regs[1], regs[0]) == mm
  }

  lemma {:induction false} SampleStays(received: seq<Octet>, from: nat, mm: int, received': seq<Octet>, from': nat)
    requires SampleReceived(received, from, mm) && received <= received' && from' <= from
    ensures SampleReceived(received', from', mm)
  {
    var at: nat, regs: Registers :|
      from <= at && SliceAt(received, HonestFrame(regs), at) && Sub16(regs[1], regs[0]) == mm;
    assert received == received'[..|received|];
    assert SliceAt(received', HonestFrame(regs), at);
  }

  lemma {:induction false} SampleOfFrame(before: seq<Octet>, received: seq<Octet>, reading: Reading)
    requires before <= received && ParseFrame(received[|before|..]) == Decoded(reading)
    ensures SampleReceived(received, |before|, reading.distance)
  {
    var frame := received[|before|..];
    AcceptedFrameIsHonest(frame);
    HonestFrameDecoded(RegistersOf(frame));
    assert SliceAt(received, HonestFrame(RegistersOf(frame)), |before|);
  }

  /** Warm-up plus at most fifteen reads. */
  const MEASURE_TICKS: nat := 1000 + EXCHANGE_TICKS + DISTANCE_SAMPLES * MAX_REPEAT_READ * EXCHANGE_TICKS

  /** Every sample is 0, or plausible and the distance of a frame received since position from. */
  ghost predicate SamplesReceived(samples: seq<int>, received: seq<Octet>, from: nat) {
    forall k :: 0 <= k < |samples| && samples[k] != 0 ==>
      IsValidDistance(samples[k]) && SampleReceived(received, from, samples[k])
  }

  lemma {:induction false} NextSample(
    samples: seq<int>, received: seq<Octet>, from: nat, mm: int, received': seq<Octet>)
    requires SamplesReceived(samples, received, from) && received <= received' && from <= |received|
    requires mm != 0 ==> IsValidDistance(mm) && SampleReceived(received', |received|, mm)
    ensures SamplesReceived(samples + [mm], received', from)
  {
    forall k | 0 <= k < |samples| && samples[k] != 0 ensures SampleReceived(received', from, samples[k]) {
      SampleStays(received, from, samples[k], received', from);
    }
    if mm != 0 {
      SampleStays(received', |received|, mm, received', from);
    }
  }

  lemma {:induction false} ZeroSample(samples: seq<int>, mm: int)
    ensures 0 in samples + [mm] <==> 0 in samples || mm == 0
  {
    assert (samples + [mm])[|samples|] == mm;
  }

  /**
   The sensor part of a measurement: UltrasonicSensor::warmup followed by SensorManager::read3.
   However the line behaves it ends within MEASURE_TICKS; every sample is 0 or plausible and the
   distance of an honest frame received meanwhile, and success means that none is 0.
   */
  method Measure(port: Port<Octet>) returns (ok: bool, out: seq<int>)
    modifies port
    ensures old(port.now) <= port.now <= old(port.now) + MEASURE_TICKS
    ensures old(port.received) <= port.received
    ensures out == [] || |out| == DISTANCE_SAMPLES
    ensures ok <==> out != [] && 0 !in out
    ensures SamplesReceived(out, port.received, |old(port.received)|)
  {
    out := [];
    port.Delay(MsToTicks(WARMUP_DELAY_MS));
    var r := ReadRegisters(port);
    if r.Rejected? {
      return false, [];
    }
    ok := true;
    for i := 0 to DISTANCE_SAMPLES
      invariant |out| == i && old(port.received) <= port.received
      invariant old(port.now) <= port.now
                <= old(port.now) + 1000 + EXCHANGE_TICKS + i * MAX_REPEAT_READ * EXCHANGE_TICKS
      invariant ok <==> 0 !in out
      invariant SamplesReceived(out, port.received, |old(port.received)|)
    {
      ghost var before := port.received;
      var mm, got := ReadSample(port);
      var sample := if got then mm else 0;
      NextSample(out, before, |old(port.received)|, sample, port.received);
      ZeroSample(out, sample);
      out := out + [sample];
      if !got {
        ok := false;
      }
    }
  }

  /** One sample of read3: retry until a read succeeds with a plausible distance. */
  method ReadSample(port: Port<Octet>) returns (mm: int, ok: bool)
    modifies port
    ensures old(port.now) <= port.now <= old(port.now) + MAX_REPEAT_READ * EXCHANGE_TICKS
    ensures old(port.received) <= port.received
    ensures ok ==> IsValidDistance(mm) && SampleReceived(port.received, |old(port.received)|, mm)
  {
    mm := 0;
    for r := 0 to MAX_REPEAT_READ
      invariant old(port.now) <= port.now <= old(port.now) + r * EXCHANGE_TICKS
      invariant old(port.received) <= port.received
    {
      ghost var before := port.received;
      var response := ReadRegisters(port);
      if response.Decoded? {
        mm := response.reading.distance;
        if IsValidDistance(mm) {
          SampleOfFrame(before, port.received, response.reading);
          SampleStays(port.received, |before|, mm, port.received, |old(port.received)|);
          return mm, true;
        }
      }
    }
    ok := false;
  }
}
