/**
 The binary records of main/middleware/persistent_queue_mirror.hpp: C structs as the ESP32 lays
 them out (little-endian 32-bit ints, padding zero), and the two RecordCodec specialisations.
 */
module RecordCodec {
  import opened Words

  type Int32 = x: int | -0x8000_0000 <= x < 0x8000_0000

  type Chars16 = s: seq<Octet> | |s| == 16 witness seq(16, _ => 0)
  type Chars32 = s: seq<Octet> | |s| == 32 witness seq(32, _ => 0)
  type Chars1024 = s: seq<Octet> | |s| == 1024 witness seq(1024, _ => 0)
  type Samples = s: seq<Int32> | |s| == 3 witness [0, 0, 0]

  datatype DateTime = DateTime(year: Int32, month: Int32, day: Int32, hour: Int32, minute: Int32, second: Int32)
  datatype DeviceMeta = DeviceMeta(deviceId: Chars32, fwVersion: Chars16, voltageMv: Int32)
  datatype MeasurementMsg = MeasurementMsg(time: DateTime, distMm: Samples, valid: bool, meta: DeviceMeta)
  datatype LogMsg = LogMsg(time: DateTime, text: Chars1024, len: Word16, meta: DeviceMeta)

  /** The RecordCodec template: a record size, a printer and a parser of exactly that many bytes. */
  datatype Codec<!T> = Codec(size: nat, encode: T -> seq<Octet>, decode: seq<Octet> --> T)

  ghost predicate Lawful<T(!new)>(c: Codec<T>) {
    && 0 < c.size < 0x1_0000_0000
    && (forall m :: |c.encode(m)| == c.size)
    && (forall b: seq<Octet> :: |b| == c.size ==> c.decode.requires(b))
    && (forall m :: c.decode(c.encode(m)) == m)
  }

  // ---------------------------------------------------------------------------------------------
  // Integers
  // ---------------------------------------------------------------------------------------------

  function Pow256(k: nat): (p: nat)
    ensures p > 0
  {
    if k == 0 then 1 else 0x100 * Pow256(k - 1)
  }

  /** The k low bytes of n, least significant first. */
  function LittleEndian(n: nat, k: nat): (b: seq<Octet>)
    ensures |b| == k
    decreases k, n
  {
    if k == 0 then [] else [n % 0x100] + LittleEndian(n / 0x100, k - 1)
  }

  function FromLittleEndian(b: seq<Octet>): nat {
    if b == [] then 0 else b[0] + 0x100 * FromLittleEndian(b[1..])
  }

  lemma {:induction false} LittleEndianRoundTrip(n: nat, k: nat)
    requires n < Pow256(k)
    ensures FromLittleEndian(LittleEndian(n, k)) == n
    decreases k
  {
    if k > 0 {
      LittleEndianRoundTrip(n / 0x100, k - 1);
      assert LittleEndian(n, k)[1..] == LittleEndian(n / 0x100, k - 1);
    }
  }

  lemma {:induction false} FromLittleEndianBound(b: seq<Octet>)
    ensures FromLittleEndian(b) < Pow256(|b|)
  {
    if b != [] {
      FromLittleEndianBound(b[1..]);
    }
  }

  lemma {:induction false} Pow256Words()
    ensures Pow256(2) == 0x1_0000 && Pow256(4) == 0x1_0000_0000
  {
  }

  function EncodeInt(x: Int32): (b: seq<Octet>)
    ensures |b| == 4
  {
    LittleEndian(if x < 0 then x + 0x1_0000_0000 else x, 4)
  }

  function DecodeInt(b: seq<Octet>): Int32
    requires |b| == 4
  {
    FromLittleEndianBound(b);
    Pow256Words();
    var n := FromLittleEndian(b);
    if n < 0x8000_0000 then n else n - 0x1_0000_0000
  }

  lemma {:induction false} IntRoundTrip(x: Int32)
    ensures DecodeInt(EncodeInt(x)) == x
  {
    Pow256Words();
    LittleEndianRoundTrip(if x < 0 then x + 0x1_0000_0000 else x, 4);
  }

  function EncodeInts(xs: seq<Int32>): (b: seq<Octet>)
    ensures |b| == 4 * |xs|
  {
    if xs == [] then [] else EncodeInt(xs[0]) + EncodeInts(xs[1..])
  }

  function DecodeInts(b: seq<Octet>, n: nat): (xs: seq<Int32>)
    requires |b| == 4 * n
    ensures |xs| == n
    decreases n, b
  {
    if n == 0 then [] else [DecodeInt(b[..4])] + DecodeInts(b[4..], n - 1)
  }

  lemma {:induction false} IntsRoundTrip(xs: seq<Int32>)
    ensures DecodeInts(EncodeInts(xs), |xs|) == xs
  {
    if xs != [] {
      var b := EncodeInts(xs);
      assert b[..4] == EncodeInt(xs[0]) && b[4..] == EncodeInts(xs[1..]);
      IntRoundTrip(xs[0]);
      IntsRoundTrip(xs[1..]);
    }
  }

  // ---------------------------------------------------------------------------------------------
  // Structs
  // ---------------------------------------------------------------------------------------------

  const TIME_SIZE: nat := 24
  const META_SIZE: nat := 52
  const MEASUREMENT_SIZE: nat := 92
  const LOG_SIZE: nat := 1104

  function EncodeTime(t: DateTime): (b: seq<Octet>)
    ensures |b| == TIME_SIZE
  {
    EncodeInts([t.year, t.month, t.day, t.hour, t.minute, t.second])
  }

  function DecodeTime(b: seq<Octet>): DateTime
    requires |b| == TIME_SIZE
  {
    var f := DecodeInts(b, 6);
    DateTime(f[0], f[1], f[2], f[3], f[4], f[5])
  }

  lemma {:induction false} TimeRoundTrip(t: DateTime)
    ensures DecodeTime(EncodeTime(t)) == t
  {
    IntsRoundTrip([t.year, t.month, t.day, t.hour, t.minute, t.second]);
  }

  function EncodeMeta(m: DeviceMeta): (b: seq<Octet>)
    ensures |b| == META_SIZE
  {
    m.deviceId + m.fwVersion + EncodeInt(m.voltageMv)
  }

  function DecodeMeta(b: seq<Octet>): DeviceMeta
    requires |b| == META_SIZE
  {
    DeviceMeta(b[..32], b[32..48], DecodeInt(b[48..]))
  }

  lemma {:induction false} MetaRoundTrip(m: DeviceMeta)
    ensures DecodeMeta(EncodeMeta(m)) == m
  {
    var b := EncodeMeta(m);
    IntRoundTrip(m.voltageMv);
    assert b[..32] == m.deviceId && b[32..48] == m.fwVersion && b[48..] == EncodeInt(m.voltageMv);
  }

  function EncodeMeasurement(m: MeasurementMsg): (rec: seq<Octet>)
    ensures |rec| == MEASUREMENT_SIZE
  {
    EncodeTime(m.time) + EncodeInts(m.distMm) + [if m.valid then 1 else 0, 0, 0, 0] + EncodeMeta(m.meta)
  }

  function DecodeMeasurement(rec: seq<Octet>): MeasurementMsg
    requires |rec| == MEASUREMENT_SIZE
  {
    MeasurementMsg(DecodeTime(rec[..24]), DecodeInts(rec[24..36], 3), rec[36] != 0, DecodeMeta(rec[40..]))
  }

  lemma {:induction false} MeasurementRoundTrip(m: MeasurementMsg)
    ensures DecodeMeasurement(EncodeMeasurement(m)) == m
  {
    var rec := EncodeMeasurement(m);
    TimeRoundTrip(m.time);
    IntsRoundTrip(m.distMm);
    MetaRoundTrip(m.meta);
    assert rec[..24] == EncodeTime(m.time) && rec[24..36] == EncodeInts(m.distMm);
    assert rec[40..] == EncodeMeta(m.meta);
  }

  function EncodeLog(m: LogMsg): (rec: seq<Octet>)
    ensures |rec| == LOG_SIZE
  {
    EncodeTime(m.time) + m.text + LittleEndian(m.len, 2) + [0, 0] + EncodeMeta(m.meta)
  }

  function DecodeLog(rec: seq<Octet>): LogMsg
    requires |rec| == LOG_SIZE
  {
    FromLittleEndianBound(rec[1048..1050]);
    Pow256Words();
    LogMsg(DecodeTime(rec[..24]), rec[24..1048], FromLittleEndian(rec[1048..1050]), DecodeMeta(rec[1052..]))
  }

  lemma {:induction false} LogRoundTrip(m: LogMsg)
    ensures DecodeLog(EncodeLog(m)) == m
  {
    var rec := EncodeLog(m);
    TimeRoundTrip(m.time);
    MetaRoundTrip(m.meta);
    Pow256Words();
    LittleEndianRoundTrip(m.len, 2);
    assert rec[..24] == EncodeTime(m.time) && rec[24..1048] == m.text;
    assert rec[1048..1050] == LittleEndian(m.len, 2) && rec[1052..] == EncodeMeta(m.meta);
  }

  function MeasurementCodec(): Codec<MeasurementMsg> {
    Codec(MEASUREMENT_SIZE, EncodeMeasurement, DecodeMeasurement)
  }

  function LogCodec(): Codec<LogMsg> {
    Codec(LOG_SIZE, EncodeLog, DecodeLog)
  }

  /** Both specialisations print fixed-size records and parse them back exactly. */
  lemma {:induction false} CodecsLawful()
    ensures Lawful(MeasurementCodec()) && Lawful(LogCodec())
  {
    forall m ensures DecodeMeasurement(EncodeMeasurement(m)) == m {
      MeasurementRoundTrip(m);
    }
    forall m ensures DecodeLog(EncodeLog(m)) == m {
      LogRoundTrip(m);
    }
  }
}
