/**
 The bit-serial Modbus CRC-16 of main/modules/sensor/ultrasonic_sensor.cpp, for messages of any
 length: its loops, its meaning as a polynomial remainder, and the error patterns it detects.

 The driver computes on 16-bit words.  A word w stands for the polynomial Unpack(w): bit 0 of the
 register is the coefficient of x^15 (the CRC is reflected).  Message bits are taken in the order
 the serial line carries them, least significant bit of every byte first.
 */
module ModbusCrc {
  import opened Gf2Poly
  import opened Words

  const CRC_INIT: Word16 := 0xFFFF
  const REFLECTED_POLY: Word16 := 0xA001

  // ---------------------------------------------------------------------------------------------
  // Reference: a 16-bit feedback shift register over coefficients
  // ---------------------------------------------------------------------------------------------

  /** Multiplication by x modulo the generator. */
  function Step(r: Poly): (s: Poly)
    requires |r| == 16
    ensures |s| == 16
  {
    Add(r[1..] + [false], if r[0] then GENERATOR[1..] else Zeros(16))
  }

  /** The register with one message bit mixed into its leading coefficient. */
  function Mix(r: Poly, b: bool): (s: Poly)
    requires |r| == 16
    ensures |s| == 16
  {
    [r[0] != b] + r[1..]
  }

  function Register(r: Poly, bits: seq<bool>): (s: Poly)
    requires |r| == 16
    ensures |s| == 16
    decreases |bits|
  {
    if bits == [] then r else Register(Step(Mix(r, bits[0])), bits[1..])
  }

  function Steps(r: Poly, n: nat): (s: Poly)
    requires |r| == 16
    ensures |s| == 16
    decreases n, r
  {
    if n == 0 then r else Steps(Step(r), n - 1)
  }

  lemma {:induction false} RegisterAppend(r: Poly, a: seq<bool>, b: seq<bool>)
    requires |r| == 16
    ensures Register(r, a + b) == Register(Register(r, a), b)
    decreases |a|
  {
    if a == [] {
      assert a + b == b;
    } else {
      assert (a + b)[1..] == a[1..] + b;
      RegisterAppend(Step(Mix(r, a[0])), a[1..], b);
    }
  }

  lemma {:induction false} StepsLast(r: Poly, n: nat)
    requires |r| == 16
    ensures Steps(r, n + 1) == Step(Steps(r, n))
    decreases n
  {
    if n > 0 {
      StepsLast(Step(r), n - 1);
    }
  }

  /** Bits mixed in ahead of time simply move down with the register. */
  lemma {:induction false} DeferredMix(r: Poly, b: bool, later: Poly)
    requires |r| == 16 && |later| == 15
    ensures Step(Add(r, [b] + later)) == Add(Step(Mix(r, b)), later + [false])
  {
    var mixed := Mix(r, b);
    var lhs, rhs := Step(Add(r, [b] + later)), Add(Step(mixed), later + [false]);
    forall i | 0 <= i < 16 ensures lhs[i] == rhs[i] {
      if i < 15 {
        assert Add(r, [b] + later)[1..][i] == (mixed[1..][i] != later[i]);
      }
    }
  }

  lemma {:induction false} PadFront(bits: Poly)
    requires 0 < |bits| <= 16
    ensures bits + Zeros(16 - |bits|) == [bits[0]] + (bits[1..] + Zeros(16 - |bits|))
  {
  }

  lemma {:induction false} PadBack(bits: Poly)
    requires |bits| < 16
    ensures bits + Zeros(16 - |bits|) == bits + Zeros(15 - |bits|) + [false]
  {
  }

  lemma {:induction false} AddZeros(r: Poly)
    ensures Add(r, [] + Zeros(|r|)) == r
  {
  }

  /** Feeding up to 16 bits one at a time is the same as mixing them in at once and then stepping. */
  lemma {:induction false} RegisterIsSteps(r: Poly, bits: seq<bool>, mixed: Poly)
    requires |r| == 16 && |bits| <= 16 && mixed == Add(r, bits + Zeros(16 - |bits|))
    ensures Register(r, bits) == Steps(mixed, |bits|)
    decreases |bits|
  {
    if bits == [] {
      AddZeros(r);
    } else {
      MixAhead(r, bits);
      RegisterIsSteps(Step(Mix(r, bits[0])), bits[1..], Step(mixed));
    }
  }

  lemma {:induction false} MixAhead(r: Poly, bits: seq<bool>)
    requires |r| == 16 && 0 < |bits| <= 16
    ensures Step(Add(r, bits + Zeros(16 - |bits|)))
            == Add(Step(Mix(r, bits[0])), bits[1..] + Zeros(17 - |bits|))
  {
    PadFront(bits);
    PadBack(bits[1..]);
    DeferredMix(r, bits[0], bits[1..] + Zeros(16 - |bits|));
  }

  // ---------------------------------------------------------------------------------------------
  // The driver's words
  // ---------------------------------------------------------------------------------------------

  function MessageBits(data: seq<Octet>): (bits: seq<bool>)
    ensures |bits| == 8 * |data|
  {
    if data == [] then [] else BitsOf(data[0], 8) + MessageBits(data[1..])
  }

  lemma {:induction false} MessageBitsAppend(a: seq<Octet>, b: seq<Octet>)
    ensures MessageBits(a + b) == MessageBits(a) + MessageBits(b)
  {
    if a == [] {
      assert a + b == b;
    } else {
      assert (a + b)[1..] == a[1..] + b;
      MessageBitsAppend(a[1..], b);
    }
  }

  lemma {:induction false} MessageBitsSnoc(data: seq<Octet>, b: Octet)
    ensures MessageBits(data + [b]) == MessageBits(data) + BitsOf(b, 8)
  {
    MessageBitsAppend(data, [b]);
    assert MessageBits([b]) == BitsOf(b, 8) + [];
  }

  /** What the CRC word of a message stands for. */
  function CrcPoly(data: seq<Octet>): (r: Poly)
    ensures |r| == 16
  {
    Register(Ones(16), MessageBits(data))
  }

  function Crc(data: seq<Octet>): Word16 {
    WordOf(CrcPoly(data))
  }

  lemma {:induction false} CrcBits(data: seq<Octet>)
    ensures WordBits(Crc(data)) == CrcPoly(data)
  {
    BitsOfValueOf(CrcPoly(data));
  }

  lemma {:induction false} CrcInitBits()
    ensures WordBits(CRC_INIT) == Ones(16)
  {
    Pow2Word();
    OnesBits(CRC_INIT, 16);
  }

  lemma {:induction false} OnesBits(w: nat, n: nat)
    requires w == Pow2(n) - 1
    ensures BitsOf(w, n) == Ones(n)
    decreases n
  {
    if n > 0 {
      OnesBits(w / 2, n - 1);
      assert Ones(n) == [true] + Ones(n - 1);
    }
  }

  lemma {:induction false} ReflectedPolyBits()
    ensures WordBits(REFLECTED_POLY) == GENERATOR[1..]
  {
    FiveShifted(5, 0x5000);
    Prepend(0x5000, 15, REFLECTED_POLY, true);
  }

  lemma {:induction false} FiveShifted(w: nat, w': nat)
    requires w == 5 && w' == 0x5000
    ensures BitsOf(w', 15) == Zeros(12) + [true, false, true]
  {
    SmallBits(w);
    Pow2Word();
    assert Pow2(12) == 0x1000;
    ZerosBelow(w, 3, w', 12);
  }

  lemma {:induction false} SmallBits(w: nat)
    requires w == 5
    ensures BitsOf(w, 3) == [true, false, true]
  {
    Prepend(0, 0, 1, true);
    Prepend(1, 1, 2, false);
    Prepend(2, 2, w, true);
  }

  lemma {:induction false} Prepend(w: nat, n: nat, w': nat, b: bool)
    requires w' == 2 * w + (if b then 1 else 0)
    ensures BitsOf(w', n + 1) == [b] + BitsOf(w, n)
  {
  }

  lemma {:induction false} DoubleRight(a: nat, b: nat)
    ensures a * (2 * b) == 2 * (a * b)
  {
  }

  lemma {:induction false} ZerosBelow(w: nat, n: nat, w': nat, k: nat)
    requires w' == w * Pow2(k)
    ensures BitsOf(w', n + k) == Zeros(k) + BitsOf(w, n)
    decreases k
  {
    if k > 0 {
      var half := w * Pow2(k - 1);
      DoubleRight(w, Pow2(k - 1));
      ZerosBelow(w, n, half, k - 1);
      Prepend(half, n + k - 1, w', false);
    }
  }

  /** One inner iteration on words. */
  function ShiftOne(w: Word16): Word16 {
    if w % 2 == 1 then Xor16(w / 2, REFLECTED_POLY) else w / 2
  }

  /** It is one step of the register. */
  lemma {:induction false} InnerIteration(w: Word16)
    ensures WordBits(ShiftOne(w)) == Step(WordBits(w))
  {
    WordBitsHalf(w);
    ReflectedPolyBits();
    Xor16Bits(w / 2, REFLECTED_POLY);
    assert Add(WordBits(w / 2), Zeros(16)) == WordBits(w / 2);
  }

  /** Eight inner iterations after mixing in a byte absorb that byte's bits. */
  lemma {:induction false} OuterIteration(data: seq<Octet>, b: Octet, mixed: Poly)
    requires mixed == Add(CrcPoly(data), BitsOf(b, 8) + Zeros(8))
    ensures Steps(mixed, 8) == CrcPoly(data + [b])
  {
    RegisterIsSteps(CrcPoly(data), BitsOf(b, 8), mixed);
    MessageBitsSnoc(data, b);
    RegisterAppend(Ones(16), MessageBits(data), BitsOf(b, 8));
  }

  method ShiftConditionally(w: Word16) returns (crc: Word16)
    ensures WordBits(crc) == Step(WordBits(w))
  {
    InnerIteration(w);
    var lsb := w % 2 == 1;
    crc := w / 2;
    if lsb {
      crc := Xor16(crc, REFLECTED_POLY);
    }
    assert crc == ShiftOne(w);
  }

  /** The inner loop: eight conditional shifts. */
  method ShiftEight(entry: Word16) returns (crc: Word16)
    ensures WordBits(crc) == Steps(WordBits(entry), 8)
  {
    ghost var start := WordBits(entry);
    crc := entry;
    for bit := 0 to 8
      invariant WordBits(crc) == Steps(start, bit)
    {
      StepsLast(start, bit);
      crc := ShiftConditionally(crc);
    }
  }

  /** modbusCrc16 over the first len bytes of a buffer. */
  method ModbusCrc16(data: array<Octet>, len: nat) returns (crc: Word16)
    requires len <= data.Length
    ensures crc == Crc(data[..len])
  {
    crc := CRC_INIT;
    CrcInitBits();
    for i := 0 to len
      invariant WordBits(crc) == CrcPoly(data[..i])
    {
      Xor16Bits(crc, data[i]);
      WordBitsOctet(data[i]);
      crc := Xor16(crc, data[i]);
      OuterIteration(data[..i], data[i], WordBits(crc));
      assert data[..i + 1] == data[..i] + [data[i]];
      crc := ShiftEight(crc);
    }
    CrcBits(data[..len]);
    WordBitsInjective(crc, Crc(data[..len]));
  }
}
