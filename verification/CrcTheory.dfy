/**
 What the Modbus CRC means and which transmission errors it catches, for frames of any length.
 */
module CrcTheory {
  import opened Gf2Poly
  import opened Words
  import opened ModbusCrc

  // ---------------------------------------------------------------------------------------------
  // The register computes a polynomial remainder
  // ---------------------------------------------------------------------------------------------

  /** bits * x^16 with the initial register value added to its leading coefficients. */
  function Dividend(init: Poly, bits: seq<bool>): (d: Poly)
    requires |init| == 16
    ensures |d| == |bits| + 16
  {
    Add(bits + Zeros(16), init + Zeros(|bits|))
  }

  lemma {:induction false} RegisterIsRemainder(init: Poly, bits: seq<bool>)
    requires |init| == 16
    ensures IsRemainder(Dividend(init, bits), Register(init, bits))
    decreases |bits|
  {
    if bits == [] {
      assert Division(Dividend(init, bits), [], init);
    } else {
      var next := Step(Mix(init, bits[0]));
      RegisterIsRemainder(next, bits[1..]);
      RemainderStep(init, bits, Register(next, bits[1..]));
    }
  }

  lemma {:induction false} RemainderStep(init: Poly, bits: seq<bool>, r: Poly)
    requires |init| == |r| == 16 && bits != []
    requires IsRemainder(Dividend(Step(Mix(init, bits[0])), bits[1..]), r)
    ensures IsRemainder(Dividend(init, bits), r)
  {
    var rest := Dividend(Step(Mix(init, bits[0])), bits[1..]);
    var q :| Division(rest, q, r);
    DividendStep(init, bits);
    DivisionStep(Dividend(init, bits), rest, q, r);
  }

  /** Removing the leading term of the dividend is one step of the register. */
  lemma {:induction false} DividendStep(init: Poly, bits: seq<bool>)
    requires |init| == 16 && bits != []
    ensures var d := Dividend(init, bits);
            Add(d, ScaledGenerator(d[0]) + Zeros(|d| - 17))
            == [false] + Dividend(Step(Mix(init, bits[0])), bits[1..])
  {
    var d := Dividend(init, bits);
    var next := Step(Mix(init, bits[0]));
    var lhs := Add(d, ScaledGenerator(d[0]) + Zeros(|d| - 17));
    var rhs := [false] + Dividend(next, bits[1..]);
    assert d[0] == (bits[0] != init[0]);
    forall i | 0 <= i < |d| ensures lhs[i] == rhs[i] {
      if 0 < i {
        assert (bits + Zeros(16))[i] == (bits[1..] + Zeros(16))[i - 1];
        assert rhs[i] == ((bits[1..] + Zeros(16))[i - 1] != (next + Zeros(|bits| - 1))[i - 1]);
        if i < 17 {
          assert next[i - 1] == ((init[1..] + [false])[i - 1] != (d[0] && GENERATOR[i]));
        }
      }
    }
  }

  /** The CRC is the remainder of the initialised message modulo the generator, and no other is. */
  lemma {:induction false} CrcMeaning(data: seq<Octet>, r: Poly)
    ensures IsRemainder(Dividend(Ones(16), MessageBits(data)), r) <==> r == WordBits(Crc(data))
  {
    var d := Dividend(Ones(16), MessageBits(data));
    RegisterIsRemainder(Ones(16), MessageBits(data));
    CrcBits(data);
    var q1 :| Division(d, q1, CrcPoly(data));
    if IsRemainder(d, r) {
      var q2 :| Division(d, q2, r);
      DivisionUnique(d, q1, CrcPoly(data), q2, r);
    }
  }

  // ---------------------------------------------------------------------------------------------
  // Linearity, invertibility, parity
  // ---------------------------------------------------------------------------------------------

  lemma {:induction false} RegisterLinear(r: Poly, s: Poly, a: seq<bool>, b: seq<bool>)
    requires |r| == |s| == 16 && |a| == |b|
    ensures Register(Add(r, s), Add(a, b)) == Add(Register(r, a), Register(s, b))
    decreases |a|
  {
    if a != [] {
      var r', s' := Step(Mix(r, a[0])), Step(Mix(s, b[0]));
      assert Step(Mix(Add(r, s), Add(a, b)[0])) == Add(r', s');
      assert Add(a, b)[1..] == Add(a[1..], b[1..]);
      RegisterLinear(r', s', a[1..], b[1..]);
    }
  }

  /** A step never loses information: only zero becomes zero. */
  lemma {:induction false} StepZero(r: Poly)
    requires |r| == 16
    ensures Step(r) == Zeros(16) <==> r == Zeros(16)
  {
    var s := Step(r);
    assert s[15] == r[0];
    assert forall i :: 0 < i < 16 && !r[0] ==> s[i - 1] == r[i];
    if r != Zeros(16) {
      assert exists i :: 0 <= i < 16 && r[i];
      var i :| 0 <= i < 16 && r[i];
      assert s[15] || s[i - 1];
    }
  }

  lemma {:induction false} StepsZero(r: Poly, n: nat)
    requires |r| == 16
    ensures Steps(r, n) == Zeros(16) <==> r == Zeros(16)
    decreases n
  {
    if n > 0 {
      StepZero(r);
      StepsZero(Step(r), n - 1);
    }
  }

  lemma {:induction false} AddZero(a: Poly, b: Poly)
    requires |a| == |b|
    ensures Add(a, b) == Zeros(|a|) <==> a == b
  {
    if a != b {
      var i :| 0 <= i < |a| && a[i] != b[i];
      assert Add(a, b)[i];
    }
  }

  /** Sixteen more bits bring the register to zero exactly when they repeat its contents. */
  lemma {:induction false} RegisterCancels(r: Poly, trailer: seq<bool>)
    requires |r| == |trailer| == 16
    ensures Register(r, trailer) == Zeros(16) <==> trailer == r
  {
    assert trailer + Zeros(0) == trailer;
    RegisterIsSteps(r, trailer, Add(r, trailer));
    StepsZero(Add(r, trailer), 16);
    AddZero(r, trailer);
  }

  function Weight(bits: seq<bool>): nat {
    if bits == [] then 0 else (if bits[0] then 1 else 0) + Weight(bits[1..])
  }

  /** How many positions are set in both. */
  function Overlap(a: Poly, b: Poly): nat
    requires |a| == |b|
  {
    if a == [] then 0 else (if a[0] && b[0] then 1 else 0) + Overlap(a[1..], b[1..])
  }

  lemma {:induction false} WeightOverlap(a: Poly, b: Poly)
    requires |a| == |b|
    ensures Weight(Add(a, b)) + 2 * Overlap(a, b) == Weight(a) + Weight(b)
  {
    if a != [] {
      assert Add(a, b)[1..] == Add(a[1..], b[1..]);
      WeightOverlap(a[1..], b[1..]);
    }
  }

  lemma {:induction false} WeightAdd(a: Poly, b: Poly)
    requires |a| == |b|
    ensures Weight(Add(a, b)) % 2 == (Weight(a) + Weight(b)) % 2
  {
    WeightOverlap(a, b);
    HalveSum(Weight(Add(a, b)), Overlap(a, b));
  }

  lemma {:induction false} WeightAppend(a: seq<bool>, b: seq<bool>)
    ensures Weight(a + b) == Weight(a) + Weight(b)
  {
    if a == [] {
      assert a + b == b;
    } else {
      assert (a + b)[1..] == a[1..] + b;
      WeightAppend(a[1..], b);
    }
  }

  lemma {:induction false} WeightZeros(n: nat)
    ensures Weight(Zeros(n)) == 0
  {
    if n > 0 {
      assert Zeros(n)[1..] == Zeros(n - 1);
      WeightZeros(n - 1);
    }
  }

  lemma {:induction false} FeedbackWeight()
    ensures Weight(GENERATOR[1..]) == 3
  {
    assert GENERATOR[1..] == [true] + Zeros(12) + [true] + Zeros(1) + [true];
    WeightZeros(12);
    WeightZeros(1);
    assert Weight([true]) == 1;
    WeightAppend([true], Zeros(12));
    WeightAppend([true] + Zeros(12), [true]);
    WeightAppend([true] + Zeros(12) + [true], Zeros(1));
    WeightAppend([true] + Zeros(12) + [true] + Zeros(1), [true]);
  }

  /** The feedback has three terms, so a step keeps the register's parity. */
  lemma {:induction false} StepParity(r: Poly)
    requires |r| == 16
    ensures Weight(Step(r)) % 2 == Weight(r) % 2
  {
    if r[0] {
      FeedbackWeight();
      FeedbackParity(r, GENERATOR[1..]);
    } else {
      WeightZeros(16);
      FeedbackParity(r, Zeros(16));
    }
  }

  lemma {:induction false} FeedbackParity(r: Poly, feedback: Poly)
    requires |r| == |feedback| > 0
    requires Weight(feedback) % 2 == if r[0] then 1 else 0
    ensures Weight(Add(r[1..] + [false], feedback)) % 2 == Weight(r) % 2
  {
    WeightAdd(r[1..] + [false], feedback);
    WeightAppend(r[1..], [false]);
    assert Weight([false]) == 0 && Weight(r) == (if r[0] then 1 else 0) + Weight(r[1..]);
  }

  lemma {:induction false} RegisterParity(r: Poly, bits: seq<bool>)
    requires |r| == 16
    ensures Weight(Register(r, bits)) % 2 == (Weight(r) + Weight(bits)) % 2
    decreases |bits|
  {
    if bits != [] {
      var mixed := Mix(r, bits[0]);
      assert mixed[1..] == r[1..];
      StepParity(mixed);
      RegisterParity(Step(mixed), bits[1..]);
    }
  }

  lemma {:induction false} RegisterZeros(r: Poly, n: nat)
    requires |r| == 16 && r == Zeros(16)
    ensures Register(r, Zeros(n)) == r
  {
    if n > 0 {
      assert Step(Mix(r, false)) == r;
      assert Zeros(n)[1..] == Zeros(n - 1);
      RegisterZeros(r, n - 1);
    }
  }

  lemma {:induction false} RegisterIdle(r: Poly, n: nat)
    requires |r| == 16
    ensures Register(r, Zeros(n)) == Steps(r, n)
    decreases n
  {
    if n > 0 {
      assert Mix(r, false) == r;
      assert Zeros(n)[1..] == Zeros(n - 1);
      RegisterIdle(Step(r), n - 1);
    }
  }

  // ---------------------------------------------------------------------------------------------
  // Frames: a message followed by its CRC, low byte first
  // ---------------------------------------------------------------------------------------------

  function TrailerWord(lo: Octet, hi: Octet): Word16 {
    lo + 0x100 * hi
  }

  /** The driver's comparison of the trailing two bytes with the CRC of what precedes them. */
  predicate CheckPasses(frame: seq<Octet>)
    requires |frame| >= 2
  {
    var n := |frame|;
    Crc(frame[..n - 2]) == TrailerWord(frame[n - 2], frame[n - 1])
  }

  lemma {:induction false} TrailerBits(lo: Octet, hi: Octet)
    ensures MessageBits([lo, hi]) == WordBits(TrailerWord(lo, hi))
  {
    assert [lo, hi] == [lo] + [hi];
    MessageBitsSnoc([lo], hi);
    assert MessageBits([lo]) == BitsOf(lo, 8) + [];
    BitsOfSum(lo, hi, 8);
    Pow2Word();
  }

  lemma {:induction false} DoubleProduct(a: nat, b: nat)
    ensures (2 * a) * b == 2 * (a * b)
  {
  }

  lemma {:induction false} HalveSum(a: nat, b: nat)
    ensures (a + 2 * b) / 2 == a / 2 + b && (a + 2 * b) % 2 == a % 2
  {
  }

  lemma {:induction false} BitsOfSum(lo: nat, hi: nat, k: nat)
    requires lo < Pow2(k)
    ensures BitsOf(lo + Pow2(k) * hi, k + 8) == BitsOf(lo, k) + BitsOf(hi, 8)
    decreases k
  {
    if k == 0 {
      assert Pow2(0) * hi == hi;
    } else {
      var rest := Pow2(k - 1) * hi;
      DoubleProduct(Pow2(k - 1), hi);
      HalveSum(lo, rest);
      BitsOfSum(lo / 2, hi, k - 1);
    }
  }

  lemma {:induction false} TrailerCancels(init: Poly, data: seq<Octet>, lo: Octet, hi: Octet)
    requires |init| == 16
    ensures Register(init, MessageBits(data + [lo, hi])) == Zeros(16)
            <==> Register(init, MessageBits(data)) == WordBits(TrailerWord(lo, hi))
  {
    MessageBitsAppend(data, [lo, hi]);
    TrailerBits(lo, hi);
    RegisterAppend(init, MessageBits(data), MessageBits([lo, hi]));
    RegisterCancels(Register(init, MessageBits(data)), MessageBits([lo, hi]));
  }

  /** The register over a whole frame, CRC included. */
  function Residue(frame: seq<Octet>): (r: Poly)
    ensures |r| == 16
  {
    CrcPoly(frame)
  }

  /** Appending the CRC low byte first leaves residue zero, and nothing else does. */
  lemma {:induction false} ResidueZero(frame: seq<Octet>)
    requires |frame| >= 2
    ensures CheckPasses(frame) <==> Residue(frame) == Zeros(16)
  {
    var n := |frame|;
    var data, trailer := frame[..n - 2], TrailerWord(frame[n - 2], frame[n - 1]);
    assert frame == data + [frame[n - 2], frame[n - 1]];
    TrailerCancels(Ones(16), data, frame[n - 2], frame[n - 1]);
    CrcBits(data);
    if WordBits(Crc(data)) == WordBits(trailer) {
      WordBitsInjective(Crc(data), trailer);
    }
  }

  /** e is a multiple of the generator. */
  ghost predicate GeneratorDivides(e: Poly)
  {
    exists q :: |q| + 16 == |e| && e == Times(q)
  }

  lemma {:induction false} ZeroRegisterIffDivides(e: Poly)
    requires |e| >= 16
    ensures Register(Zeros(16), e) == Zeros(16) <==> GeneratorDivides(e)
  {
    var a, t := e[..|e| - 16], e[|e| - 16..];
    assert e == a + t;
    RegisterAppend(Zeros(16), a, t);
    RegisterCancels(Register(Zeros(16), a), t);
    PrefixRemainder(Zeros(16), a, t);
  }

  lemma {:induction false} PrefixRemainder(z: Poly, a: Poly, t: Poly)
    requires z == Zeros(16) && |t| == 16
    ensures t == Register(z, a) <==> GeneratorDivides(a + t)
  {
    RegisterIsRemainder(z, a);
    assert Dividend(z, a) == a + z;
    var r := Register(z, a);
    var q :| Division(a + z, q, r);
    SplitRemainder(a, t, q);
    if t != r && GeneratorDivides(a + t) {
      var q' :| |q'| + 16 == |a + t| && a + t == Times(q');
      SplitRemainder(a, t, q');
      DivisionUnique(a + z, q', t, q, r);
    }
  }

  lemma {:induction false} SplitRemainder(a: Poly, t: Poly, q: Poly)
    requires |t| == 16 && |q| == |a|
    ensures Division(a + Zeros(16), q, t) <==> a + t == Times(q)
  {
    var sum := Add(Times(q), Zeros(|a|) + t);
    if a + t == Times(q) {
      assert a + Zeros(16) == sum;
    }
    if a + Zeros(16) == sum {
      forall i | 0 <= i < |a| + 16 ensures (a + t)[i] == Times(q)[i] {
        assert (a + Zeros(16))[i] == (Times(q)[i] != (Zeros(|a|) + t)[i]);
      }
      assert a + t == Times(q);
    }
  }

  /** The error pattern that turned one bit string into another. */
  function ErrorPattern(sent: seq<Octet>, got: seq<Octet>): (e: Poly)
    requires |sent| == |got|
    ensures |e| == 8 * |sent|
  {
    Add(MessageBits(sent), MessageBits(got))
  }

  /** A damaged frame slips through exactly when the generator divides the error polynomial. */
  lemma {:induction false} ErrorUndetectedIff(sent: seq<Octet>, got: seq<Octet>)
    requires |sent| == |got| >= 2 && CheckPasses(sent)
    ensures CheckPasses(got) <==> GeneratorDivides(ErrorPattern(sent, got))
  {
    DamagedRegister(sent, got);
    ZeroRegisterIffDivides(ErrorPattern(sent, got));
  }

  lemma {:induction false} DamagedRegister(sent: seq<Octet>, got: seq<Octet>)
    requires |sent| == |got| >= 2 && CheckPasses(sent)
    ensures CheckPasses(got) <==> Register(Zeros(16), ErrorPattern(sent, got)) == Zeros(16)
  {
    ResidueZero(sent);
    ResidueZero(got);
    DamagedResidue(Ones(16), MessageBits(sent), MessageBits(got));
  }

  lemma {:induction false} DamagedResidue(init: Poly, a: seq<bool>, b: seq<bool>)
    requires |init| == 16 && |a| == |b|
    requires Register(init, a) == Zeros(16)
    ensures Register(Zeros(16), Add(a, b)) == Register(init, b)
  {
    RegisterLinear(init, init, a, b);
    AddZero(init, init);
    assert Add(Zeros(16), Register(init, b)) == Register(init, b);
  }

  /** Every error pattern that flips an odd number of bits is rejected. */
  lemma {:induction false} OddErrorsDetected(sent: seq<Octet>, got: seq<Octet>)
    requires |sent| == |got| >= 2 && CheckPasses(sent)
    requires Weight(ErrorPattern(sent, got)) % 2 == 1
    ensures !CheckPasses(got)
  {
    DamagedRegister(sent, got);
    OddRegister(Zeros(16), ErrorPattern(sent, got));
  }

  lemma {:induction false} OddRegister(z: Poly, e: Poly)
    requires z == Zeros(16) && Weight(e) % 2 == 1
    ensures Register(z, e) != z
  {
    RegisterParity(z, e);
    WeightZeros(|z|);
  }

  /** All flipped bits lie in a window of at most 16 consecutive bits on the line. */
  predicate BurstWithin(e: Poly, lo: nat, width: nat)
  {
    width <= 16 && lo + width <= |e| && forall j :: 0 <= j < |e| && e[j] ==> lo <= j < lo + width
  }

  /** Every non-zero error burst spanning at most 16 bits is rejected. */
  lemma {:induction false} BurstErrorsDetected(sent: seq<Octet>, got: seq<Octet>, lo: nat, width: nat)
    requires |sent| == |got| >= 2 && CheckPasses(sent)
    requires sent != got && BurstWithin(ErrorPattern(sent, got), lo, width)
    ensures !CheckPasses(got)
  {
    var e := ErrorPattern(sent, got);
    DamagedRegister(sent, got);
    DistinctMessagesDiffer(sent, got);
    BurstRegister(Zeros(16), e, lo, width);
  }

  lemma {:induction false} BurstRegister(z: Poly, e: Poly, lo: nat, width: nat)
    requires z == Zeros(16) && BurstWithin(e, lo, width) && e != Zeros(|e|)
    ensures Register(z, e) != z
  {
    var b, rest := e[lo..lo + width], |e| - lo - width;
    assert e == Zeros(lo) + b + Zeros(rest);
    RegisterAppend(z, Zeros(lo) + b, Zeros(rest));
    RegisterAppend(z, Zeros(lo), b);
    RegisterZeros(z, lo);
    ShortBurst(z, b, e, lo);
    RegisterIdle(Register(z, b), rest);
    StepsZero(Register(z, b), rest);
  }

  lemma {:induction false} ShortBurst(z: Poly, b: Poly, e: Poly, lo: nat)
    requires z == Zeros(16) && BurstWithin(e, lo, |b|) && b == e[lo..lo + |b|]
    requires e != Zeros(|e|)
    ensures Register(z, b) != z
  {
    var padded := b + Zeros(16 - |b|);
    AddToZeros(z, padded);
    RegisterIsSteps(z, b, padded);
    StepsZero(padded, |b|);
    BurstNotZero(b, e, lo);
  }

  lemma {:induction false} AddToZeros(z: Poly, a: Poly)
    requires z == Zeros(|a|)
    ensures Add(z, a) == a
  {
  }

  lemma {:induction false} BurstNotZero(b: Poly, e: Poly, lo: nat)
    requires BurstWithin(e, lo, |b|) && b == e[lo..lo + |b|] && e != Zeros(|e|)
    ensures b + Zeros(16 - |b|) != Zeros(16)
  {
    assert exists j :: 0 <= j < |e| && e[j];
    var j :| 0 <= j < |e| && e[j];
    assert (b + Zeros(16 - |b|))[j - lo];
  }

  lemma {:induction false} DistinctMessagesDiffer(a: seq<Octet>, b: seq<Octet>)
    requires |a| == |b| && a != b
    ensures ErrorPattern(a, b) != Zeros(8 * |a|)
  {
    AddZero(MessageBits(a), MessageBits(b));
    if MessageBits(a) == MessageBits(b) {
      MessageBitsInjective(a, b);
    }
  }

  lemma {:induction false} MessageBitsInjective(a: seq<Octet>, b: seq<Octet>)
    requires |a| == |b| && MessageBits(a) == MessageBits(b)
    ensures a == b
  {
    if a != [] {
      var x, y := MessageBits(a), MessageBits(b);
      assert x[..8] == BitsOf(a[0], 8) && y[..8] == BitsOf(b[0], 8);
      assert x[8..] == MessageBits(a[1..]) && y[8..] == MessageBits(b[1..]);
      Pow2Word();
      ValueOfBitsOf(a[0], 8);
      ValueOfBitsOf(b[0], 8);
      MessageBitsInjective(a[1..], b[1..]);
      assert a == [a[0]] + a[1..] && b == [b[0]] + b[1..];
    }
  }
}
