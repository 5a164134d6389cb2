/**
 The period of the Modbus generator, and with it every error of two or three flipped bits.

 The generator is (x + 1)(x^15 + x + 1).  Modulo the second factor x^n is 1 exactly for the multiples of
 32767; the first factor only sees the parity.  Squaring is linear over GF(2), so high powers of x take
 few steps.
 */
module CrcDistance {
  import opened Gf2Poly
  import opened Words
  import opened ModbusCrc
  import opened CrcTheory

  // ---------------------------------------------------------------------------------------------
  // Remainders modulo x^15 + x + 1
  // ---------------------------------------------------------------------------------------------

  /** A polynomial of degree below 15; ck is the coefficient of x^k. */
  datatype Word = Word(
    c14: bool, c13: bool, c12: bool, c11: bool, c10: bool, c9: bool, c8: bool,
    c7: bool, c6: bool, c5: bool, c4: bool, c3: bool, c2: bool, c1: bool, c0: bool)

  function One(): Word {
    Word(false, false, false, false, false, false, false, false,
         false, false, false, false, false, false, true)
  }

  function TimesX(p: Word): Word {
    Word(p.c13, p.c12, p.c11, p.c10, p.c9, p.c8, p.c7,
         p.c6, p.c5, p.c4, p.c3, p.c2, p.c1, p.c0 != p.c14, p.c14)
  }

  /** Every x^k becomes x^2k. */
  function Square(p: Word): Word {
    Word(p.c7 != p.c14, p.c14, p.c6 != p.c13, p.c13, p.c5 != p.c12, p.c12, p.c4 != p.c11,
         p.c11, p.c3 != p.c10, p.c10, p.c2 != p.c9, p.c9, p.c1 != p.c8, p.c8, p.c0)
  }

  /** (x p)^2 = x^2 p^2 */
  lemma {:induction false} SquareTimesX(p: Word)
    ensures Square(TimesX(p)) == TimesX(TimesX(Square(p)))
  {
  }

  lemma {:induction false} TimesXInjective(p: Word, q: Word)
    requires TimesX(p) == TimesX(q)
    ensures p == q
  {
  }

  /** p * x^n */
  function Shift(p: Word, n: nat): Word
    decreases n, p
  {
    if n == 0 then p else Shift(TimesX(p), n - 1)
  }

  lemma {:induction false} ShiftTwice(p: Word, m: nat, n: nat)
    ensures Shift(Shift(p, m), n) == Shift(p, m + n)
    decreases m
  {
    if m > 0 {
      ShiftTwice(TimesX(p), m - 1, n);
    }
  }

  lemma {:induction false} ShiftInjective(p: Word, q: Word, n: nat)
    requires Shift(p, n) == Shift(q, n)
    ensures p == q
    decreases n
  {
    if n > 0 {
      ShiftInjective(TimesX(p), TimesX(q), n - 1);
      TimesXInjective(p, q);
    }
  }

  lemma {:induction false} SquareShift(p: Word, n: nat)
    ensures Square(Shift(p, n)) == Shift(Square(p), 2 * n)
    decreases n
  {
    if n > 0 {
      SquareTimesX(p);
      SquareShift(TimesX(p), n - 1);
      assert Shift(Square(p), 2 * n) == Shift(TimesX(Square(p)), 2 * n - 1);
    }
  }

  /** From x^n to x^2n or x^(2n+1). */
  lemma {:induction false} NextPower(one: Word, n: nat, power: Word, odd: bool)
    requires one == One() && Shift(one, n) == power
    ensures Shift(one, 2 * n + if odd then 1 else 0) == if odd then TimesX(Square(power)) else Square(power)
  {
    SquareShift(one, n);
    assert Square(one) == one;
    if odd {
      ShiftTwice(one, 2 * n, 1);
      assert Shift(Square(power), 1) == Shift(TimesX(Square(power)), 0);
    }
  }

  // ---------------------------------------------------------------------------------------------
  // The period of x
  // ---------------------------------------------------------------------------------------------

  const PERIOD: nat := 32767

  /** x^n = 1 */
  predicate IsPeriod(one: Word, n: nat) {
    Shift(one, n) == one
  }

  lemma {:induction false} FirstPower(one: Word)
    ensures Shift(one, 1) == TimesX(one)
  {
    assert Shift(one, 1) == Shift(TimesX(one), 0);
  }

  /** 32767 / 151 is no period. */
  lemma {:induction false} Not217(one: Word)
    requires one == One()
    ensures !IsPeriod(one, 217)
  {
    FirstPower(one);
    var p1 := TimesX(one);
    NextPower(one, 1, p1, true);
    var p3 := TimesX(Square(p1));
    NextPower(one, 3, p3, false);
    var p6 := Square(p3);
    NextPower(one, 6, p6, true);
    var p13 := TimesX(Square(p6));
    NextPower(one, 13, p13, true);
    var p27 := TimesX(Square(p13));
    NextPower(one, 27, p27, false);
    var p54 := Square(p27);
    NextPower(one, 54, p54, false);
    var p108 := Square(p54);
    NextPower(one, 108, p108, true);
  }

  /** 32767 / 31 is no period. */
  lemma {:induction false} Not1057(one: Word)
    requires one == One()
    ensures !IsPeriod(one, 1057)
  {
    FirstPower(one);
    var p1 := TimesX(one);
    NextPower(one, 1, p1, false);
    var p2 := Square(p1);
    NextPower(one, 2, p2, false);
    var p4 := Square(p2);
    NextPower(one, 4, p4, false);
    var p8 := Square(p4);
    NextPower(one, 8, p8, false);
    var p16 := Square(p8);
    NextPower(one, 16, p16, true);
    var p33 := TimesX(Square(p16));
    NextPower(one, 33, p33, false);
    var p66 := Square(p33);
    NextPower(one, 66, p66, false);
    var p132 := Square(p66);
    NextPower(one, 132, p132, false);
    var p264 := Square(p132);
    NextPower(one, 264, p264, false);
    var p528 := Square(p264);
    NextPower(one, 528, p528, true);
  }

  /** 32767 / 7 is no period. */
  lemma {:induction false} Not4681(one: Word)
    requires one == One()
    ensures !IsPeriod(one, 4681)
  {
    FirstPower(one);
    var p1 := TimesX(one);
    NextPower(one, 1, p1, false);
    var p2 := Square(p1);
    NextPower(one, 2, p2, false);
    var p4 := Square(p2);
    NextPower(one, 4, p4, true);
    var p9 := TimesX(Square(p4));
    NextPower(one, 9, p9, false);
    var p18 := Square(p9);
    NextPower(one, 18, p18, false);
    var p36 := Square(p18);
    NextPower(one, 36, p36, true);
    var p73 := TimesX(Square(p36));
    NextPower(one, 73, p73, false);
    var p146 := Square(p73);
    NextPower(one, 146, p146, false);
    var p292 := Square(p146);
    NextPower(one, 292, p292, true);
    var p585 := TimesX(Square(p292));
    NextPower(one, 585, p585, false);
    var p1170 := Square(p585);
    NextPower(one, 1170, p1170, false);
    var p2340 := Square(p1170);
    NextPower(one, 2340, p2340, true);
  }

  /** 32767 is a period. */
  lemma {:induction false} FullPeriod(one: Word)
    requires one == One()
    ensures IsPeriod(one, PERIOD)
  {
    FirstPower(one);
    var p1 := TimesX(one);
    NextPower(one, 1, p1, true);
    var p3 := TimesX(Square(p1));
    NextPower(one, 3, p3, true);
    var p7 := TimesX(Square(p3));
    NextPower(one, 7, p7, true);
    var p15 := TimesX(Square(p7));
    NextPower(one, 15, p15, true);
    var p31 := TimesX(Square(p15));
    NextPower(one, 31, p31, true);
    var p63 := TimesX(Square(p31));
    NextPower(one, 63, p63, true);
    var p127 := TimesX(Square(p63));
    NextPower(one, 127, p127, true);
    var p255 := TimesX(Square(p127));
    NextPower(one, 255, p255, true);
    var p511 := TimesX(Square(p255));
    NextPower(one, 511, p511, true);
    var p1023 := TimesX(Square(p511));
    NextPower(one, 1023, p1023, true);
    var p2047 := TimesX(Square(p1023));
    NextPower(one, 2047, p2047, true);
    var p4095 := TimesX(Square(p2047));
    NextPower(one, 4095, p4095, true);
    var p8191 := TimesX(Square(p4095));
    NextPower(one, 8191, p8191, true);
    var p16383 := TimesX(Square(p8191));
    NextPower(one, 16383, p16383, true);
  }

  lemma {:induction false} PeriodMultiple(one: Word, n: nat, k: nat)
    requires IsPeriod(one, n)
    ensures IsPeriod(one, k * n)
    decreases k
  {
    if k > 0 {
      PeriodMultiple(one, n, k - 1);
      ShiftTwice(one, (k - 1) * n, n);
      assert (k - 1) * n + n == k * n;
    }
  }

  lemma {:induction false} PeriodDifference(one: Word, m: nat, n: nat)
    requires IsPeriod(one, m) && IsPeriod(one, m + n)
    ensures IsPeriod(one, n)
  {
    ShiftTwice(one, m, n);
  }

  lemma {:induction false} Remainder(s: nat, n: nat, c: nat)
    requires c > 0
    ensures n / c * (s * c) + s * (n % c) == s * n
  {
    assert n == n / c * c + n % c;
    assert s * (n / c * c + n % c) == s * (n / c * c) + s * (n % c);
    assert s * (n / c * c) == n / c * (s * c);
  }

  /** Among the multiples of s, periods are closed under remainders. */
  lemma {:induction false} PeriodRest(one: Word, s: nat, n: nat, c: nat)
    requires IsPeriod(one, s * n) && IsPeriod(one, s * c) && c > 0
    ensures IsPeriod(one, s * (n % c))
  {
    PeriodMultiple(one, s * c, n / c);
    Remainder(s, n, c);
    PeriodDifference(one, n / c * (s * c), s * (n % c));
  }

  lemma {:induction false} LeastPeriod(one: Word, s: nat, n: nat) returns (c: nat)
    requires IsPeriod(one, s * n) && n > 0
    ensures 0 < c <= n && IsPeriod(one, s * c) && forall k: nat :: 0 < k < c ==> !IsPeriod(one, s * k)
    decreases n
  {
    if k: nat :| 0 < k < n && IsPeriod(one, s * k) {
      c := LeastPeriod(one, s, k);
    } else {
      c := n;
    }
  }

  /** No factor up to 12: these are primes. */
  lemma {:induction false} SmallFactor(c: nat, h: nat, p: nat)
    requires p in {7, 31, 151} && c * h == p && 0 < c <= 12 && c < p
    ensures c == 1
  {
    if c == 1 {
    } else if c == 2 {
    } else if c == 3 {
    } else if c == 4 {
    } else if c == 5 {
    } else if c == 6 {
    } else if c == 7 {
    } else if c == 8 {
    } else if c == 9 {
    } else if c == 10 {
    } else if c == 11 {
    } else {
    }
  }

  lemma {:induction false} PrimeFactor(c: nat, h: nat, p: nat)
    requires p in {7, 31, 151} && c * h == p && 0 < c < p
    ensures c == 1
  {
    if c > 12 {
      OtherSmall(c, h, p);
      Commute(c, h);
      SmallFactor(h, c, p);
    } else {
      SmallFactor(c, h, p);
    }
  }

  lemma {:induction false} Commute(c: nat, h: nat)
    ensures c * h == h * c
  {
  }

  lemma {:induction false} OtherSmall(c: nat, h: nat, p: nat)
    requires p <= 151 && c * h == p && 12 < c < p
    ensures 1 < h <= 12
  {
  }

  /** If s is no period and p a prime with s p = 32767, then p divides every period. */
  lemma {:induction false} PrimeDivides(one: Word, s: nat, p: nat, n: nat)
    requires p in {7, 31, 151} && s * p == PERIOD && IsPeriod(one, PERIOD)
    requires !IsPeriod(one, s) && IsPeriod(one, n)
    ensures n % p == 0
  {
    PeriodMultiple(one, n, s);
    PeriodRest(one, s, n, p);
    if n % p > 0 {
      var c := LeastPeriod(one, s, n % p);
      PeriodRest(one, s, p, c);
      assert p % c == 0;
      PrimeFactor(c, p / c, p);
    }
  }

  /** A number divisible by 7, 31 and 151 is divisible by their product. */
  lemma {:induction false} AllThree(n: nat)
    requires n % 7 == 0 && n % 31 == 0 && n % 151 == 0
    ensures n % PERIOD == 0
  {
    var a, b, c := n / 7, n / 31, n / 151;
    FirstTwo(n, a, b);
    Third(n, 9 * b - 2 * a, c);
  }

  lemma {:induction false} FirstTwo(n: nat, a: nat, b: nat)
    requires n == 7 * a == 31 * b
    ensures n == 217 * (9 * b - 2 * a)
  {
  }

  lemma {:induction false} Third(n: nat, e: int, c: nat)
    requires n == 217 * e == 151 * c
    ensures n % PERIOD == 0
  {
    var f := 23 * e - 16 * c;
    assert e == 151 * f;
    assert n == 32767 * f;
  }

  /** x^n = 1 modulo x^15 + x + 1 exactly for the multiples of 32767. */
  lemma {:induction false} PeriodExact(one: Word, n: nat)
    requires one == One()
    ensures IsPeriod(one, n) <==> n % PERIOD == 0
  {
    FullPeriod(one);
    if n % PERIOD == 0 {
      PeriodMultiple(one, PERIOD, n / PERIOD);
    }
    if IsPeriod(one, n) {
      Not217(one);
      Not1057(one);
      Not4681(one);
      PrimeDivides(one, 4681, 7, n);
      PrimeDivides(one, 1057, 31, n);
      PrimeDivides(one, 217, 151, n);
      AllThree(n);
    }
  }

  // ---------------------------------------------------------------------------------------------
  // From the register to its remainder modulo x^15 + x + 1
  // ---------------------------------------------------------------------------------------------

  function Reduce(r: Poly): Word
    requires |r| == 16
  {
    Word(r[1], r[2], r[3], r[4], r[5], r[6], r[7],
         r[8], r[9], r[10], r[11], r[12], r[13], r[14] != r[0], r[15] != r[0])
  }

  lemma {:induction false} StepAt(r: Poly, i: nat)
    requires |r| == 16 && i < 16
    ensures Step(r)[i] == ((i < 15 && r[i + 1]) != (r[0] && (i == 0 || i == 13 || i == 15)))
  {
    var feedback := if r[0] then GENERATOR[1..] else Zeros(16);
    assert feedback[i] == (r[0] && (i == 0 || i == 13 || i == 15));
    assert (r[1..] + [false])[i] == (i < 15 && r[i + 1]);
  }

  lemma {:induction false} ReduceStep(r: Poly)
    requires |r| == 16
    ensures Reduce(Step(r)) == TimesX(Reduce(r))
  {
    forall i: nat | i < 16
      ensures Step(r)[i] == ((i < 15 && r[i + 1]) != (r[0] && (i == 0 || i == 13 || i == 15)))
    {
      StepAt(r, i);
    }
  }

  lemma {:induction false} ReduceSteps(r: Poly, n: nat)
    requires |r| == 16
    ensures Reduce(Steps(r, n)) == Shift(Reduce(r), n)
    decreases n
  {
    if n > 0 {
      ReduceStep(r);
      ReduceSteps(Step(r), n - 1);
    }
  }

  lemma {:induction false} StepsParity(r: Poly, n: nat)
    requires |r| == 16
    ensures Weight(Steps(r, n)) % 2 == Weight(r) % 2
  {
    RegisterIdle(r, n);
    RegisterParity(r, Zeros(n));
    WeightZeros(n);
  }

  /** The coefficients of x^15 + x + 1 in a register. */
  function SecondFactor(): (r: Poly)
    ensures |r| == 16 && forall i :: 0 <= i < 16 ==> r[i] == (i == 0 || i == 14 || i == 15)
  {
    [true] + Zeros(13) + [true, true]
  }

  lemma {:induction false} SecondFactorWeight()
    ensures Weight(SecondFactor()) == 3
  {
    WeightZeros(13);
    WeightAppend([true], Zeros(13));
    WeightAppend([true] + Zeros(13), [true, true]);
    assert Weight([true]) == 1 && [true, true][1..] == [true] && Weight([true, true]) == 2;
  }

  /** Remainder and parity together determine the register. */
  lemma {:induction false} ReduceInjective(a: Poly, b: Poly)
    requires |a| == |b| == 16 && Reduce(a) == Reduce(b) && Weight(a) % 2 == Weight(b) % 2
    ensures a == b
  {
    EqualOrApart(a, b);
    SecondFactorWeight();
    WeightAdd(a, b);
  }

  lemma {:induction false} EqualOrApart(a: Poly, b: Poly)
    requires |a| == |b| == 16 && Reduce(a) == Reduce(b)
    ensures a == b || Add(a, b) == SecondFactor()
  {
    SameBelow(a, b);
    SameEnds(a, b);
    if a[0] == b[0] {
      SameCoefficients(a, b);
    } else {
      ApartCoefficients(a, b);
    }
  }

  lemma {:induction false} SameCoefficients(a: Poly, b: Poly)
    requires |a| == |b| == 16 && a[0] == b[0] && a[14] == b[14] && a[15] == b[15]
    requires a[1] == b[1] && a[2] == b[2] && a[3] == b[3] && a[4] == b[4] && a[5] == b[5] && a[6] == b[6]
    requires a[7] == b[7]
    requires a[8] == b[8] && a[9] == b[9] && a[10] == b[10] && a[11] == b[11] && a[12] == b[12] && a[13] == b[13]
    ensures a == b
  {
  }

  lemma {:induction false} ApartCoefficients(a: Poly, b: Poly)
    requires |a| == |b| == 16 && a[0] != b[0] && a[14] != b[14] && a[15] != b[15]
    requires a[1] == b[1] && a[2] == b[2] && a[3] == b[3] && a[4] == b[4] && a[5] == b[5] && a[6] == b[6]
    requires a[7] == b[7]
    requires a[8] == b[8] && a[9] == b[9] && a[10] == b[10] && a[11] == b[11] && a[12] == b[12] && a[13] == b[13]
    ensures Add(a, b) == SecondFactor()
  {
  }

  lemma {:induction false} SameBelow(a: Poly, b: Poly)
    requires |a| == |b| == 16 && Reduce(a) == Reduce(b)
    ensures a[1] == b[1] && a[2] == b[2] && a[3] == b[3] && a[4] == b[4] && a[5] == b[5] && a[6] == b[6] && a[7] == b[7]
    ensures a[8] == b[8] && a[9] == b[9] && a[10] == b[10] && a[11] == b[11] && a[12] == b[12] && a[13] == b[13]
  {
  }

  lemma {:induction false} SameEnds(a: Poly, b: Poly)
    requires |a| == |b| == 16 && Reduce(a) == Reduce(b)
    ensures (a[14] != b[14]) == (a[0] != b[0]) && (a[15] != b[15]) == (a[0] != b[0])
  {
    assert (a[14] != a[0]) == Reduce(a).c1 == (b[14] != b[0]);
    assert (a[15] != a[0]) == Reduce(a).c0 == (b[15] != b[0]);
  }

  /** The register after a single set bit, before its step. */
  function Top(): (r: Poly)
    ensures |r| == 16
  {
    [true] + Zeros(15)
  }

  lemma {:induction false} TopPower(one: Word)
    requires one == One()
    ensures Reduce(Top()) == Shift(one, 15)
  {
    FirstPower(one);
    var p1 := TimesX(one);
    NextPower(one, 1, p1, true);
    var p3 := TimesX(Square(p1));
    NextPower(one, 3, p3, true);
    var p7 := TimesX(Square(p3));
    NextPower(one, 7, p7, true);
  }

  /** n steps bring a single bit back exactly for the multiples of 32767. */
  lemma {:induction false} TopPeriod(one: Word, n: nat)
    requires one == One()
    ensures Steps(Top(), n) == Top() <==> n % PERIOD == 0
  {
    PeriodExact(one, n);
    TopPower(one);
    ReduceSteps(Top(), n);
    SamePeriod(one, n, Reduce(Top()), 15);
    StepsParity(Top(), n);
    if IsPeriod(one, n) {
      ReduceInjective(Steps(Top(), n), Top());
    }
  }

  /** All powers of x have the same periods. */
  lemma {:induction false} SamePeriod(one: Word, n: nat, power: Word, m: nat)
    requires power == Shift(one, m)
    ensures Shift(power, n) == power <==> IsPeriod(one, n)
  {
    ShiftTwice(one, m, n);
    ShiftTwice(one, n, m);
    if Shift(power, n) == power {
      ShiftInjective(Shift(one, n), one, m);
    }
  }

  // ---------------------------------------------------------------------------------------------
  // Two and three flipped bits
  // ---------------------------------------------------------------------------------------------

  /** Two set bits, n apart, with before and after bits around them. */
  function Pair(before: nat, n: nat, after: nat): (e: Poly)
    requires n > 0
    ensures |e| == before + n + 1 + after
    ensures forall k :: 0 <= k < |e| ==> e[k] == (k == before || k == before + n)
  {
    Zeros(before) + ([true] + Zeros(n - 1)) + ([true] + Zeros(after))
  }

  lemma {:induction false} SetBit(r: Poly, after: nat)
    requires |r| == 16
    ensures Register(r, [true] + Zeros(after)) == Steps(Step(Mix(r, true)), after)
  {
    assert ([true] + Zeros(after))[1..] == Zeros(after);
    RegisterIdle(Step(Mix(r, true)), after);
  }

  lemma {:induction false} MixTop(r: Poly)
    requires |r| == 16
    ensures Mix(Zeros(16), true) == Top()
    ensures Mix(r, true) == Zeros(16) <==> r == Top()
  {
    var m := Mix(r, true);
    if m == Zeros(16) {
      assert forall i :: 0 < i < 16 ==> r[i] == m[i];
      assert r == Top();
    }
  }

  /** A pair of set bits leaves no trace in the register exactly if they are a multiple of 32767 apart. */
  lemma {:induction false} PairRegister(before: nat, n: nat, after: nat)
    requires n > 0
    ensures Register(Zeros(16), Pair(before, n, after)) == Zeros(16) <==> n % PERIOD == 0
  {
    var z, first, second := Zeros(16), [true] + Zeros(n - 1), [true] + Zeros(after);
    RegisterAppend(z, Zeros(before) + first, second);
    RegisterAppend(z, Zeros(before), first);
    RegisterZeros(z, before);
    SetBit(z, n - 1);
    MixTop(z);
    var r := Register(z, first);
    assert r == Steps(Top(), n);
    SetBit(r, after);
    MixTop(r);
    StepsZero(Step(Mix(r, true)), after);
    StepZero(Mix(r, true));
    TopPeriod(One(), n);
  }

  /** Exactly the bits i and j are set. */
  predicate TwoBits(e: Poly, i: nat, j: nat) {
    i < j < |e| && forall k :: 0 <= k < |e| ==> e[k] == (k == i || k == j)
  }

  lemma {:induction false} TwoBitRegister(e: Poly, i: nat, j: nat)
    requires TwoBits(e, i, j)
    ensures Register(Zeros(16), e) == Zeros(16) <==> (j - i) % PERIOD == 0
  {
    PairRegister(i, j - i, |e| - j - 1);
    IsPair(e, i, j);
  }

  lemma {:induction false} IsPair(e: Poly, i: nat, j: nat)
    requires TwoBits(e, i, j)
    ensures e == Pair(i, j - i, |e| - j - 1)
  {
  }

  /** Two flipped bits go unnoticed exactly if they are a multiple of 32767 bits apart on the line. */
  lemma {:induction false} TwoBitErrorsExact(sent: seq<Octet>, got: seq<Octet>, i: nat, j: nat)
    requires |sent| == |got| >= 2 && CheckPasses(sent) && TwoBits(ErrorPattern(sent, got), i, j)
    ensures CheckPasses(got) <==> (j - i) % PERIOD == 0
  {
    DamagedRegister(sent, got);
    TwoBitRegister(ErrorPattern(sent, got), i, j);
  }

  lemma {:induction false} OneSet(e: Poly) returns (i: nat)
    requires Weight(e) == 1
    ensures i < |e| && forall k :: 0 <= k < |e| ==> e[k] == (k == i)
  {
    if e[0] {
      NoneSet(e[1..]);
      i := 0;
      assert forall k :: 0 < k < |e| ==> e[k] == e[1..][k - 1];
    } else {
      i := OneSet(e[1..]);
      i := i + 1;
      assert forall k :: 0 < k < |e| ==> e[k] == e[1..][k - 1];
    }
  }

  lemma {:induction false} NoneSet(e: Poly)
    requires Weight(e) == 0
    ensures forall k :: 0 <= k < |e| ==> !e[k]
  {
    if e != [] {
      NoneSet(e[1..]);
      assert forall k :: 0 < k < |e| ==> e[k] == e[1..][k - 1];
    }
  }

  lemma {:induction false} TwoSet(e: Poly) returns (i: nat, j: nat)
    requires Weight(e) == 2
    ensures TwoBits(e, i, j)
  {
    assert forall k :: 0 < k < |e| ==> e[k] == e[1..][k - 1];
    if e[0] {
      j := OneSet(e[1..]);
      i, j := 0, j + 1;
    } else {
      i, j := TwoSet(e[1..]);
      i, j := i + 1, j + 1;
    }
  }

  /** Any one, two or three flipped bits in a frame of up to 4095 bytes are noticed. */
  lemma {:induction false} FewErrorsDetected(sent: seq<Octet>, got: seq<Octet>)
    requires |sent| == |got| >= 2 && CheckPasses(sent) && 8 * |sent| <= PERIOD
    requires 1 <= Weight(ErrorPattern(sent, got)) <= 3
    ensures !CheckPasses(got)
  {
    var weight := Weight(ErrorPattern(sent, got));
    if weight == 2 {
      TwoErrorsDetected(sent, got);
    } else {
      assert weight == 1 || weight == 3;
      OddErrorsDetected(sent, got);
    }
  }

  lemma {:induction false} TwoErrorsDetected(sent: seq<Octet>, got: seq<Octet>)
    requires |sent| == |got| >= 2 && CheckPasses(sent) && 8 * |sent| <= PERIOD
    requires Weight(ErrorPattern(sent, got)) == 2
    ensures !CheckPasses(got)
  {
    var i, j := TwoSet(ErrorPattern(sent, got));
    CloseBits(8 * |sent|, i, j);
    TwoBitErrorsExact(sent, got, i, j);
  }

  lemma {:induction false} CloseBits(length: nat, i: nat, j: nat)
    requires i < j < length <= PERIOD
    ensures (j - i) % PERIOD != 0
  {
  }
}
