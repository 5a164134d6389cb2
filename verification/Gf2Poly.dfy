/**
 Polynomials over GF(2) with the generator x^16 + x^15 + x^2 + 1 of the Modbus serial line.

 A polynomial is the sequence of its coefficients, highest degree first.  Nothing here knows
 about shift registers: this module is the independent reference against which the bit-serial
 CRC of the sensor driver is proved.
 */
module Gf2Poly {

  type Poly = seq<bool>

  function Zeros(n: nat): (z: Poly)
    ensures |z| == n && forall i :: 0 <= i < n ==> !z[i]
  {
    seq(n, _ => false)
  }

  function Ones(n: nat): (z: Poly)
    ensures |z| == n && forall i :: 0 <= i < n ==> z[i]
  {
    seq(n, _ => true)
  }

  /** Addition (and subtraction) of two polynomials written with the same number of coefficients. */
  function Add(a: Poly, b: Poly): (c: Poly)
    requires |a| == |b|
    ensures |c| == |a| && forall i :: 0 <= i < |c| ==> c[i] == (a[i] != b[i])
  {
    seq(|a|, i requires 0 <= i < |a| => a[i] != b[i])
  }

  /** x^16 + x^15 + x^2 + 1. */
  const GENERATOR: Poly :=
    [true, true, false, false, false, false, false, false, false,
     false, false, false, false, false, true, false, true]

  function ScaledGenerator(c: bool): (g: Poly)
    ensures |g| == 17 && forall i :: 0 <= i < 17 ==> g[i] == (c && GENERATOR[i])
  {
    if c then GENERATOR else Zeros(17)
  }

  /** Schoolbook product of q and the generator. */
  function Times(q: Poly): (p: Poly)
    ensures |p| == |q| + 16
  {
    if q == [] then Zeros(16)
    else Add(ScaledGenerator(q[0]) + Zeros(|q| - 1), [false] + Times(q[1..]))
  }

  /** dividend = q * generator + r with deg r < 16. */
  ghost predicate Division(dividend: Poly, q: Poly, r: Poly)
  {
    && |r| == 16
    && |dividend| == |q| + 16
    && dividend == Add(Times(q), Zeros(|q|) + r)
  }

  ghost predicate IsRemainder(dividend: Poly, r: Poly)
  {
    exists q :: Division(dividend, q, r)
  }

  /** One long-division step: what remains of the dividend once its leading term is removed. */
  lemma {:induction false} DivisionStep(dividend: Poly, rest: Poly, q: Poly, r: Poly)
    requires |dividend| == |rest| + 1 >= 17
    requires Add(dividend, ScaledGenerator(dividend[0]) + Zeros(|dividend| - 17)) == [false] + rest
    requires Division(rest, q, r)
    ensures Division(dividend, [dividend[0]] + q, r)
  {
    var c := dividend[0];
    var lead := ScaledGenerator(c) + Zeros(|q|);
    assert ([c] + q)[1..] == q;
    assert Times([c] + q) == Add(lead, [false] + Times(q));
    assert [false] + rest == Add([false] + Times(q), Zeros(|q| + 1) + r);
    CancelLead(dividend, lead, [false] + Times(q), Zeros(|q| + 1) + r);
  }

  /** If dividend + lead = product + r then dividend = (lead + product) + r. */
  lemma {:induction false} CancelLead(dividend: Poly, lead: Poly, product: Poly, r: Poly)
    requires |dividend| == |lead| == |product| == |r|
    requires Add(dividend, lead) == Add(product, r)
    ensures dividend == Add(Add(lead, product), r)
  {
    forall i | 0 <= i < |dividend| ensures dividend[i] == Add(Add(lead, product), r)[i] {
      assert Add(dividend, lead)[i] == Add(product, r)[i];
    }
  }

  /** Quotient and remainder are determined by the dividend. */
  lemma {:induction false} DivisionUnique(dividend: Poly, q1: Poly, r1: Poly, q2: Poly, r2: Poly)
    requires Division(dividend, q1, r1) && Division(dividend, q2, r2)
    ensures q1 == q2 && r1 == r2
    decreases |q1|
  {
    if q1 == [] {
      assert Zeros(0) + r1 == r1 && Zeros(0) + r2 == r2;
      forall i | 0 <= i < 16 ensures r1[i] == r2[i] {
        assert dividend[i] == r1[i] && dividend[i] == r2[i];
      }
    } else {
      LeadingCoefficient(dividend, q1, r1);
      LeadingCoefficient(dividend, q2, r2);
      var rest := Add(dividend, ScaledGenerator(dividend[0]) + Zeros(|q1| - 1))[1..];
      DivisionTail(dividend, rest, q1, r1);
      DivisionTail(dividend, rest, q2, r2);
      DivisionUnique(rest, q1[1..], r1, q2[1..], r2);
      assert q1 == [q1[0]] + q1[1..] && q2 == [q2[0]] + q2[1..];
    }
  }

  lemma {:induction false} LeadingCoefficient(dividend: Poly, q: Poly, r: Poly)
    requires q != [] && Division(dividend, q, r)
    ensures dividend[0] == q[0]
  {
    assert Times(q)[0] == (ScaledGenerator(q[0]) + Zeros(|q| - 1))[0];
    assert (Zeros(|q|) + r)[0] == false;
  }

  lemma {:induction false} DivisionTail(dividend: Poly, rest: Poly, q: Poly, r: Poly)
    requires q != [] && Division(dividend, q, r) && dividend[0] == q[0]
    requires rest == Add(dividend, ScaledGenerator(q[0]) + Zeros(|q| - 1))[1..]
    ensures Division(rest, q[1..], r)
  {
    var q' := q[1..];
    forall i | 0 <= i < |rest| ensures rest[i] == Add(Times(q'), Zeros(|q'|) + r)[i] {
      var j := i + 1;
      assert rest[i] == (dividend[j] != (ScaledGenerator(q[0]) + Zeros(|q| - 1))[j]);
      assert dividend[j] == (Times(q)[j] != (Zeros(|q|) + r)[j]);
      assert Times(q)[j] == ((ScaledGenerator(q[0]) + Zeros(|q| - 1))[j] != ([false] + Times(q'))[j]);
      assert (Zeros(|q|) + r)[j] == (Zeros(|q'|) + r)[i];
    }
  }
}
