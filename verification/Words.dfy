/**
 Unsigned machine words as integers, with their bits listed least significant first.
 The C operators >> 1, & 1 and ^ on such words are / 2, % 2 and Xor16.
 */
module Words {
  import opened Gf2Poly

  type Octet = b: int | 0 <= b < 0x100
  type Word16 = w: int | 0 <= w < 0x1_0000

  function Pow2(n: nat): (p: nat)
    ensures p > 0
  {
    if n == 0 then 1 else 2 * Pow2(n - 1)
  }

  /** The n low bits of w. */
  function BitsOf(w: nat, n: nat): (bits: seq<bool>)
    ensures |bits| == n
    decreases n, w
  {
    if n == 0 then [] else [w % 2 == 1] + BitsOf(w / 2, n - 1)
  }

  function ValueOf(bits: seq<bool>): nat {
    if bits == [] then 0 else (if bits[0] then 1 else 0) + 2 * ValueOf(bits[1..])
  }

  lemma {:induction false} ValueOfBitsOf(w: nat, n: nat)
    requires w < Pow2(n)
    ensures ValueOf(BitsOf(w, n)) == w
    decreases n
  {
    if n > 0 {
      ValueOfBitsOf(w / 2, n - 1);
      assert BitsOf(w, n)[1..] == BitsOf(w / 2, n - 1);
    }
  }

  lemma {:induction false} BitsOfValueOf(bits: seq<bool>)
    ensures ValueOf(bits) < Pow2(|bits|)
    ensures BitsOf(ValueOf(bits), |bits|) == bits
  {
    if bits != [] {
      BitsOfValueOf(bits[1..]);
    }
  }

  lemma {:induction false} Pow2Word()
    ensures Pow2(8) == 0x100 && Pow2(16) == 0x1_0000
  {
    assert Pow2(4) == 16;
    assert Pow2(12) == 0x1000;
  }

  function WordBits(w: Word16): (bits: seq<bool>)
    ensures |bits| == 16
  {
    BitsOf(w, 16)
  }

  function WordOf(bits: seq<bool>): Word16
    requires |bits| == 16
  {
    BitsOfValueOf(bits);
    Pow2Word();
    ValueOf(bits)
  }

  /** Exclusive or of two 16-bit words. */
  function Xor16(a: Word16, b: Word16): Word16 {
    WordOf(Add(WordBits(a), WordBits(b)))
  }

  lemma {:induction false} Xor16Bits(a: Word16, b: Word16)
    ensures WordBits(Xor16(a, b)) == Add(WordBits(a), WordBits(b))
  {
    BitsOfValueOf(Add(WordBits(a), WordBits(b)));
  }

  lemma {:induction false} WordBitsInjective(a: Word16, b: Word16)
    requires WordBits(a) == WordBits(b)
    ensures a == b
  {
    Pow2Word();
    ValueOfBitsOf(a, 16);
    ValueOfBitsOf(b, 16);
  }

  /** Shifting right by one drops the lowest bit and brings in a zero at the top. */
  lemma {:induction false} WordBitsHalf(w: Word16)
    ensures WordBits(w)[0] == (w % 2 == 1)
    ensures WordBits(w / 2) == WordBits(w)[1..] + [false]
  {
    Pow2Word();
    assert Pow2(15) == 0x8000;
    BitsOfExtend(w / 2, 15);
  }

  lemma {:induction false} BitsOfExtend(w: nat, n: nat)
    requires w < Pow2(n)
    ensures BitsOf(w, n + 1) == BitsOf(w, n) + [false]
    decreases n
  {
    if n > 0 {
      BitsOfExtend(w / 2, n - 1);
      assert BitsOf(w, n) == [w % 2 == 1] + BitsOf(w / 2, n - 1);
    }
  }

  /** A byte widened to a word keeps its eight bits and has zeros above. */
  lemma {:induction false} WordBitsOctet(b: Octet)
    ensures WordBits(b) == BitsOf(b, 8) + Zeros(8)
  {
    Pow2Word();
    BitsOfWiden(b, 8, 8);
  }

  lemma {:induction false} BitsOfWiden(w: nat, n: nat, k: nat)
    requires w < Pow2(n)
    ensures BitsOf(w, n + k) == BitsOf(w, n) + Zeros(k)
    decreases n + k
  {
    if n > 0 {
      BitsOfWiden(w / 2, n - 1, k);
    } else if k > 0 {
      BitsOfWiden(0, 0, k - 1);
    }
  }
}
