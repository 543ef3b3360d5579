/** The bit operations of unsigned words, on numbers: bit by bit, as the language defines them. */
module Bits {
  function BitOr(a: nat, b: nat): nat
    decreases a + b
  {
    if a == 0 && b == 0 then 0
    else (if a % 2 == 1 || b % 2 == 1 then 1 else 0) + 2 * BitOr(a / 2, b / 2)
  }

  function BitAnd(a: nat, b: nat): nat
    decreases a
  {
    if a == 0 then 0 else (if a % 2 == 1 && b % 2 == 1 then 1 else 0) + 2 * BitAnd(a / 2, b / 2)
  }

  function Pow2(k: nat): (p: nat)
    ensures p > 0
  {
    if k == 0 then 1 else 2 * Pow2(k - 1)
  }

  function Shl(a: nat, k: nat): nat { a * Pow2(k) }

  function Shr(a: nat, k: nat): nat
    decreases k
  {
    if k == 0 then a else Shr(a / 2, k - 1)
  }

  lemma OrHalf(a: nat, b: nat)
    ensures BitOr(a, b) / 2 == BitOr(a / 2, b / 2)
    ensures BitOr(a, b) % 2 == 1 <==> a % 2 == 1 || b % 2 == 1
  {
  }

  lemma AndHalf(a: nat, b: nat)
    ensures BitAnd(a, b) / 2 == BitAnd(a / 2, b / 2)
    ensures BitAnd(a, b) % 2 == 1 <==> a % 2 == 1 && b % 2 == 1
  {
  }

  lemma ShrStep(a: nat, k: nat)
    ensures Shr(a, k) == if k == 0 then a else Shr(a / 2, k - 1)
  {
  }

  /** A bit of an or is set just if it is set on either side. */
  lemma {:induction false} OrBits(a: nat, b: nat, k: nat)
    ensures Shr(BitOr(a, b), k) % 2 == 1 <==> Shr(a, k) % 2 == 1 || Shr(b, k) % 2 == 1
    decreases k
  {
    hide BitOr, Shr;
    OrHalf(a, b);
    ShrStep(BitOr(a, b), k);
    ShrStep(a, k);
    ShrStep(b, k);
    if k > 0 {
      OrBits(a / 2, b / 2, k - 1);
    }
  }

  /** A bit of an and is set just if it is set on both sides. */
  lemma {:induction false} AndBits(a: nat, b: nat, k: nat)
    ensures Shr(BitAnd(a, b), k) % 2 == 1 <==> Shr(a, k) % 2 == 1 && Shr(b, k) % 2 == 1
    decreases k
  {
    hide BitAnd, Shr;
    AndHalf(a, b);
    ShrStep(BitAnd(a, b), k);
    ShrStep(a, k);
    ShrStep(b, k);
    if k > 0 {
      AndBits(a / 2, b / 2, k - 1);
    }
  }

  lemma {:induction false} OrZero(a: nat)
    ensures BitOr(a, 0) == a
    decreases a
  {
    if a > 0 {
      OrZero(a / 2);
    }
  }

  /** An or of a shifted value and bits below the shift adds them. */
  lemma {:induction false} OrJoins(high: nat, k: nat, low: nat)
    requires low < Pow2(k)
    ensures BitOr(Shl(high, k), low) == high * Pow2(k) + low
    decreases k
  {
    if k == 0 {
      OrZero(high);
    } else {
      var x := high * Pow2(k - 1);
      assert Shl(high, k) == 2 * x;
      OrJoins(high, k - 1, low / 2);
      assert BitOr(2 * x, low) == low % 2 + 2 * BitOr(x, low / 2);
    }
  }

  lemma {:induction false} AndZero(a: nat)
    ensures BitAnd(a, 0) == 0
    decreases a
  {
    if a > 0 {
      AndZero(a / 2);
    }
  }

  lemma Remainder(v: nat, m: nat, q: nat, r: nat)
    requires r < m && v == q * m + r
    ensures v % m == r
  {
    var d := v / m - q;
    assert d * m == r - v % m;
    assert d <= -1 ==> d * m + m <= 0;
    assert d >= 1 ==> d * m >= m;
  }

  lemma HalfMod(v: nat, p: nat)
    requires p > 0
    ensures v % (2 * p) == v % 2 + 2 * (v / 2 % p)
  {
    var q, r := v / 2 / p, v / 2 % p;
    assert v / 2 == q * p + r;
    assert v == q * (2 * p) + (2 * r + v % 2);
    Remainder(v, 2 * p, q, 2 * r + v % 2);
  }

  /** A mask of low bits takes the remainder. */
  lemma {:induction false} AndMasks(v: nat, k: nat)
    ensures BitAnd(v, Pow2(k) - 1) == v % Pow2(k)
    decreases k
  {
    if k == 0 {
      AndZero(v);
    } else {
      AndMasks(v / 2, k - 1);
      HalfMod(v, Pow2(k - 1));
      assert (Pow2(k) - 1) / 2 == Pow2(k - 1) - 1;
    }
  }

  lemma Powers()
    ensures Pow2(3) == 8 && Pow2(4) == 16 && Pow2(5) == 32 && Pow2(6) == 64 && Pow2(10) == 0x400
    ensures Pow2(12) == 0x1000 && Pow2(18) == 0x40000
  {
    assert Pow2(10) == 16 * Pow2(6) && Pow2(12) == 4 * Pow2(10) && Pow2(18) == 64 * Pow2(12);
  }

  lemma OrDigit(v: nat, digit: nat)
    requires digit < 16
    ensures BitOr(Shl(v, 4), digit) == v * 16 + digit
  {
    hide BitOr;
    Powers();
    OrJoins(v, 4, digit);
  }

  /** The lead bytes and the continuation byte of UTF-8 join disjoint bits. */
  lemma OrMarks(x: nat)
    ensures x < 64 ==> BitOr(0x80, x) == 0x80 + x && BitOr(0xC0, x) == 0xC0 + x
    ensures x < 32 ==> BitOr(0xE0, x) == 0xE0 + x
    ensures x < 8 ==> BitOr(0xF0, x) == 0xF0 + x
  {
    hide BitOr;
    Powers();
    if x < 64 {
      OrJoins(2, 6, x);
      OrJoins(3, 6, x);
    }
    if x < 32 {
      OrJoins(7, 5, x);
    }
    if x < 8 {
      OrJoins(30, 3, x);
    }
  }

  lemma {:induction false} ShiftTwice(v: nat, j: nat, k: nat)
    ensures Shr(v, j + k) == Shr(Shr(v, j), k)
    decreases j
  {
    if j > 0 {
      ShiftTwice(v / 2, j - 1, k);
    }
  }

  lemma ShiftSix(v: nat)
    ensures Shr(v, 6) == v / 0x40
  {
    assert Shr(v, 6) == Shr(v / 2, 5) == Shr(v / 4, 4) == Shr(v / 8, 3);
    assert Shr(v / 8, 3) == Shr(v / 16, 2) == Shr(v / 32, 1) == Shr(v / 64, 0);
  }

  lemma Shifts(v: nat)
    ensures Shr(v, 0) == v && Shr(v, 6) == v / 0x40 && Shr(v, 12) == v / 0x1000 && Shr(v, 18) == v / 0x40000
  {
    assert Shr(v, 0) == v;
    ShiftSix(v);
    ShiftSix(v / 0x40);
    ShiftSix(v / 0x1000);
    ShiftTwice(v, 6, 6);
    ShiftTwice(v, 12, 6);
  }
}
