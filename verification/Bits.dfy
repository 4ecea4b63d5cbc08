/** Machine-word operations on natural numbers: shifts and the bitwise AND, as the source uses
    them on u32, u64 and u128 values. */
module Bits {

  function Pow2(n: nat): (p: nat)
    ensures p > 0
  {
    if n == 0 then 1 else 2 * Pow2(n - 1)
  }

  /** `a & b`. */
  function And(a: nat, b: nat): (r: nat)
    decreases a
  {
    if a == 0 || b == 0 then 0 else (a % 2) * (b % 2) + 2 * And(a / 2, b / 2)
  }

  /** `a << n` in a word of `width` bits; the machine requires `n < width`. */
  function ShiftLeft(a: nat, n: nat, width: nat): nat
    requires n < width
  {
    (a * Pow2(n)) % Pow2(width)
  }

  predicate Bit(a: nat, i: nat) {
    (a / Pow2(i)) % 2 == 1
  }

  lemma {:induction false} Pow2Add(m: nat, n: nat)
    ensures Pow2(m + n) == Pow2(m) * Pow2(n)
  {
    if m > 0 {
      Pow2Add(m - 1, n);
      assert Pow2(m + n) == 2 * Pow2((m - 1) + n);
      assert 2 * (Pow2(m - 1) * Pow2(n)) == (2 * Pow2(m - 1)) * Pow2(n);
    }
  }

  lemma Pow2Words()
    ensures Pow2(16) == 0x1_0000 && Pow2(30) == 0x4000_0000 && Pow2(32) == 0x1_0000_0000
    ensures Pow2(64) == 0x1_0000_0000_0000_0000
  {
    assert Pow2(4) == 16;
    Pow2Add(4, 4);
    Pow2Add(8, 8);
    Pow2Add(16, 16);
    Pow2Add(32, 32);
    assert Pow2(32) == 4 * Pow2(30);
  }

  lemma {:induction false} MulGap(x: nat, y: nat, d: nat)
    ensures x < y ==> x * d + d <= y * d
    decreases y
  {
    if x < y {
      MulGap(x, y - 1, d);
      assert (y - 1) * d + d == y * d;
    }
  }

  lemma MulInjective(x: nat, y: nat, d: nat)
    requires d > 0
    ensures x * d == y * d <==> x == y
  {
    MulGap(x, y, d);
    MulGap(y, x, d);
  }

  lemma SameMultiple(a: nat, b: nat, p: nat)
    requires p > 0
    ensures (a / p) * p == (b / p) * p <==> a / p == b / p
  {
    MulInjective(a / p, b / p, p);
  }

  lemma MulAssoc(x: nat, y: nat, z: nat)
    ensures x * (y * z) == (x * y) * z
  {}

  /** A multiple of the divisor passes through the division. */
  lemma DivOfSum(k: nat, p: nat, v: nat)
    requires p > 0
    ensures (k * p + v) / p == k + v / p
  {
    assert (k + v / p) * p == k * p + (v / p) * p;
    DivUnique(k * p + v, p, k + v / p, v % p);
  }

  lemma Double(q: nat, p: nat)
    ensures 2 * (q * p) == q * (2 * p)
  {}

  lemma DivUnique(a: nat, d: nat, q: nat, r: nat)
    requires d > 0 && a == q * d + r && r < d
    ensures a / d == q
  {
    MulGap(a / d, q, d);
    MulGap(q, a / d, d);
  }

  /** Dropping one bit and then `s` more is dropping `s + 1`. */
  lemma HalfThenShift(a: nat, s: nat)
    ensures (a / 2) / Pow2(s) == a / Pow2(s + 1)
  {
    var p := Pow2(s);
    var q, r := (a / 2) / p, (a / 2) % p;
    assert a / 2 == q * p + r;
    assert a == 2 * (q * p + r) + a % 2;
    assert 2 * (q * p + r) + a % 2 == q * (2 * p) + (2 * r + a % 2);
    DivUnique(a, 2 * p, q, 2 * r + a % 2);
  }

  /** `s` bits and then one more. */
  lemma ShiftThenHalf(a: nat, s: nat)
    ensures (a / Pow2(s)) / 2 == a / Pow2(s + 1)
  {
    var p := Pow2(s);
    var q, r := a / p, a % p;
    assert a == q * p + r;
    assert q * p == (2 * (q / 2) + q % 2) * p;
    assert (2 * (q / 2) + q % 2) * p == (q / 2) * (2 * p) + (q % 2) * p;
    assert (q % 2) * p + r < 2 * p by {
      if q % 2 == 0 { assert (q % 2) * p == 0; } else { assert (q % 2) * p == p; }
    }
    DivUnique(a, 2 * p, q / 2, (q % 2) * p + r);
  }

  /** AND with a single-bit mask tests that bit. */
  lemma {:induction false} AndSingleBit(a: nat, n: nat)
    ensures And(a, Pow2(n)) != 0 <==> Bit(a, n)
  {
    if n == 0 {
      assert Pow2(0) == 1;
      if a != 0 {
        assert And(a / 2, 0) == 0;
      }
    } else {
      HalfThenShift(a, n - 1);
      if a != 0 {
        AndSingleBit(a / 2, n - 1);
        assert Pow2(n) / 2 == Pow2(n - 1) && Pow2(n) % 2 == 0;
        assert And(a, Pow2(n)) == 2 * And(a / 2, Pow2(n - 1));
      } else {
        assert 0 / Pow2(n) == 0;
      }
    }
  }

  lemma {:induction false} AndAllOnes(a: nat, width: nat)
    requires a < Pow2(width)
    ensures And(a, Pow2(width) - 1) == a
  {
    if a != 0 {
      assert width > 0;
      AndAllOnes(a / 2, width - 1);
      var m := Pow2(width) - 1;
      assert m % 2 == 1 && m / 2 == Pow2(width - 1) - 1;
    }
  }

  lemma AndEven(a: nat, m: nat)
    ensures And(a, 2 * m) == 2 * And(a / 2, m)
  {
    assert (2 * m) % 2 == 0 && (2 * m) / 2 == m;
    assert m == 0 ==> And(a / 2, m) == 0;
  }

  lemma HighMask(s: nat, width: nat)
    requires s <= width
    ensures Pow2(width) >= Pow2(s)
  {
    Pow2Add(width - s, s);
    assert Pow2(width - s) * Pow2(s) >= 1 * Pow2(s);
  }

  /** AND with the mask whose low `s` bits are clear rounds down to a multiple of `Pow2(s)`. */
  lemma {:induction false} AndHighMask(a: nat, s: nat, width: nat)
    requires s <= width && a < Pow2(width)
    ensures Pow2(width) >= Pow2(s)
    ensures And(a, Pow2(width) - Pow2(s)) == (a / Pow2(s)) * Pow2(s)
    decreases s
  {
    HighMask(s, width);
    if s == 0 {
      AndAllOnes(a, width);
      assert Pow2(0) == 1 && (a / 1) * 1 == a;
    } else {
      var p, m := Pow2(s - 1), Pow2(width - 1) - Pow2(s - 1);
      assert Pow2(width) == 2 * Pow2(width - 1) && Pow2(s) == 2 * p;
      hide And, Pow2;
      AndHighMask(a / 2, s - 1, width - 1);
      HalfThenShift(a, s - 1);
      AndEven(a, m);
      var q := a / Pow2(s);
      assert And(a, 2 * m) == 2 * (q * p);
      Double(q, p);
    }
  }

  /** Two words agree above bit `s` exactly when all those bits agree. */
  lemma {:induction false} SameHighBits(a: nat, b: nat, s: nat, width: nat)
    requires s <= width && a < Pow2(width) && b < Pow2(width)
    ensures a / Pow2(s) == b / Pow2(s) <==> forall i :: s <= i < width ==> (Bit(a, i) <==> Bit(b, i))
    decreases width - s
  {
    if s == width {
      DivUnique(a, Pow2(width), 0, a);
      DivUnique(b, Pow2(width), 0, b);
    } else {
      SameHighBits(a, b, s + 1, width);
      ShiftThenHalf(a, s);
      ShiftThenHalf(b, s);
      var qa, qb := a / Pow2(s), b / Pow2(s);
      assert qa == 2 * (qa / 2) + qa % 2 && qb == 2 * (qb / 2) + qb % 2;
      assert qa == qb <==> qa / 2 == qb / 2 && (Bit(a, s) <==> Bit(b, s));
    }
  }
}
