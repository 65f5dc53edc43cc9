/** Bitwise operators on unbounded naturals, defined bit by bit, and the laws that
    turn the masks and shifts of the C sources into arithmetic. */
module Bits {

  function Pow2(n: nat): (r: nat)
    ensures r >= 1
  {
    if n == 0 then 1 else 2 * Pow2(n - 1)
  }

  /** `x & y` */
  function And(x: nat, y: nat): nat
  {
    if x == 0 || y == 0 then 0 else 2 * And(x / 2, y / 2) + (if x % 2 == 1 && y % 2 == 1 then 1 else 0)
  }

  /** `x | y` */
  function Or(x: nat, y: nat): nat
    decreases x + y
  {
    if x == 0 then y
    else if y == 0 then x
    else 2 * Or(x / 2, y / 2) + (if x % 2 == 1 || y % 2 == 1 then 1 else 0)
  }

  /** `x << s` on an unbounded word */
  function Shl(x: nat, s: nat): nat { x * Pow2(s) }

  /** `x >> s` */
  function Shr(x: nat, s: nat): nat
  {
    DivNonNegative(x, Pow2(s));
    x / Pow2(s)
  }

  lemma {:induction false} DivNonNegative(x: nat, d: nat)
    requires d > 0
    ensures x / d >= 0
  {
  }

  /** `~x` in a word of `w` bits */
  function Not(x: nat, w: nat): nat
    requires x < Pow2(w)
  {
    Pow2(w) - 1 - x
  }

  lemma {:induction false} Pow2Add(a: nat, b: nat)
    ensures Pow2(a + b) == Pow2(a) * Pow2(b)
  {
    if a != 0 {
      var p, q := Pow2(a - 1), Pow2(b);
      Pow2Add(a - 1, b);
      assert (2 * p) * q == 2 * (p * q);
    }
  }

  lemma {:induction false} Pow2Values()
    ensures Pow2(8) == 0x100 && Pow2(16) == 0x1_0000 && Pow2(32) == 0x1_0000_0000
    ensures Pow2(64) == 0x1_0000_0000_0000_0000
  {
    assert Pow2(8) == 0x100;
    hide Pow2;
    Pow2Add(8, 8);
    Pow2Add(16, 16);
    Pow2Add(32, 32);
  }

  lemma {:induction false} Pow2Monotone(a: nat, b: nat)
    requires a <= b
    ensures Pow2(a) <= Pow2(b)
  {
    if a < b {
      Pow2Monotone(a, b - 1);
    }
  }

  lemma {:induction false} AndZero(x: nat)
    ensures And(x, 0) == 0 && And(0, x) == 0
  {
  }

  /** One unfolding of `And`, valid for zero operands too. */
  lemma {:induction false} AndStep(x: nat, y: nat)
    ensures And(x, y) == 2 * And(x / 2, y / 2) + (if x % 2 == 1 && y % 2 == 1 then 1 else 0)
  {
    if x == 0 || y == 0 {
      AndZero(x / 2);
      AndZero(y / 2);
    }
  }

  /** One unfolding of `Or`, valid for zero operands too. */
  lemma {:induction false} OrStep(x: nat, y: nat)
    ensures Or(x, y) == 2 * Or(x / 2, y / 2) + (if x % 2 == 1 || y % 2 == 1 then 1 else 0)
  {
    if x == 0 {
      assert Or(0, y / 2) == y / 2;
    } else if y == 0 {
      assert Or(x / 2, 0) == x / 2;
    }
  }

  lemma {:induction false} AndCommutes(x: nat, y: nat)
    ensures And(x, y) == And(y, x)
    decreases x
  {
    if x != 0 && y != 0 {
      AndCommutes(x / 2, y / 2);
    }
  }

  lemma {:induction false} AndSame(x: nat)
    ensures And(x, x) == x
  {
    if x != 0 {
      AndSame(x / 2);
    }
  }

  lemma {:induction false} AndBound(x: nat, y: nat)
    ensures And(x, y) <= x
    ensures And(x, y) <= y
    decreases x
  {
    if x != 0 && y != 0 {
      AndBound(x / 2, y / 2);
    }
  }

  lemma {:induction false} AndIdempotent(x: nat, m: nat)
    ensures And(And(x, m), m) == And(x, m)
    decreases m
  {
    AndStep(x, m);
    if m == 0 {
      AndZero(And(x, m));
    } else {
      AndIdempotent(x / 2, m / 2);
      AndStep(And(x, m), m);
    }
  }

  /** Masking a value that has no bit of `m` with anything inside `m` leaves nothing. */
  lemma {:induction false} AndInsideMask(v: nat, z: nat, m: nat)
    requires And(v, m) == 0
    ensures And(v, And(z, m)) == 0
    decreases v
  {
    if v != 0 && And(z, m) != 0 {
      AndStep(v, m);
      AndStep(z, m);
      AndInsideMask(v / 2, z / 2, m / 2);
      AndStep(v, And(z, m));
    } else {
      AndZero(v);
    }
  }

  lemma {:induction false} AndOrDistributes(x: nat, y: nat, m: nat)
    ensures And(Or(x, y), m) == Or(And(x, m), And(y, m))
    decreases m
  {
    if m == 0 {
      AndZero(Or(x, y));
      AndZero(x);
      AndZero(y);
    } else {
      var o, a, b := Or(x, y), And(x, m), And(y, m);
      assert o / 2 == Or(x / 2, y / 2) && (o % 2 == 1 <==> x % 2 == 1 || y % 2 == 1) by { OrStep(x, y); }
      assert a / 2 == And(x / 2, m / 2) && (a % 2 == 1 <==> x % 2 == 1 && m % 2 == 1) by { AndStep(x, m); }
      assert b / 2 == And(y / 2, m / 2) && (b % 2 == 1 <==> y % 2 == 1 && m % 2 == 1) by { AndStep(y, m); }
      AndOrDistributes(x / 2, y / 2, m / 2);
      assert And(o / 2, m / 2) == Or(a / 2, b / 2);
      AndStep(o, m);
      OrStep(a, b);
    }
  }

  /** Words without a common bit: or is plus. */
  lemma {:induction false} OrDisjoint(x: nat, y: nat)
    requires And(x, y) == 0
    ensures Or(x, y) == x + y
    decreases x + y
  {
    if x != 0 && y != 0 {
      AndStep(x, y);
      OrDisjoint(x / 2, y / 2);
    }
  }

  lemma {:induction false} AndShl(x: nat, y: nat, s: nat)
    ensures And(Shl(x, s), Shl(y, s)) == Shl(And(x, y), s)
  {
    if s != 0 {
      var a, b := Shl(x, s - 1), Shl(y, s - 1);
      ShlStep(x, s);
      ShlStep(y, s);
      ShlStep(And(x, y), s);
      AndShl(x, y, s - 1);
      AndStep(2 * a, 2 * b);
    }
  }

  lemma {:induction false} ShlStep(x: nat, s: nat)
    requires s > 0
    ensures Shl(x, s) == 2 * Shl(x, s - 1)
  {
  }

  /** A value below 2^s has no bit in common with one shifted left by s. */
  lemma {:induction false} LowHighDisjoint(lo: nat, hi: nat, s: nat)
    requires lo < Pow2(s)
    ensures And(lo, Shl(hi, s)) == 0
  {
    if s != 0 {
      ShlStep(hi, s);
      LowHighDisjoint(lo / 2, hi, s - 1);
      AndStep(lo, 2 * Shl(hi, s - 1));
    }
  }

  lemma {:induction false} ShrShl(x: nat, s: nat)
    ensures Shr(Shl(x, s), s) == x
  {
    DivModUnique(Shl(x, s), Pow2(s), x, 0);
  }

  /** `x & (2^k - 1)` keeps the low `k` bits. */
  lemma {:induction false} AndLowMask(x: nat, k: nat)
    ensures And(x, Pow2(k) - 1) == x % Pow2(k)
  {
    hide And;
    if k == 0 {
      AndZero(x);
    } else {
      var h := Pow2(k - 1);
      AndLowMask(x / 2, k - 1);
      AndOddMask(x, h);
      ModDouble(x, h);
    }
  }

  lemma {:induction false} AndOddMask(x: nat, h: nat)
    requires h > 0
    ensures And(x, 2 * h - 1) == 2 * And(x / 2, h - 1) + x % 2
  {
    AndStep(x, 2 * h - 1);
  }

  lemma {:induction false} ModDouble(x: nat, m: nat)
    requires m > 0
    ensures x % (2 * m) == 2 * (x / 2 % m) + x % 2
  {
    var q := x / 2 / m;
    var r := x / 2 % m;
    assert x == 2 * (m * q + r) + x % 2;
    assert x == (2 * m) * q + (2 * r + x % 2);
    DivModUnique(x, 2 * m, q, 2 * r + x % 2);
  }

  lemma {:induction false} DivModUnique(x: nat, d: nat, q: nat, r: nat)
    requires d > 0 && r < d && x == d * q + r
    ensures x / d == q && x % d == r
  {
    var p := x / d;
    assert x == d * p + x % d;
    if p < q {
      MulMonotone(d, p + 1, q);
    } else if q < p {
      MulMonotone(d, q + 1, p);
    }
  }

  lemma {:induction false} MulMonotone(d: nat, a: nat, b: nat)
    requires a <= b
    ensures d * a <= d * b
    ensures d * (a + 1) == d * a + d
  {
    assert d * b == d * a + d * (b - a);
  }

  /** A word splits into its part inside a mask and its part inside the complement. */
  lemma {:induction false} AndSplit(v: nat, m: nat, w: nat)
    requires v < Pow2(w) && m < Pow2(w)
    ensures And(v, m) + And(v, Not(m, w)) == v
  {
    if w != 0 {
      AndStep(v, m);
      AndStep(v, Not(m, w));
      assert Not(m, w) / 2 == Not(m / 2, w - 1);
      assert Not(m, w) % 2 == 1 - m % 2;
      AndSplit(v / 2, m / 2, w - 1);
    } else {
      AndZero(v);
    }
  }

  /** Nothing inside a mask survives its complement. */
  lemma {:induction false} AndComplement(z: nat, m: nat, w: nat)
    requires m < Pow2(w)
    ensures And(And(z, m), Not(m, w)) == 0
  {
    var e := And(z, m);
    AndBound(z, m);
    AndSplit(e, m, w);
    AndIdempotent(z, m);
  }

  /** Packing a value outside a mask with a field inside it loses neither. */
  lemma {:induction false} PackUnpack(v: nat, z: nat, m: nat, w: nat)
    requires v < Pow2(w) && m < Pow2(w) && And(v, m) == 0
    ensures And(Or(v, And(z, m)), m) == And(z, m)
    ensures And(Or(v, And(z, m)), Not(m, w)) == v
    ensures Or(v, And(z, m)) < Pow2(w)
  {
    var e := And(z, m);
    AndOrDistributes(v, e, m);
    AndIdempotent(z, m);
    AndOrDistributes(v, e, Not(m, w));
    AndSplit(v, m, w);
    AndComplement(z, m, w);
    AndInsideMask(v, z, m);
    OrDisjoint(v, e);
    // v and e are both sums of distinct powers below 2^w without a common one
    AndBound(z, m);
    AndSplit(Pow2(w) - 1, m, w);
    AndBound(v, Not(m, w));
  }

  // ----- single bits ---------------------------------------------------------------

  /** Bit `k` is set. */
  predicate Bit(x: nat, k: nat)
  {
    if k == 0 then x % 2 == 1 else Bit(x / 2, k - 1)
  }

  lemma {:induction false} BitIsDigit(x: nat, k: nat)
    ensures Bit(x, k) <==> x / Pow2(k) % 2 == 1
  {
    if k != 0 {
      BitIsDigit(x / 2, k - 1);
      DivHalf(x, Pow2(k - 1));
    } else {
      assert x / 1 == x;
    }
  }

  lemma {:induction false} ShrAdd(x: nat, a: nat, b: nat)
    ensures Shr(x, a + b) == Shr(Shr(x, a), b)
    decreases a
  {
    if a == 0 {
      assert x / 1 == x;
    } else {
      ShrAdd(x / 2, a - 1, b);
      DivHalf(x, Pow2(a - 1));
      DivHalf(x, Pow2(a - 1 + b));
    }
  }

  lemma {:induction false} DivHalf(x: nat, p: nat)
    requires p > 0
    ensures x / (2 * p) == x / 2 / p
  {
    var q, r := x / 2 / p, x / 2 % p;
    assert x / 2 == p * q + r;
    assert x == 2 * (p * q + r) + x % 2;
    assert (2 * p) * q == 2 * (p * q);
    DivModUnique(x, 2 * p, q, 2 * r + x % 2);
  }

  lemma {:induction false} BitAnd(x: nat, y: nat, k: nat)
    ensures Bit(And(x, y), k) <==> Bit(x, k) && Bit(y, k)
    decreases k
  {
    AndStep(x, y);
    if k != 0 {
      BitAnd(x / 2, y / 2, k - 1);
    }
  }

  lemma {:induction false} BitOr(x: nat, y: nat, k: nat)
    ensures Bit(Or(x, y), k) <==> Bit(x, k) || Bit(y, k)
    decreases k
  {
    OrStep(x, y);
    if k != 0 {
      BitOr(x / 2, y / 2, k - 1);
    }
  }

  lemma {:induction false} BitNot(x: nat, w: nat, k: nat)
    requires x < Pow2(w) && k < w
    ensures Bit(Not(x, w), k) <==> !Bit(x, k)
    decreases k
  {
    assert Not(x, w) / 2 == Not(x / 2, w - 1);
    assert Not(x, w) % 2 == 1 - x % 2;
    if k != 0 {
      BitNot(x / 2, w - 1, k - 1);
    }
  }
}
