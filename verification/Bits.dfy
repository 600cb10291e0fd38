/** Bitwise operations on unsigned integers, defined by their binary digits. */
module Bits {
  function Pow2(k: nat): (r: nat)
    ensures r > 0
  {
    if k == 0 then 1 else 2 * Pow2(k - 1)
  }

  predicate Bit(n: nat, i: nat)
    decreases i
  {
    if i == 0 then n % 2 == 1 else Bit(n / 2, i - 1)
  }

  function Digit(b: bool): nat {
    if b then 1 else 0
  }

  function Or(a: nat, b: nat): nat
    decreases a + b
  {
    if a + b == 0 then 0 else 2 * Or(a / 2, b / 2) + Digit(a % 2 == 1 || b % 2 == 1)
  }

  function And(a: nat, b: nat): nat
    decreases a + b
  {
    if a + b == 0 then 0 else 2 * And(a / 2, b / 2) + Digit(a % 2 == 1 && b % 2 == 1)
  }

  function AndNot(a: nat, b: nat): nat
    decreases a + b
  {
    if a + b == 0 then 0 else 2 * AndNot(a / 2, b / 2) + Digit(a % 2 == 1 && b % 2 == 0)
  }

  /** A 64-bit left shift: digits pushed past the top are lost, and a shift by 64 or more gives 0. */
  function Shl(n: nat, shift: nat): nat {
    (n * Pow2(shift)) % Pow2(64)
  }

  lemma {:induction false} ZeroHasNoBits(i: nat)
    ensures !Bit(0, i)
  {
    if i > 0 { ZeroHasNoBits(i - 1); }
  }

  lemma {:induction false} OneHasLowBit(i: nat)
    ensures Bit(1, i) <==> i == 0
  {
    if i > 0 { ZeroHasNoBits(i - 1); }
  }

  lemma {:induction false} BitOfOr(a: nat, b: nat, i: nat)
    ensures Bit(Or(a, b), i) <==> Bit(a, i) || Bit(b, i)
    decreases i
  {
    if a + b == 0 {
      ZeroHasNoBits(i);
    } else if i > 0 {
      BitOfOr(a / 2, b / 2, i - 1);
    }
  }

  lemma {:induction false} BitOfAnd(a: nat, b: nat, i: nat)
    ensures Bit(And(a, b), i) <==> Bit(a, i) && Bit(b, i)
    decreases i
  {
    if a + b == 0 {
      ZeroHasNoBits(i);
    } else if i > 0 {
      BitOfAnd(a / 2, b / 2, i - 1);
    }
  }

  lemma {:induction false} BitOfAndNot(a: nat, b: nat, i: nat)
    ensures Bit(AndNot(a, b), i) <==> Bit(a, i) && !Bit(b, i)
    decreases i
  {
    if a + b == 0 {
      ZeroHasNoBits(i);
    } else if i > 0 {
      BitOfAndNot(a / 2, b / 2, i - 1);
    }
  }

  lemma {:induction false} BitOfProduct(n: nat, shift: nat, i: nat)
    ensures Bit(n * Pow2(shift), i) <==> i >= shift && Bit(n, i - shift)
    decreases shift
  {
    if shift > 0 {
      var half := n * Pow2(shift - 1);
      assert n * Pow2(shift) == 2 * half;
      if i > 0 { BitOfProduct(n, shift - 1, i - 1); }
    }
  }

  lemma HalfOfMod(n: nat, m: nat)
    requires m > 0
    ensures (n % (2 * m)) / 2 == (n / 2) % m && (n % (2 * m)) % 2 == n % 2
  {
    var q, r := n / (2 * m), n % (2 * m);
    assert n == q * (2 * m) + r == 2 * (q * m) + r;
    assert n / 2 == q * m + r / 2;
    assert r / 2 < m;
    ModUnique(n / 2, m, q, r / 2);
  }

  lemma ModUnique(n: nat, m: nat, q: nat, r: nat)
    requires r < m && n == q * m + r
    ensures n % m == r
  {
    var d := n / m - q;
    assert d >= 1 ==> d * m >= m;
    assert d <= -1 ==> d * m + m <= 0;
    assert n % m == r - d * m;
  }

  lemma {:induction false} BitOfMod(n: nat, k: nat, i: nat)
    requires i < k
    ensures Bit(n % Pow2(k), i) <==> Bit(n, i)
    decreases k
  {
    HalfOfMod(n, Pow2(k - 1));
    if i > 0 { BitOfMod(n / 2, k - 1, i - 1); }
  }

  lemma BitOfShl(n: nat, shift: nat, i: nat)
    requires i < 64
    ensures Bit(Shl(n, shift), i) <==> i >= shift && Bit(n, i - shift)
  {
    BitOfMod(n * Pow2(shift), 64, i);
    BitOfProduct(n, shift, i);
  }

  lemma {:induction false} Bounded(a: nat, b: nat, k: nat)
    requires a < Pow2(k) && b < Pow2(k)
    ensures Or(a, b) < Pow2(k) && And(a, b) < Pow2(k) && AndNot(a, b) < Pow2(k)
    decreases k
  {
    if k > 0 && a + b > 0 { Bounded(a / 2, b / 2, k - 1); }
  }

  lemma ShlBound(n: nat, shift: nat)
    ensures Shl(n, shift) < Pow2(64) && 1 < Pow2(64)
  {
  }

  lemma {:induction false} AndZero(n: nat)
    ensures And(n, 0) == 0
  {
    if n > 0 { AndZero(n / 2); }
  }

  lemma {:induction false} AndPow2(n: nat, d: nat)
    ensures And(n, Pow2(d)) != 0 <==> Bit(n, d)
    decreases d
  {
    if d == 0 { AndZero(n / 2); } else { AndPow2(n / 2, d - 1); }
  }

  lemma {:induction false} Pow2Increases(a: nat, b: nat)
    requires a < b
    ensures Pow2(a) < Pow2(b)
  {
    if a + 1 < b { Pow2Increases(a, b - 1); }
  }

  /** Masking with a shifted one tests a single digit. */
  lemma MaskedTest(n: nat, d: nat)
    requires d < 64
    ensures And(n, Shl(1, d)) != 0 <==> Bit(n, d)
  {
    hide And, Shl, Pow2, Bit;
    AndPow2(n, d);
    ShlOfOne(d);
  }

  lemma ShlOfOne(d: nat)
    requires d < 64
    ensures Shl(1, d) == Pow2(d)
  {
    hide Pow2;
    Pow2Increases(d, 64);
    ModUnique(Pow2(d), Pow2(64), 0, Pow2(d));
  }
}
