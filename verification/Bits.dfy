/** Bitwise arithmetic on unbounded naturals: powers of two, exclusive or, single
    bits, and the number of bits a number needs. */
module Bits {

  function Pow2(k: nat): (p: nat)
    ensures p >= 1
  {
    if k == 0 then 1 else 2 * Pow2(k - 1)
  }

  function Xor(a: nat, b: nat): nat
    decreases a + b
  {
    if a == 0 && b == 0 then 0
    else (if a % 2 != b % 2 then 1 else 0) + 2 * Xor(a / 2, b / 2)
  }

  /** Bit j of a, counted from the least significant one. */
  predicate Bit(a: nat, j: nat) {
    if j == 0 then a % 2 == 1 else Bit(a / 2, j - 1)
  }

  /** The constexpr of the configuration header: 0 needs no bit, 1 needs one. */
  function BitsToRepresent(n: nat): nat {
    if n == 0 then 0 else if n == 1 then 1 else 1 + BitsToRepresent(n / 2)
  }

  // ----- the algebra of Xor

  lemma XorZero(a: nat)
    ensures Xor(a, 0) == a && Xor(0, a) == a
  {
  }

  lemma XorSelf(a: nat)
    ensures Xor(a, a) == 0
  {
  }

  lemma {:induction false} XorComm(a: nat, b: nat)
    ensures Xor(a, b) == Xor(b, a)
    decreases a + b
  {
    if a != 0 || b != 0 {
      XorComm(a / 2, b / 2);
    }
  }

  lemma {:induction false} XorHalves(a: nat, b: nat)
    ensures Xor(a, b) % 2 == if a % 2 != b % 2 then 1 else 0
    ensures Xor(a, b) / 2 == Xor(a / 2, b / 2)
  {
  }

  lemma SameHalves(a: nat, b: nat)
    requires a / 2 == b / 2 && a % 2 == b % 2
    ensures a == b
  {
  }

  lemma {:induction false} XorAssoc(a: nat, b: nat, c: nat)
    ensures Xor(Xor(a, b), c) == Xor(a, Xor(b, c))
    decreases a + b + c
  {
    if a != 0 || b != 0 || c != 0 {
      var l, r := Xor(Xor(a, b), c), Xor(a, Xor(b, c));
      assert l / 2 == r / 2 by {
        XorAssoc(a / 2, b / 2, c / 2);
        XorHalves(a, b);
        XorHalves(b, c);
        XorHalves(Xor(a, b), c);
        XorHalves(a, Xor(b, c));
      }
      assert l % 2 == r % 2 by {
        XorHalves(a, b);
        XorHalves(b, c);
        XorHalves(Xor(a, b), c);
        XorHalves(a, Xor(b, c));
      }
      SameHalves(l, r);
    }
  }

  lemma {:induction false} XorBound(a: nat, b: nat, k: nat)
    requires a < Pow2(k) && b < Pow2(k)
    ensures Xor(a, b) < Pow2(k)
    decreases k
  {
    if k > 0 {
      XorBound(a / 2, b / 2, k - 1);
    }
  }

  /** Exclusive or, bit by bit. */
  lemma {:induction false} XorBit(a: nat, b: nat, j: nat)
    ensures Bit(Xor(a, b), j) == (Bit(a, j) != Bit(b, j))
    decreases j
  {
    XorHalves(a, b);
    if j > 0 {
      XorBit(a / 2, b / 2, j - 1);
    }
  }

  lemma {:induction false} PowerMonotone(i: nat, j: nat)
    requires i <= j
    ensures Pow2(i) <= Pow2(j)
    ensures i < j ==> Pow2(i) < Pow2(j)
    decreases j
  {
    if i < j {
      PowerMonotone(i, j - 1);
    }
  }

  lemma {:induction false} PowerSum(i: nat, j: nat)
    ensures Pow2(i + j) == Pow2(i) * Pow2(j)
    decreases j
  {
    if j > 0 {
      PowerSum(i, j - 1);
      assert Pow2(i) * Pow2(j) == 2 * (Pow2(i) * Pow2(j - 1));
    }
  }

  lemma MultiplesApart(a: nat, b: nat, k: nat)
    requires a < b
    ensures a * k + k <= b * k
  {
    var e := b - a - 1;
    assert b * k == a * k + k + e * k;
  }

  lemma DivUnique(x: nat, k: nat, q: nat, r: nat)
    requires k > 0 && r < k && x == q * k + r
    ensures x / k == q
  {
    var d, m := x / k, x % k;
    assert x == d * k + m;
    if d < q {
      MultiplesApart(d, q, k);
    } else if d > q {
      MultiplesApart(q, d, k);
    }
  }

  lemma Times(a: nat, b: nat, k: nat)
    requires a <= b
    ensures a * k <= b * k
  {
    if a < b {
      MultiplesApart(a, b, k);
    }
  }

  lemma DivBelow(x: nat, a: nat, d: nat)
    requires d > 0 && x < a * d
    ensures x / d < a
  {
    var q := x / d;
    assert x == q * d + x % d;
    if a <= q {
      Times(a, q, d);
    }
  }

  lemma PowerEight()
    ensures Pow2(0) == 1 && Pow2(8) == 256
  {
  }

  function Quotient(x: nat, d: nat): nat
    requires d > 0
  {
    x / d
  }

  /** The remainder of a number below twice the divisor. */
  lemma Wrap(x: nat, n: nat)
    requires 0 < n && x < 2 * n
    ensures x % n == if x < n then x else x - n
  {
    if x >= n {
      DivUnique(x, n, 1, x - n);
    }
  }
}
