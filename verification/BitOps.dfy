/** The bitwise operators of C and Python on non-negative integers, and the masks built from them. */
module BitOps {

  function Pow2(n: nat): (r: nat)
    ensures r >= 1
  {
    if n == 0 then 1 else 2 * Pow2(n - 1)
  }

  /** (w >> n) & 1 */
  predicate BitAt(w: nat, n: nat) {
    if n == 0 then w % 2 == 1 else BitAt(w / 2, n - 1)
  }

  lemma HalfOfQuotient(w: nat, m: nat)
    requires m > 0
    ensures w / 2 / m == w / (2 * m)
  {
    HalfRemainder(w, m);
    var q := w / 2 / m;
    assert w / 2 == q * m + w / 2 % m;
    assert w == 2 * m * q + w % (2 * m);
    QuotientUnique(w, 2 * m, q, w % (2 * m));
  }

  lemma QuotientUnique(a: nat, m: nat, q: nat, r: nat)
    requires m > 0 && a == m * q + r && r < m
    ensures a / m == q
  {
    RemainderUnique(a, m, q, r);
    assert m * (a / m - q) == 0;
  }

  /** The bits of a number are its binary digits. */
  lemma {:induction false} BitIsDigit(w: nat, n: nat)
    ensures BitAt(w, n) <==> w / Pow2(n) % 2 == 1
    decreases n
  {
    if n > 0 {
      BitIsDigit(w / 2, n - 1);
      HalfOfQuotient(w, Pow2(n - 1));
    }
  }

  /** a & b */
  function And(a: nat, b: nat): (r: nat)
    ensures r <= a && r <= b
    decreases a
  {
    if a == 0 || b == 0 then 0 else (if a % 2 == 1 && b % 2 == 1 then 1 else 0) + 2 * And(a / 2, b / 2)
  }

  /** a & ~b */
  function AndNot(a: nat, b: nat): (r: nat)
    ensures r <= a
    decreases a
  {
    if a == 0 then 0 else (if a % 2 == 1 && b % 2 == 0 then 1 else 0) + 2 * AndNot(a / 2, b / 2)
  }

  /** a ^ b */
  function Xor(a: nat, b: nat): nat
    decreases a + b
  {
    if a == 0 && b == 0 then 0 else (a + b) % 2 + 2 * Xor(a / 2, b / 2)
  }

  lemma {:induction false} XorBound(a: nat, b: nat, n: nat)
    requires a < Pow2(n) && b < Pow2(n)
    ensures Xor(a, b) < Pow2(n)
    decreases n
  {
    if a != 0 || b != 0 {
      XorBound(a / 2, b / 2, n - 1);
    }
  }

  /** Exclusive or with a fixed value loses nothing. */
  lemma {:induction false} XorInjective(a: nat, b: nat, c: nat)
    requires Xor(a, b) == Xor(a, c)
    ensures b == c
    decreases a + b + c
  {
    if a + b + c != 0 {
      XorParts(a, b);
      XorParts(a, c);
      XorInjective(a / 2, b / 2, c / 2);
      SameParity(a, b, c);
    }
  }

  lemma XorParts(a: nat, b: nat)
    ensures Xor(a, b) % 2 == (a + b) % 2 && Xor(a, b) / 2 == Xor(a / 2, b / 2)
  {
    Parts((a + b) % 2, Xor(a / 2, b / 2));
  }

  lemma Parts(bit: nat, half: nat)
    requires bit < 2
    ensures (bit + 2 * half) % 2 == bit && (bit + 2 * half) / 2 == half
  {
  }

  lemma SameParity(a: nat, b: nat, c: nat)
    requires (a + b) % 2 == (a + c) % 2 && b / 2 == c / 2
    ensures b == c
  {
  }

  lemma {:induction false} XorBit(a: nat, b: nat, n: nat)
    ensures BitAt(Xor(a, b), n) <==> BitAt(a, n) != BitAt(b, n)
    decreases n
  {
    XorParts(a, b);
    if n == 0 {
      LowestBits(Xor(a, b), a, b);
    } else {
      XorBit(a / 2, b / 2, n - 1);
    }
  }

  lemma LowestBits(x: nat, a: nat, b: nat)
    requires x % 2 == (a + b) % 2
    ensures x % 2 == 1 <==> (a % 2 == 1) != (b % 2 == 1)
  {
  }

  lemma {:induction false} XorCommutes(a: nat, b: nat)
    ensures Xor(a, b) == Xor(b, a)
    decreases a + b
  {
    if a != 0 || b != 0 {
      XorCommutes(a / 2, b / 2);
    }
  }

  /** Exclusive or with the same value twice is no change. */
  lemma {:induction false} XorTwice(a: nat, b: nat)
    ensures Xor(a, Xor(a, b)) == b
    decreases a + b
  {
    if a + b != 0 {
      XorParts(a, b);
      XorParts(a, Xor(a, b));
      XorTwice(a / 2, b / 2);
      SumTwice(a, b, Xor(a, b));
      SameHalves(Xor(a, Xor(a, b)), b);
    }
  }

  lemma SumTwice(a: nat, b: nat, x: nat)
    requires x % 2 == (a + b) % 2
    ensures (a + x) % 2 == b % 2
  {
  }

  lemma SameHalves(x: nat, y: nat)
    requires x % 2 == y % 2 && x / 2 == y / 2
    ensures x == y
  {
  }

  /** (1 << n) - 1 */
  function LowOnes(n: nat): nat { Pow2(n) - 1 }

  /** Masking with ones keeps the remainder. */
  lemma {:induction false} AndLowOnes(a: nat, n: nat)
    ensures And(a, LowOnes(n)) == a % Pow2(n)
    decreases n
  {
    if n == 0 {
      assert a % 1 == 0;
    } else {
      AndLowOnes(a / 2, n - 1);
      AndOdd(a, LowOnes(n - 1));
      HalfRemainder(a, Pow2(n - 1));
      assert LowOnes(n) == 2 * LowOnes(n - 1) + 1;
      assert a % Pow2(n) == a % 2 + 2 * (a / 2 % Pow2(n - 1)) by {
        assert Pow2(n) == 2 * Pow2(n - 1);
      }
    }
  }

  lemma AndOdd(a: nat, b: nat)
    ensures And(a, 2 * b + 1) == a % 2 + 2 * And(a / 2, b)
  {
  }

  lemma HalfRemainder(a: nat, m: nat)
    requires m > 0
    ensures a % (2 * m) == a % 2 + 2 * (a / 2 % m)
  {
    var q := a / 2 / m;
    assert a / 2 == q * m + a / 2 % m;
    assert a == 2 * m * q + (a % 2 + 2 * (a / 2 % m));
    RemainderUnique(a, 2 * m, q, a % 2 + 2 * (a / 2 % m));
  }

  lemma RemainderUnique(a: nat, m: nat, q: nat, r: nat)
    requires m > 0 && a == m * q + r && r < m
    ensures a % m == r
  {
    var d := a / m - q;
    assert m * d == r - a % m;
    if d >= 1 {
      AtLeastOnce(m, d);
    } else if d <= -1 {
      AtLeastOnce(m, -d);
    }
  }

  lemma AtLeastOnce(m: nat, d: int)
    requires d >= 1
    ensures m * d >= m
  {
  }

  lemma {:induction false} ZeroHasNoBits(n: nat)
    ensures !BitAt(0, n)
  {
    if n > 0 {
      ZeroHasNoBits(n - 1);
    }
  }

  lemma {:induction false} AndBit(a: nat, b: nat, n: nat)
    ensures BitAt(And(a, b), n) <==> BitAt(a, n) && BitAt(b, n)
    decreases n
  {
    if a == 0 || b == 0 {
      ZeroHasNoBits(n);
    } else if n > 0 {
      AndBit(a / 2, b / 2, n - 1);
      assert And(a, b) / 2 == And(a / 2, b / 2);
    }
  }

  lemma {:induction false} AndNotBit(a: nat, b: nat, n: nat)
    ensures BitAt(AndNot(a, b), n) <==> BitAt(a, n) && !BitAt(b, n)
    decreases n
  {
    if a == 0 {
      ZeroHasNoBits(n);
    } else if n > 0 {
      AndNotBit(a / 2, b / 2, n - 1);
      assert AndNot(a, b) / 2 == AndNot(a / 2, b / 2);
    }
  }

  lemma {:induction false} LowOnesBit(count: nat, n: nat)
    ensures BitAt(LowOnes(count), n) <==> n < count
    decreases n
  {
    if count == 0 {
      ZeroHasNoBits(n);
    } else if n > 0 {
      LowOnesBit(count - 1, n - 1);
      assert LowOnes(count) / 2 == LowOnes(count - 1);
    }
  }

  /** Clearing bits leaves a mask whole exactly when none of its bits was cleared. */
  lemma {:induction false} AndNotWhole(count: nat, b: nat)
    ensures AndNot(LowOnes(count), b) == LowOnes(count) <==> forall n :: 0 <= n < count ==> !BitAt(b, n)
  {
    if forall n :: 0 <= n < count ==> !BitAt(b, n) {
      AndNotNothing(count, b);
    } else {
      var n: nat :| n < count && BitAt(b, n);
      AndNotBit(LowOnes(count), b, n);
      LowOnesBit(count, n);
    }
  }

  lemma {:induction false} AndNotNothing(count: nat, b: nat)
    requires forall n :: 0 <= n < count ==> !BitAt(b, n)
    ensures AndNot(LowOnes(count), b) == LowOnes(count)
    decreases count
  {
    if count > 0 {
      assert !BitAt(b, 0);
      forall n | 0 <= n < count - 1
        ensures !BitAt(b / 2, n)
      {
        assert !BitAt(b, n + 1);
      }
      AndNotNothing(count - 1, b / 2);
      assert LowOnes(count) / 2 == LowOnes(count - 1);
    }
  }

  // ---- counting ----

  function CountOnes(v: nat): nat {
    if v == 0 then 0 else v % 2 + CountOnes(v / 2)
  }

  /** v & (v - 1) drops exactly the lowest set bit. */
  lemma {:induction false} DropsLowestOne(v: nat)
    requires v > 0
    ensures And(v, v - 1) < v && CountOnes(v) == CountOnes(And(v, v - 1)) + 1
    decreases v
  {
    if v % 2 == 1 {
      assert (v - 1) / 2 == v / 2;
      AndSelf(v / 2);
      assert And(v, v - 1) == v - 1 || v == 1;
    } else {
      DropsLowestOne(v / 2);
      assert (v - 1) / 2 == v / 2 - 1;
      assert And(v, v - 1) == 2 * And(v / 2, v / 2 - 1);
    }
  }

  lemma {:induction false} AndSelf(v: nat)
    ensures And(v, v) == v
  {
    if v > 0 {
      AndSelf(v / 2);
    }
  }

  /** popcount32 */
  method Popcount32(value: nat) returns (n: nat)
    ensures n == CountOnes(value)
  {
    var v := value;
    n := 0;
    while v != 0
      invariant n + CountOnes(v) == CountOnes(value)
    {
      DropsLowestOne(v);
      v := And(v, v - 1);
      n := n + 1;
    }
  }
}
