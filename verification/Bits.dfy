/** The lemma layer between C's 64-bit operations and arithmetic.

Words are naturals. Everything is defined bit by bit, so that proofs stay linear: High and
Up are the right and the unbounded left shift, Low keeps the low bits, and And, Or and Xor
are the bitwise operators. The lemmas say how they fit together and when an "or" is a sum. */
module Bits {
  const WORD: nat := 0x1_0000_0000_0000_0000

  /** An unsigned 64-bit word. */
  type Word = x: nat | x < WORD

  function Pow2(n: nat): (p: nat)
    ensures p > 0
  {
    if n == 0 then 1 else 2 * Pow2(n - 1)
  }

  /** x without its n low bits. */
  function High(x: nat, n: nat): nat
    decreases n
  {
    if n == 0 then x else High(x / 2, n - 1)
  }

  /** The n low bits of x. */
  function Low(x: nat, n: nat): nat
    decreases n
  {
    if n == 0 then 0 else x % 2 + 2 * Low(x / 2, n - 1)
  }

  /** x followed by n zero bits. */
  function Up(x: nat, n: nat): nat
    decreases n
  {
    if n == 0 then x else 2 * Up(x, n - 1)
  }

  function And(x: nat, y: nat): nat
    decreases x
  {
    if x == 0 then 0
    else (if x % 2 == 1 && y % 2 == 1 then 1 else 0) + 2 * And(x / 2, y / 2)
  }

  function Or(x: nat, y: nat): nat
    decreases x
  {
    if x == 0 then y
    else (if x % 2 == 1 || y % 2 == 1 then 1 else 0) + 2 * Or(x / 2, y / 2)
  }

  function Xor(x: nat, y: nat): nat
    decreases x
  {
    if x == 0 then y
    else (if x % 2 == y % 2 then 0 else 1) + 2 * Xor(x / 2, y / 2)
  }

  /** C's left shift of a 64-bit word: what leaves the word is dropped. */
  function Shl(x: nat, n: nat): Word
    requires n < 64
  {
    Up(x, n) % WORD
  }

  /** C's right shift of a 64-bit word. */
  function Shr(x: nat, n: nat): nat
    requires n < 64
  {
    High(x, n)
  }

  /** The lowest w bits of x, taken with the mask of w ones. */
  function Mask(w: nat, x: nat): (r: nat)
    ensures r == Low(x, w) < Pow2(w)
  {
    AndOnes(x, w);
    HighLow(x, w);
    And(x, Pow2(w) - 1)
  }

  // ---------- powers of two ----------

  lemma {:induction false} Pow2Monotone(a: nat, b: nat)
    requires a <= b
    ensures Pow2(a) <= Pow2(b)
    ensures a < b ==> 2 * Pow2(a) <= Pow2(b)
  {
    if a == b {
    } else {
      Pow2Monotone(a, b - 1);
    }
  }

  lemma Pow2Small()
    ensures Pow2(1) == 2 && Pow2(2) == 4 && Pow2(3) == 8 && Pow2(4) == 16 && Pow2(5) == 32
    ensures Pow2(8) == 256 && Pow2(9) == 512 && Pow2(10) == 1024
  {
    assert Pow2(5) == 32;
  }

  lemma TenBits()
    ensures Pow2(10) == 1024
  {
    Pow2Small();
  }

  lemma EightTimes(n: nat)
    ensures Pow2(n + 3) == 8 * Pow2(n)
  {
    assert Pow2(n + 2) == 4 * Pow2(n);
  }

  lemma Pow2Plus8(n: nat)
    ensures Pow2(n + 8) == 256 * Pow2(n)
  {
    assert Pow2(n + 2) == 4 * Pow2(n);
    assert Pow2(n + 4) == 4 * Pow2(n + 2);
    assert Pow2(n + 6) == 4 * Pow2(n + 4);
    assert Pow2(n + 8) == 4 * Pow2(n + 6);
  }

  lemma Pow2Word()
    ensures Pow2(64) == WORD
  {
    Pow2Small();
    Pow2Plus8(8);
    Pow2Plus8(16);
    Pow2Plus8(24);
    Pow2Plus8(32);
    Pow2Plus8(40);
    Pow2Plus8(48);
    Pow2Plus8(56);
  }

  // ---------- shifts ----------

  /** A word is its high part followed by its low part. */
  lemma {:induction false} HighLow(x: nat, n: nat)
    ensures x == Up(High(x, n), n) + Low(x, n) && Low(x, n) < Pow2(n)
    decreases n
  {
    if n == 0 {
    } else {
      HighLow(x / 2, n - 1);
    }
  }

  /** Putting hi above an n-bit lo gives a word that splits back into them. */
  lemma {:induction false} JoinParts(hi: nat, lo: nat, n: nat)
    requires lo < Pow2(n)
    ensures High(Up(hi, n) + lo, n) == hi && Low(Up(hi, n) + lo, n) == lo
    decreases n
  {
    if n == 0 {
    } else {
      assert (Up(hi, n) + lo) / 2 == Up(hi, n - 1) + lo / 2;
      JoinParts(hi, lo / 2, n - 1);
    }
  }

  lemma {:induction false} JoinBound(hi: nat, lo: nat, a: nat, b: nat)
    requires hi < Pow2(a) && lo < Pow2(b)
    ensures Up(hi, b) + lo < Pow2(a + b)
    decreases b
  {
    if b == 0 {
    } else {
      JoinBound(hi, lo / 2, a, b - 1);
    }
  }

  lemma {:induction false} HighBound(x: nat, a: nat, b: nat)
    requires x < Pow2(a + b)
    ensures High(x, b) < Pow2(a)
    decreases b
  {
    if b == 0 {
    } else {
      HighBound(x / 2, a, b - 1);
    }
  }

  lemma {:induction false} HighHigh(x: nat, a: nat, b: nat)
    ensures High(High(x, a), b) == High(x, a + b)
    decreases a
  {
    if a == 0 {
    } else {
      HighHigh(x / 2, a - 1, b);
    }
  }

  lemma {:induction false} UpUp(x: nat, a: nat, b: nat)
    ensures Up(Up(x, a), b) == Up(x, a + b)
    decreases b
  {
    if b == 0 {
    } else {
      UpUp(x, a, b - 1);
    }
  }

  lemma {:induction false} UpSum(x: nat, y: nat, n: nat)
    ensures Up(x + y, n) == Up(x, n) + Up(y, n)
    decreases n
  {
    if n == 0 {
    } else {
      UpSum(x, y, n - 1);
    }
  }

  lemma {:induction false} UpInjective(x: nat, y: nat, n: nat)
    ensures Up(x, n) == Up(y, n) <==> x == y
    decreases n
  {
    if n == 0 {
    } else {
      UpInjective(x, y, n - 1);
    }
  }

  lemma {:induction false} Pow2IsUp(n: nat)
    ensures Pow2(n) == Up(1, n)
    decreases n
  {
    if n == 0 {
    } else {
      Pow2IsUp(n - 1);
    }
  }

  lemma {:induction false} UpMonotone(x: nat, y: nat, n: nat)
    requires x <= y
    ensures Up(x, n) <= Up(y, n)
    decreases n
  {
    if n == 0 {
    } else {
      UpMonotone(x, y, n - 1);
    }
  }

  lemma {:induction false} UpPositive(x: nat, n: nat)
    requires x > 0
    ensures Up(x, n) > 0
    decreases n
  {
    if n == 0 {
    } else {
      UpPositive(x, n - 1);
    }
  }

  lemma {:induction false} LowOfSmall(x: nat, n: nat)
    requires x < Pow2(n)
    ensures Low(x, n) == x && High(x, n) == 0
    decreases n
  {
    if n == 0 {
    } else {
      LowOfSmall(x / 2, n - 1);
    }
  }

  /** A left shift is plain when the result fits in 64 bits. */
  lemma ShlFits(x: nat, w: nat, n: nat)
    requires x < Pow2(w) && w + n <= 64 && n < 64
    ensures Shl(x, n) == Up(x, n)
  {
    JoinBound(x, 0, w, n);
    Pow2Monotone(w + n, 64);
    Pow2Word();
  }

  // ---------- what the shifts are, in the usual arithmetic ----------

  lemma {:induction false} ShiftsAreArithmetic(x: nat, n: nat)
    ensures Up(x, n) == x * Pow2(n)
    ensures High(x, n) == x / Pow2(n) && Low(x, n) == x % Pow2(n)
  {
    HighLow(x, n);
    UpIsProduct(x, n);
    UpIsProduct(High(x, n), n);
    Quotient(x, Pow2(n), High(x, n), Low(x, n));
  }

  lemma {:induction false} UpIsProduct(x: nat, n: nat)
    ensures Up(x, n) == x * Pow2(n)
    decreases n
  {
    if n == 0 {
    } else {
      UpIsProduct(x, n - 1);
      assert x * Pow2(n) == 2 * (x * Pow2(n - 1));
    }
  }

  /** A quotient and a remainder are determined by the division equation. */
  lemma Quotient(x: nat, d: nat, q: nat, r: nat)
    requires d > 0 && x == q * d + r && r < d
    ensures x / d == q && x % d == r
  {
    var q', r' := x / d, x % d;
    DivisionEquation(x, d);
    assert (q - q') * d == r' - r;
    if q > q' {
      AtLeast(q - q', d);
    } else if q < q' {
      AtLeast(q' - q, d);
    }
  }

  lemma DivisionEquation(x: int, d: int)
    requires d > 0
    ensures x == (x / d) * d + x % d && 0 <= x % d < d
  {
  }

  lemma AtLeast(n: int, d: int)
    requires n >= 1 && d > 0
    ensures n * d >= d
  {
  }

  lemma {:induction false} LowOfHigh(z: nat, n: nat, m: nat)
    requires n <= m
    ensures Low(High(z, m - n), n) == High(Low(z, m), m - n)
    decreases m - n
  {
    if n == m {
    } else {
      LowOfHigh(z / 2, n, m - 1);
      assert High(z, m - n) == High(z / 2, m - 1 - n);
      assert Low(z, m) / 2 == Low(z / 2, m - 1);
    }
  }

  // ---------- remainders ----------

  lemma AddMultiple(a: nat, m: nat, p: nat)
    requires p > 0
    ensures (a + m * p) % p == a % p
  {
    DivisionEquation(a, p);
    Distribute(a / p, m, p);
    Quotient(a + m * p, p, a / p + m, a % p);
  }

  lemma Distribute(a: nat, b: nat, c: nat)
    ensures (a + b) * c == a * c + b * c && c * (a + b) == c * a + c * b
  {
  }

  lemma Associate(a: nat, b: nat, c: nat)
    ensures a * b * c == a * (b * c)
  {
  }

  lemma ProductParts(x: nat, k: nat, p: nat)
    requires p > 0
    ensures x * k == x * (k % p) + x * (k / p) * p
  {
    DivisionEquation(k, p);
    Distribute(k / p * p, k % p, x);
    Associate(x, k / p, p);
  }

  lemma SumOfMultiples(a: nat, m: nat, b: nat, n: nat, p: nat)
    requires p > 0
    ensures ((a + m * p) + (b + n * p)) % p == (a + b) % p
  {
    Distribute(m, n, p);
    AddMultiple(a + b, m + n, p);
  }

  lemma SameRemainder(x: nat, a: nat, m: nat, y: nat, b: nat, n: nat, p: nat)
    requires p > 0 && x == a + m * p && y == n * p + b
    ensures (a + b) % p == (x + y) % p
  {
    SumOfMultiples(a, m, b, n, p);
  }

  /** Reducing the factor and the summand first makes no difference. */
  lemma ReduceFirst(x: nat, k: nat, l: nat, p: nat)
    requires p > 0
    ensures (x * (k % p) + l % p) % p == (x * k + l) % p
  {
    ProductParts(x, k, p);
    DivisionEquation(l, p);
    SameRemainder(x * k, x * (k % p), x * (k / p), l, l % p, l / p, p);
  }

  /** Cutting a number down to 64 bits keeps its remainders by smaller powers of two. */
  lemma WordRemainder(y: nat, n: nat)
    requires n <= 64
    ensures (y % WORD) % Pow2(n) == y % Pow2(n)
  {
    hide Pow2, Up;
    Pow2Word();
    Pow2IsUp(64);
    Pow2IsUp(64 - n);
    UpUp(1, 64 - n, n);
    UpIsProduct(Pow2(64 - n), n);
    assert WORD == Pow2(64 - n) * Pow2(n);
    DivisionEquation(y, WORD);
    Associate(y / WORD, Pow2(64 - n), Pow2(n));
    AddMultiple(y % WORD, y / WORD * Pow2(64 - n), Pow2(n));
  }

  // ---------- bitwise operators ----------

  lemma AndHalves(x: nat, y: nat)
    ensures And(x, y) == (if x % 2 == 1 && y % 2 == 1 then 1 else 0) + 2 * And(x / 2, y / 2)
  {
    if x == 0 {
      assert And(x / 2, y / 2) == 0;
    }
  }

  lemma OnesHalf(p: nat)
    requires p > 0
    ensures (2 * p - 1) % 2 == 1 && (2 * p - 1) / 2 == p - 1
  {
  }

  lemma {:induction false} AndOnes(x: nat, w: nat)
    ensures And(x, Pow2(w) - 1) == Low(x, w)
    decreases w
  {
    hide And;
    if w == 0 {
      AndZero(x);
    } else {
      OnesHalf(Pow2(w - 1));
      AndHalves(x, Pow2(w) - 1);
      AndOnes(x / 2, w - 1);
    }
  }

  lemma {:induction false} AndZero(x: nat)
    ensures And(x, 0) == 0
  {
    if x == 0 {
    } else {
      AndZero(x / 2);
    }
  }

  /** An "or" of a word with n low zero bits and an n-bit word is their sum. */
  lemma {:induction false} OrIsSum(hi: nat, lo: nat, n: nat)
    requires lo < Pow2(n)
    ensures Or(Up(hi, n), lo) == Up(hi, n) + lo
    decreases n
  {
    if n == 0 {
      OrZero(hi);
    } else {
      OrIsSum(hi, lo / 2, n - 1);
    }
  }

  /** What is shifted up by n and an n-bit word have no bit in common. */
  lemma {:induction false} AndDisjoint(hi: nat, lo: nat, n: nat)
    requires lo < Pow2(n)
    ensures And(Up(hi, n), lo) == 0
    decreases n
  {
    if n == 0 {
      AndZero(hi);
    } else {
      AndDisjoint(hi, lo / 2, n - 1);
      assert Up(hi, n) / 2 == Up(hi, n - 1);
    }
  }

  lemma {:induction false} OrZero(x: nat)
    ensures Or(x, 0) == x
  {
    if x == 0 {
    } else {
      OrZero(x / 2);
    }
  }

  /** Xor is its own inverse. */
  lemma {:induction false} XorCancels(x: nat, y: nat)
    ensures Xor(Xor(x, y), y) == x
    decreases x + y
  {
    if x == 0 {
      XorSelf(y);
    } else if y == 0 {
      XorZero(x);
    } else {
      XorCancels(x / 2, y / 2);
      var z := Xor(x, y);
      assert z % 2 == (if x % 2 == y % 2 then 0 else 1) && z / 2 == Xor(x / 2, y / 2);
      if z == 0 {
        assert Xor(0, y / 2) == y / 2;
      }
    }
  }

  lemma XorHalves(x: nat, y: nat)
    ensures Xor(x, y) == (if x % 2 == y % 2 then 0 else 1) + 2 * Xor(x / 2, y / 2)
    ensures Xor(x, y) / 2 == Xor(x / 2, y / 2)
    ensures Xor(x, y) % 2 == (if x % 2 == y % 2 then 0 else 1)
  {
    if x == 0 {
      assert Xor(x / 2, y / 2) == y / 2;
    }
  }

  lemma {:induction false} XorSelf(x: nat)
    ensures Xor(x, x) == 0
  {
    if x == 0 {
    } else {
      XorSelf(x / 2);
    }
  }

  lemma {:induction false} XorZero(x: nat)
    ensures Xor(x, 0) == x
  {
    if x == 0 {
    } else {
      XorZero(x / 2);
    }
  }

  /** Two words differ only in their n low bits iff their high parts agree. */
  lemma {:induction false} XorHighAgree(x: nat, y: nat, n: nat)
    ensures Xor(x, y) < Pow2(n) <==> High(x, n) == High(y, n)
    decreases n
  {
    if n == 0 {
      XorZeroIff(x, y);
    } else {
      XorHighAgree(x / 2, y / 2, n - 1);
      assert Xor(x, y) / 2 == Xor(x / 2, y / 2);
    }
  }

  lemma {:induction false} XorZeroIff(x: nat, y: nat)
    ensures Xor(x, y) == 0 <==> x == y
    decreases x + y
  {
    if x == 0 {
    } else {
      XorZeroIff(x / 2, y / 2);
    }
  }

  lemma XorBound(x: nat, y: nat, n: nat)
    requires x < Pow2(n) && y < Pow2(n)
    ensures Xor(x, y) < Pow2(n)
  {
    XorHighAgree(x, y, n);
    LowOfSmall(x, n);
    LowOfSmall(y, n);
  }

  lemma {:induction false} AndSelf(x: nat)
    ensures And(x, x) == x
  {
    if x == 0 {
    } else {
      AndSelf(x / 2);
    }
  }

  /** Subtracting one and masking removes the lowest set bit. */
  lemma {:induction false} AndDropsMarker(v: nat, c: nat)
    ensures Up(2 * v + 1, c) > 0
    ensures And(Up(2 * v + 1, c), Up(2 * v + 1, c) - 1) == Up(v, c + 1)
    decreases c
  {
    hide And;
    if c == 0 {
      AndSelf(v);
      AndHalves(2 * v + 1, 2 * v);
      assert Up(v, 1) == 2 * Up(v, 0);
    } else {
      var x := Up(2 * v + 1, c - 1);
      AndDropsMarker(v, c - 1);
      OnesHalf(x);
      AndHalves(2 * x, 2 * x - 1);
    }
  }

  lemma {:induction false} LowOfJoin(hi: nat, lo: nat, n: nat, m: nat)
    requires m <= n
    ensures Low(Up(hi, n) + lo, m) == Low(lo, m)
    decreases m
  {
    if m == 0 {
    } else {
      assert (Up(hi, n) + lo) / 2 == Up(hi, n - 1) + lo / 2;
      LowOfJoin(hi, lo / 2, n - 1, m - 1);
    }
  }
}
