/** The search for a ten-bit value in four lanes of a word at once:
c/include/filter/taffy-cuckoo.h, lines 247-252. */
module Swar {
  import opened Bits

  const ONES: nat := 0x40100401
  const TOPS: nat := 0x8020080200

  function HasZero(x: Word): nat {
    And(And((x + WORD - ONES) % WORD, WORD - 1 - x), TOPS)
  }

  function HasValue(x: Word, n: nat): nat
    requires x < 0x100_0000_0000 && n < 1024
  {
    HasZeroFits(x, ONES * n);
    HasZero(Xor(x, ONES * n))
  }

  lemma HasZeroFits(x: nat, y: nat)
    requires x < 0x100_0000_0000 && y < 0x100_0000_0000
    ensures Xor(x, y) < 0x100_0000_0000
  {
    Pow2Forty();
    XorBound(x, y, 40);
  }

  lemma Pow2Forty()
    ensures Pow2(40) == 0x100_0000_0000
  {
    Pow2Small();
    Pow2Plus8(8);
    Pow2Plus8(16);
    Pow2Plus8(24);
    Pow2Plus8(32);
  }

  /** The i-th ten-bit lane. */
  function Lane(z: nat, i: nat): nat
    decreases i
  {
    if i == 0 then z % 1024 else Lane(z / 1024, i - 1)
  }

  /** n in each of the first k lanes. */
  function Spread(n: nat, k: nat): nat
    decreases k
  {
    if k == 0 then 0 else n + 1024 * Spread(n, k - 1)
  }

  // ---------- bitwise operators lane by lane ----------

  lemma {:induction false} AndJoin(ah: nat, al: nat, bh: nat, bl: nat, n: nat)
    requires al < Pow2(n) && bl < Pow2(n)
    ensures And(Up(ah, n) + al, Up(bh, n) + bl) == Up(And(ah, bh), n) + And(al, bl)
    decreases n
  {
    hide And;
    if n == 0 {
      assert al == 0 && bl == 0;
      AndZero(0);
    } else {
      AndJoin(ah, al / 2, bh, bl / 2, n - 1);
      AndHalves(Up(ah, n) + al, Up(bh, n) + bl);
      AndHalves(al, bl);
      assert (Up(ah, n) + al) / 2 == Up(ah, n - 1) + al / 2 && (Up(bh, n) + bl) / 2 == Up(bh, n - 1) + bl / 2;
    }
  }

  lemma {:induction false} XorJoin(ah: nat, al: nat, bh: nat, bl: nat, n: nat)
    requires al < Pow2(n) && bl < Pow2(n)
    ensures Xor(Up(ah, n) + al, Up(bh, n) + bl) == Up(Xor(ah, bh), n) + Xor(al, bl)
    decreases n
  {
    hide Xor;
    if n == 0 {
      assert al == 0 && bl == 0;
      XorZeroIff(0, 0);
    } else {
      XorJoin(ah, al / 2, bh, bl / 2, n - 1);
      XorHalves(Up(ah, n) + al, Up(bh, n) + bl);
      XorHalves(al, bl);
      assert (Up(ah, n) + al) / 2 == Up(ah, n - 1) + al / 2 && (Up(bh, n) + bl) / 2 == Up(bh, n - 1) + bl / 2;
    }
  }

  lemma Up10(x: nat, n: nat)
    requires n == 10
    ensures Up(x, n) == 1024 * x && Pow2(n) == 1024
  {
    Pow2Small();
    UpIsProduct(x, n);
  }

  /** Operators on a word's first lane and the rest of it. */
  lemma LaneAnd(ah: nat, al: nat, bh: nat, bl: nat)
    requires al < 1024 && bl < 1024
    ensures And(1024 * ah + al, 1024 * bh + bl) == 1024 * And(ah, bh) + And(al, bl)
    ensures And(al, bl) < 1024
  {
    hide And, Up, Pow2;
    TenBits();
    Up10(ah, 10);
    Up10(bh, 10);
    Up10(And(ah, bh), 10);
    AndJoin(ah, al, bh, bl, 10);
    AndBound(al, bl, 10);
  }

  lemma {:induction false} AndBound(x: nat, y: nat, n: nat)
    requires x < Pow2(n)
    ensures And(x, y) < Pow2(n)
    decreases n
  {
    if n == 0 {
    } else {
      AndBound(x / 2, y / 2, n - 1);
      AndHalves(x, y);
    }
  }

  lemma LaneXor(ah: nat, al: nat, bh: nat, bl: nat)
    requires al < 1024 && bl < 1024
    ensures Xor(1024 * ah + al, 1024 * bh + bl) == 1024 * Xor(ah, bh) + Xor(al, bl)
    ensures Xor(al, bl) < 1024
  {
    hide Xor, Up, Pow2;
    TenBits();
    Up10(ah, 10);
    Up10(bh, 10);
    Up10(Xor(ah, bh), 10);
    XorJoin(ah, al, bh, bl, 10);
    XorBound(al, bl, 10);
  }

  /** Whether the top bit of two lanes is set. */
  lemma TopBits(d: nat, e: nat)
    requires d < 1024 && e < 1024
    ensures And(And(d, e), 512) != 0 <==> d >= 512 && e >= 512
  {
    hide And, Up, Pow2;
    var dh, dl := d / 512, d % 512;
    var eh, el := e / 512, e % 512;
    Up9(dh, 9);
    Up9(eh, 9);
    Up9(And(dh, eh), 9);
    Up9(1, 9);
    Up9(And(And(dh, eh), 1), 9);
    AndJoin(dh, dl, eh, el, 9);
    AndBound(dl, el, 9);
    AndJoin(And(dh, eh), And(dl, el), 1, 0, 9);
    AndZero(And(dl, el));
    OneBitAnd(dh, eh);
  }

  lemma Up9(x: nat, n: nat)
    requires n == 9
    ensures Up(x, n) == 512 * x && Pow2(n) == 512
  {
    Pow2Small();
    UpIsProduct(x, n);
  }

  lemma OneBitAnd(a: nat, b: nat)
    requires a < 2 && b < 2
    ensures And(And(a, b), 1) == 1 <==> a == 1 && b == 1
    ensures And(And(a, b), 1) <= 1
  {
  }

  // ---------- borrows crossing lanes ----------

  /** The flags of k lanes of a w-bit word, when the lane below borrows b. */
  function Flags(x: nat, b: nat, k: nat, w: nat): nat
    requires x < Pow2(w) && Spread(1, k) + b <= Pow2(w)
  {
    And(And((x + Pow2(w) - Spread(1, k) - b) % Pow2(w), Pow2(w) - 1 - x), Spread(512, k))
  }

  /** Whether there are flags: a first lane of 0 is flagged, and one of 1 if b is borrowed
  from it; without such a lane nothing is borrowed from the next one. */
  predicate Flagged(x: nat, b: nat, k: nat)
    decreases k
  {
    k > 0 && (x % 1024 < 1 + b || Flagged(x / 1024, 0, k - 1))
  }

  /** One of the first k lanes of z is n. */
  ghost predicate SomeLane(z: nat, n: nat, k: nat) {
    exists i: nat :: i < k && Lane(z, i) == n
  }

  lemma SomeLaneStep(z: nat, n: nat, k: nat)
    requires k > 0
    ensures SomeLane(z, n, k) <==> z % 1024 == n || SomeLane(z / 1024, n, k - 1)
  {
    if SomeLane(z, n, k) {
      var i: nat :| i < k && Lane(z, i) == n;
      if i > 0 {
        assert Lane(z / 1024, i - 1) == n;
      }
    }
    if z % 1024 == n {
      assert Lane(z, 0) == n;
    }
    if SomeLane(z / 1024, n, k - 1) {
      var i: nat :| i < k - 1 && Lane(z / 1024, i) == n;
      assert Lane(z, i + 1) == n;
    }
  }

  /** Without a borrow into the first lane, some lane is flagged iff some lane is 0. */
  lemma {:induction false} FlaggedIsZero(x: nat, k: nat)
    ensures Flagged(x, 0, k) <==> SomeLane(x, 0, k)
    decreases k
  {
    if k == 0 {
    } else {
      SomeLaneStep(x, 0, k);
      FlaggedIsZero(x / 1024, k - 1);
    }
  }

  lemma Pow2Plus10(w: nat)
    ensures Pow2(w + 10) == 1024 * Pow2(w)
  {
    Pow2Plus8(w + 2);
    assert Pow2(w + 2) == 4 * Pow2(w);
  }

  /** Subtraction in a word, split at the first lane. */
  lemma LaneSubtract(x: nat, b: nat, ones: nat, p: nat)
    requires b <= 1 && x < 1024 * p && 1 + 1024 * ones + b <= 1024 * p && ones + 1 <= p
    ensures var b' := if x % 1024 < 1 + b then 1 else 0;
            var d := if x % 1024 < 1 + b then x % 1024 + 1024 - 1 - b else x % 1024 - 1 - b;
            (x + 1024 * p - 1 - 1024 * ones - b) % (1024 * p) == 1024 * ((x / 1024 + p - ones - b') % p) + d
  {
    var b' := if x % 1024 < 1 + b then 1 else 0;
    var d := if x % 1024 < 1 + b then x % 1024 + 1024 - 1 - b else x % 1024 - 1 - b;
    var y := x / 1024 + p - ones - b';
    var z := x + 1024 * p - 1 - 1024 * ones - b;
    assert z == 1024 * y + d;
    assert y < 2 * p;
    SmallMod(y, p);
    SmallMod(z, 1024 * p);
  }

  lemma SmallMod(y: nat, p: nat)
    requires p > 0 && y < 2 * p
    ensures y % p == if y < p then y else y - p
  {
    if y < p {
      Quotient(y, p, 0, y);
    } else {
      Quotient(y, p, 1, y - p);
    }
  }

  lemma {:induction false} SpreadFits(k: nat, w: nat)
    requires 10 * k <= w
    ensures Spread(1, k) + 1 <= Pow2(w)
    decreases k
  {
    if k == 0 {
    } else {
      SpreadFits(k - 1, w - 10);
      Pow2Plus10(w - 10);
    }
  }

  lemma LaneOfWord(x: nat, p: nat)
    requires x < 1024 * p
    ensures x == 1024 * (x / 1024) + x % 1024 && x % 1024 < 1024 && x / 1024 < p
  {
  }

  /** A lane's top bit appears in the difference, and is not in the lane, iff it borrows. */
  lemma BorrowFlag(x0: nat, b: nat, d: nat)
    requires x0 < 1024 && b <= 1 && d == if x0 < 1 + b then x0 + 1024 - 1 - b else x0 - 1 - b
    ensures d < 1024 && (d >= 512 && x0 < 512 <==> x0 < 1 + b)
  {
  }

  /** The difference of a word's first lane and of its other lanes. */
  lemma Difference(x: nat, b: nat, k: nat, w: nat, p: nat, b': nat, d: nat)
    requires k > 0 && w >= 10 && p == Pow2(w - 10) && x < Pow2(w) && b <= 1
    requires Spread(1, k) + b <= Pow2(w) && Spread(1, k - 1) + 1 <= p
    requires b' == if x % 1024 < 1 + b then 1 else 0
    requires d == if x % 1024 < 1 + b then x % 1024 + 1024 - 1 - b else x % 1024 - 1 - b
    ensures Pow2(w) == 1024 * p && x / 1024 < p
    ensures (x + Pow2(w) - Spread(1, k) - b) % Pow2(w) == 1024 * ((x / 1024 + p - Spread(1, k - 1) - b') % p) + d
  {
    hide Pow2;
    Pow2Plus10(w - 10);
    LaneOfWord(x, p);
    LaneSubtract(x, b, Spread(1, k - 1), p);
  }

  /** The flags of the first lane and those of the others. */
  lemma FlagsSplit(x: nat, b: nat, b': nat, k: nat, w: nat)
    requires k > 0 && 10 * k <= w && x < Pow2(w) && b <= 1
    requires Spread(1, k) + b <= Pow2(w) && Spread(1, k - 1) + 1 <= Pow2(w - 10)
    requires b' == if x % 1024 < 1 + b then 1 else 0
    ensures x / 1024 < Pow2(w - 10)
    ensures Flags(x, b, k, w) != 0 <==> x % 1024 < 1 + b || Flags(x / 1024, b', k - 1, w - 10) != 0
  {
    hide And, Pow2, Spread, Flags;
    var p := Pow2(w - 10);
    var d := if x % 1024 < 1 + b then x % 1024 + 1024 - 1 - b else x % 1024 - 1 - b;
    Pow2Plus10(w - 10);
    LaneOfWord(x, p);
    var y := FlagsAtLane(x / 1024, x % 1024, b, b', k, w, p, d);
    BorrowFlag(x % 1024, b, d);
    FlagStep(x % 1024, x / 1024, d, y, p, k);
  }

  /** The first lane's difference is d, and that of the lanes above it is y. */
  lemma FlagsAtLane(x': nat, x0: nat, b: nat, b': nat, k: nat, w: nat, p: nat, d: nat) returns (y: nat)
    requires k > 0 && w >= 10 && x0 < 1024 && x' < p && b <= 1 && p == Pow2(w - 10) && Pow2(w) == 1024 * p
    requires Spread(1, k) + b <= Pow2(w) && Spread(1, k - 1) + 1 <= p
    requires b' == if x0 < 1 + b then 1 else 0
    requires d == if x0 < 1 + b then x0 + 1024 - 1 - b else x0 - 1 - b
    ensures Flags(1024 * x' + x0, b, k, w) == And(And(1024 * y + d, 1024 * p - 1 - (1024 * x' + x0)), Spread(512, k))
    ensures Flags(x', b', k - 1, w - 10) == And(And(y, p - 1 - x'), Spread(512, k - 1))
  {
    hide And, Pow2, Spread;
    LaneParts(x', x0);
    Difference(1024 * x' + x0, b, k, w, p, b', d);
    y := (x' + p - Spread(1, k - 1) - b') % p;
  }

  lemma {:induction false} FlagsAreFlagged(x: nat, b: nat, k: nat, w: nat)
    requires 10 * k <= w && x < Pow2(w) && b <= 1
    ensures Spread(1, k) + b <= Pow2(w)
    ensures Flags(x, b, k, w) != 0 <==> Flagged(x, b, k)
    decreases k
  {
    hide And, Pow2;
    SpreadFits(k, w);
    if k == 0 {
      AndZero(And((x + Pow2(w) - Spread(1, k) - b) % Pow2(w), Pow2(w) - 1 - x));
    } else {
      hide Flags;
      SpreadFits(k - 1, w - 10);
      var b' := if x % 1024 < 1 + b then 1 else 0;
      FlagsSplit(x, b, b', k, w);
      FlagsAreFlagged(x / 1024, b', k - 1, w - 10);
    }
  }

  lemma FlagStep(x0: nat, x': nat, d: nat, y: nat, p: nat, k: nat)
    requires x0 < 1024 && d < 1024 && x' < p && k > 0
    ensures And(And(1024 * y + d, 1024 * p - 1 - (1024 * x' + x0)), Spread(512, k)) != 0 <==>
            (d >= 512 && x0 < 512) || And(And(y, p - 1 - x'), Spread(512, k - 1)) != 0
  {
    hide And;
    assert 1024 * p - 1 - (1024 * x' + x0) == 1024 * (p - 1 - x') + (1023 - x0);
    LaneAnd(y, d, p - 1 - x', 1023 - x0);
    LaneAnd(And(y, p - 1 - x'), And(d, 1023 - x0), Spread(512, k - 1), 512);
    TopBits(d, 1023 - x0);
  }

  // ---------- the search ----------

  lemma {:induction false} XorLanes(z: nat, n: nat, k: nat, i: nat)
    requires n < 1024 && i < k
    ensures Lane(Xor(z, Spread(n, k)), i) == Xor(Lane(z, i), n)
    decreases k
  {
    hide Xor;
    LaneXor(z / 1024, z % 1024, Spread(n, k - 1), n);
    assert z == 1024 * (z / 1024) + z % 1024;
    LaneOf(Xor(z / 1024, Spread(n, k - 1)), Xor(z % 1024, n), i);
    if i == 0 {
    } else {
      XorLanes(z / 1024, n, k - 1, i - 1);
    }
  }

  lemma LaneOf(h: nat, l: nat, i: nat)
    requires l < 1024
    ensures Lane(1024 * h + l, i) == if i == 0 then l else Lane(h, i - 1)
  {
    assert (1024 * h + l) / 1024 == h && (1024 * h + l) % 1024 == l;
  }

  lemma Constants(n: nat)
    ensures Spread(1, 4) == ONES && Spread(512, 4) == TOPS && Spread(n, 4) == ONES * n
  {
    assert Spread(n, 2) == 1025 * n;
    assert Spread(n, 3) == n + 1024 * Spread(n, 2);
  }

  /** The search for a zero lane is exact, borrows crossing lanes notwithstanding. */
  lemma HasZeroExact(x: Word)
    ensures HasZero(x) != 0 <==> SomeLane(x, 0, 4)
  {
    hide And, Lane;
    Pow2Word();
    Constants(0);
    FlagsAreFlagged(x, 0, 4, 64);
    FlaggedIsZero(x, 4);
  }

  /** The search for a value answers exactly whether one of the four lanes holds it. */
  lemma HasValueExact(z: Word, n: nat)
    requires z < 0x100_0000_0000 && n < 1024
    ensures HasValue(z, n) != 0 <==> SomeLane(z, n, 4)
  {
    hide Lane, HasZero, Xor;
    HasZeroFits(z, ONES * n);
    Constants(n);
    HasZeroExact(Xor(z, ONES * n));
    XorSomeLane(z, n, 4);
  }

  lemma XorSomeLane(z: nat, n: nat, k: nat)
    requires n < 1024
    ensures SomeLane(Xor(z, Spread(n, k)), 0, k) <==> SomeLane(z, n, k)
  {
    hide Lane, Xor;
    var x := Xor(z, Spread(n, k));
    forall i: nat | i < k
      ensures Lane(x, i) == 0 <==> Lane(z, i) == n
    {
      XorLanes(z, n, k, i);
      XorZeroIff(Lane(z, i), n);
    }
    if SomeLane(x, 0, k) {
      var i: nat :| i < k && Lane(x, i) == 0;
      assert Lane(z, i) == n;
    }
    if SomeLane(z, n, k) {
      var i: nat :| i < k && Lane(z, i) == n;
      assert Lane(x, i) == 0;
    }
  }

  /** The packed bucket of the frozen filter: four fields of ten bits, the first one lowest. */
  function BucketWord(zero: nat, one: nat, two: nat, three: nat): nat {
    zero + 1024 * (one + 1024 * (two + 1024 * three))
  }

  /** Searching the packed bucket is searching its four fields. */
  lemma BucketSearch(zero: nat, one: nat, two: nat, three: nat, n: nat)
    requires zero < 1024 && one < 1024 && two < 1024 && three < 1024 && n < 1024
    ensures var z := BucketWord(zero, one, two, three);
            z < 0x100_0000_0000 && (HasValue(z, n) != 0 <==> n == zero || n == one || n == two || n == three)
  {
    hide HasValue, Lane, SomeLane;
    var z := BucketWord(zero, one, two, three);
    HasValueExact(z, n);
    SomeLaneStep(z, n, 4);
    LaneParts(one + 1024 * (two + 1024 * three), zero);
    SomeLaneStep(z / 1024, n, 3);
    LaneParts(two + 1024 * three, one);
    SomeLaneStep(z / 1024 / 1024, n, 2);
    LaneParts(three, two);
    SomeLaneStep(three, n, 1);
    LaneParts(0, three);
    NoLane(three / 1024, n);
  }

  lemma NoLane(z: nat, n: nat)
    ensures !SomeLane(z, n, 0)
  {
  }

  lemma LaneParts(h: nat, l: nat)
    requires l < 1024
    ensures (l + 1024 * h) / 1024 == h && (l + 1024 * h) % 1024 == l
  {
  }
}
