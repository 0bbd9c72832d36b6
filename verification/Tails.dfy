/** Marker-encoded bit sequences: c/include/filter/util.h, lines 138-224.

A non-zero word stands for the bits above its lowest set bit, which only marks where the
sequence ends. */
module Tails {
  import opened Bits

  /** The number of trailing zero bits. */
  function Ctz(x: nat): nat
    requires x > 0
  {
    if x % 2 == 1 then 0 else 1 + Ctz(x / 2)
  }

  /** The position after the highest set bit; the leading zeros are 32 minus it. */
  function BitLength(x: nat): nat {
    if x == 0 then 0 else 1 + BitLength(x / 2)
  }

  /** The prefix test, on 16-bit words. */
  predicate IsPrefixOf(x: nat, y: nat)
    requires 0 < x && 0 < y
  {
    var a := Xor(x, y);
    var c := Ctz(x);
    var h := Ctz(y);
    var i := 32 - BitLength(a);
    c >= h && i >= 31 - c
  }

  /** Joins two sequences that differ in their last bit only; 0 when they do not. */
  function TailPair(x: nat, y: nat): nat
    requires 0 < x && 0 < y && x != y
  {
    XorZeroIff(x, y);
    var xy := Xor(x, y);
    var low := Ctz(xy);
    var high := 32 - BitLength(xy);
    if low + high == 31 && Ctz(x) == Ctz(y) && Ctz(x) + 1 == low then (x + y) / 2 else 0
  }

  /** The n bits of v, highest first. */
  function BitsOf(v: nat, n: nat): (s: seq<bool>)
    ensures |s| == n
    decreases n
  {
    if n == 0 then [] else BitsOf(v / 2, n - 1) + [v % 2 == 1]
  }

  /** The sequence that a word of n + 1 bits stands for. */
  ghost function Sequence(x: nat, n: nat): (s: seq<bool>)
    requires 0 < x < Pow2(n + 1)
    ensures |s| <= n
    decreases n
  {
    if x % 2 == 1 then BitsOf(x / 2, n) else Sequence(x / 2, n - 1)
  }

  // ---------- the prefix test ----------

  lemma {:induction false} BitLengthBound(x: nat, n: nat)
    ensures BitLength(x) <= n <==> x < Pow2(n)
    decreases n
  {
    if n == 0 || x == 0 {
    } else {
      BitLengthBound(x / 2, n - 1);
    }
  }

  /** The prefix test compares what lies above the marker of x. */
  lemma PrefixTest(x: nat, y: nat)
    requires 0 < x && 0 < y
    ensures IsPrefixOf(x, y) <==>
            Ctz(x) >= Ctz(y) && High(x, Ctz(x) + 1) == High(y, Ctz(x) + 1)
  {
    BitLengthBound(Xor(x, y), Ctz(x) + 1);
    XorHighAgree(x, y, Ctz(x) + 1);
  }

  lemma {:induction false} SequenceBits(x: nat, n: nat)
    requires 0 < x < Pow2(n + 1)
    ensures Ctz(x) <= n && Sequence(x, n) == BitsOf(High(x, Ctz(x) + 1), n - Ctz(x))
    decreases n
  {
    if x % 2 == 1 {
      assert High(x, 1) == High(x / 2, 0);
    } else {
      SequenceBits(x / 2, n - 1);
    }
  }

  lemma {:induction false} BitsPrefix(v: nat, n: nat, k: nat)
    requires k <= n
    ensures BitsOf(v, n)[..k] == BitsOf(High(v, n - k), k)
    decreases n
  {
    if k < n {
      BitsPrefix(v / 2, n - 1, k);
      assert BitsOf(v, n)[..k] == BitsOf(v / 2, n - 1)[..k];
    } else {
      assert BitsOf(v, n)[..k] == BitsOf(v, n);
    }
  }

  lemma {:induction false} BitsInjective(v: nat, w: nat, n: nat)
    requires v < Pow2(n) && w < Pow2(n)
    ensures BitsOf(v, n) == BitsOf(w, n) <==> v == w
    decreases n
  {
    if n == 0 {
    } else {
      var s, t := BitsOf(v, n), BitsOf(w, n);
      BitsInjective(v / 2, w / 2, n - 1);
      if s == t {
        assert s[..n - 1] == BitsOf(v / 2, n - 1) && t[..n - 1] == BitsOf(w / 2, n - 1);
        assert s[n - 1] == (v % 2 == 1) && t[n - 1] == (w % 2 == 1);
      }
    }
  }

  lemma BitsPrefixIff(v: nat, m: nat, w: nat, n: nat)
    requires m <= n && v < Pow2(m) && w < Pow2(n)
    ensures BitsOf(v, m) <= BitsOf(w, n) <==> v == High(w, n - m)
  {
    var s, t := BitsOf(v, m), BitsOf(w, n);
    BitsPrefix(w, n, m);
    HighBound(w, m, n - m);
    BitsInjective(v, High(w, n - m), m);
    assert s <= t <==> s == t[..m];
  }

  lemma BitsNest(x: nat, y: nat, n: nat, c: nat, h: nat)
    requires x < Pow2(n + 1) && y < Pow2(n + 1) && h <= c <= n
    ensures BitsOf(High(x, c + 1), n - c) <= BitsOf(High(y, h + 1), n - h) <==>
            High(x, c + 1) == High(y, c + 1)
  {
    HighBound(x, n - c, c + 1);
    HighBound(y, n - h, h + 1);
    BitsPrefixIff(High(x, c + 1), n - c, High(y, h + 1), n - h);
    HighHigh(y, h + 1, c - h);
  }

  lemma SequencesNest(x: nat, y: nat, n: nat, c: nat, h: nat)
    requires 0 < x < Pow2(n + 1) && 0 < y < Pow2(n + 1) && c == Ctz(x) && h == Ctz(y)
    ensures Sequence(x, n) <= Sequence(y, n) <==>
            c >= h && High(x, c + 1) == High(y, c + 1)
  {
    SequenceBits(x, n);
    SequenceBits(y, n);
    if c >= h {
      BitsNest(x, y, n, c, h);
    }
  }

  /** The word-level test holds iff one encoded sequence is a prefix of the other. */
  lemma PrefixMeaning(x: nat, y: nat, n: nat)
    requires 0 < x < Pow2(n + 1) && 0 < y < Pow2(n + 1)
    ensures IsPrefixOf(x, y) <==> Sequence(x, n) <= Sequence(y, n)
  {
    PrefixTest(x, y);
    SequencesNest(x, y, n, Ctz(x), Ctz(y));
  }

  // ---------- the pair of two tails ----------

  /** A word below its marker: c zero bits after High * 2 + 1. */
  lemma {:induction false} MarkerForm(x: nat)
    requires x > 0
    ensures x == Up(2 * High(x, Ctz(x) + 1) + 1, Ctz(x))
    decreases x
  {
    if x % 2 == 1 {
      assert High(x, 1) == High(x / 2, 0);
    } else {
      MarkerForm(x / 2);
    }
  }

  lemma {:induction false} CtzOfMarked(v: nat, c: nat)
    ensures Up(2 * v + 1, c) > 0 && Ctz(Up(2 * v + 1, c)) == c
    ensures High(Up(2 * v + 1, c), c + 1) == v
    decreases c
  {
    if c > 0 {
      CtzOfMarked(v, c - 1);
    } else {
      assert High(2 * v + 1, 1) == High(v, 0);
    }
  }

  lemma XorOfOdd(v: nat, w: nat)
    ensures Xor(2 * v + 1, 2 * w + 1) == 2 * Xor(v, w)
  {
    assert (2 * v + 1) / 2 == v && (2 * w + 1) / 2 == w;
  }

  lemma XorOfEven(v: nat, w: nat)
    ensures Xor(2 * v, 2 * w) == 2 * Xor(v, w)
  {
    assert 2 * v / 2 == v && 2 * w / 2 == w;
  }

  lemma {:induction false} XorOfMarked(v: nat, w: nat, c: nat)
    ensures Xor(Up(2 * v + 1, c), Up(2 * w + 1, c)) == Up(2 * Xor(v, w), c)
    decreases c
  {
    if c == 0 {
      XorOfOdd(v, w);
    } else {
      XorOfMarked(v, w, c - 1);
      XorOfEven(Up(2 * v + 1, c - 1), Up(2 * w + 1, c - 1));
    }
  }

  lemma {:induction false} OneBitSet(x: nat)
    requires x > 0
    ensures BitLength(x) == Ctz(x) + 1 <==> x == Pow2(Ctz(x))
    ensures BitLength(x) >= Ctz(x) + 1
    decreases x
  {
    if x % 2 == 0 {
      OneBitSet(x / 2);
    } else if x > 1 {
      assert BitLength(x) == 1 + BitLength(x / 2);
    }
  }

  lemma {:induction false} CtzOfUp(x: nat, n: nat)
    requires x > 0
    ensures Up(x, n) > 0 && Ctz(Up(x, n)) == Ctz(x) + n
    decreases n
  {
    if n == 0 {
    } else {
      CtzOfUp(x, n - 1);
    }
  }

  /** Two different bits strings that differ by exactly their lowest bit. */
  lemma XorOneMeansSiblings(v: nat, w: nat)
    ensures Xor(v, w) == 1 <==> v / 2 == w / 2 && v % 2 != w % 2
  {
    XorZeroIff(v / 2, w / 2);
    if v > 0 {
      assert Xor(v, w) / 2 == Xor(v / 2, w / 2);
    }
  }

  ghost predicate Siblings(s: seq<bool>, t: seq<bool>) {
    |s| == |t| > 0 && Stem(s) == Stem(t) && s != t
  }

  ghost function Stem(s: seq<bool>): seq<bool> {
    if s == [] then [] else s[..|s| - 1]
  }

  /** The two conditions of the pair test single out one value of the exclusive or. */
  lemma PairTest(x: nat, y: nat)
    requires 0 < x && 0 < y && x != y && Ctz(x) == Ctz(y)
    ensures TailPair(x, y) != 0 <==> Xor(x, y) == Pow2(Ctz(x) + 1)
    ensures TailPair(x, y) != 0 ==> TailPair(x, y) == (x + y) / 2
  {
    hide Xor, BitLength, Up, Pow2, Ctz;
    XorZeroIff(x, y);
    var z := Xor(x, y);
    OneBitSet(z);
    if z == Pow2(Ctz(x) + 1) {
      CtzOfOne();
      Pow2IsUp(Ctz(x) + 1);
      CtzOfUp(1, Ctz(x) + 1);
    }
  }

  lemma CtzOfOne()
    ensures Ctz(1) == 0
  {
  }

  lemma PairOfMarked(v: nat, w: nat, c: nat)
    ensures Xor(Up(2 * v + 1, c), Up(2 * w + 1, c)) == Pow2(c + 1) <==>
            v / 2 == w / 2 && v % 2 != w % 2
  {
    XorOfMarked(v, w, c);
    Pow2IsUp(c + 1);
    UpUp(1, 1, c);
    UpInjective(2 * Xor(v, w), 2, c);
    XorOneMeansSiblings(v, w);
  }

  lemma HalfSumOfMarked(v: nat, w: nat, c: nat)
    requires v / 2 == w / 2 && v % 2 != w % 2
    ensures (Up(2 * v + 1, c) + Up(2 * w + 1, c)) / 2 == Up(2 * (v / 2) + 1, c + 1)
  {
    UpSum(2 * v + 1, 2 * w + 1, c);
    var u := 2 * (v / 2) + 1;
    assert 2 * v + 1 + (2 * w + 1) == Up(u, 2);
    UpUp(u, 2, c);
    assert Up(u, c + 2) == 2 * Up(u, c + 1);
  }

  lemma SiblingBits(v: nat, w: nat, n: nat)
    requires v < Pow2(n) && w < Pow2(n)
    ensures Siblings(BitsOf(v, n), BitsOf(w, n)) <==> v / 2 == w / 2 && v % 2 != w % 2
  {
    if n > 0 {
      assert Stem(BitsOf(v, n)) == BitsOf(v / 2, n - 1) by { StemOfBits(v, n); }
      assert Stem(BitsOf(w, n)) == BitsOf(w / 2, n - 1) by { StemOfBits(w, n); }
      BitsInjective(v / 2, w / 2, n - 1);
      BitsInjective(v, w, n);
    }
  }

  lemma StemOfBits(v: nat, n: nat)
    requires n > 0
    ensures Stem(BitsOf(v, n)) == BitsOf(v / 2, n - 1)
    ensures BitsOf(v, n)[n - 1] == (v % 2 == 1)
  {
  }

  lemma SequenceOfOdd(v: nat, n: nat)
    requires v < Pow2(n)
    ensures 2 * v + 1 < Pow2(n + 1) && Sequence(2 * v + 1, n) == BitsOf(v, n)
  {
    hide BitsOf;
    assert Pow2(n + 1) == 2 * Pow2(n);
    assert (2 * v + 1) % 2 == 1 && (2 * v + 1) / 2 == v;
  }

  lemma SequenceOfEven(x: nat, n: nat)
    requires n > 0 && 0 < x < Pow2(n)
    ensures 2 * x < Pow2(n + 1) && Sequence(2 * x, n) == Sequence(x, n - 1)
  {
    hide BitsOf;
  }

  /** The sequence of a word given by its marker position and what lies above. */
  lemma {:induction false} SequenceOfMarked(v: nat, c: nat, n: nat)
    requires c <= n && v < Pow2(n - c)
    ensures 0 < Up(2 * v + 1, c) < Pow2(n + 1)
    ensures Sequence(Up(2 * v + 1, c), n) == BitsOf(v, n - c)
    decreases c
  {
    hide Sequence, BitsOf, Pow2;
    if c == 0 {
      SequenceOfOdd(v, n);
    } else {
      SequenceOfMarked(v, c - 1, n - 1);
      SequenceOfEven(Up(2 * v + 1, c - 1), n);
    }
  }

  lemma PairOfForms(v: nat, w: nat, c: nat, x: nat, y: nat)
    requires v != w && x == Up(2 * v + 1, c) && y == Up(2 * w + 1, c) && 0 < x && 0 < y && x != y
    ensures TailPair(x, y) ==
            if v / 2 == w / 2 && v % 2 != w % 2 then Up(2 * (v / 2) + 1, c + 1) else 0
  {
    CtzOfMarked(v, c);
    CtzOfMarked(w, c);
    PairTest(x, y);
    PairOfMarked(v, w, c);
    if v / 2 == w / 2 && v % 2 != w % 2 {
      HalfSumOfMarked(v, w, c);
    }
  }

  lemma PairOfBits(v: nat, w: nat, c: nat, n: nat, x: nat, y: nat)
    requires c <= n && v < Pow2(n - c) && w < Pow2(n - c)
    requires v != w && x == Up(2 * v + 1, c) && y == Up(2 * w + 1, c) && 0 < x && 0 < y && x != y
    ensures TailPair(x, y) != 0 <==> Siblings(BitsOf(v, n - c), BitsOf(w, n - c))
    ensures TailPair(x, y) != 0 ==>
              && TailPair(x, y) < Pow2(n + 1)
              && Sequence(TailPair(x, y), n) == Stem(BitsOf(v, n - c))
  {
    PairOfForms(v, w, c, x, y);
    SiblingBits(v, w, n - c);
    if v / 2 == w / 2 && v % 2 != w % 2 {
      StemOfBits(v, n - c);
      SequenceOfMarked(v / 2, c + 1, n);
    }
  }

  lemma NoPair(x: nat, y: nat)
    requires 0 < x && 0 < y && Ctz(x) != Ctz(y)
    ensures TailPair(x, y) == 0
  {
  }

  /** The pair of two words exists iff their sequences are s + [0] and s + [1] for one s, and
  then it encodes s: exactly the extensions of either. */
  lemma PairMeaning(x: nat, y: nat, n: nat)
    requires 0 < x < Pow2(n + 1) && 0 < y < Pow2(n + 1) && x != y
    ensures TailPair(x, y) != 0 <==> Siblings(Sequence(x, n), Sequence(y, n))
    ensures TailPair(x, y) != 0 ==>
              && TailPair(x, y) < Pow2(n + 1)
              && Sequence(TailPair(x, y), n) == Stem(Sequence(x, n))
  {
    hide TailPair, Sequence, BitsOf, Stem, Up, Pow2, Ctz;
    var c, v := FormOf(x, n);
    var d, w := FormOf(y, n);
    if c == d {
      PairOfBits(v, w, c, n, x, y);
    } else {
      NoPair(x, y);
    }
  }

  lemma SiblingExtensions(s: seq<bool>, t: seq<bool>, z: seq<bool>)
    requires Siblings(s, t) && |z| >= |s|
    ensures Stem(s) <= z <==> s <= z || t <= z
  {
    var n := |s| - 1;
    assert s == Stem(s) + [s[n]] && t == Stem(s) + [t[n]];
    if Stem(s) <= z {
      assert z[..n + 1] == Stem(s) + [z[n]];
      if z[n] == s[n] {
        assert z[..n + 1] == s;
      } else {
        assert s[n] != t[n] && z[..n + 1] == t;
      }
    }
  }

  /** What the pair's sequence can be extended to is what either sequence can be. */
  lemma PairCovers(x: nat, y: nat, n: nat, z: seq<bool>)
    requires 0 < x < Pow2(n + 1) && 0 < y < Pow2(n + 1) && x != y
    requires TailPair(x, y) != 0 && |z| >= |Sequence(x, n)|
    ensures TailPair(x, y) < Pow2(n + 1)
    ensures Sequence(TailPair(x, y), n) <= z <==> Sequence(x, n) <= z || Sequence(y, n) <= z
  {
    PairMeaning(x, y, n);
    SiblingExtensions(Sequence(x, n), Sequence(y, n), z);
  }

  lemma FormOf(x: nat, n: nat) returns (c: nat, v: nat)
    requires 0 < x < Pow2(n + 1)
    ensures c <= n && v < Pow2(n - c) && c == Ctz(x) && x == Up(2 * v + 1, c)
    ensures Sequence(x, n) == BitsOf(v, n - c)
  {
    c, v := Ctz(x), High(x, Ctz(x) + 1);
    SequenceBits(x, n);
    MarkerForm(x);
    HighBound(x, n - c, c + 1);
  }
}
