/** The asymmetric Feistel permutation of c/include/filter/util.h. */
module Feistels {
  import opened Bits

  /** keys[0] and keys[1], two words each. */
  datatype Feistel = Feistel(key00: Word, key01: Word, key10: Word, key11: Word)

  /** The w high bits of x, after s + t - w low bits. */
  function HighBits(s: nat, t: nat, w: nat, x: nat): (r: nat)
    requires w <= s + t < 64 + w
    ensures r < Pow2(w)
  {
    Mask(w, Shr(x, s + t - w))
  }

  /** Strong multiply-shift of the w low bits of x; sum and product wrap around at 64 bits. */
  function Subhash(s: nat, t: nat, w: nat, x: nat, k0: Word, k1: Word): (r: nat)
    requires w <= s + t < 64
    ensures r < Pow2(s + t - w)
  {
    HighBits(s, t, s + t - w, (Mask(w, x) * Mask(s + t, k0) + Mask(s + t, k1)) % WORD)
  }

  function PermuteForward(f: Feistel, w: nat, x: nat): (r: nat)
    requires w < 64
    ensures r < Pow2(w)
  {
    var s := w / 2;
    var t := w - s;
    var l0 := Mask(s, x);
    var r0 := HighBits(s, t, t, x);
    var l1 := r0;
    var r1 := Xor(l0, Subhash(s, t, t, r0, f.key00, f.key01));
    var l2 := r1;
    var r2 := Xor(l1, Subhash(s, t, s, r1, f.key10, f.key11));
    XorBound(l0, Subhash(s, t, t, r0, f.key00, f.key01), s);
    XorBound(l1, Subhash(s, t, s, r1, f.key10, f.key11), t);
    HalvesJoined(s, t, r2, l2);
    Or(Shl(r2, s), l2)
  }

  function PermuteBackward(f: Feistel, w: nat, x: nat): (r: nat)
    requires w < 64
    ensures r < Pow2(w)
  {
    var s := w / 2;
    var t := w - s;
    var l2 := Mask(s, x);
    var r2 := HighBits(s, t, t, x);
    var r1 := l2;
    var l1 := Xor(r2, Subhash(s, t, s, r1, f.key10, f.key11));
    var r0 := l1;
    var l0 := Xor(r1, Subhash(s, t, t, r0, f.key00, f.key01));
    XorBound(r2, Subhash(s, t, s, r1, f.key10, f.key11), t);
    XorBound(r1, Subhash(s, t, t, r0, f.key00, f.key01), s);
    HalvesJoined(s, t, r0, l0);
    Or(Shl(r0, s), l0)
  }

  /** Joining a high t-bit half and a low s-bit half gives a word that splits into them. */
  lemma HalvesJoined(s: nat, t: nat, hi: nat, lo: nat)
    requires s + t < 64 && hi < Pow2(t) && lo < Pow2(s)
    ensures Or(Shl(hi, s), lo) < Pow2(s + t)
    ensures Mask(s, Or(Shl(hi, s), lo)) == lo
    ensures HighBits(s, t, t, Or(Shl(hi, s), lo)) == hi
  {
    ShlFits(hi, t, s);
    OrIsSum(hi, lo, s);
    JoinBound(hi, lo, t, s);
    JoinParts(hi, lo, s);
    LowOfSmall(hi, t);
  }

  /** A w-bit word is its two halves, joined. */
  lemma HalvesOf(s: nat, t: nat, x: nat)
    requires s + t < 64 && x < Pow2(s + t)
    ensures Or(Shl(HighBits(s, t, t, x), s), Mask(s, x)) == x
  {
    HighLow(x, s);
    HighBound(x, t, s);
    LowOfSmall(High(x, s), t);
    ShlFits(High(x, s), t, s);
    OrIsSum(High(x, s), Low(x, s), s);
  }

  /** What a pair of rounds does to the halves (hi, lo) can be undone by the same two masks
  in the opposite order, whatever the masks are. */
  lemma RoundsUndone(s: nat, t: nat, hi: nat, lo: nat, first: nat, second: nat)
    requires s + t < 64 && hi < Pow2(t) && lo < Pow2(s) && first < Pow2(s) && second < Pow2(t)
    ensures var y := Or(Shl(Xor(hi, second), s), Xor(lo, first));
            && Mask(s, y) == Xor(lo, first)
            && HighBits(s, t, t, y) == Xor(hi, second)
    ensures Xor(Xor(hi, second), second) == hi && Xor(Xor(lo, first), first) == lo
  {
    XorBound(lo, first, s);
    XorBound(hi, second, t);
    HalvesJoined(s, t, Xor(hi, second), Xor(lo, first));
    XorCancels(hi, second);
    XorCancels(lo, first);
  }

  lemma BackwardUndoesForward(f: Feistel, w: nat, x: nat)
    requires w < 64 && x < Pow2(w)
    ensures PermuteBackward(f, w, PermuteForward(f, w, x)) == x
  {
    var s := w / 2;
    var t := w - s;
    var l0, r0 := Mask(s, x), HighBits(s, t, t, x);
    var h0 := Subhash(s, t, t, r0, f.key00, f.key01);
    var h1 := Subhash(s, t, s, Xor(l0, h0), f.key10, f.key11);
    RoundsUndone(s, t, r0, l0, h0, h1);
    HalvesOf(s, t, x);
  }

  lemma ForwardUndoesBackward(f: Feistel, w: nat, x: nat)
    requires w < 64 && x < Pow2(w)
    ensures PermuteForward(f, w, PermuteBackward(f, w, x)) == x
  {
    var s := w / 2;
    var t := w - s;
    var l2, r2 := Mask(s, x), HighBits(s, t, t, x);
    var h1 := Subhash(s, t, s, l2, f.key10, f.key11);
    var h0 := Subhash(s, t, t, Xor(r2, h1), f.key00, f.key01);
    RoundsUndone(s, t, r2, l2, h0, h1);
    HalvesOf(s, t, x);
  }

  // ---------- the permuted word, in arithmetic ----------

  /** Multiply, add, keep the high bits: the masks and the wrap-around make no difference. */
  lemma SubhashIs(s: nat, t: nat, w: nat, x: nat, k0: Word, k1: Word)
    requires w <= s + t < 64 && x < Pow2(w)
    ensures Subhash(s, t, w, x, k0, k1) == (x * k0 + k1) % Pow2(s + t) / Pow2(w)
  {
    hide High, Low, Up, Pow2;
    var n := s + t;
    LowOfSmall(x, w);
    ShiftsAreArithmetic(k0, n);
    ShiftsAreArithmetic(k1, n);
    var y := x * Low(k0, n) + Low(k1, n);
    var z := y % WORD;
    LowOfHigh(z, n - w, n);
    ShiftsAreArithmetic(z, n);
    WordRemainder(y, n);
    ReduceFirst(x, k0, k1, Pow2(n));
    ShiftsAreArithmetic(Low(z, n), w);
    assert Mask(w, x) == x;
  }

  /** One keyed round: the hash of x that is mixed into the other half. */
  function Round(x: nat, k0: Word, k1: Word, w: nat, shift: nat): nat {
    (x * k0 + k1) % Pow2(w) / Pow2(shift)
  }

  /** The high half and the low half of the permuted word: the low half is mixed with a hash of
  the high one by the first key, and the high half with a hash of the new low one by the second. */
  lemma ForwardIs(f: Feistel, w: nat, hi: nat, lo: nat)
    requires w < 64 && hi < Pow2(w - w / 2) && lo < Pow2(w / 2)
    ensures var s, t := w / 2, w - w / 2;
            var lo' := Xor(lo, Round(hi, f.key00, f.key01, w, t));
            var hi' := Xor(hi, Round(lo', f.key10, f.key11, w, s));
            PermuteForward(f, w, Up(hi, s) + lo) == Up(hi', s) + lo'
  {
    hide High, Low, Up, Pow2, Xor, Or, Shl, HighBits, Mask, Subhash;
    var s := w / 2;
    var t := w - s;
    JoinedHalves(s, t, hi, lo);
    SubhashIs(s, t, t, hi, f.key00, f.key01);
    var h0 := Subhash(s, t, t, hi, f.key00, f.key01);
    var lo' := Xor(lo, h0);
    XorBound(lo, h0, s);
    SubhashIs(s, t, s, lo', f.key10, f.key11);
    var h1 := Subhash(s, t, s, lo', f.key10, f.key11);
    var hi' := Xor(hi, h1);
    XorBound(hi, h1, t);
    JoinedHalves(s, t, hi', lo');
  }

  lemma JoinedHalves(s: nat, t: nat, hi: nat, lo: nat)
    requires s + t < 64 && hi < Pow2(t) && lo < Pow2(s)
    ensures Mask(s, Up(hi, s) + lo) == lo
    ensures HighBits(s, t, t, Up(hi, s) + lo) == hi
    ensures Or(Shl(hi, s), lo) == Up(hi, s) + lo
  {
    hide Up, Or, Pow2;
    HalvesJoined(s, t, hi, lo);
    ShlFits(hi, t, s);
    OrIsSum(hi, lo, s);
  }

  /** Equal images come from equal words: the permutation is injective at every width. */
  lemma ForwardInjective(f: Feistel, w: nat, x: nat, y: nat)
    requires w < 64 && x < Pow2(w) && y < Pow2(w)
    ensures PermuteForward(f, w, x) == PermuteForward(f, w, y) <==> x == y
  {
    BackwardUndoesForward(f, w, x);
    BackwardUndoesForward(f, w, y);
  }
}
