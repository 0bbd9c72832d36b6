/** What a stored entry means: a prefix of 64-bit keys, and the set of keys extending it. */
module Prefixes {
  import opened Bits
  import opened Tails

  /** The first width bits of a key. */
  datatype Prefix = Prefix(width: nat, bits: nat)

  /** The first w bits of the 64-bit word k. */
  function Top(w: nat, k: nat): nat
    requires w <= 64
  {
    High(k, 64 - w)
  }

  predicate Covers(pr: Prefix, k: nat) {
    pr.width <= 64 && Top(pr.width, k) == pr.bits
  }

  /** The keys extending some prefix in m. */
  ghost function Keys(m: multiset<Prefix>): set<nat> {
    set k: nat | k < WORD && Accepts(m, k)
  }

  ghost predicate Accepts(m: multiset<Prefix>, k: nat) {
    exists pr :: pr in m && Covers(pr, k)
  }

  lemma KeysIff(m: multiset<Prefix>, k: Word)
    ensures k in Keys(m) <==> Accepts(m, k)
  {
  }

  ghost function KeysOf(pr: Prefix): set<nat> {
    Keys(multiset{pr})
  }

  /** A slot's tail field: five bits and a marker; 0 is an empty slot. */
  type Tail = t: nat | t < 64

  const NO_TAIL_BITS: Tail := 32

  /** How many bits a tail can hold, in both filters. */
  const TAIL_SIZE: nat := 5

  function TailLength(t: Tail): (n: nat)
    ensures n <= 5
  {
    if t == 0 then 0 else
      TailForm(t);
      5 - Ctz(t)
  }

  /** The tail's bits without the marker. */
  function TailBits(t: Tail): nat {
    if t == 0 then 0 else High(t, Ctz(t) + 1)
  }

  /** The prefix that a slot stands for when the rest of it gives the first w bits, head. */
  function EntryPrefix(w: nat, head: nat, t: Tail): Prefix {
    Prefix(w + TailLength(t), Up(head, TailLength(t)) + TailBits(t))
  }

  // ---------- tails ----------

  /** A tail is its bits, then the marker, then zeros. */
  lemma TailForm(t: Tail)
    requires t != 0
    ensures Ctz(t) <= 5
    ensures High(t, Ctz(t) + 1) < Pow2(5 - Ctz(t))
    ensures t == Up(2 * High(t, Ctz(t) + 1) + 1, Ctz(t))
  {
    Pow2Small();
    SequenceBits(t, 5);
    HighBound(t, 5 - Ctz(t), Ctz(t) + 1);
    MarkerForm(t);
  }

  lemma TailOfForm(b: nat, n: nat, t: Tail)
    requires n <= 5 && t == Up(2 * b + 1, 5 - n)
    ensures t != 0 && TailLength(t) == n && TailBits(t) == b
  {
    CtzOfMarked(b, 5 - n);
  }

  lemma NoTailBits(t: Tail)
    requires t != 0
    ensures TailLength(t) == 0 <==> t == NO_TAIL_BITS
    ensures TailBits(NO_TAIL_BITS) == 0
  {
    TailForm(t);
    assert Up(1, 5) == 32 by { Pow2IsUp(5); Pow2Small(); }
    TailOfForm(0, 0, NO_TAIL_BITS);
  }

  lemma TailBitsBound(t: Tail)
    ensures TailBits(t) < Pow2(TailLength(t))
  {
    if t != 0 {
      TailForm(t);
    }
  }

  /** A tail made of five key bits. */
  lemma FullTail(r: nat)
    requires r < 32
    ensures TailLength(2 * r + 1) == 5 && TailBits(2 * r + 1) == r
  {
    TailOfForm(r, 5, 2 * r + 1);
  }

  /** The prefix test of a stored tail against the five tail bits of a key. */
  lemma PrefixOfFullTail(t: Tail, r: nat, n: nat)
    requires t != 0 && r < 32 && n == TailLength(t)
    ensures IsPrefixOf(t, 2 * r + 1) <==> TailBits(t) == High(r, 5 - n)
  {
    PrefixTest(t, 2 * r + 1);
    assert Ctz(2 * r + 1) == 0;
    assert n == 5 - Ctz(t);
    assert High(2 * r + 1, 6 - n) == High(r, 5 - n);
  }

  // ---------- prefixes of keys ----------

  /** The five tail bits of a key. */
  function KeyTail(k: nat, w: nat): (r: nat)
    requires w + TAIL_SIZE <= 64
    ensures r < 32
  {
    Pow2Small();
    Mask(TAIL_SIZE, Top(w + TAIL_SIZE, k))
  }

  lemma TopBound(w: nat, k: Word)
    requires w <= 64
    ensures Top(w, k) < Pow2(w)
  {
    Pow2Word();
    HighBound(k, w, 64 - w);
  }

  lemma TopTop(w: nat, n: nat, k: nat)
    requires w + n <= 64
    ensures Top(w, k) == High(Top(w + n, k), n)
  {
    HighHigh(k, 64 - w - n, n);
  }

  /** The first w bits of a key that holds a w-bit word in its high bits. */
  lemma TopOfShifted(w: nat, head: nat)
    requires w <= 64
    ensures Top(w, Up(head, 64 - w)) == head
  {
    JoinParts(head, 0, 64 - w);
  }

  lemma InKeysOf(pr: Prefix, k: Word)
    ensures k in KeysOf(pr) <==> Covers(pr, k)
  {
    hide Covers;
    assert pr in multiset{pr};
  }

  lemma KeysUnion(a: multiset<Prefix>, b: multiset<Prefix>)
    ensures Keys(a + b) == Keys(a) + Keys(b)
  {
  }

  lemma NoKeys()
    ensures Keys(multiset{}) == {}
  {
  }

  lemma KeysMonotone(a: multiset<Prefix>, b: multiset<Prefix>)
    requires a <= b
    ensures Keys(a) <= Keys(b)
  {
  }

  lemma KeysMember(m: multiset<Prefix>, pr: Prefix)
    requires pr in m
    ensures KeysOf(pr) <= Keys(m)
    ensures Keys(m) == Keys(m - multiset{pr}) + KeysOf(pr)
  {
    assert m == (m - multiset{pr}) + multiset{pr};
  }

  /** The bits of a key that an entry's prefix fixes: the head and the top of the tail. */
  lemma {:induction false} JoinedEquals(z: nat, head: nat, b: nat, n: nat)
    requires b < Pow2(n)
    ensures z == Up(head, n) + b <==> High(z, n) == head && Low(z, n) == b
  {
    HighLow(z, n);
    JoinParts(head, b, n);
  }

  /** An entry covers exactly the keys whose first w bits are its head and whose next five
  bits its tail is a prefix of. */
  lemma EntryCovers(w: nat, head: nat, t: Tail, k: nat)
    requires t != 0 && w + 5 <= 64
    ensures Low(Top(w + 5, k), 5) < 32
    ensures Covers(EntryPrefix(w, head, t), k) <==>
            Top(w, k) == head && IsPrefixOf(t, 2 * Low(Top(w + 5, k), 5) + 1)
  {
    hide High, Low, Up, Ctz, IsPrefixOf;
    var n := TailLength(t);
    var z := Top(w + 5, k);
    HighLow(z, 5);
    Pow2Small();
    TopTop(w + n, 5 - n, k);
    TopTop(w, n, k);
    TailBitsBound(t);
    JoinedEquals(Top(w + n, k), head, TailBits(t), n);
    LowOfHigh(z, n, 5);
    PrefixOfFullTail(t, Low(z, 5), n);
  }

  lemma {:induction false} PartsOfUp(x: nat, k: nat, m: nat)
    ensures High(Up(x, k), k + m) == High(x, m)
    ensures Low(Up(x, k), k + m) == Up(Low(x, m), k)
    decreases k
  {
    if k == 0 {
    } else {
      PartsOfUp(x, k - 1, m);
      assert Up(x, k) / 2 == Up(x, k - 1);
    }
  }

  lemma DoubleLow(x: nat)
    ensures 2 * (x % 32) == 2 * x % 64
  {
  }

  lemma FiveBits(x: nat, n: nat)
    requires n == 5
    ensures High(x, n) == x / 32 && 2 * Low(x, n) == 2 * x % 64
  {
    hide High, Low, Up, Pow2;
    ShiftsAreArithmetic(x, n);
    Pow2Small();
    DoubleLow(x);
  }

  lemma OddParts(b: nat, m: nat)
    ensures High(2 * b + 1, m + 1) == High(b, m) && Low(2 * b + 1, m + 1) == 2 * Low(b, m) + 1
  {
    assert (2 * b + 1) / 2 == b;
  }

  /** The first bit of a non-empty tail, and the tail without it. */
  lemma TailParts(t: nat, j: nat, m: nat, b: nat)
    requires t == Up(2 * b + 1, j)
    ensures High(t, j + (m + 1)) == High(b, m)
    ensures 2 * Low(t, j + (m + 1)) == Up(2 * Low(b, m) + 1, j + 1)
  {
    OddParts(b, m);
    PartsOfUp(2 * b + 1, j, m + 1);
  }

  lemma HeadGainsBit(head: nat, b: nat, m: nat)
    ensures Up(2 * head + High(b, m), m) + Low(b, m) == Up(head, m + 1) + b
  {
    HighLow(b, m);
    UpSum(2 * head, High(b, m), m);
    UpUp(head, 1, m);
  }

  lemma StolenTail(t: Tail, m: nat, b: nat, size: nat)
    requires size == 5 && t != 0 && m + 1 == TailLength(t) && b == TailBits(t)
    ensures t / 32 == High(b, m)
    ensures 2 * t % 64 != 0
    ensures TailLength(2 * t % 64) == m && TailBits(2 * t % 64) == Low(b, m)
  {
    hide High, Low, Up, Ctz;
    assert t == Up(2 * b + 1, 4 - m) by { TailForm(t); }
    assert t / 32 == High(b, m) && 2 * t % 64 == Up(2 * Low(b, m) + 1, 5 - m) by {
      TailParts(t, 4 - m, m, b);
      FiveBits(t, size);
    }
    TailOfForm(Low(b, m), m, 2 * t % 64);
  }

  /** Moving the tail's first bit to the head leaves the prefix as it is. */
  lemma StealBit(w: nat, head: nat, t: Tail)
    requires t != 0 && t != NO_TAIL_BITS
    ensures 2 * t % 64 != 0
    ensures EntryPrefix(w + 1, 2 * head + t / 32, 2 * t % 64) == EntryPrefix(w, head, t)
  {
    hide High, Low, Up, Ctz;
    NoTailBits(t);
    var m, b := TailLength(t) - 1, TailBits(t);
    StolenTail(t, m, b, 5);
    HeadGainsBit(head, b, m);
    SameEntry(w, head, t, 2 * head + t / 32, 2 * t % 64, m);
  }

  lemma SameEntry(w: nat, head: nat, t: Tail, head': nat, t': Tail, m: nat)
    requires TailLength(t) == m + 1 && TailLength(t') == m
    requires Up(head', m) + TailBits(t') == Up(head, m + 1) + TailBits(t)
    ensures EntryPrefix(w + 1, head', t') == EntryPrefix(w, head, t)
  {
  }

  /** a and b are pr followed by a 0 and by a 1. */
  ghost predicate Halves(pr: Prefix, a: Prefix, b: Prefix) {
    a == Prefix(pr.width + 1, 2 * pr.bits) && b == Prefix(pr.width + 1, 2 * pr.bits + 1)
  }

  /** Without tail bits the prefix is the union of the two that are one bit longer. */
  lemma SplitEntry(w: nat, head: nat)
    requires w < 64
    ensures EntryPrefix(w, head, NO_TAIL_BITS) == Prefix(w, head)
    ensures Halves(EntryPrefix(w, head, NO_TAIL_BITS), EntryPrefix(w + 1, 2 * head, NO_TAIL_BITS),
                   EntryPrefix(w + 1, 2 * head + 1, NO_TAIL_BITS))
    ensures KeysOf(Prefix(w, head)) ==
            KeysOf(EntryPrefix(w + 1, 2 * head, NO_TAIL_BITS)) +
            KeysOf(EntryPrefix(w + 1, 2 * head + 1, NO_TAIL_BITS))
  {
    NoTailBits(NO_TAIL_BITS);
    assert EntryPrefix(w + 1, 2 * head, NO_TAIL_BITS) == Prefix(w + 1, 2 * head);
    assert EntryPrefix(w + 1, 2 * head + 1, NO_TAIL_BITS) == Prefix(w + 1, 2 * head + 1);
    SplitPrefix(w, head);
  }

  lemma SplitPrefix(w: nat, head: nat)
    requires w < 64
    ensures KeysOf(Prefix(w, head)) ==
            KeysOf(Prefix(w + 1, 2 * head)) + KeysOf(Prefix(w + 1, 2 * head + 1))
  {
    forall k: nat | k < WORD
      ensures Covers(Prefix(w, head), k) <==>
              Covers(Prefix(w + 1, 2 * head), k) || Covers(Prefix(w + 1, 2 * head + 1), k)
    {
      TopTop(w, 1, k);
      assert High(Top(w + 1, k), 1) == Top(w + 1, k) / 2;
    }
  }

  /** A prefix tail covers at least what the longer tail covers. */
  lemma PrefixCoversMore(w: nat, head: nat, s: Tail, t: Tail)
    requires s != 0 && t != 0 && w + 5 <= 64 && IsPrefixOf(s, t)
    ensures KeysOf(EntryPrefix(w, head, t)) <= KeysOf(EntryPrefix(w, head, s))
  {
    hide High, Low, Up, Ctz, IsPrefixOf, EntryPrefix, Top;
    forall k: nat | Covers(EntryPrefix(w, head, t), k)
      ensures Covers(EntryPrefix(w, head, s), k)
    {
      EntryCovers(w, head, t, k);
      EntryCovers(w, head, s, k);
      PrefixTransitive(s, t, 2 * Low(Top(w + 5, k), 5) + 1);
    }
  }

  lemma PrefixTransitive(x: nat, y: nat, z: nat)
    requires 0 < x && 0 < y && 0 < z && IsPrefixOf(x, y) && IsPrefixOf(y, z)
    ensures IsPrefixOf(x, z)
  {
    PrefixTest(x, y);
    PrefixTest(y, z);
    PrefixTest(x, z);
    HighHigh(y, Ctz(y) + 1, Ctz(x) - Ctz(y));
    HighHigh(z, Ctz(y) + 1, Ctz(x) - Ctz(y));
  }

  lemma PrefixReflexive(x: nat)
    requires 0 < x
    ensures IsPrefixOf(x, x)
  {
    PrefixTest(x, x);
  }

  // ---------- several bits at once ----------

  lemma SixBits(x: nat, n: nat)
    requires n == 6
    ensures Low(x, n) == x % 64
  {
    assert Pow2(3) == 8;
    assert Pow2(6) == 64;
    ShiftsAreArithmetic(x, n);
  }

  /** A tail without its first d bits. */
  lemma ShiftTail(t: Tail, d: nat, n: nat, b: nat, size: nat)
    requires size == 6 && t != 0 && n == TailLength(t) && b == TailBits(t) && d <= n
    ensures var t' := Shl(t, d) % 64;
            0 < t' < 64 && TailLength(t') == n - d && TailBits(t') == Low(b, n - d)
  {
    hide Up, Low, High, Ctz, Shl;
    var m := n - d;
    assert t == Up(2 * b + 1, 5 - n) by { TailForm(t); }
    assert Pow2(6) == 64 by { Pow2Small(); }
    ShlFits(t, 6, d);
    UpUp(2 * b + 1, 5 - n, d);
    OddParts(b, m);
    PartsOfUp(2 * b + 1, 5 - m, m + 1);
    SixBits(Up(2 * b + 1, 5 - m), size);
    TailOfForm(Low(b, m), m, Shl(t, d) % 64);
  }

  /** Moving the tail's first d bits to the head leaves the prefix as it is. */
  lemma StealBits(w: nat, head: nat, t: Tail, d: nat)
    requires t != 0 && d <= TailLength(t)
    ensures var t' := Shl(t, d) % 64;
            && 0 < t' < 64
            && var pr := EntryPrefix(w, head, t);
               EntryPrefix(w + d, High(pr.bits, TailLength(t) - d), t') == pr
  {
    hide Up, Low, High, Ctz, Shl;
    var n, b := TailLength(t), TailBits(t);
    ShiftTail(t, d, n, b, 6);
    HighLow(Up(head, n) + b, n - d);
    LowOfJoin(head, b, n, n - d);
  }

  /** The first i of the prefixes that are m bits longer than pr. */
  ghost function Extensions(pr: Prefix, m: nat, i: nat): multiset<Prefix> {
    if i == 0 then multiset{} else Extensions(pr, m, i - 1) + multiset{Prefix(pr.width + m, Up(pr.bits, m) + (i - 1))}
  }

  lemma {:induction false} ExtensionsMember(pr: Prefix, m: nat, i: nat, q: Prefix)
    ensures q in Extensions(pr, m, i) <==> q.width == pr.width + m && Up(pr.bits, m) <= q.bits < Up(pr.bits, m) + i
  {
    if i == 0 {
    } else {
      ExtensionsMember(pr, m, i - 1, q);
    }
  }

  /** All of them together cover what the prefix covers. */
  lemma ExtensionsCover(pr: Prefix, m: nat)
    requires pr.width + m <= 64
    ensures Keys(Extensions(pr, m, Pow2(m))) == KeysOf(pr)
  {
    hide Up, High, Pow2, Extensions;
    forall k: nat | k < WORD
      ensures Accepts(Extensions(pr, m, Pow2(m)), k) <==> Covers(pr, k)
    {
      var t := Top(pr.width + m, k);
      TopTop(pr.width, m, k);
      HighLow(t, m);
      ExtensionsMember(pr, m, Pow2(m), Prefix(pr.width + m, t));
      if Covers(pr, k) {
        assert Covers(Prefix(pr.width + m, t), k);
      }
      if Accepts(Extensions(pr, m, Pow2(m)), k) {
        var q :| q in Extensions(pr, m, Pow2(m)) && Covers(q, k);
        ExtensionsMember(pr, m, Pow2(m), q);
        JoinParts(pr.bits, q.bits - Up(pr.bits, m), m);
      }
    }
    ExtensionsKeys(pr, Extensions(pr, m, Pow2(m)));
  }

  lemma ExtensionsKeys(pr: Prefix, m: multiset<Prefix>)
    requires forall k: nat :: k < WORD ==> (Accepts(m, k) <==> Covers(pr, k))
    ensures Keys(m) == KeysOf(pr)
  {
    hide Covers;
    assert forall k: nat :: Accepts(multiset{pr}, k) <==> Covers(pr, k);
  }
}
