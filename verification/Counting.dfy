/** How many of the 2^64 keys a stock of prefixes can accept. */
module Counting {
  import opened Bits
  import opened Tails
  import opened Prefixes

  ghost function Interval(a: nat, b: nat): (s: set<nat>)
    requires a <= b
    ensures forall k :: k in s <==> a <= k < b
    ensures |s| == b - a
    decreases b - a
  {
    if a == b then {} else Interval(a, b - 1) + {b - 1}
  }

  lemma {:induction false} SubsetSize<T>(a: set<T>, b: set<T>)
    requires a <= b
    ensures |a| <= |b|
    decreases |b|
  {
    if a == {} {
    } else {
      var x :| x in a;
      SubsetSize(a - {x}, b - {x});
    }
  }

  lemma KeyInRange(pr: Prefix, k: nat)
    requires pr.width <= 64 && k in KeysOf(pr)
    ensures Up(pr.bits, 64 - pr.width) <= k < Up(pr.bits, 64 - pr.width) + Pow2(64 - pr.width)
  {
    hide Up, Pow2, High, Low;
    HighLow(k, 64 - pr.width);
  }

  lemma WideCoversNone(pr: Prefix)
    requires pr.width > 64
    ensures KeysOf(pr) == {}
  {
  }

  /** A prefix of width w covers at most 2^(64 - w) keys. */
  lemma PrefixKeysBound(pr: Prefix, w: nat)
    requires w <= pr.width && w <= 64
    ensures |KeysOf(pr)| <= Pow2(64 - w)
  {
    hide Up, Pow2, High, Low, KeysOf;
    if pr.width <= 64 {
      var e := 64 - pr.width;
      var lo := Up(pr.bits, e);
      forall k | k in KeysOf(pr)
        ensures k in Interval(lo, lo + Pow2(e))
      {
        KeyInRange(pr, k);
      }
      SubsetSize(KeysOf(pr), Interval(lo, lo + Pow2(e)));
      Pow2Monotone(e, 64 - w);
    } else {
      WideCoversNone(pr);
    }
  }

  /** A stock whose prefixes are at least w bits wide accepts at most its size times 2^(64 - w)
  keys. */
  lemma {:induction false} KeysBound(m: multiset<Prefix>, w: nat)
    requires w <= 64 && forall pr :: pr in m ==> w <= pr.width
    ensures |Keys(m)| <= Up(|m|, 64 - w)
    decreases |m|
  {
    hide Keys, Up, Pow2;
    if m == multiset{} {
      NoKeys();
    } else {
      var pr :| pr in m;
      var rest := m - multiset{pr};
      KeysBound(rest, w);
      PrefixKeysBound(pr, w);
      KeysMember(m, pr);
      assert |Keys(m)| <= |Keys(rest)| + |KeysOf(pr)|;
      UpSum(|rest|, 1, 64 - w);
      Pow2IsUp(64 - w);
      assert |m| == |rest| + 1;
    }
  }
}
