/** Translating paths between filters of different sizes: the general form of re_path in
c/include/filter/paths.h, which keeps the keys of a path in three cases only. */
module MinimalResizing {
  import opened Bits
  import opened Tails
  import opened Prefixes
  import opened Buckets
  import opened Feistels
  import opened MinimalPaths

  /** The path or the two paths that come out stand for the keys of the path that goes in. */
  ghost predicate KeepsKeys(p: Path, from: Geometry, to: Geometry)
    requires p.slot.tail != 0
  {
    var (next, extra) := RePath(p, from, to);
    && ValidPath(to, next)
    && (extra.slot.tail != 0 ==> ValidPath(to, extra))
    && KeysOf(PathPrefix(from, p)) ==
       KeysOf(PathPrefix(to, next)) + if extra.slot.tail == 0 then {} else KeysOf(PathPrefix(to, extra))
  }

  /** The key bits of a path, tail left out, in the high bits of a word. */
  function KeyOf(p: Path, from: Geometry): nat {
    Up(HeadOf(from, p), 64 - Width(from, p.level, p.slot.rest))
  }

  /** The sizes are the same; or the size grows by one, the fingerprint is long, and the long key,
  taken as a short one, lands on a level not doubled yet; or the size shrinks by one and the key
  is short and has no tail. */
  predicate Resizes(p: Path, from: Geometry, to: Geometry) {
    || to.low == from.low
    || (to.low == from.low + 1 && p.slot.rest.longFp && KeyPath(to, KeyOf(p, from), true).level >= to.cursor)
    || (to.low + 1 == from.low && Short(from, p.level, p.slot.rest) && p.slot.tail == NO_TAIL_BITS)
  }

  // ---------- prefixes of different widths ----------

  lemma CoveredTop(pr: Prefix, w: nat, k: nat)
    requires w <= pr.width <= 64 && Covers(pr, k)
    ensures Top(w, k) == High(pr.bits, pr.width - w)
  {
    TopTop(w, pr.width - w, k);
  }

  /** A key that begins with given bits. */
  lemma KeyOfBits(w: nat, n: nat, bits: nat)
    requires w + n <= 64 && bits < Pow2(w + n)
    ensures var k := Up(bits, 64 - w - n);
            k < WORD && Top(w + n, k) == bits && Top(w, k) == High(bits, n)
  {
    hide Up, Pow2, High;
    JoinBound(bits, 0, w + n, 64 - w - n);
    Pow2Word();
    TopOfShifted(w + n, bits);
    TopTop(w, n, Up(bits, 64 - w - n));
  }

  /** A shorter prefix has keys that a longer one does not cover. */
  lemma ShorterIsLarger(a: Prefix, b: Prefix)
    requires a.width < b.width <= 64 && a.bits < Pow2(a.width)
    ensures !(KeysOf(a) <= KeysOf(b))
  {
    hide Up, KeysOf;
    var e := 63 - a.width;
    var k, l := Up(2 * a.bits, e), Up(2 * a.bits + 1, e);
    assert High(2 * a.bits, 1) == a.bits && High(2 * a.bits + 1, 1) == a.bits by { OneBit(a.bits); }
    KeyOfBits(a.width, 1, 2 * a.bits);
    KeyOfBits(a.width, 1, 2 * a.bits + 1);
    InKeysOf(a, k);
    InKeysOf(a, l);
    if KeysOf(a) <= KeysOf(b) {
      InKeysOf(b, k);
      InKeysOf(b, l);
      CoveredTop(b, a.width + 1, k);
      CoveredTop(b, a.width + 1, l);
    }
  }

  lemma OneBit(x: nat)
    ensures High(2 * x, 1) == x && High(2 * x + 1, 1) == x
  {
    assert High(x, 0) == x;
  }

  lemma TwoBits(x: nat, c: nat)
    requires c < 4
    ensures High(4 * x + c, 2) == x
  {
    assert (4 * x + c) / 2 / 2 == x;
    assert High((4 * x + c) / 2, 1) == High((4 * x + c) / 2 / 2, 0);
  }

  lemma DifferentWidths(a: Prefix, b: Prefix)
    requires a.width <= 64 && b.width <= 64 && a.bits < Pow2(a.width) && b.bits < Pow2(b.width)
    requires a.width != b.width
    ensures KeysOf(a) != KeysOf(b)
  {
    hide KeysOf;
    if a.width < b.width {
      ShorterIsLarger(a, b);
    } else {
      ShorterIsLarger(b, a);
    }
  }

  lemma QuarterKey(a: Prefix, c: nat)
    requires a.width + 2 <= 64 && a.bits < Pow2(a.width) && c < 4
    ensures var k := Up(4 * a.bits + c, 62 - a.width);
            k < WORD && k in KeysOf(a) && Top(a.width + 2, k) == 4 * a.bits + c
  {
    hide Up, KeysOf;
    TwoBits(a.bits, c);
    KeyOfBits(a.width, 2, 4 * a.bits + c);
    InKeysOf(a, Up(4 * a.bits + c, 62 - a.width));
  }

  /** Two prefixes that are two or more bits longer do not cover a prefix. */
  lemma TwoTooLong(a: Prefix, b: Prefix, c: Prefix)
    requires a.width + 2 <= b.width <= 64 && b.width == c.width && a.bits < Pow2(a.width)
    ensures KeysOf(a) != KeysOf(b) + KeysOf(c)
  {
    hide Up, KeysOf, Pow2, High;
    var e := 62 - a.width;
    var k, l, m := Up(4 * a.bits, e), Up(4 * a.bits + 1, e), Up(4 * a.bits + 2, e);
    QuarterKey(a, 0);
    QuarterKey(a, 1);
    QuarterKey(a, 2);
    if KeysOf(a) == KeysOf(b) + KeysOf(c) {
      OneOfTwo(a.width + 2, b, c, k);
      OneOfTwo(a.width + 2, b, c, l);
      OneOfTwo(a.width + 2, b, c, m);
    }
  }

  lemma OneOfTwo(w: nat, b: Prefix, c: Prefix, k: Word)
    requires w <= b.width <= 64 && b.width == c.width && k in KeysOf(b) + KeysOf(c)
    ensures Top(w, k) == High(b.bits, b.width - w) || Top(w, k) == High(c.bits, c.width - w)
  {
    hide KeysOf, High, Top;
    InKeysOf(b, k);
    InKeysOf(c, k);
    if Covers(b, k) {
      CoveredTop(b, w, k);
    } else {
      CoveredTop(c, w, k);
    }
  }

  // ---------- the widths that come out ----------

  /** A path's prefix is as wide as its kind says, and its bits fit. */
  lemma PrefixFits(geo: Geometry, p: Path)
    ensures var pr := PathPrefix(geo, p);
            && pr.width == Width(geo, p.level, p.slot.rest) + TailLength(p.slot.tail) <= 64
            && pr.bits < Pow2(pr.width)
  {
    hide PermuteBackward, Up, Pow2, TailBits;
    TailBitsBound(p.slot.tail);
    JoinBound(HeadOf(geo, p), TailBits(p.slot.tail), Width(geo, p.level, p.slot.rest), TailLength(p.slot.tail));
  }

  /** What comes out of to_path is short only if it was asked for and is possible. */
  lemma KeyPathWidth(geo: Geometry, raw: nat, short: bool)
    ensures var q := KeyPath(geo, raw, short);
            Width(geo, q.level, q.slot.rest) == KeyWidth(geo.low, short && q.level >= geo.cursor)
  {
    hide PermuteForward, Mask, High;
  }

  lemma WidthsDiffer(p: Path, from: Geometry, q: Path, to: Geometry)
    requires Width(from, p.level, p.slot.rest) + TailLength(p.slot.tail) !=
             Width(to, q.level, q.slot.rest) + TailLength(q.slot.tail)
    ensures KeysOf(PathPrefix(from, p)) != KeysOf(PathPrefix(to, q))
  {
    hide PathPrefix, KeysOf, Width;
    PrefixFits(from, p);
    PrefixFits(to, q);
    DifferentWidths(PathPrefix(from, p), PathPrefix(to, q));
  }

  // ---------- paths of long keys ----------

  lemma ResizeDoubled(p: Path, from: Geometry, to: Geometry)
    requires ValidPath(from, p) && to.low != from.low && p.level < from.cursor
    ensures !KeepsKeys(p, from, to)
  {
    hide ToPath, FromPathNoTail, PathPrefix, KeysOf, TailLength;
    var (next, extra) := RePath(p, from, to);
    KeyPathWidth(to, FromPathNoTail(p, from.hi, from.low + 1, HEAD_SIZE - 1), false);
    WidthsDiffer(p, from, next, to);
  }

  lemma ResizeLong(p: Path, from: Geometry, to: Geometry)
    requires ValidPath(from, p) && to.low != from.low && p.slot.rest.longFp
    ensures KeepsKeys(p, from, to) <==>
            to.low == from.low + 1 && KeyPath(to, KeyOf(p, from), true).level >= to.cursor
  {
    hide ToPath, FromPathNoTail, PathPrefix, KeysOf, TailLength, HeadOf, Up, Pow2;
    PathKey(from, p);
    var q := KeyPath(to, KeyOf(p, from), true);
    var (next, extra) := RePath(p, from, to);
    assert next == WithTail(q, p.slot.tail);
    KeyPathWidth(to, KeyOf(p, from), true);
    if to.low == from.low + 1 && q.level >= to.cursor {
      ResizeLongKeeps(p, from, to);
    } else {
      WidthsDiffer(p, from, next, to);
    }
  }

  lemma ResizeLongKeeps(p: Path, from: Geometry, to: Geometry)
    requires ValidPath(from, p) && to.low == from.low + 1 && p.slot.rest.longFp
    requires KeyPath(to, KeyOf(p, from), true).level >= to.cursor
    ensures var next := WithTail(KeyPath(to, KeyOf(p, from), true), p.slot.tail);
            ValidPath(to, next) && PathPrefix(to, next) == PathPrefix(from, p)
  {
    hide ToPath, FromPathNoTail, HeadOf, Up, Pow2, EntryPrefix;
    PathKey(from, p);
    PathOfHead(to, true, HeadOf(from, p), KeyOf(p, from), p.slot.tail);
  }

  // ---------- paths of short keys ----------

  lemma ResizeShort(p: Path, from: Geometry, to: Geometry)
    requires ValidPath(from, p) && to.low != from.low && Short(from, p.level, p.slot.rest)
    ensures KeepsKeys(p, from, to) <==> to.low + 1 == from.low && p.slot.tail == NO_TAIL_BITS
  {
    hide RePath, KeepsKeys;
    if p.slot.tail == NO_TAIL_BITS {
      ResizeSplit(p, from, to);
    } else {
      ResizeStolen(p, from, to);
    }
  }

  lemma ResizeStolen(p: Path, from: Geometry, to: Geometry)
    requires ValidPath(from, p) && to.low != from.low && Short(from, p.level, p.slot.rest)
    requires p.slot.tail != NO_TAIL_BITS
    ensures !KeepsKeys(p, from, to)
  {
    hide ToPath, FromPathNoTail, PathPrefix, KeysOf, TailLength, Or, Shl, Shr;
    var (next, extra) := RePath(p, from, to);
    var key := FromPathNoTail(p, from.lo, from.low, HEAD_SIZE - 1);
    var k := Or(key, Shl(Shr(p.slot.tail, TAIL_SIZE), 64 - LOG_LEVELS - from.low - HEAD_SIZE));
    KeyPathWidth(to, k, false);
    TailShortens(p.slot.tail);
    WidthsDiffer(p, from, next, to);
  }

  lemma TailShortens(t: Tail)
    requires t != 0 && t != NO_TAIL_BITS
    ensures 2 * t % 64 < 64 && TailLength(2 * t % 64) + 1 == TailLength(t)
  {
    hide TailLength, TailBits;
    NoTailBits(t);
    StolenTail(t, TailLength(t) - 1, TailBits(t), 5);
  }

  /** The two keys that a short key without a tail is completed to. */
  function Half(p: Path, from: Geometry, b: nat): nat {
    Up(2 * HeadOf(from, p) + b, 63 - KeyWidth(from.low, true))
  }

  lemma SplitPaths(p: Path, from: Geometry, to: Geometry)
    requires ValidPath(from, p) && to.low != from.low && Short(from, p.level, p.slot.rest)
    requires p.slot.tail == NO_TAIL_BITS
    ensures RePath(p, from, to) == (WithTail(KeyPath(to, Half(p, from, 1), false), NO_TAIL_BITS),
                                    WithTail(KeyPath(to, Half(p, from, 0), false), NO_TAIL_BITS))
  {
    hide ToPath, FromPathNoTail, HeadOf, Up, Pow2, Or, Shl;
    PathKey(from, p);
    KeyWithBit(HeadOf(from, p), 1, KeyWidth(from.low, true));
    UpDouble(HeadOf(from, p), 63 - KeyWidth(from.low, true));
  }

  lemma ResizeSplit(p: Path, from: Geometry, to: Geometry)
    requires ValidPath(from, p) && to.low != from.low && Short(from, p.level, p.slot.rest)
    requires p.slot.tail == NO_TAIL_BITS
    ensures KeepsKeys(p, from, to) <==> to.low + 1 == from.low
  {
    hide ToPath, RePath, PathPrefix, KeysOf, TailLength, HeadOf, Half, Up, Pow2;
    SplitPaths(p, from, to);
    var (next, extra) := RePath(p, from, to);
    KeyPathWidth(to, Half(p, from, 1), false);
    KeyPathWidth(to, Half(p, from, 0), false);
    NoTailBits(NO_TAIL_BITS);
    PrefixFits(from, p);
    PrefixFits(to, next);
    PrefixFits(to, extra);
    var a, b, c := PathPrefix(from, p), PathPrefix(to, next), PathPrefix(to, extra);
    if to.low + 1 == from.low {
      HalfPath(p, from, to, 0);
      HalfPath(p, from, to, 1);
    } else if to.low < from.low {
      ShorterIsLarger(b, a);
    } else {
      TwoTooLong(a, b, c);
    }
  }

  lemma HalfTop(p: Path, from: Geometry, b: nat)
    requires ValidPath(from, p) && Short(from, p.level, p.slot.rest) && b < 2
    ensures var w := KeyWidth(from.low, true);
            Top(w, Half(p, from, b)) == HeadOf(from, p) < Pow2(w)
  {
    hide HeadOf, Up, Pow2, Top, FromPathNoTail;
    PathKey(from, p);
    TopOfHalf(KeyWidth(from.low, true), HeadOf(from, p), b);
  }

  lemma TopOfHalf(w: nat, head: nat, b: nat)
    requires w < 64 && head < Pow2(w) && b < 2
    ensures Top(w, Up(2 * head + b, 63 - w)) == head
  {
    hide Up, Pow2, High;
    DoubleBound(head, w);
    KeyOfBits(w, 1, 2 * head + b);
    OneBit(head);
  }

  lemma StillValid(geo: Geometry, q: Path, t: Tail)
    requires ValidPath(geo, q) && t != 0
    ensures ValidPath(geo, WithTail(q, t))
  {
    hide Pow2;
  }

  /** For the next smaller size both completions stand for what the path itself did. */
  lemma HalfPath(p: Path, from: Geometry, to: Geometry, b: nat)
    requires ValidPath(from, p) && to.low + 1 == from.low && Short(from, p.level, p.slot.rest)
    requires p.slot.tail == NO_TAIL_BITS && b < 2
    ensures var q := WithTail(KeyPath(to, Half(p, from, b), false), NO_TAIL_BITS);
            ValidPath(to, q) && PathPrefix(to, q) == PathPrefix(from, p)
  {
    hide ToPath, HeadOf, Up, Pow2, EntryPrefix, Top, Half, ValidPath;
    HalfTop(p, from, b);
    ToPathHead(Half(p, from, b), to, false);
    var q := KeyPath(to, Half(p, from, b), false);
    SameHead(to, q, WithTail(q, NO_TAIL_BITS));
    StillValid(to, q, NO_TAIL_BITS);
  }

  // ---------- all sizes ----------

  /** Translating keeps the keys of a path exactly in the three cases. */
  lemma RePathKeepsIff(p: Path, from: Geometry, to: Geometry)
    requires ValidPath(from, p)
    ensures KeepsKeys(p, from, to) <==> Resizes(p, from, to)
  {
    hide ToPath, RePath, PathPrefix, HeadOf, Up, Pow2, KeysOf;
    if to.low == from.low {
      RePathExact(p, from, to);
    } else if p.level < from.cursor {
      hide KeepsKeys;
      ResizeDoubled(p, from, to);
    } else if p.slot.rest.longFp {
      hide KeepsKeys;
      ResizeLong(p, from, to);
    } else {
      hide KeepsKeys;
      ResizeShort(p, from, to);
    }
  }

  /** Growing the size by one loses the meaning of every path on a doubled level, for one. */
  lemma GrowingFails(f: Feistel, g: Feistel)
    ensures var from, to := Geometry(f, g, 1, 0), Geometry(g, f, 0, 1);
            var p := Path(0, 0, Slot(Rest(false, 0), NO_TAIL_BITS));
            ValidPath(from, p) && !KeepsKeys(p, from, to)
  {
    hide KeepsKeys, PathPrefix, RePath;
    var from, to := Geometry(f, g, 1, 0), Geometry(g, f, 0, 1);
    var p := Path(0, 0, Slot(Rest(false, 0), NO_TAIL_BITS));
    ResizeDoubled(p, from, to);
  }
}
