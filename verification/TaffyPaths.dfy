/** Quotienting at one width: the paths of c/include/filter/taffy-cuckoo.h, and what upsize
and union make of them (c/lib/taffy-cuckoo.c). */
module TaffyPaths {
  import opened Bits
  import opened Tails
  import opened Prefixes
  import opened Buckets
  import opened Feistels

  const HEAD_SIZE: nat := 10

  /** The logarithm of a side's size. Beyond 49 a path would need more than 64 key bits. */
  type LogSize = n: nat | n <= 49

  /** A slot keeps a fingerprint and a tail. */
  datatype Path = Path(bucket: nat, slot: Slot<nat>)

  // ---------- the source's functions ----------

  function ToPath(raw: nat, f: Feistel, log: LogSize): Path {
    var hashed := PermuteForward(f, log + HEAD_SIZE, Shr(raw, 64 - log - HEAD_SIZE));
    var rawTail := Mask(TAIL_SIZE, Shr(raw, 64 - log - HEAD_SIZE - TAIL_SIZE));
    CutPath(hashed, rawTail)
  }

  function CutPath(hashed: nat, rawTail: nat): Path {
    Path(Shr(hashed, HEAD_SIZE), Slot(Mask(HEAD_SIZE, hashed), (2 * rawTail + 1) % 64))
  }

  function FromPathNoTail(p: Path, f: Feistel, log: LogSize): Word {
    var hashed := Or(Shl(p.bucket, HEAD_SIZE), p.slot.rest);
    Shl(PermuteBackward(f, log + HEAD_SIZE, hashed), 64 - log - HEAD_SIZE)
  }

  function WithTail(p: Path, t: Tail): Path {
    p.(slot := p.slot.(tail := t))
  }

  // ---------- what a path means ----------

  function Width(log: LogSize): nat {
    log + HEAD_SIZE
  }

  function Hashed(p: Path): nat {
    Up(p.bucket, HEAD_SIZE) + p.slot.rest
  }

  function HeadOf(f: Feistel, log: LogSize, p: Path): nat {
    PermuteBackward(f, Width(log), Hashed(p))
  }

  function PathPrefix(f: Feistel, log: LogSize, p: Path): Prefix {
    EntryPrefix(Width(log), HeadOf(f, log, p), p.slot.tail)
  }

  predicate ValidPath(log: LogSize, p: Path) {
    p.bucket < Pow2(log) && p.slot.rest < Pow2(HEAD_SIZE) && p.slot.tail != 0
  }

  ghost function TableReader(f: Feistel, log: LogSize): Reader<nat> {
    (bucket: nat, s: Slot<nat>) => PathPrefix(f, log, Path(bucket, s))
  }

  // ---------- keys to paths and back ----------

  lemma FromPathIsHead(p: Path, f: Feistel, log: LogSize)
    requires ValidPath(log, p)
    ensures HeadOf(f, log, p) < Pow2(Width(log))
    ensures FromPathNoTail(p, f, log) == Up(HeadOf(f, log, p), 64 - Width(log))
  {
    hide Or, Up, Pow2, Shl, PermuteBackward;
    ShlFits(p.bucket, log, HEAD_SIZE);
    OrIsSum(p.bucket, p.slot.rest, HEAD_SIZE);
    ShlFits(HeadOf(f, log, p), Width(log), 64 - Width(log));
  }

  lemma ToPathCuts(raw: nat, f: Feistel, log: LogSize, w: nat)
    requires w == Width(log)
    ensures ToPath(raw, f, log) == CutPath(PermuteForward(f, w, Top(w, raw)), KeyTail(raw, w))
  {
    hide High, Low, PermuteForward, CutPath;
  }

  lemma CutPathHashed(hashed: nat, rawTail: nat, log: LogSize)
    requires hashed < Pow2(Width(log)) && rawTail < 32
    ensures var p := CutPath(hashed, rawTail);
            ValidPath(log, p) && Hashed(p) == hashed && p.slot.tail == 2 * rawTail + 1
  {
    hide High, Low, Up, Pow2;
    HighLow(hashed, HEAD_SIZE);
    HighBound(hashed, log, HEAD_SIZE);
  }

  lemma CutPathInverse(p: Path, rawTail: nat, log: LogSize)
    requires ValidPath(log, p) && rawTail < 32
    ensures CutPath(Hashed(p), rawTail) == WithTail(p, 2 * rawTail + 1)
  {
    hide High, Low, Up, Pow2;
    JoinParts(p.bucket, p.slot.rest, HEAD_SIZE);
  }

  /** A key's path is valid, and determines exactly the key's first bits. */
  lemma ToPathHead(raw: nat, f: Feistel, log: LogSize)
    requires Top(Width(log), raw) < Pow2(Width(log))
    ensures var p := ToPath(raw, f, log);
            && ValidPath(log, p)
            && HeadOf(f, log, p) == Top(Width(log), raw)
            && p.slot.tail == 2 * KeyTail(raw, Width(log)) + 1
  {
    hide Hashed, PermuteForward, PermuteBackward, CutPath, Pow2, High, Low;
    var w := Width(log);
    ToPathCuts(raw, f, log, w);
    CutPathHashed(PermuteForward(f, w, Top(w, raw)), KeyTail(raw, w), log);
    BackwardUndoesForward(f, w, Top(w, raw));
  }

  /** Un-permuting and re-pathing are inverse, up to the tail. */
  lemma PathRoundTrip(f: Feistel, log: LogSize, p: Path, raw: nat)
    requires ValidPath(log, p) && Top(Width(log), raw) == HeadOf(f, log, p)
    ensures ToPath(raw, f, log) == WithTail(p, 2 * KeyTail(raw, Width(log)) + 1)
  {
    hide Hashed, PermuteForward, PermuteBackward, CutPath, Pow2, High, Low;
    var w := Width(log);
    HashedBound(log, p);
    ForwardUndoesBackward(f, w, Hashed(p));
    ToPathCuts(raw, f, log, w);
    CutPathInverse(p, KeyTail(raw, w), log);
  }

  lemma HashedBound(log: LogSize, p: Path)
    requires ValidPath(log, p)
    ensures Hashed(p) < Pow2(Width(log))
  {
    hide Up, Pow2;
    JoinBound(p.bucket, p.slot.rest, log, HEAD_SIZE);
  }

  predicate SamePlace(p: Path, q: Path) {
    p.bucket == q.bucket && p.slot.rest == q.slot.rest
  }

  lemma SameHead(f: Feistel, log: LogSize, p: Path, q: Path)
    requires SamePlace(p, q)
    ensures HeadOf(f, log, p) == HeadOf(f, log, q)
  {
    hide PermuteBackward, Up;
  }

  /** A key's path finds a stored path exactly when the stored one covers the key. */
  lemma ProbeExact(f: Feistel, log: LogSize, p: Path, k: Word)
    requires ValidPath(log, p)
    ensures var q := ToPath(k, f, log);
            && ValidPath(log, q)
            && (Covers(PathPrefix(f, log, p), k) <==> SamePlace(p, q) && IsPrefixOf(p.slot.tail, q.slot.tail))
  {
    hide HeadOf, ToPath, High, Low, Pow2, IsPrefixOf, EntryPrefix;
    var w := Width(log);
    EntryCovers(w, HeadOf(f, log, p), p.slot.tail, k);
    TopBound(w, k);
    ToPathHead(k, f, log);
    if Top(w, k) == HeadOf(f, log, p) {
      PathRoundTrip(f, log, p, k);
    }
    var q := ToPath(k, f, log);
    if SamePlace(p, q) {
      SameHead(f, log, p, q);
    }
  }

  /** A key's own path covers the key's first log + 15 bits. */
  lemma KeyPathPrefix(f: Feistel, log: LogSize, k: Word)
    ensures ValidPath(log, ToPath(k, f, log))
    ensures PathPrefix(f, log, ToPath(k, f, log)) == Prefix(log + 15, Top(log + 15, k))
  {
    hide ToPath, Pow2, HeadOf, High, Low, Up, Ctz;
    var w := Width(log);
    TopBound(w, k);
    ToPathHead(k, f, log);
    FullTail(KeyTail(k, w));
    TopTop(w, TAIL_SIZE, k);
    HighLow(Top(w + TAIL_SIZE, k), TAIL_SIZE);
  }

  lemma ReaderMonotone(f: Feistel, log: LogSize)
    ensures ShorterCoversMore(TableReader(f, log))
  {
    hide HeadOf, IsPrefixOf, EntryPrefix, Pow2;
    var g := TableReader(f, log);
    forall b: nat, s: Slot<nat>, t: Slot<nat> | t.tail != 0 && Matches(s, t)
      ensures KeysOf(g(b, t)) <= KeysOf(g(b, s))
    {
      SameHead(f, log, Path(b, s), Path(b, t));
      PrefixCoversMore(Width(log), HeadOf(f, log, Path(b, s)), s.tail, t.tail);
    }
  }

  // ---------- translating ----------

  /** The path of a key given by its first bits. */
  lemma PathOfHead(f: Feistel, log: LogSize, head: nat, raw: nat, t: Tail)
    requires t != 0 && head < Pow2(Width(log)) && Top(Width(log), raw) == head
    ensures var q := WithTail(ToPath(raw, f, log), t);
            ValidPath(log, q) && PathPrefix(f, log, q) == EntryPrefix(Width(log), head, t)
  {
    hide HeadOf, ToPath, High, Low, Pow2, EntryPrefix;
    ToPathHead(raw, f, log);
    SameHead(f, log, ToPath(raw, f, log), WithTail(ToPath(raw, f, log), t));
  }

  /** To the other side of the same filter, or to a filter of the same size. */
  function Across(p: Path, f: Feistel, to: Feistel, log: LogSize): Path {
    WithTail(ToPath(FromPathNoTail(p, f, log), to, log), p.slot.tail)
  }

  lemma AcrossExact(p: Path, f: Feistel, to: Feistel, log: LogSize)
    requires ValidPath(log, p)
    ensures ValidPath(log, Across(p, f, to, log))
    ensures PathPrefix(to, log, Across(p, f, to, log)) == PathPrefix(f, log, p)
  {
    hide HeadOf, ToPath, FromPathNoTail, High, Up, Pow2, EntryPrefix;
    FromPathIsHead(p, f, log);
    TopOfShifted(Width(log), HeadOf(f, log, p));
    PathOfHead(to, log, HeadOf(f, log, p), FromPathNoTail(p, f, log), p.slot.tail);
  }

  // ---------- to a filter of twice the size ----------

  /** The first or only path that upsize makes of p, and the second one (tail 0 if none). */
  function Doubled(p: Path, f: Feistel, to: Feistel, log: LogSize): (Path, Path)
    requires log < 49 && p.slot.tail != 0
  {
    var q := FromPathNoTail(p, f, log);
    var tail := p.slot.tail;
    if tail == NO_TAIL_BITS then
      var q' := Or(q, Shl(1, 64 - log - HEAD_SIZE - 1));
      (WithTail(ToPath(q, to, log + 1), tail), WithTail(ToPath(q', to, log + 1), tail))
    else
      var q' := Or(q, Shl(Shr(tail, TAIL_SIZE), 64 - log - HEAD_SIZE - 1));
      (WithTail(ToPath(q', to, log + 1), 2 * tail % 64), Path(0, Slot(0, 0)))
  }

  lemma KeyWithBit(head: nat, b: nat, w: nat)
    requires w < 64 && b < 2 && head < Pow2(w)
    ensures var raw := Or(Up(head, 64 - w), Shl(b, 63 - w));
            Top(w + 1, raw) == 2 * head + b < Pow2(w + 1)
  {
    hide Or, High;
    ShlFits(b, 1, 63 - w);
    JoinBound(b, 0, 1, 63 - w);
    OrIsSum(head, Up(b, 63 - w), 64 - w);
    UpSum(2 * head, b, 63 - w);
    UpUp(head, 1, 63 - w);
    TopOfShifted(w + 1, 2 * head + b);
  }

  lemma KeyWithZero(head: nat, w: nat)
    requires w < 64
    ensures Top(w + 1, Up(head, 64 - w)) == 2 * head
  {
    hide High;
    UpUp(head, 1, 63 - w);
    TopOfShifted(w + 1, 2 * head);
  }

  /** One path for a larger filter covers what the old one did; two share it between them. */
  lemma DoubledExact(p: Path, f: Feistel, to: Feistel, log: LogSize)
    requires log < 49 && ValidPath(log, p)
    ensures var (a, b) := Doubled(p, f, to, log);
            && ValidPath(log + 1, a)
            && (b.slot.tail == 0 <==> p.slot.tail != NO_TAIL_BITS)
            && (b.slot.tail == 0 ==> PathPrefix(to, log + 1, a) == PathPrefix(f, log, p))
            && (b.slot.tail != 0 ==>
                  && ValidPath(log + 1, b)
                  && Halves(PathPrefix(f, log, p), PathPrefix(to, log + 1, a), PathPrefix(to, log + 1, b))
                  && KeysOf(PathPrefix(f, log, p)) ==
                     KeysOf(PathPrefix(to, log + 1, a)) + KeysOf(PathPrefix(to, log + 1, b)))
  {
    hide HeadOf, ToPath, FromPathNoTail, High, Up, Pow2, EntryPrefix, Or, Shl;
    var w, head := Width(log), HeadOf(f, log, p);
    var tail: nat := p.slot.tail;
    var q := FromPathNoTail(p, f, log);
    FromPathIsHead(p, f, log);
    if tail == NO_TAIL_BITS {
      KeyWithZero(head, w);
      KeyWithBit(head, 0, w);
      KeyWithBit(head, 1, w);
      SplitEntry(w, head);
      PathOfHead(to, log + 1, 2 * head, q, tail);
      PathOfHead(to, log + 1, 2 * head + 1, Or(q, Shl(1, 63 - w)), tail);
    } else {
      FiveBits(tail, TAIL_SIZE);
      KeyWithBit(head, tail / 32, w);
      StealBit(w, head, tail);
      ShorterTail(tail);
      PathOfHead(to, log + 1, 2 * head + tail / 32, Or(q, Shl(tail / 32, 63 - w)), 2 * tail % 64);
    }
  }

  lemma ShorterTail(t: nat)
    ensures 2 * t % 64 < 64
  {
  }

  // ---------- to a larger filter, for union ----------

  /** All the key bits that a path determines, tail included, in the high bits of a word. */
  function JoinedKey(p: Path, f: Feistel, log: LogSize): nat
    requires log < 49 && p.slot.tail != 0
  {
    Or(FromPathNoTail(p, f, log), Shl(And(p.slot.tail, p.slot.tail - 1), 64 - log - HEAD_SIZE - TAIL_SIZE - 1))
  }

  /** The tail without its marker, in the high bits of its field. */
  lemma TailInPlace(t: Tail, n: nat, b: nat)
    requires t != 0 && n == TailLength(t) && b == TailBits(t)
    ensures And(t, t - 1) == Up(b, 6 - n) < 64 && b < Pow2(n)
  {
    hide And, Up, Ctz;
    TailForm(t);
    AndDropsMarker(b, 5 - n);
    TailBitsBound(t);
    Pow2Small();
    JoinBound(b, 0, n, 6 - n);
  }

  lemma JoinedKeyIsPrefix(p: Path, f: Feistel, log: LogSize)
    requires log < 49 && ValidPath(log, p)
    ensures var pr := PathPrefix(f, log, p);
            pr.width <= 64 && JoinedKey(p, f, log) == Up(pr.bits, 64 - pr.width) && pr.bits < Pow2(pr.width)
  {
    hide HeadOf, FromPathNoTail, Or, And, Up, Pow2, Shl, TailBits;
    var n, b := TailLength(p.slot.tail), TailBits(p.slot.tail);
    var w, head := Width(log), HeadOf(f, log, p);
    FromPathIsHead(p, f, log);
    TailInPlace(p.slot.tail, n, b);
    Pow2Six();
    ShlFits(Up(b, 6 - n), 6, 48 - log);
    UpUp(b, 6 - n, 48 - log);
    JoinBound(b, 0, n, 64 - w - n);
    OrIsSum(head, Up(b, 64 - w - n), 64 - w);
    UpUp(head, n, 64 - w - n);
    UpSum(Up(head, n), b, 64 - w - n);
    JoinBound(head, b, w, n);
  }

  /** The tail's bits go where the head has none. */
  lemma TailIsDisjoint(p: Path, f: Feistel, log: LogSize)
    requires log < 49 && ValidPath(log, p)
    ensures And(FromPathNoTail(p, f, log),
                Shl(And(p.slot.tail, p.slot.tail - 1), 64 - log - HEAD_SIZE - TAIL_SIZE - 1)) == 0
  {
    hide HeadOf, FromPathNoTail, And, Up, Pow2, Shl, TailBits;
    var n, b := TailLength(p.slot.tail), TailBits(p.slot.tail);
    var w := Width(log);
    FromPathIsHead(p, f, log);
    TailInPlace(p.slot.tail, n, b);
    Pow2Six();
    ShlFits(Up(b, 6 - n), 6, 48 - log);
    UpUp(b, 6 - n, 48 - log);
    JoinBound(b, 0, n, 64 - w - n);
    AndDisjoint(HeadOf(f, log, p), Up(b, 64 - w - n), 64 - w);
  }

  /** So do the bits that complete a path with too few tail bits. */
  lemma ExtensionIsDisjoint(p: Path, f: Feistel, log: LogSize, log': LogSize, i: nat, m: nat)
    requires log < log' && ValidPath(log, p) && log' == log + TailLength(p.slot.tail) + m && i < Pow2(m)
    ensures And(JoinedKey(p, f, log), Shl(i, 64 - log' - HEAD_SIZE)) == 0
  {
    hide HeadOf, JoinedKey, And, Up, Pow2, Shl, TailBits, Ctz;
    var pr := PathPrefix(f, log, p);
    var e := 64 - Width(log');
    JoinedKeyIsPrefix(p, f, log);
    ShlFits(i, m, e);
    JoinBound(i, 0, m, e);
    AndDisjoint(pr.bits, Up(i, e), m + e);
  }

  lemma Pow2Six()
    ensures Pow2(6) == 64
  {
    Pow2Small();
  }

  /** A path with enough tail bits, for a filter that is d sizes larger. */
  function Enlarged(p: Path, f: Feistel, to: Feistel, log: LogSize, log': LogSize): Path
    requires log < log' && p.slot.tail != 0
  {
    WithTail(ToPath(JoinedKey(p, f, log), to, log'), Shl(p.slot.tail, log' - log) % 64)
  }

  lemma EnlargedExact(p: Path, f: Feistel, to: Feistel, log: LogSize, log': LogSize)
    requires log < log' && ValidPath(log, p) && log' <= log + TailLength(p.slot.tail)
    ensures ValidPath(log', Enlarged(p, f, to, log, log'))
    ensures PathPrefix(to, log', Enlarged(p, f, to, log, log')) == PathPrefix(f, log, p)
  {
    hide HeadOf, ToPath, JoinedKey, Up, Pow2, Shl, High, EntryPrefix;
    var d, n := log' - log, TailLength(p.slot.tail);
    var pr := PathPrefix(f, log, p);
    JoinedKeyIsPrefix(p, f, log);
    EntryWidth(Width(log), HeadOf(f, log, p), p.slot.tail);
    StealBits(Width(log), HeadOf(f, log, p), p.slot.tail, d);
    PartsOfUp(pr.bits, 64 - pr.width, n - d);
    HighBound(pr.bits, Width(log'), n - d);
    PathOfHead(to, log', High(pr.bits, n - d), JoinedKey(p, f, log), Shl(p.slot.tail, d) % 64);
  }

  lemma EntryWidth(w: nat, head: nat, t: Tail)
    ensures EntryPrefix(w, head, t).width == w + TailLength(t)
  {
  }

  /** A path with too few tail bits, completed by the i-th choice of the missing ones. */
  function Extended(p: Path, f: Feistel, to: Feistel, log: LogSize, log': LogSize, i: nat): Path
    requires log < log' && p.slot.tail != 0
  {
    WithTail(ToPath(Or(JoinedKey(p, f, log), Shl(i, 64 - log' - HEAD_SIZE)), to, log'), NO_TAIL_BITS)
  }

  lemma ExtendedExact(p: Path, f: Feistel, to: Feistel, log: LogSize, log': LogSize, i: nat, m: nat)
    requires log < log' && ValidPath(log, p) && log' == log + TailLength(p.slot.tail) + m && i < Pow2(m)
    ensures ValidPath(log', Extended(p, f, to, log, log', i))
    ensures var pr := PathPrefix(f, log, p);
            PathPrefix(to, log', Extended(p, f, to, log, log', i)) == Prefix(pr.width + m, Up(pr.bits, m) + i)
  {
    hide HeadOf, ToPath, JoinedKey, Up, Pow2, Shl, High, Or, TailBits, Ctz;
    var pr := PathPrefix(f, log, p);
    var e := 64 - Width(log');
    JoinedKeyIsPrefix(p, f, log);
    ShlFits(i, m, e);
    JoinBound(i, 0, m, e);
    OrIsSum(pr.bits, Up(i, e), m + e);
    UpUp(pr.bits, m, e);
    UpSum(Up(pr.bits, m), i, e);
    TopOfShifted(Width(log'), Up(pr.bits, m) + i);
    JoinBound(pr.bits, i, pr.width, m);
    NoTailBits(NO_TAIL_BITS);
    UpZero(Up(pr.bits, m) + i);
    PathOfHead(to, log', Up(pr.bits, m) + i, Or(JoinedKey(p, f, log), Shl(i, e)), NO_TAIL_BITS);
  }

  lemma UpZero(x: nat)
    ensures Up(x, 0) == x
  {
  }
}
