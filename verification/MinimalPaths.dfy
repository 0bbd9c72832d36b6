/** Variable-width quotienting: c/include/filter/paths.h. */
module MinimalPaths {
  import opened Bits
  import opened Tails
  import opened Prefixes
  import opened Buckets
  import opened Feistels

  const LOG_LEVELS: nat := 5
  const LEVELS: nat := 32
  const HEAD_SIZE: nat := 9

  /** The logarithm of a level's size. Beyond 45 a path would need more than 64 key bits. */
  type LogSize = n: nat | n <= 45

  /** What a slot keeps of a key besides its tail. */
  datatype Rest = Rest(longFp: bool, fingerprint: nat)

  datatype Path = Path(level: nat, bucket: nat, slot: Slot<Rest>)

  /** All that the meaning of a side's paths depends on: its two permutations, how many levels
  have been doubled, and the size of the others. */
  datatype Geometry = Geometry(lo: Feistel, hi: Feistel, cursor: nat, low: LogSize)

  function Bit(b: bool): nat {
    if b then 1 else 0
  }

  // ---------- the source's functions ----------

  /** The path of a raw key; empty (tail 0) if the key is taken short and its level is one of
  the doubled ones. */
  function ToPath(raw: nat, f: Feistel, cursor: nat, low: LogSize, short: bool): Path {
    var size := KeyWidth(low, short);
    var all := Shr(raw, 64 - size - TAIL_SIZE);
    var rawTail := Mask(TAIL_SIZE, all);
    var hashed := PermuteForward(f, size, Shr(all, TAIL_SIZE));
    CutPath(hashed, rawTail, cursor, low, short)
  }

  function KeyWidth(low: LogSize, short: bool): nat {
    LOG_LEVELS + low + HEAD_SIZE - Bit(short)
  }

  /** The second half of to_path: cuts the permuted bits into level, bucket and fingerprint. */
  function CutPath(hashed: nat, rawTail: nat, cursor: nat, low: LogSize, short: bool): Path {
    var level := Shr(hashed, low + HEAD_SIZE - Bit(short));
    var big := level < cursor;
    if big && short then
      Path(level, 0, Slot(Rest(false, 0), 0))
    else
      var fpSize := HEAD_SIZE - Bit(short) - Bit(big);
      var bucket := Mask(low + Bit(big), Shr(hashed, fpSize));
      var fingerprint := Mask(fpSize, hashed);
      Path(level, bucket, Slot(Rest(!big && !short, fingerprint), (2 * rawTail + 1) % 64))
  }

  /** The key's high bits that a path determines without its tail, in the high bits of a word. */
  function FromPathNoTail(p: Path, f: Feistel, levelSize: nat, fpSize: nat): Word
    requires 0 < LOG_LEVELS + levelSize + fpSize < 64
  {
    var hashed := Or(Shl(Or(Shl(p.level, levelSize), p.bucket), fpSize), p.slot.rest.fingerprint);
    Shl(PermuteBackward(f, LOG_LEVELS + levelSize + fpSize, hashed), 64 - LOG_LEVELS - levelSize - fpSize)
  }

  /** Translates a path to another side, to the next cursor or to another size: the path to use
  instead, and an extra one (empty if there is none) when a short key had to be completed by both
  values of its next bit. */
  function RePath(p: Path, from: Geometry, to: Geometry): (Path, Path)
    requires p.slot.tail != 0
  {
    var upsize := to.low != from.low;
    var low, tail := from.low, p.slot.tail;
    if p.level < from.cursor then
      var key := FromPathNoTail(p, from.hi, low + 1, HEAD_SIZE - 1);
      (WithTail(ToPath(key, to.hi, to.cursor, to.low, false), tail), NoPath())
    else if p.slot.rest.longFp then
      var key := FromPathNoTail(p, from.hi, low, HEAD_SIZE);
      (WithTail(ToPath(key, if upsize then to.lo else to.hi, to.cursor, to.low, upsize), tail), NoPath())
    else
      var key := FromPathNoTail(p, from.lo, low, HEAD_SIZE - 1);
      var q := ToPath(key, to.lo, to.cursor, to.low, true);
      if !upsize && q.level >= to.cursor then
        (WithTail(q, tail), NoPath())
      else if tail != NO_TAIL_BITS then
        var k := Or(key, Shl(Shr(tail, TAIL_SIZE), 64 - LOG_LEVELS - low - HEAD_SIZE));
        (WithTail(ToPath(k, to.hi, to.cursor, to.low, false), 2 * tail % 64), NoPath())
      else
        var k := Or(key, Shl(1, 64 - LOG_LEVELS - low - HEAD_SIZE));
        (WithTail(ToPath(k, to.hi, to.cursor, to.low, false), tail),
         WithTail(ToPath(key, to.hi, to.cursor, to.low, false), tail))
  }

  function WithTail(p: Path, t: Tail): Path {
    p.(slot := p.slot.(tail := t))
  }

  function NoPath(): Path {
    Path(0, 0, Slot(Rest(false, 0), 0))
  }

  // ---------- what a path means ----------

  predicate Short(geo: Geometry, level: nat, rest: Rest) {
    level >= geo.cursor && !rest.longFp
  }

  function LevelSize(geo: Geometry, level: nat): nat {
    geo.low + Bit(level < geo.cursor)
  }

  function FpSize(geo: Geometry, level: nat, rest: Rest): nat {
    HEAD_SIZE - Bit(level < geo.cursor || !rest.longFp)
  }

  /** How many key bits a path determines without its tail. */
  function Width(geo: Geometry, level: nat, rest: Rest): nat {
    LOG_LEVELS + geo.low + HEAD_SIZE - Bit(Short(geo, level, rest))
  }

  function Permutation(geo: Geometry, level: nat, rest: Rest): Feistel {
    if Short(geo, level, rest) then geo.lo else geo.hi
  }

  function Hashed(p: Path, levelSize: nat, fpSize: nat): nat {
    Up(Up(p.level, levelSize) + p.bucket, fpSize) + p.slot.rest.fingerprint
  }

  /** The key bits that a path determines without its tail. */
  function HeadOf(geo: Geometry, p: Path): nat {
    var r := p.slot.rest;
    PermuteBackward(Permutation(geo, p.level, r), Width(geo, p.level, r),
                    Hashed(p, LevelSize(geo, p.level), FpSize(geo, p.level, r)))
  }

  function PathPrefix(geo: Geometry, p: Path): Prefix {
    EntryPrefix(Width(geo, p.level, p.slot.rest), HeadOf(geo, p), p.slot.tail)
  }

  /** A path that fits its level; there are none with a long fingerprint before the cursor. */
  predicate ValidPath(geo: Geometry, p: Path) {
    && p.level < LEVELS
    && p.bucket < Pow2(LevelSize(geo, p.level))
    && ValidRest(geo, p.level, p.slot.rest)
    && p.slot.tail != 0
  }

  predicate ValidRest(geo: Geometry, level: nat, rest: Rest) {
    && rest.fingerprint < Pow2(FpSize(geo, level, rest))
    && (level < geo.cursor ==> !rest.longFp)
  }

  // ---------- from a path to its key bits ----------

  lemma HashedBound(p: Path, levelSize: nat, fpSize: nat)
    requires p.level < LEVELS && p.bucket < Pow2(levelSize) && p.slot.rest.fingerprint < Pow2(fpSize)
    ensures Hashed(p, levelSize, fpSize) < Pow2(LOG_LEVELS + levelSize + fpSize)
  {
    Pow2Small();
    JoinBound(p.level, p.bucket, LOG_LEVELS, levelSize);
    JoinBound(Up(p.level, levelSize) + p.bucket, p.slot.rest.fingerprint, LOG_LEVELS + levelSize, fpSize);
  }

  lemma FieldsJoined(p: Path, levelSize: nat, fpSize: nat)
    requires LOG_LEVELS + levelSize + fpSize < 64
    requires p.level < LEVELS && p.bucket < Pow2(levelSize) && p.slot.rest.fingerprint < Pow2(fpSize)
    ensures Or(Shl(Or(Shl(p.level, levelSize), p.bucket), fpSize), p.slot.rest.fingerprint) ==
            Hashed(p, levelSize, fpSize)
  {
    hide Or, Shl, Up, Pow2;
    Pow2Small();
    var li := Up(p.level, levelSize) + p.bucket;
    assert Or(Shl(p.level, levelSize), p.bucket) == li by {
      ShlFits(p.level, LOG_LEVELS, levelSize);
      OrIsSum(p.level, p.bucket, levelSize);
    }
    JoinBound(p.level, p.bucket, LOG_LEVELS, levelSize);
    ShlFits(li, LOG_LEVELS + levelSize, fpSize);
    OrIsSum(li, p.slot.rest.fingerprint, fpSize);
  }

  lemma FromPathIsHead(p: Path, f: Feistel, levelSize: nat, fpSize: nat, w: nat)
    requires w == LOG_LEVELS + levelSize + fpSize < 64
    requires p.level < LEVELS && p.bucket < Pow2(levelSize) && p.slot.rest.fingerprint < Pow2(fpSize)
    ensures FromPathNoTail(p, f, levelSize, fpSize) ==
            Up(PermuteBackward(f, w, Hashed(p, levelSize, fpSize)), 64 - w)
  {
    hide PermuteBackward, Hashed, Or, Up, Pow2;
    FieldsJoined(p, levelSize, fpSize);
    ShlFits(PermuteBackward(f, w, Hashed(p, levelSize, fpSize)), w, 64 - w);
  }

  // ---------- from a key to its path ----------

  /** The level, the bucket and the fingerprint of a path are the permuted bits, cut up. */
  lemma CutUp(hashed: nat, levelSize: nat, fpSize: nat)
    requires hashed < Pow2(LOG_LEVELS + levelSize + fpSize)
    ensures High(hashed, levelSize + fpSize) < LEVELS
    ensures var bucket := Low(High(hashed, fpSize), levelSize);
            && bucket < Pow2(levelSize)
            && Low(hashed, fpSize) < Pow2(fpSize)
            && Up(Up(High(hashed, levelSize + fpSize), levelSize) + bucket, fpSize) + Low(hashed, fpSize) == hashed
  {
    Pow2Small();
    HighBound(hashed, LOG_LEVELS, levelSize + fpSize);
    HighLow(hashed, fpSize);
    HighLow(High(hashed, fpSize), levelSize);
    HighHigh(hashed, fpSize, levelSize);
  }

  lemma CutPathTooBig(hashed: nat, rawTail: nat, cursor: nat, low: LogSize)
    requires hashed < Pow2(KeyWidth(low, true)) && High(hashed, low + HEAD_SIZE - 1) < cursor
    ensures var p := CutPath(hashed, rawTail, cursor, low, true);
            p.level == High(hashed, low + HEAD_SIZE - 1) < LEVELS && p.slot.tail == 0
  {
    Pow2Small();
    HighBound(hashed, LOG_LEVELS, low + HEAD_SIZE - 1);
  }

  lemma CutPathFields(hashed: nat, rawTail: nat, cursor: nat, low: LogSize, short: bool, ls: nat, fs: nat)
    requires rawTail < 32
    requires var big := High(hashed, ls + fs) < cursor;
             !(big && short) && ls == low + Bit(big) && fs == HEAD_SIZE - Bit(short) - Bit(big)
    ensures var level := High(hashed, ls + fs);
            CutPath(hashed, rawTail, cursor, low, short) ==
            Path(level, Low(High(hashed, fs), ls),
                 Slot(Rest(!(level < cursor) && !short, Low(hashed, fs)), 2 * rawTail + 1))
  {
    hide High, Low, Pow2, And;
    assert ls + fs == low + HEAD_SIZE - Bit(short);
  }

  /** A path cut from permuted bits is valid, and reads back as those bits. */
  lemma CutPathHashed(hashed: nat, rawTail: nat, geo: Geometry, short: bool)
    requires hashed < Pow2(KeyWidth(geo.low, short)) && rawTail < 32
    ensures var p := CutPath(hashed, rawTail, geo.cursor, geo.low, short);
            && p.level < LEVELS
            && (p.slot.tail == 0 <==> short && p.level < geo.cursor)
            && (p.slot.tail != 0 ==>
                  && ValidPath(geo, p)
                  && Short(geo, p.level, p.slot.rest) == short
                  && Hashed(p, LevelSize(geo, p.level), FpSize(geo, p.level, p.slot.rest)) == hashed
                  && p.slot.tail == 2 * rawTail + 1)
  {
    hide High, Low, Up, Pow2, CutPath;
    var inLevel := geo.low + HEAD_SIZE - Bit(short);
    var big := High(hashed, inLevel) < geo.cursor;
    if big && short {
      CutPathTooBig(hashed, rawTail, geo.cursor, geo.low);
    } else {
      var fs := HEAD_SIZE - Bit(short) - Bit(big);
      var ls := inLevel - fs;
      CutPathFields(hashed, rawTail, geo.cursor, geo.low, short, ls, fs);
      CutUp(hashed, ls, fs);
    }
  }

  /** With all five tail bits, a key's entry is the key's first w + 5 bits. */
  lemma FullEntry(w: nat, k: nat)
    requires w + TAIL_SIZE <= 64
    ensures EntryPrefix(w, Top(w, k), 2 * KeyTail(k, w) + 1) == Prefix(w + TAIL_SIZE, Top(w + TAIL_SIZE, k))
  {
    hide High, Low, Up, Ctz;
    FullTail(KeyTail(k, w));
    TopTop(w, TAIL_SIZE, k);
    HighLow(Top(w + TAIL_SIZE, k), TAIL_SIZE);
  }

  /** A key's path is valid, and determines exactly the key's first bits. */
  lemma ToPathHead(raw: nat, geo: Geometry, short: bool)
    requires Top(KeyWidth(geo.low, short), raw) < Pow2(KeyWidth(geo.low, short))
    ensures var p := ToPath(raw, if short then geo.lo else geo.hi, geo.cursor, geo.low, short);
            var w := KeyWidth(geo.low, short);
            && p.level < LEVELS
            && (p.slot.tail == 0 <==> short && p.level < geo.cursor)
            && (p.slot.tail != 0 ==>
                  && ValidPath(geo, p)
                  && Short(geo, p.level, p.slot.rest) == short
                  && HeadOf(geo, p) == Top(w, raw)
                  && p.slot.tail == 2 * KeyTail(raw, w) + 1)
  {
    var f := if short then geo.lo else geo.hi;
    var w := KeyWidth(geo.low, short);
    ToPathCuts(raw, f, geo.cursor, geo.low, short, w);
    CutPathHashed(PermuteForward(f, w, Top(w, raw)), KeyTail(raw, w), geo, short);
    BackwardUndoesForward(f, w, Top(w, raw));
  }

  lemma ToPathCuts(raw: nat, f: Feistel, cursor: nat, low: LogSize, short: bool, w: nat)
    requires w == KeyWidth(low, short)
    ensures ToPath(raw, f, cursor, low, short) ==
            CutPath(PermuteForward(f, w, Top(w, raw)), KeyTail(raw, w), cursor, low, short)
  {
    TopTop(w, TAIL_SIZE, raw);
  }

  // ---------- finding ----------

  /** The level's slots, read back. */
  ghost function LevelReader(geo: Geometry, level: nat): Reader<Rest> {
    (bucket: nat, s: Slot<Rest>) => PathPrefix(geo, Path(level, bucket, s))
  }

  predicate SamePlace(p: Path, q: Path) {
    p.level == q.level && p.bucket == q.bucket && p.slot.rest == q.slot.rest
  }

  /** Cutting up the bits that a valid path stands for gives the path back. */
  lemma CutPathInverse(geo: Geometry, p: Path, rawTail: nat, ls: nat, fs: nat)
    requires ValidPath(geo, p) && rawTail < 32
    requires ls == LevelSize(geo, p.level) && fs == FpSize(geo, p.level, p.slot.rest)
    ensures CutPath(Hashed(p, ls, fs), rawTail, geo.cursor, geo.low, Short(geo, p.level, p.slot.rest)) ==
            WithTail(p, 2 * rawTail + 1)
  {
    hide High, Low, Up, Pow2, CutPath;
    var li := Up(p.level, ls) + p.bucket;
    JoinParts(li, p.slot.rest.fingerprint, fs);
    JoinParts(p.level, p.bucket, ls);
    HighHigh(Hashed(p, ls, fs), fs, ls);
    assert fs + ls == ls + fs;
    CutPathFields(Hashed(p, ls, fs), rawTail, geo.cursor, geo.low, Short(geo, p.level, p.slot.rest), ls, fs);
  }

  lemma HeadForward(geo: Geometry, p: Path)
    requires ValidPath(geo, p)
    ensures var r := p.slot.rest;
            PermuteForward(Permutation(geo, p.level, r), Width(geo, p.level, r), HeadOf(geo, p)) ==
            Hashed(p, LevelSize(geo, p.level), FpSize(geo, p.level, r))
  {
    hide PermuteForward, PermuteBackward, Up, Pow2;
    var r := p.slot.rest;
    HashedBound(p, LevelSize(geo, p.level), FpSize(geo, p.level, r));
    ForwardUndoesBackward(Permutation(geo, p.level, r), Width(geo, p.level, r),
                          Hashed(p, LevelSize(geo, p.level), FpSize(geo, p.level, r)));
  }

  function KeyPath(geo: Geometry, k: nat, short: bool): Path {
    ToPath(k, if short then geo.lo else geo.hi, geo.cursor, geo.low, short)
  }

  /** A key whose first bits a valid path stands for has that path, up to the tail: un-permuting
  and re-pathing are inverse, for every cursor, size and length of key. */
  lemma PathRoundTrip(geo: Geometry, p: Path, raw: nat)
    requires ValidPath(geo, p)
    requires Top(Width(geo, p.level, p.slot.rest), raw) == HeadOf(geo, p)
    ensures var w := Width(geo, p.level, p.slot.rest);
            KeyPath(geo, raw, Short(geo, p.level, p.slot.rest)) == WithTail(p, 2 * KeyTail(raw, w) + 1)
  {
    hide PermuteForward, HeadOf, CutPath, Up, Pow2, High;
    var r := p.slot.rest;
    var short := Short(geo, p.level, r);
    HeadForward(geo, p);
    ToPathCuts(raw, Permutation(geo, p.level, r), geo.cursor, geo.low, short, Width(geo, p.level, r));
    CutPathInverse(geo, p, KeyTail(raw, Width(geo, p.level, r)), LevelSize(geo, p.level),
                   FpSize(geo, p.level, r));
  }

  /** The probe for keys of the stored path's own length finds it exactly when the path covers
  the key; the other probe never does. */
  lemma ProbeExact(geo: Geometry, p: Path, k: Word)
    requires ValidPath(geo, p)
    ensures var short := Short(geo, p.level, p.slot.rest);
            var q := KeyPath(geo, k, short);
            Covers(PathPrefix(geo, p), k) <==>
            q.slot.tail != 0 && SamePlace(p, q) && IsPrefixOf(p.slot.tail, q.slot.tail)
    ensures var q := KeyPath(geo, k, !Short(geo, p.level, p.slot.rest));
            !(q.slot.tail != 0 && SamePlace(p, q))
  {
    hide HeadOf, ToPath, High, Low, Pow2, IsPrefixOf, EntryPrefix;
    var short := Short(geo, p.level, p.slot.rest);
    var w := Width(geo, p.level, p.slot.rest);
    EntryCovers(w, HeadOf(geo, p), p.slot.tail, k);
    TopBound(w, k);
    ToPathHead(k, geo, short);
    TopBound(KeyWidth(geo.low, !short), k);
    ToPathHead(k, geo, !short);
    if Top(w, k) == HeadOf(geo, p) {
      PathRoundTrip(geo, p, k);
    }
    var q := KeyPath(geo, k, short);
    if q.slot.tail != 0 && SamePlace(p, q) {
      SameHead(geo, p, q);
    }
  }

  lemma SameHead(geo: Geometry, p: Path, q: Path)
    requires SamePlace(p, q)
    ensures HeadOf(geo, p) == HeadOf(geo, q)
  {
    hide PermuteBackward, Up;
  }

  // ---------- translating ----------

  /** The path, in another geometry, of a key given by its first bits. */
  lemma PathOfHead(geo: Geometry, short: bool, head: nat, raw: nat, t: Tail)
    requires t != 0 && head < Pow2(KeyWidth(geo.low, short))
    requires raw == Up(head, 64 - KeyWidth(geo.low, short))
    ensures var q := KeyPath(geo, raw, short);
            && (q.slot.tail == 0 <==> short && q.level < geo.cursor)
            && (q.slot.tail != 0 ==>
                  && ValidPath(geo, WithTail(q, t))
                  && PathPrefix(geo, WithTail(q, t)) == EntryPrefix(KeyWidth(geo.low, short), head, t))
  {
    hide HeadOf, ToPath, High, Low, Pow2, Up, EntryPrefix;
    TopOfShifted(KeyWidth(geo.low, short), head);
    ToPathHead(raw, geo, short);
    var q := KeyPath(geo, raw, short);
    SameHead(geo, q, WithTail(q, t));
  }

  lemma PathKey(geo: Geometry, p: Path)
    requires ValidPath(geo, p)
    ensures var r := p.slot.rest;
            var w := Width(geo, p.level, r);
            && HeadOf(geo, p) < Pow2(w)
            && FromPathNoTail(p, Permutation(geo, p.level, r), LevelSize(geo, p.level), FpSize(geo, p.level, r)) ==
               Up(HeadOf(geo, p), 64 - w)
  {
    hide PermuteBackward, Up, Pow2, FromPathNoTail, Hashed;
    var r := p.slot.rest;
    FromPathIsHead(p, Permutation(geo, p.level, r), LevelSize(geo, p.level), FpSize(geo, p.level, r),
                   Width(geo, p.level, r));
  }

  /** Setting the bit after a short key's last one. */
  lemma KeyWithBit(head: nat, b: nat, w: nat)
    requires w < 64 && b < 2
    ensures Or(Up(head, 64 - w), Shl(b, 63 - w)) == Up(2 * head + b, 63 - w)
  {
    hide Or, Up, Pow2, Shl;
    Pow2Small();
    ShlFits(b, 1, 63 - w);
    JoinBound(b, 0, 1, 63 - w);
    OrIsSum(head, Up(b, 63 - w), 64 - w);
    UpSum(2 * head, b, 63 - w);
    UpDouble(head, 63 - w);
  }

  /** A translated path stands for the same prefix; when it is split, the two new prefixes are
  the halves of the old one. */
  lemma RePathExact(p: Path, from: Geometry, to: Geometry)
    requires ValidPath(from, p) && to.low == from.low
    ensures var (next, extra) := RePath(p, from, to);
            && ValidPath(to, next)
            && (extra.slot.tail == 0 ==> PathPrefix(to, next) == PathPrefix(from, p))
            && (extra.slot.tail != 0 ==>
                  && ValidPath(to, extra)
                  && Halves(PathPrefix(from, p), PathPrefix(to, extra), PathPrefix(to, next))
                  && KeysOf(PathPrefix(from, p)) ==
                     KeysOf(PathPrefix(to, next)) + KeysOf(PathPrefix(to, extra)))
  {
    hide HeadOf, ToPath, Pow2, Up, EntryPrefix, FromPathNoTail, Or, Shl, High;
    PathKey(from, p);
    if Short(from, p.level, p.slot.rest) {
      RePathShort(p, from, to);
    } else {
      PathOfHead(to, false, HeadOf(from, p), Up(HeadOf(from, p), 64 - KeyWidth(to.low, false)), p.slot.tail);
    }
  }

  lemma RePathShort(p: Path, from: Geometry, to: Geometry)
    requires ValidPath(from, p) && to.low == from.low && Short(from, p.level, p.slot.rest)
    ensures var (next, extra) := RePath(p, from, to);
            && ValidPath(to, next)
            && (extra.slot.tail == 0 ==> PathPrefix(to, next) == PathPrefix(from, p))
            && (extra.slot.tail != 0 ==>
                  && ValidPath(to, extra)
                  && Halves(PathPrefix(from, p), PathPrefix(to, extra), PathPrefix(to, next))
                  && KeysOf(PathPrefix(from, p)) ==
                     KeysOf(PathPrefix(to, next)) + KeysOf(PathPrefix(to, extra)))
  {
    hide HeadOf, ToPath, Pow2, Up, EntryPrefix, FromPathNoTail, Or, Shl, High;
    var w := KeyWidth(from.low, true);
    var head := HeadOf(from, p);
    var tail: nat := p.slot.tail;
    var key := Up(head, 64 - w);
    PathKey(from, p);
    PathOfHead(to, true, head, key, tail);
    if KeyPath(to, key, true).level < to.cursor {
      KeyWithBit(head, 0, w);
      KeyWithBit(head, 1, w);
      TailBit(tail);
      UpDouble(head, 63 - w);
      if tail != NO_TAIL_BITS {
        PathOfStolen(to, head, tail, w);
      } else {
        PathsOfSplit(to, head, w);
      }
    }
  }

  /** A short key completed by the first bit of its tail. */
  lemma PathOfStolen(to: Geometry, head: nat, tail: nat, w: nat)
    requires w + 1 == KeyWidth(to.low, false) && head < Pow2(w) && 0 < tail < 64 && tail != NO_TAIL_BITS
    ensures var q := KeyPath(to, Up(2 * head + tail / 32, 63 - w), false);
            && 2 * tail % 64 < 64
            && ValidPath(to, WithTail(q, 2 * tail % 64))
            && PathPrefix(to, WithTail(q, 2 * tail % 64)) == EntryPrefix(w, head, tail)
  {
    hide HeadOf, ToPath, Pow2, Up, EntryPrefix, High;
    TailBit(tail);
    DoubleBound(head, w);
    StealBit(w, head, tail);
    PathOfHead(to, false, 2 * head + tail / 32, Up(2 * head + tail / 32, 63 - w), 2 * tail % 64);
  }

  /** A short key without tail bits, completed both ways. */
  lemma PathsOfSplit(to: Geometry, head: nat, w: nat)
    requires w + 1 == KeyWidth(to.low, false) && head < Pow2(w)
    ensures var q := WithTail(KeyPath(to, Up(2 * head, 63 - w), false), NO_TAIL_BITS);
            var r := WithTail(KeyPath(to, Up(2 * head + 1, 63 - w), false), NO_TAIL_BITS);
            && ValidPath(to, q) && ValidPath(to, r)
            && Halves(EntryPrefix(w, head, NO_TAIL_BITS), PathPrefix(to, q), PathPrefix(to, r))
            && KeysOf(EntryPrefix(w, head, NO_TAIL_BITS)) == KeysOf(PathPrefix(to, r)) + KeysOf(PathPrefix(to, q))
  {
    hide HeadOf, ToPath, Pow2, Up, EntryPrefix, High;
    DoubleBound(head, w);
    SplitEntry(w, head);
    PathOfHead(to, false, 2 * head, Up(2 * head, 63 - w), NO_TAIL_BITS);
    PathOfHead(to, false, 2 * head + 1, Up(2 * head + 1, 63 - w), NO_TAIL_BITS);
  }

  lemma DoubleBound(x: nat, w: nat)
    requires x < Pow2(w)
    ensures 2 * x + 1 < Pow2(w + 1)
  {
  }

  lemma UpDouble(x: nat, n: nat)
    ensures Up(2 * x, n) == Up(x, n + 1)
  {
    UpUp(x, 1, n);
  }

  lemma TailBit(t: Tail)
    ensures Shr(t, TAIL_SIZE) == t / 32 < 2 && 2 * t % 64 < 64
  {
    FiveBits(t, TAIL_SIZE);
  }
}
