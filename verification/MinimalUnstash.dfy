/** Doubling a level of a minimal taffy cuckoo filter whose entries all have long fingerprints
stashes nothing: each goes from bucket b to bucket 2b or 2b + 1 of the new level. */
module MinimalUnstash {
  import opened Bits
  import opened Tails
  import opened Prefixes
  import opened Buckets
  import opened Feistels
  import opened MinimalPaths
  import opened MinimalContents
  import opened MinimalMoves

  /** A long fingerprint gives its highest bit to the bucket when its level is doubled. */
  function Lengthened(p: Path): Path {
    Path(p.level, 2 * p.bucket + High(p.slot.rest.fingerprint, 8),
         Slot(Rest(false, Low(p.slot.rest.fingerprint, 8)), p.slot.tail))
  }

  lemma LengthenedHashed(p: Path, low: LogSize)
    ensures Hashed(Lengthened(p), low + 1, 8) == Hashed(p, low, 9)
  {
    hide High, Low;
    var x := Up(p.level, low) + p.bucket;
    var fp := p.slot.rest.fingerprint;
    HighLow(fp, 8);
    assert Up(p.level, low + 1) == 2 * Up(p.level, low);
    UpSum(2 * x, High(fp, 8), 8);
    UpDouble(x, 8);
  }

  lemma LengthenedValid(geo: Geometry, p: Path)
    requires ValidPath(geo, p) && p.level == geo.cursor < LEVELS && p.slot.rest.longFp
    ensures ValidPath(Advanced(geo), Lengthened(p))
    ensures 2 * p.bucket <= Lengthened(p).bucket <= 2 * p.bucket + 1
  {
    hide High, Low, Pow2;
    var fp := p.slot.rest.fingerprint;
    HighBound(fp, 1, 8);
    HighLow(fp, 8);
    Pow2Small();
    Twice(geo.low);
  }

  lemma Twice(n: nat)
    ensures Pow2(n + 1) == 2 * Pow2(n)
  {
  }

  lemma LengthenedHead(geo: Geometry, p: Path)
    requires ValidPath(geo, p) && p.level == geo.cursor < LEVELS && p.slot.rest.longFp
    requires ValidPath(Advanced(geo), Lengthened(p))
    ensures HeadOf(Advanced(geo), Lengthened(p)) == HeadOf(geo, p)
  {
    hide PermuteBackward, High, Low, Up, Pow2;
    LengthenedHashed(p, geo.low);
  }

  /** Translating a path with a long fingerprint at the cursor keeps its level and side. */
  lemma LongMoves(geo: Geometry, p: Path)
    requires ValidPath(geo, p) && p.level == geo.cursor < LEVELS && p.slot.rest.longFp
    ensures RePath(p, geo, Advanced(geo)) == (Lengthened(p), NoPath())
    ensures ValidPath(Advanced(geo), Lengthened(p))
    ensures 2 * p.bucket <= Lengthened(p).bucket <= 2 * p.bucket + 1
  {
    hide ToPath, FromPathNoTail, HeadOf, High, Low, Up, Pow2;
    var geo', q := Advanced(geo), Lengthened(p);
    LengthenedValid(geo, p);
    LengthenedHead(geo, p);
    PathKey(geo, p);
    var w := Width(geo, p.level, p.slot.rest);
    var key := Up(HeadOf(geo, p), 64 - w);
    TopOfShifted(w, HeadOf(geo, p));
    assert Width(geo', q.level, q.slot.rest) == w && !Short(geo', q.level, q.slot.rest);
    PathRoundTrip(geo', q, key);
    assert WithTail(WithTail(q, 2 * KeyTail(key, w) + 1), p.slot.tail) == q;
  }

  // ---------- room in the new level ----------

  function Used(s: Slot<Rest>): nat {
    if s.tail == 0 then 0 else 1
  }

  /** How many of a bucket's slots are in use. */
  function UsedIn(t: Table, bucket: nat): (n: nat)
    requires SLOTS * bucket + SLOTS <= |t|
    ensures n <= SLOTS
  {
    var i := SLOTS * bucket;
    Used(t[i]) + Used(t[i + 1]) + Used(t[i + 2]) + Used(t[i + 3])
  }

  lemma RoomIsPlace(t: Table, bucket: nat, slot: Slot<Rest>)
    requires SLOTS * bucket + SLOTS <= |t| && slot.tail != 0 && UsedIn(t, bucket) < SLOTS
    ensures HasPlace(t, bucket, slot)
  {
    var i := SLOTS * bucket;
    assert t[i].tail == 0 || t[i + 1].tail == 0 || t[i + 2].tail == 0 || t[i + 3].tail == 0;
  }

  /** A bucket with a place gains at most one slot in use, and the others nothing. */
  lemma PlaceUses(before: Table, after: Table, bucket: nat, slot: Slot<Rest>, r: Slot<Rest>, at: nat)
    requires SLOTS * bucket + SLOTS <= |before| && slot.tail != 0
    requires InsertStep(before, after, bucket, slot, r, at)
    ensures |after| == |before| && UsedIn(after, bucket) <= UsedIn(before, bucket) + 1
    ensures forall i :: 0 <= i < |before| && !(SLOTS * bucket <= i < SLOTS * bucket + SLOTS) ==> after[i] == before[i]
  {
    ScanFound(before, bucket, slot, 0);
  }

  /** After n slots of the old level: no stash is used, the other side is untouched, and of the
  new level no bucket is used that later slots go to, but for those of the slots' own bucket. */
  ghost predicate Roomy(l: Layout, b: Layout, s: nat, level: nat, size: nat, n: nat) {
    && SideOf(l, s).stash == [] && SideOf(l, Other(s)) == SideOf(b, Other(s))
    && level < |SideOf(l, s).tables| && |SideOf(l, s).tables[level]| == 2 * size
    && size % SLOTS == 0
    && RoomAhead(SideOf(l, s).tables[level], n / SLOTS, n % SLOTS)
  }

  ghost predicate RoomAhead(t: Table, bucket: nat, j: nat) {
    && (forall i :: SLOTS * (2 * bucket + 2) <= i < |t| ==> t[i].tail == 0)
    && (SLOTS * (2 * bucket + 2) <= |t| ==> UsedIn(t, 2 * bucket) <= j && UsedIn(t, 2 * bucket + 1) <= j)
  }

  lemma RoomNext(t: Table, n: nat)
    requires RoomAhead(t, n / SLOTS, n % SLOTS)
    ensures RoomAhead(t, (n + 1) / SLOTS, (n + 1) % SLOTS)
  {
    if n % SLOTS == SLOTS - 1 {
      assert (n + 1) / SLOTS == n / SLOTS + 1;
    } else {
      assert (n + 1) / SLOTS == n / SLOTS;
    }
  }

  /** An insertion for slot n. */
  lemma RoomAfter(before: Table, after: Table, n: nat, bucket: nat, slot: Slot<Rest>, r: Slot<Rest>, at: nat)
    requires RoomAhead(before, n / SLOTS, n % SLOTS) && slot.tail != 0
    requires 2 * (n / SLOTS) <= bucket <= 2 * (n / SLOTS) + 1 && SLOTS * (2 * (n / SLOTS) + 2) <= |before|
    requires InsertStep(before, after, bucket, slot, r, at)
    ensures |after| == |before| && RoomAhead(after, (n + 1) / SLOTS, (n + 1) % SLOTS)
  {
    hide InsertStep;
    PlaceUses(before, after, bucket, slot, r, at);
    var own, other := bucket, 4 * (n / SLOTS) + 1 - bucket;
    assert other == 2 * (n / SLOTS) || other == 2 * (n / SLOTS) + 1;
    assert UsedIn(after, other) == UsedIn(before, other);
    if n % SLOTS == SLOTS - 1 {
      assert (n + 1) / SLOTS == n / SLOTS + 1;
    } else {
      assert (n + 1) / SLOTS == n / SLOTS;
    }
  }

  ghost predicate LongOnly(t: Table) {
    forall i :: 0 <= i < |t| && t[i].tail != 0 ==> t[i].rest.longFp
  }

  /** Slot n goes to a place. */
  lemma SlotFits(l: Layout, b: Layout, s: nat, from: Geometry, t: Table, n: nat, a: Layout)
    requires n < |t| && ValidTable(from, from.cursor, t) && from.cursor < LEVELS && LongOnly(t)
    requires s < 2 && Roomy(l, b, s, from.cursor, |t|, n) && t[n].tail != 0
    requires InsertsOne(l, Item(s, Lengthened(Path(from.cursor, n / SLOTS, t[n]))), a)
    ensures Roomy(a, b, s, from.cursor, |t|, n + 1)
  {
    hide RePath, Inserts, InsertStep, Pow2, High, Low, RoomAhead, HasPlace, LevelSize;
    var p := Path(from.cursor, n / SLOTS, t[n]);
    PathAtCursor(from, t, n);
    LongMoves(from, p);
    var q := Lengthened(p);
    var table := SideOf(l, s).tables[from.cursor];
    BucketInTable(n, |t|);
    SlotHasRoom(table, n, q.bucket);
    RoomIsPlace(table, q.bucket, q.slot);
    var ttl: nat := 128;
    var mid, r, at := InsertsParts(l, s, q, ttl, a);
    assert Fits(l, s, q) && a == mid;
    RoomAfter(table, SideOf(a, s).tables[from.cursor], n, q.bucket, q.slot, r, at);
  }

  lemma PathAtCursor(from: Geometry, t: Table, n: nat)
    requires n < |t| && ValidTable(from, from.cursor, t) && from.cursor < LEVELS && t[n].tail != 0
    ensures ValidPath(from, Path(from.cursor, n / SLOTS, t[n]))
  {
    hide Pow2;
  }

  lemma BucketInTable(n: nat, size: nat)
    requires n < size && size % SLOTS == 0
    ensures SLOTS * (2 * (n / SLOTS) + 2) <= 2 * size
  {
  }

  lemma SlotHasRoom(t: Table, n: nat, bucket: nat)
    requires RoomAhead(t, n / SLOTS, n % SLOTS) && SLOTS * (2 * (n / SLOTS) + 2) <= |t|
    requires 2 * (n / SLOTS) <= bucket <= 2 * (n / SLOTS) + 1
    ensures SLOTS * bucket + SLOTS <= |t| && UsedIn(t, bucket) < SLOTS
  {
    hide UsedIn;
  }

  lemma {:induction false} LevelFits(b: Layout, s: nat, from: Geometry, t: Table, n: nat, a: Layout)
    requires n <= |t| && ValidTable(from, from.cursor, t) && from.cursor < LEVELS && LongOnly(t)
    requires s < 2 && Roomy(b, b, s, from.cursor, |t|, 0)
    requires InsertsAll(b, TableItems(s, t[..n], from), a)
    ensures Roomy(a, b, s, from.cursor, |t|, n)
  {
    hide RePath, InsertsOne, Roomy, ValidTable, Lengthened;
    if n == 0 {
    } else {
      var init, p := t[..n - 1], Path(from.cursor, (n - 1) / SLOTS, t[n - 1]);
      assert t[..n][..n - 1] == init;
      var items := TableItems(s, t[..n], from);
      assert items == TableItems(s, init, from) + Moved(s, p, from);
      if t[n - 1].tail == 0 {
        assert items == TableItems(s, init, from);
        LevelFits(b, s, from, t, n - 1, a);
        RoomyNext(a, b, s, from.cursor, |t|, n - 1);
      } else {
        PathAtCursor(from, t, n - 1);
        LongMoves(from, p);
        assert items == TableItems(s, init, from) + [Item(s, Lengthened(p))];
        var m: Layout :| InsertsAllVia(b, items, m, a);
        assert items[..|items| - 1] == TableItems(s, init, from);
        LevelFits(b, s, from, t, n - 1, m);
        SlotFits(m, b, s, from, t, n - 1, a);
      }
    }
  }

  lemma RoomyNext(l: Layout, b: Layout, s: nat, level: nat, size: nat, n: nat)
    requires Roomy(l, b, s, level, size, n)
    ensures Roomy(l, b, s, level, size, n + 1)
  {
    hide RoomAhead;
    RoomNext(SideOf(l, s).tables[level], n);
  }

  // ---------- the whole upsize ----------

  ghost predicate SoundLayout(b: Layout) {
    && b.geo0.cursor == b.geo1.cursor < LEVELS && b.geo0.low == b.geo1.low
    && ValidTables(b.geo0, b.side0.tables) && ValidTables(b.geo1, b.side1.tables)
  }

  /** Both stashes are empty, and what is in the levels at the cursor has long fingerprints. */
  ghost predicate Calm(b: Layout) {
    && SoundLayout(b)
    && b.side0.stash == [] && b.side1.stash == []
    && LongOnly(b.side0.tables[b.geo0.cursor]) && LongOnly(b.side1.tables[b.geo1.cursor])
  }

  lemma {:induction false} InsertsAllSplit(b: Layout, xs: seq<Item>, ys: seq<Item>, a: Layout) returns (m: Layout)
    requires InsertsAll(b, xs + ys, a)
    ensures InsertsAll(b, xs, m) && InsertsAll(m, ys, a)
    decreases |ys|
  {
    hide InsertsOne;
    if ys == [] {
      assert xs + ys == xs;
      m := a;
    } else {
      var n := |ys| - 1;
      var l: Layout :| InsertsAllVia(b, xs + ys, l, a);
      assert (xs + ys)[..|xs + ys| - 1] == xs + ys[..n];
      m := InsertsAllSplit(b, xs, ys[..n], l);
      assert (xs + ys)[|xs + ys| - 1] == ys[n];
      assert InsertsAllVia(m, ys, l, a);
    }
  }

  /** The new level is empty, and twice as large as the old one. */
  lemma OpenedIsRoomy(b: Layout, s: nat)
    requires SoundLayout(b) && s < 2
    ensures CanOpen(b)
    ensures var t := SideOf(b, s).tables[GeoOf(b, s).cursor];
            Roomy(Opened(b), Opened(b), s, GeoOf(b, s).cursor, |t|, 0)
  {
    hide Pow2, EmptyTable;
    var c: nat, low: nat := GeoOf(b, s).cursor, GeoOf(b, s).low;
    var t := SideOf(b, s).tables[c];
    assert ValidTable(GeoOf(b, s), c, t) && LevelSize(GeoOf(b, s), c) == low;
    var e := SideOf(Opened(b), s).tables[c];
    assert e == EmptyTable(low + 1);
    Twice(low);
  }

  lemma CalmItems(b: Layout)
    requires Calm(b) && CanOpen(b)
    ensures Items(b) == TableItems(0, b.side0.tables[b.geo0.cursor], b.geo0) +
                        TableItems(1, b.side1.tables[b.geo1.cursor], b.geo1)
  {
    hide TableItems;
  }

  /** Doubling levels whose entries all have long fingerprints, from empty stashes, ends with
  empty stashes, whatever the choices. */
  lemma UpsizeUnstashes(b: Layout, a: Layout)
    requires Calm(b) && Upsized(b, a)
    ensures a.side0.stash == [] && a.side1.stash == []
  {
    hide InsertsAll, Items, Opened, TableItems, Roomy, ValidTable, LongOnly;
    var c := b.geo0.cursor;
    var t0, t1 := b.side0.tables[c], b.side1.tables[c];
    var m: Layout :| InsertsAll(Opened(b), Items(b), m) && Closes(m, a);
    CalmItems(b);
    OpenedIsRoomy(b, 0);
    OpenedIsRoomy(b, 1);
    var half := InsertsAllSplit(Opened(b), TableItems(0, t0, b.geo0), TableItems(1, t1, b.geo1), m);
    assert t0[..|t0|] == t0 && t1[..|t1|] == t1;
    assert ValidTable(b.geo0, c, t0) && ValidTable(b.geo1, c, t1);
    LevelFits(Opened(b), 0, b.geo0, t0, |t0|, half);
    OtherRoomy(half, Opened(b), c, |t0|, |t1|);
    LevelFits(half, 1, b.geo1, t1, |t1|, m);
    RoomyStash(half, Opened(b), 0, c, |t0|, |t0|);
    RoomyStash(m, half, 1, c, |t1|, |t1|);
  }

  lemma OtherRoomy(half: Layout, start: Layout, level: nat, size0: nat, size1: nat)
    requires Roomy(half, start, 0, level, size0, size0) && Roomy(start, start, 1, level, size1, 0)
    ensures Roomy(half, half, 1, level, size1, 0)
  {
    hide RoomAhead;
  }

  lemma RoomyStash(l: Layout, b: Layout, s: nat, level: nat, size: nat, n: nat)
    requires s < 2 && Roomy(l, b, s, level, size, n)
    ensures SideOf(l, s).stash == [] && SideOf(l, Other(s)) == SideOf(b, Other(s))
  {
    hide RoomAhead;
  }
}
