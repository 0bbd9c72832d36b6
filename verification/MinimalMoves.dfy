/** What the operations of a minimal taffy cuckoo filter do to its levels and stashes, on values.
Every random choice is allowed; given the choices, the outcome is determined. */
module MinimalMoves {
  import opened Bits
  import opened Tails
  import opened Prefixes
  import opened Buckets
  import opened Feistels
  import opened MinimalPaths
  import opened MinimalContents

  datatype SideLayout = SideLayout(tables: seq<Table>, stash: seq<Path>)

  /** All that a filter's answers and its further growth depend on. */
  datatype Layout = Layout(geo0: Geometry, geo1: Geometry, side0: SideLayout, side1: SideLayout)

  function GeoOf(l: Layout, s: nat): Geometry {
    if s == 0 then l.geo0 else l.geo1
  }

  function SideOf(l: Layout, s: nat): SideLayout {
    if s == 0 then l.side0 else l.side1
  }

  function WithSide(l: Layout, s: nat, side: SideLayout): Layout {
    if s == 0 then l.(side0 := side) else l.(side1 := side)
  }

  function Other(s: nat): nat {
    if s == 0 then 1 else 0
  }

  function Stashed(l: Layout, s: nat, p: Path): Layout {
    WithSide(l, s, SideOf(l, s).(stash := SideOf(l, s).stash + [p]))
  }

  // ---------- inserting one path ----------

  /** One visit of a bucket, in which r comes back. */
  ghost predicate Put(b: Layout, s: nat, p: Path, a: Layout, r: Slot<Rest>, at: nat) {
    && p.slot.tail != 0
    && p.level < |SideOf(b, s).tables| == |SideOf(a, s).tables|
    && SLOTS * p.bucket + SLOTS <= |SideOf(b, s).tables[p.level]|
    && a == WithSide(b, s, SideOf(b, s).(tables := SideOf(b, s).tables[p.level := SideOf(a, s).tables[p.level]]))
    && InsertStep(SideOf(b, s).tables[p.level], SideOf(a, s).tables[p.level], p.bucket, p.slot, r, at)
  }

  ghost predicate Fits(b: Layout, s: nat, p: Path) {
    && p.slot.tail != 0
    && p.level < |SideOf(b, s).tables|
    && HasPlace(SideOf(b, s).tables[p.level], p.bucket, p.slot)
  }

  /** Inserting p on side s with ttl visits left turns b into a: with no visit left p is stashed; a
  bucket with a place takes it; one without evicts a path, which goes on to the other side. */
  ghost predicate Inserts(b: Layout, s: nat, p: Path, ttl: nat, a: Layout)
    decreases ttl, 2
  {
    if ttl == 0 then a == Stashed(b, s, p)
    else exists mid: Layout, r: Slot<Rest>, at: nat :: InsertsVia(b, s, p, ttl, a, mid, r, at)
  }

  ghost predicate InsertsVia(b: Layout, s: nat, p: Path, ttl: nat, a: Layout, mid: Layout, r: Slot<Rest>, at: nat)
    requires ttl > 0
    decreases ttl, 1
  {
    Put(b, s, p, mid, r, at) && if Fits(b, s, p) then a == mid else Crosses(mid, s, p.(slot := r), ttl - 1, a)
  }

  /** An evicted path is translated and inserted on the other side; if it has to be split, the
  second part goes first. */
  ghost predicate Crosses(b: Layout, s: nat, r: Path, ttl: nat, a: Layout)
    decreases ttl, 3
  {
    && r.slot.tail != 0
    && var (next, extra) := RePath(r, GeoOf(b, s), GeoOf(b, Other(s)));
       if extra.slot.tail == 0 then Inserts(b, Other(s), next, ttl, a)
       else exists m: Layout :: Inserts(b, Other(s), extra, ttl, m) && Inserts(m, Other(s), next, ttl, a)
  }

  lemma InsertsParts(b: Layout, s: nat, p: Path, ttl: nat, a: Layout) returns (mid: Layout, r: Slot<Rest>, at: nat)
    requires ttl > 0 && Inserts(b, s, p, ttl, a)
    ensures InsertsVia(b, s, p, ttl, a, mid, r, at)
  {
    hide InsertsVia;
    mid, r, at :| InsertsVia(b, s, p, ttl, a, mid, r, at);
  }

  lemma InsertsFrom(b: Layout, s: nat, p: Path, ttl: nat, a: Layout, mid: Layout, r: Slot<Rest>, at: nat)
    requires ttl > 0 && InsertsVia(b, s, p, ttl, a, mid, r, at)
    ensures Inserts(b, s, p, ttl, a)
  {
    hide InsertsVia;
  }

  lemma PlaceFound(b: Layout, s: nat, p: Path, ttl: nat, a: Layout, r: Slot<Rest>, at: nat)
    requires Put(b, s, p, a, r, at) && Fits(b, s, p) && ttl > 0
    ensures Inserts(b, s, p, ttl, a)
  {
    hide Put, Fits, Inserts;
    InsertsFrom(b, s, p, ttl, a, a, r, at);
  }

  lemma CrossInserts(b: Layout, s: nat, p: Path, ttl: nat, less: nat, mid: Layout, r: Slot<Rest>, at: nat, a: Layout)
    requires Put(b, s, p, mid, r, at) && !Fits(b, s, p) && ttl == less + 1
    requires Crosses(mid, s, p.(slot := r), less, a)
    ensures Inserts(b, s, p, ttl, a)
  {
    hide Put, Fits, Inserts, Crosses;
    InsertsFrom(b, s, p, ttl, a, mid, r, at);
  }

  /** With a visit left and a place in its bucket, a path leaves the stashes as they are. */
  lemma PlaceSparesStash(b: Layout, s: nat, p: Path, ttl: nat, a: Layout)
    requires ttl > 0 && Fits(b, s, p) && Inserts(b, s, p, ttl, a)
    ensures a.side0.stash == b.side0.stash && a.side1.stash == b.side1.stash
  {
    hide Fits, Inserts, InsertStep;
    var mid, r, at := InsertsParts(b, s, p, ttl, a);
  }

  // ---------- an insertion under way ----------

  /** Where an insertion started. */
  datatype Start = Start(b: Layout, s: nat, p: Path, budget: nat)

  /** However the insertion of p on side s of l ends, that is how the one from the start ends. */
  ghost predicate Continues(start: Start, l: Layout, s: nat, p: Path, ttl: nat) {
    forall a: Layout :: Inserts(l, s, p, ttl, a) ==> Inserts(start.b, start.s, start.p, start.budget, a)
  }

  /** The same for a path that was evicted from side s. */
  ghost predicate ContinuesAcross(start: Start, l: Layout, s: nat, r: Path, ttl: nat) {
    forall a: Layout :: Crosses(l, s, r, ttl, a) ==> Inserts(start.b, start.s, start.p, start.budget, a)
  }

  lemma ContinuesFirst(start: Start)
    ensures Continues(start, start.b, start.s, start.p, start.budget)
  {
    hide Inserts;
  }

  lemma ContinuesEnd(start: Start, l: Layout, s: nat, p: Path, ttl: nat, a: Layout)
    requires Continues(start, l, s, p, ttl) && Inserts(l, s, p, ttl, a)
    ensures Inserts(start.b, start.s, start.p, start.budget, a)
  {
    hide Inserts;
  }

  lemma StashInserts(b: Layout, s: nat, p: Path, ttl: nat)
    requires ttl == 0
    ensures Inserts(b, s, p, ttl, Stashed(b, s, p))
  {
  }

  lemma ContinuesEvicted(start: Start, l: Layout, s: nat, p: Path, ttl: nat, less: nat,
                         mid: Layout, r: Slot<Rest>, at: nat)
    requires Continues(start, l, s, p, ttl) && Put(l, s, p, mid, r, at) && !Fits(l, s, p) && ttl == less + 1
    ensures ContinuesAcross(start, mid, s, p.(slot := r), less)
  {
    hide Inserts, Put, Fits, Crosses;
    var q := p.(slot := r);
    forall a: Layout | Crosses(mid, s, q, less, a)
      ensures Inserts(start.b, start.s, start.p, start.budget, a)
    {
      CrossInserts(l, s, p, ttl, less, mid, r, at, a);
      ContinuesEnd(start, l, s, p, ttl, a);
    }
  }

  /** Across, without a second part. */
  lemma ContinuesWhole(start: Start, l: Layout, s: nat, r: Path, ttl: nat, next: Path)
    requires ContinuesAcross(start, l, s, r, ttl) && r.slot.tail != 0
    requires var (n, extra) := RePath(r, GeoOf(l, s), GeoOf(l, Other(s))); n == next && extra.slot.tail == 0
    ensures Continues(start, l, Other(s), next, ttl)
  {
    hide Inserts, RePath;
    forall a: Layout | Inserts(l, Other(s), next, ttl, a)
      ensures Inserts(start.b, start.s, start.p, start.budget, a)
    {
      assert Crosses(l, s, r, ttl, a);
    }
  }

  /** Across, when the second part has been inserted already. */
  lemma ContinuesSplit(start: Start, l: Layout, s: nat, r: Path, ttl: nat, next: Path, extra: Path, m: Layout)
    requires ContinuesAcross(start, l, s, r, ttl) && r.slot.tail != 0
    requires RePath(r, GeoOf(l, s), GeoOf(l, Other(s))) == (next, extra) && extra.slot.tail != 0
    requires Inserts(l, Other(s), extra, ttl, m)
    ensures Continues(start, m, Other(s), next, ttl)
  {
    hide Inserts, RePath;
    forall a: Layout | Inserts(m, Other(s), next, ttl, a)
      ensures Inserts(start.b, start.s, start.p, start.budget, a)
    {
      assert Crosses(l, s, r, ttl, a);
    }
  }

  lemma SplitParts(b: Layout, s: nat, r: Path, ttl: nat, a: Layout, next: Path, extra: Path) returns (m: Layout)
    requires Crosses(b, s, r, ttl, a) && r.slot.tail != 0 && extra.slot.tail != 0
    requires RePath(r, GeoOf(b, s), GeoOf(b, Other(s))) == (next, extra)
    ensures Inserts(b, Other(s), extra, ttl, m) && Inserts(m, Other(s), next, ttl, a)
  {
    hide Inserts, RePath;
    m :| Inserts(b, Other(s), extra, ttl, m) && Inserts(m, Other(s), next, ttl, a);
  }

  /** An insertion changes neither sizes nor permutations. */
  lemma {:induction false} InsertsKeepsGeometry(b: Layout, s: nat, p: Path, ttl: nat, a: Layout)
    requires Inserts(b, s, p, ttl, a)
    ensures a.geo0 == b.geo0 && a.geo1 == b.geo1
    decreases ttl
  {
    hide Fits, InsertStep, RePath, Inserts;
    if ttl == 0 {
      StashedKeepsGeometry(b, s, p, ttl, a);
    } else {
      var mid, r, at := InsertsParts(b, s, p, ttl, a);
      if !Fits(b, s, p) {
        var (next, extra) := RePath(p.(slot := r), GeoOf(mid, s), GeoOf(mid, Other(s)));
        if extra.slot.tail == 0 {
          InsertsKeepsGeometry(mid, Other(s), next, ttl - 1, a);
        } else {
          var m := SplitParts(mid, s, p.(slot := r), ttl - 1, a, next, extra);
          InsertsKeepsGeometry(mid, Other(s), extra, ttl - 1, m);
          InsertsKeepsGeometry(m, Other(s), next, ttl - 1, a);
        }
      }
    }
  }

  lemma StashedKeepsGeometry(b: Layout, s: nat, p: Path, ttl: nat, a: Layout)
    requires ttl == 0 && Inserts(b, s, p, ttl, a)
    ensures a == Stashed(b, s, p) && a.geo0 == b.geo0 && a.geo1 == b.geo1
  {
  }

  // ---------- inserting many paths ----------

  /** A path and the side that it goes to. */
  datatype Item = Item(s: nat, p: Path)

  /** Inserting a path with 128 visits. */
  ghost predicate InsertsOne(b: Layout, i: Item, a: Layout) {
    Inserts(b, i.s, i.p, 128, a)
  }

  /** Inserting paths one after the other. */
  ghost predicate InsertsAll(b: Layout, items: seq<Item>, a: Layout)
    decreases |items|, 1
  {
    if items == [] then a == b else exists m: Layout :: InsertsAllVia(b, items, m, a)
  }

  ghost predicate InsertsAllVia(b: Layout, items: seq<Item>, m: Layout, a: Layout)
    requires items != []
    decreases |items|, 0
  {
    InsertsAll(b, items[..|items| - 1], m) && InsertsOne(m, items[|items| - 1], a)
  }

  lemma InsertsAllNone(b: Layout)
    ensures InsertsAll(b, [], b)
  {
  }

  lemma InsertsAllPush(b: Layout, items: seq<Item>, m: Layout, i: Item, a: Layout)
    requires InsertsAll(b, items, m) && InsertsOne(m, i, a)
    ensures InsertsAll(b, items + [i], a)
  {
    hide InsertsOne;
    assert (items + [i])[..|items|] == items;
    assert InsertsAllVia(b, items + [i], m, a);
  }

  lemma {:induction false} InsertsAllJoin(b: Layout, xs: seq<Item>, m: Layout, ys: seq<Item>, a: Layout)
    requires InsertsAll(b, xs, m) && InsertsAll(m, ys, a)
    ensures InsertsAll(b, xs + ys, a)
    decreases |ys|
  {
    hide InsertsOne;
    if ys == [] {
      assert xs + ys == xs;
    } else {
      var n := |ys| - 1;
      var l: Layout :| InsertsAllVia(m, ys, l, a);
      InsertsAllJoin(b, xs, m, ys[..n], l);
      InsertsAllPush(b, xs + ys[..n], l, ys[n], a);
      assert xs + ys == xs + ys[..n] + [ys[n]];
    }
  }

  lemma {:induction false} InsertsAllKeepsGeometry(b: Layout, items: seq<Item>, a: Layout)
    requires InsertsAll(b, items, a)
    ensures a.geo0 == b.geo0 && a.geo1 == b.geo1
    decreases |items|
  {
    hide Inserts;
    if items == [] {
    } else {
      var m: Layout :| InsertsAllVia(b, items, m, a);
      InsertsAllKeepsGeometry(b, items[..|items| - 1], m);
      InsertsKeepsGeometry(m, items[|items| - 1].s, items[|items| - 1].p, 128, a);
    }
  }

  // ---------- doubling one level ----------

  ghost function EmptyTable(logLevelSize: nat): (t: Table)
    ensures |t| == SLOTS * Pow2(logLevelSize)
    ensures forall i :: 0 <= i < |t| ==> t[i] == Slot(Rest(false, 0), 0)
  {
    seq(SLOTS * Pow2(logLevelSize), _ => Slot(Rest(false, 0), 0))
  }

  ghost function EmptySide(low: nat): (side: SideLayout)
    ensures |side.tables| == LEVELS && side.stash == []
    ensures forall l :: 0 <= l < LEVELS ==> side.tables[l] == EmptyTable(low)
  {
    SideLayout(seq(LEVELS, _ => EmptyTable(low)), [])
  }

  ghost function Empty(lo0: Feistel, hi0: Feistel, lo1: Feistel, hi1: Feistel, low: LogSize): Layout {
    Layout(Geometry(lo0, hi0, 0, low), Geometry(lo1, hi1, 0, low), EmptySide(low), EmptySide(low))
  }

  function Advanced(geo: Geometry): Geometry {
    geo.(cursor := geo.cursor + 1)
  }

  /** A side with the level at the cursor replaced by an empty one of twice the size, and without
  its stash. */
  ghost function OpenedSide(geo: Geometry, side: SideLayout): SideLayout
    requires geo.cursor < |side.tables|
  {
    SideLayout(side.tables[geo.cursor := EmptyTable(geo.low + 1)], [])
  }

  ghost predicate CanOpen(b: Layout) {
    b.geo0.cursor < |b.side0.tables| && b.geo1.cursor < |b.side1.tables|
  }

  ghost function Opened(b: Layout): Layout
    requires CanOpen(b)
  {
    Layout(Advanced(b.geo0), Advanced(b.geo1), OpenedSide(b.geo0, b.side0), OpenedSide(b.geo1, b.side1))
  }

  /** What an entry of side s becomes when the cursor has advanced: one path, or two of which the
  second goes first. */
  function Moved(s: nat, p: Path, from: Geometry): seq<Item> {
    if p.slot.tail == 0 then [] else
      var (next, extra) := RePath(p, from, Advanced(from));
      if extra.slot.tail == 0 then [Item(s, next)] else [Item(s, extra), Item(s, next)]
  }

  ghost function StashItems(s: nat, stash: seq<Path>, from: Geometry): seq<Item> {
    if stash == [] then [] else
      StashItems(s, stash[..|stash| - 1], from) + Moved(s, stash[|stash| - 1], from)
  }

  ghost function TableItems(s: nat, table: Table, from: Geometry): seq<Item> {
    if table == [] then [] else
      var n := |table| - 1;
      TableItems(s, table[..n], from) + Moved(s, Path(from.cursor, n / SLOTS, table[n]), from)
  }

  lemma StashItemsStep(s: nat, stash: seq<Path>, i: nat, from: Geometry)
    requires i < |stash|
    ensures StashItems(s, stash[..i + 1], from) == StashItems(s, stash[..i], from) + Moved(s, stash[i], from)
  {
    assert stash[..i + 1][..i] == stash[..i];
  }

  lemma TableItemsStep(s: nat, table: Table, bucket: nat, j: nat, from: Geometry)
    requires j < SLOTS && SLOTS * bucket + SLOTS <= |table|
    ensures var i := SLOTS * bucket + j;
            TableItems(s, table[..i + 1], from) ==
            TableItems(s, table[..i], from) + Moved(s, Path(from.cursor, bucket, table[i]), from)
  {
    hide Moved, TableItems;
    BucketOf(bucket, j);
    TableItemsAt(s, table, SLOTS * bucket + j, from);
  }

  lemma TableItemsAt(s: nat, table: Table, i: nat, from: Geometry)
    requires i < |table|
    ensures TableItems(s, table[..i + 1], from) ==
            TableItems(s, table[..i], from) + Moved(s, Path(from.cursor, i / SLOTS, table[i]), from)
  {
    hide Moved;
    assert table[..i + 1][..i] == table[..i];
  }

  lemma NoItems(s: nat, stash: seq<Path>, table: Table, from: Geometry)
    ensures StashItems(s, stash[..0], from) == [] && TableItems(s, table[..0], from) == []
  {
  }

  /** What is taken out and put back: both stashes first, then both levels. */
  ghost function Items(b: Layout): seq<Item>
    requires CanOpen(b)
  {
    StashItems(0, b.side0.stash, b.geo0) + StashItems(1, b.side1.stash, b.geo1) +
    TableItems(0, b.side0.tables[b.geo0.cursor], b.geo0) + TableItems(1, b.side1.tables[b.geo1.cursor], b.geo1)
  }

  /** After the last level the cursor starts over, at the next size. */
  function StartedOver(b: Layout): Layout
    requires b.geo0.low < 45 && b.geo1.low < 45
  {
    b.(geo0 := Wrapped(b.geo0), geo1 := Wrapped(b.geo1))
  }

  ghost predicate Upsized(b: Layout, a: Layout) {
    && CanOpen(b)
    && exists m: Layout :: InsertsAll(Opened(b), Items(b), m) && Closes(m, a)
  }

  ghost predicate Closes(m: Layout, a: Layout) {
    if m.geo0.cursor == LEVELS then m.geo0.low < 45 && m.geo1.low < 45 && a == StartedOver(m) else a == m
  }

  /** How far the growth has come: the size and the cursor, and the permutations in their places. */
  lemma UpsizedGeometry(b: Layout, a: Layout)
    requires Upsized(b, a)
    ensures if b.geo0.cursor + 1 == LEVELS then b.geo0.low < 45 && a.geo0 == Wrapped(Advanced(b.geo0))
            else a.geo0 == Advanced(b.geo0)
  {
    hide InsertsAll, Items, OpenedSide;
    var m: Layout :| InsertsAll(Opened(b), Items(b), m) && Closes(m, a);
    InsertsAllKeepsGeometry(Opened(b), Items(b), m);
  }

  // ---------- growing when there is need, and adding ----------

  ghost function InUse(l: Layout): nat {
    UsedInTables(l.side0.tables) + |l.side0.stash| + UsedInTables(l.side1.tables) + |l.side1.stash|
  }

  ghost function InStash(l: Layout): nat {
    |l.side0.stash| + |l.side1.stash|
  }

  /** The load test, on what there is. Two places are counted besides the slots. */
  ghost predicate Crowded(l: Layout) {
    var places := 2 + SlotsInTables(l.side0.tables) + SlotsInTables(l.side1.tables);
    10 * InUse(l) > 9 * places || InUse(l) + 4 >= places || InStash(l) > 8
  }

  /** n levels doubled, each in a crowded layout. */
  ghost predicate Grows(b: Layout, n: nat, a: Layout) {
    if n == 0 then a == b else exists m: Layout :: Grows(b, n - 1, m) && Crowded(m) && Upsized(m, a)
  }

  lemma GrowsStart(b: Layout)
    ensures Grows(b, 0, b)
  {
  }

  lemma GrowsMore(b: Layout, n: nat, m: Layout, a: Layout)
    requires Grows(b, n, m) && Crowded(m) && Upsized(m, a)
    ensures Grows(b, n + 1, a)
  {
    hide Crowded, Upsized;
  }

  /** s is at a smaller size than t, or at the same size and an earlier level. */
  predicate Before(s: Geometry, t: Geometry) {
    s.low < t.low || (s.low == t.low && s.cursor < t.cursor)
  }

  lemma {:induction false} GrowsGeometry(b: Layout, n: nat, a: Layout)
    requires Grows(b, n, a)
    ensures if n == 0 then a == b else Crowded(b) && Before(b.geo0, a.geo0)
  {
    hide Crowded, Upsized;
    if n == 0 {
    } else {
      var m: Layout :| Grows(b, n - 1, m) && Crowded(m) && Upsized(m, a);
      GrowsGeometry(b, n - 1, m);
      UpsizedGeometry(m, a);
    }
  }

  /** Adding a key: levels are doubled while there is need and no longer, and then its long path is
  inserted. */
  ghost predicate Adds(b: Layout, k: nat, a: Layout) {
    exists n: nat, m: Layout ::
      Grows(b, n, m) && !Crowded(m) && InsertsOne(m, Item(0, KeyPath(m.geo0, k, false)), a)
  }

  /** Adding grows a crowded filter and no other. */
  lemma AddsGeometry(b: Layout, k: nat, a: Layout)
    requires Adds(b, k, a)
    ensures if Crowded(b) then Before(b.geo0, a.geo0) else a.geo0 == b.geo0
  {
    hide Crowded, Inserts, KeyPath;
    var n: nat, m: Layout :|
      Grows(b, n, m) && !Crowded(m) && InsertsOne(m, Item(0, KeyPath(m.geo0, k, false)), a);
    GrowsGeometry(b, n, m);
    InsertsKeepsGeometry(m, 0, KeyPath(m.geo0, k, false), 128, a);
  }
}
