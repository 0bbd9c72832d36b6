/** What the operations of a taffy cuckoo filter do to its slots and stashes, on values. Every
random choice is allowed; given the choices, the outcome is determined. */
module TaffyMoves {
  import opened Bits
  import opened Tails
  import opened Prefixes
  import opened Buckets
  import opened Feistels
  import opened TaffyPaths
  import opened TaffyContents

  datatype SideLayout = SideLayout(table: Table, stash: seq<Path>)

  /** All that a filter's answers and its further growth depend on. */
  datatype Layout = Layout(f0: Feistel, f1: Feistel, log: LogSize, side0: SideLayout, side1: SideLayout)

  function FeistelOf(l: Layout, s: nat): Feistel {
    if s == 0 then l.f0 else l.f1
  }

  function SideOf(l: Layout, s: nat): SideLayout {
    if s == 0 then l.side0 else l.side1
  }

  function WithSide(l: Layout, s: nat, side: SideLayout): Layout {
    if s == 0 then l.(side0 := side) else l.(side1 := side)
  }

  function Other(s: nat): nat {
    if s == 0 then 1 else 0
  }

  function Stashed(l: Layout, s: nat, p: Path): Layout {
    WithSide(l, s, SideOf(l, s).(stash := SideOf(l, s).stash + [p]))
  }

  ghost function EmptySide(log: LogSize): (side: SideLayout)
    ensures side.stash == [] && |side.table| == SLOTS * Pow2(log)
    ensures forall i :: 0 <= i < |side.table| ==> side.table[i] == Slot(0, 0)
  {
    SideLayout(seq(SLOTS * Pow2(log), _ => Slot(0, 0)), [])
  }

  ghost function Empty(f0: Feistel, f1: Feistel, log: LogSize): Layout {
    Layout(f0, f1, log, EmptySide(log), EmptySide(log))
  }

  // ---------- inserting one path ----------

  /** One visit of a bucket, in which r comes back. */
  ghost predicate Put(b: Layout, s: nat, p: Path, a: Layout, r: Slot<nat>, at: nat) {
    && p.slot.tail != 0
    && SLOTS * p.bucket + SLOTS <= |SideOf(b, s).table|
    && a == WithSide(b, s, SideOf(b, s).(table := SideOf(a, s).table))
    && InsertStep(SideOf(b, s).table, SideOf(a, s).table, p.bucket, p.slot, r, at)
  }

  ghost predicate Fits(b: Layout, s: nat, p: Path) {
    p.slot.tail != 0 && HasPlace(SideOf(b, s).table, p.bucket, p.slot)
  }

  /** Inserting p on side s with ttl moves to spare turns b into a: a bucket with a place takes the
  path, and one without sends a path of its own to the other side, or to the stash when no move
  is left. */
  ghost predicate Inserts(b: Layout, s: nat, p: Path, ttl: nat, a: Layout, ok: bool, evictions: nat)
    decreases ttl, 1
  {
    exists mid: Layout, r: Slot<nat>, at: nat :: InsertsVia(b, s, p, ttl, a, ok, evictions, mid, r, at)
  }

  ghost predicate InsertsVia(b: Layout, s: nat, p: Path, ttl: nat, a: Layout, ok: bool, evictions: nat,
                             mid: Layout, r: Slot<nat>, at: nat)
    decreases ttl, 0
  {
    && Put(b, s, p, mid, r, at)
    && if Fits(b, s, p) then a == mid && ok && evictions == 0
       else if ttl == 0 then a == Stashed(mid, s, Path(p.bucket, r)) && !ok && evictions == 1
       else evictions > 0 && Inserts(mid, Other(s), Evicted(b, s, p, r), ttl - 1, a, ok, evictions - 1)
  }

  /** What an evicted slot is on the other side. */
  function Evicted(l: Layout, s: nat, p: Path, r: Slot<nat>): Path {
    Across(Path(p.bucket, r), FeistelOf(l, s), FeistelOf(l, Other(s)), l.log)
  }

  lemma InsertsParts(b: Layout, s: nat, p: Path, ttl: nat, a: Layout, ok: bool, evictions: nat)
    returns (mid: Layout, r: Slot<nat>, at: nat)
    requires Inserts(b, s, p, ttl, a, ok, evictions)
    ensures InsertsVia(b, s, p, ttl, a, ok, evictions, mid, r, at)
  {
    hide InsertsVia;
    mid, r, at :| InsertsVia(b, s, p, ttl, a, ok, evictions, mid, r, at);
  }

  lemma InsertsFrom(b: Layout, s: nat, p: Path, ttl: nat, a: Layout, ok: bool, evictions: nat,
                    mid: Layout, r: Slot<nat>, at: nat)
    requires InsertsVia(b, s, p, ttl, a, ok, evictions, mid, r, at)
    ensures Inserts(b, s, p, ttl, a, ok, evictions)
  {
    hide InsertsVia;
  }

  /** A path is stashed after exactly one more eviction than there are moves to spare, each from a
  bucket without a place, and never before. */
  lemma {:induction false} StashedWhenSpent(b: Layout, s: nat, p: Path, ttl: nat, a: Layout, ok: bool, evictions: nat)
    requires Inserts(b, s, p, ttl, a, ok, evictions)
    ensures if ok then evictions <= ttl else evictions == ttl + 1
    ensures Fits(b, s, p) <==> evictions == 0
    decreases ttl
  {
    hide Put, Fits, Inserts, Evicted;
    var mid, r, at := InsertsParts(b, s, p, ttl, a, ok, evictions);
    if !Fits(b, s, p) && ttl > 0 {
      StashedWhenSpent(mid, Other(s), Evicted(b, s, p, r), ttl - 1, a, ok, evictions - 1);
    }
  }

  // ---------- counting ----------

  /** How many places are in use. */
  ghost function InUse(l: Layout): nat {
    UsedSlots(l.side0.table) + |l.side0.stash| + UsedSlots(l.side1.table) + |l.side1.stash|
  }

  ghost function InStash(l: Layout): nat {
    |l.side0.stash| + |l.side1.stash|
  }

  lemma PutCount(b: Layout, s: nat, p: Path, a: Layout, r: Slot<nat>, at: nat)
    requires s < 2 && Put(b, s, p, a, r, at)
    ensures InStash(a) == InStash(b)
    ensures InUse(b) <= InUse(a) <= InUse(b) + 1
    ensures !Fits(b, s, p) ==> InUse(a) == InUse(b)
  {
    hide InsertStep, HasPlace, UsedSlots;
    InsertCounts(SideOf(b, s).table, SideOf(a, s).table, p.bucket, p.slot, r, at);
  }

  /** An insertion takes up at most one more place, and one more in the stash iff it fails. */
  lemma {:induction false} InsertsCount(b: Layout, s: nat, p: Path, ttl: nat, a: Layout, ok: bool, evictions: nat)
    requires s < 2 && Inserts(b, s, p, ttl, a, ok, evictions)
    ensures InUse(b) <= InUse(a) <= InUse(b) + 1
    ensures InStash(a) == InStash(b) + if ok then 0 else 1
    decreases ttl
  {
    hide Put, Fits, Inserts, Evicted;
    var mid, r, at := InsertsParts(b, s, p, ttl, a, ok, evictions);
    PutCount(b, s, p, mid, r, at);
    if !Fits(b, s, p) && ttl > 0 {
      InsertsCount(mid, Other(s), Evicted(b, s, p, r), ttl - 1, a, ok, evictions - 1);
    }
  }

  /** An insertion changes neither size nor permutations. */
  lemma {:induction false} InsertsKeepsSize(b: Layout, s: nat, p: Path, ttl: nat, a: Layout, ok: bool, evictions: nat)
    requires Inserts(b, s, p, ttl, a, ok, evictions)
    ensures a.log == b.log && a.f0 == b.f0 && a.f1 == b.f1
    decreases ttl
  {
    hide Fits, InsertStep, Inserts, Evicted;
    var mid, r, at := InsertsParts(b, s, p, ttl, a, ok, evictions);
    if !Fits(b, s, p) && ttl > 0 {
      InsertsKeepsSize(mid, Other(s), Evicted(b, s, p, r), ttl - 1, a, ok, evictions - 1);
    }
  }

  lemma EvictedSame(b: Layout, s: nat, p: Path, a: Layout, r: Slot<nat>, at: nat)
    requires Put(b, s, p, a, r, at)
    ensures Evicted(a, s, p, r) == Evicted(b, s, p, r)
  {
    hide InsertStep, Across;
  }

  // ---------- an insertion under way ----------

  /** Where an insertion started. */
  datatype Start = Start(b: Layout, s: nat, p: Path, budget: nat)

  /** However the insertion of p on side s of l ends, that is how the one from the start ends,
  after n evictions so far. */
  ghost predicate Continues(start: Start, n: nat, l: Layout, s: nat, p: Path, ttl: nat) {
    forall a: Layout, ok: bool, k: nat ::
      Inserts(l, s, p, ttl, a, ok, k) ==> Inserts(start.b, start.s, start.p, start.budget, a, ok, k + n)
  }

  lemma ContinuesFirst(start: Start)
    ensures Continues(start, 0, start.b, start.s, start.p, start.budget)
  {
    hide Inserts;
  }

  lemma PlaceFound(b: Layout, s: nat, p: Path, ttl: nat, a: Layout, r: Slot<nat>, at: nat)
    requires Put(b, s, p, a, r, at) && Fits(b, s, p)
    ensures Inserts(b, s, p, ttl, a, true, 0)
  {
    hide Put, Fits, Inserts;
    InsertsFrom(b, s, p, ttl, a, true, 0, a, r, at);
  }

  lemma SpentInserts(b: Layout, s: nat, p: Path, mid: Layout, r: Slot<nat>, at: nat)
    requires Put(b, s, p, mid, r, at) && !Fits(b, s, p)
    ensures Inserts(b, s, p, 0, Stashed(mid, s, Path(p.bucket, r)), false, 1)
  {
    hide Put, Fits, Inserts;
    var ttl: nat := 0;
    InsertsFrom(b, s, p, ttl, Stashed(mid, s, Path(p.bucket, r)), false, 1, mid, r, at);
  }

  lemma MoveInserts(b: Layout, s: nat, p: Path, ttl: nat, less: nat, mid: Layout, r: Slot<nat>, at: nat,
                    a: Layout, ok: bool, k: nat)
    requires Put(b, s, p, mid, r, at) && !Fits(b, s, p) && ttl == less + 1
    requires Inserts(mid, Other(s), Evicted(b, s, p, r), less, a, ok, k)
    ensures Inserts(b, s, p, ttl, a, ok, k + 1)
  {
    hide Put, Fits, Inserts, Evicted;
    InsertsFrom(b, s, p, ttl, a, ok, k + 1, mid, r, at);
  }

  lemma ContinuesEnd(start: Start, n: nat, l: Layout, s: nat, p: Path, ttl: nat, a: Layout, ok: bool, k: nat)
    requires Continues(start, n, l, s, p, ttl) && Inserts(l, s, p, ttl, a, ok, k)
    ensures Inserts(start.b, start.s, start.p, start.budget, a, ok, k + n)
  {
    hide Inserts;
  }

  lemma ContinuesMove(start: Start, n: nat, l: Layout, s: nat, p: Path, ttl: nat, less: nat,
                      mid: Layout, r: Slot<nat>, at: nat)
    requires Continues(start, n, l, s, p, ttl) && Put(l, s, p, mid, r, at) && !Fits(l, s, p) && ttl == less + 1
    ensures Continues(start, n + 1, mid, Other(s), Evicted(l, s, p, r), less)
  {
    hide Inserts, Put, Fits, Evicted;
    var q, t := Evicted(l, s, p, r), Other(s);
    forall a: Layout, ok: bool, k: nat | Inserts(mid, t, q, less, a, ok, k)
      ensures Inserts(start.b, start.s, start.p, start.budget, a, ok, k + (n + 1))
    {
      MoveInserts(l, s, p, ttl, less, mid, r, at, a, ok, k);
      ContinuesEnd(start, n, l, s, p, ttl, a, ok, k + 1);
      assert (k + 1) + n == k + (n + 1);
    }
  }

  // ---------- inserting many paths ----------

  /** Inserting a path with 32 moves to spare. */
  ghost predicate InsertsOne(b: Layout, s: nat, p: Path, a: Layout) {
    exists ok: bool, evictions: nat :: Inserts(b, s, p, 32, a, ok, evictions)
  }

  /** Inserting paths on the left side, one after the other. */
  ghost predicate InsertsAll(b: Layout, ps: seq<Path>, a: Layout)
    decreases |ps|, 1
  {
    if ps == [] then a == b else exists m: Layout :: InsertsAllVia(b, ps, m, a)
  }

  ghost predicate InsertsAllVia(b: Layout, ps: seq<Path>, m: Layout, a: Layout)
    requires ps != []
    decreases |ps|, 0
  {
    InsertsAll(b, ps[..|ps| - 1], m) && InsertsOne(m, 0, ps[|ps| - 1], a)
  }

  lemma InsertsAllNone(b: Layout)
    ensures InsertsAll(b, [], b)
  {
  }

  lemma InsertsAllPush(b: Layout, ps: seq<Path>, m: Layout, p: Path, a: Layout)
    requires InsertsAll(b, ps, m) && InsertsOne(m, 0, p, a)
    ensures InsertsAll(b, ps + [p], a)
  {
    hide InsertsOne;
    assert (ps + [p])[..|ps|] == ps;
    assert InsertsAllVia(b, ps + [p], m, a);
  }

  lemma InsertsAllSingle(b: Layout, p: Path, a: Layout)
    requires InsertsOne(b, 0, p, a)
    ensures InsertsAll(b, [p], a)
  {
    hide InsertsOne;
    InsertsAllPush(b, [], b, p, a);
    assert [] + [p] == [p];
  }

  lemma {:induction false} InsertsAllJoin(b: Layout, ps: seq<Path>, m: Layout, qs: seq<Path>, a: Layout)
    requires InsertsAll(b, ps, m) && InsertsAll(m, qs, a)
    ensures InsertsAll(b, ps + qs, a)
    decreases |qs|
  {
    hide InsertsOne;
    if qs == [] {
      assert ps + qs == ps;
    } else {
      var n := |qs| - 1;
      var l: Layout :| InsertsAllVia(m, qs, l, a);
      InsertsAllJoin(b, ps, m, qs[..n], l);
      InsertsAllPush(b, ps + qs[..n], l, qs[n], a);
      assert ps + qs == ps + qs[..n] + [qs[n]];
    }
  }

  lemma {:induction false} InsertsAllKeepsSize(b: Layout, ps: seq<Path>, a: Layout)
    requires InsertsAll(b, ps, a)
    ensures a.log == b.log && a.f0 == b.f0 && a.f1 == b.f1
    decreases |ps|
  {
    hide Inserts;
    if ps == [] {
    } else {
      var m: Layout :| InsertsAllVia(b, ps, m, a);
      InsertsAllKeepsSize(b, ps[..|ps| - 1], m);
      var ok: bool, n: nat :| Inserts(m, 0, ps[|ps| - 1], 32, a, ok, n);
      InsertsKeepsSize(m, 0, ps[|ps| - 1], 32, a, ok, n);
    }
  }

  // ---------- what a side's entries become ----------

  ghost function StashPaths(stash: seq<Path>, g: Path -> seq<Path>): seq<Path> {
    if stash == [] then [] else StashPaths(stash[..|stash| - 1], g) + g(stash[|stash| - 1])
  }

  ghost function TablePaths(table: Table, g: Path -> seq<Path>): seq<Path> {
    if table == [] then [] else
      var n := |table| - 1;
      TablePaths(table[..n], g) + g(Path(n / SLOTS, table[n]))
  }

  /** The stash's entries first, then those of the slots in order. */
  ghost function SidePaths(side: SideLayout, g: Path -> seq<Path>): seq<Path> {
    StashPaths(side.stash, g) + TablePaths(side.table, g)
  }

  lemma StashPathsStep(stash: seq<Path>, i: nat, g: Path -> seq<Path>)
    requires i < |stash|
    ensures StashPaths(stash[..i + 1], g) == StashPaths(stash[..i], g) + g(stash[i])
  {
    assert stash[..i + 1][..i] == stash[..i];
  }

  lemma TablePathsStep(table: Table, bucket: nat, j: nat, g: Path -> seq<Path>)
    requires j < SLOTS && SLOTS * bucket + SLOTS <= |table|
    ensures var i := SLOTS * bucket + j;
            TablePaths(table[..i + 1], g) == TablePaths(table[..i], g) + g(Path(bucket, table[i]))
  {
    var i := SLOTS * bucket + j;
    BucketOf(bucket, j);
    assert table[..i + 1][..i] == table[..i];
  }

  lemma NoPaths(stash: seq<Path>, table: Table, g: Path -> seq<Path>)
    ensures StashPaths(stash[..0], g) == [] && TablePaths(table[..0], g) == []
  {
  }

  /** The paths of the next size that an entry becomes. */
  function DoubledPaths(p: Path, f: Feistel, to: Feistel, log: LogSize): seq<Path>
    requires log < 49
  {
    if p.slot.tail == 0 then [] else
      var (a, b) := Doubled(p, f, to, log);
      if b.slot.tail == 0 then [a] else [a, b]
  }

  ghost function Doubler(f: Feistel, to: Feistel, log: LogSize): Path -> seq<Path>
    requires log < 49
  {
    (p: Path) => DoubledPaths(p, f, to, log)
  }

  /** Doubling: all entries of b, in order, are inserted into an empty layout of twice the size. */
  ghost predicate Upsized(b: Layout, a: Layout) {
    && b.log < 49
    && InsertsAll(Empty(b.f0, b.f1, b.log + 1),
                  SidePaths(b.side0, Doubler(b.f0, b.f0, b.log)) + SidePaths(b.side1, Doubler(b.f1, b.f0, b.log)), a)
  }

  /** The paths of a filter of size log' that an entry of a smaller or equal one becomes: all
  completions, if its tail is too short. */
  ghost function UnionPaths(p: Path, f: Feistel, to: Feistel, log: LogSize, log': LogSize): seq<Path>
    requires log <= log'
  {
    if p.slot.tail == 0 then []
    else if log == log' then [Across(p, f, to, log)]
    else if log + TailLength(p.slot.tail) >= log' then [Enlarged(p, f, to, log, log')]
    else Completions(p, f, to, log, log', Pow2(log' - log - TailLength(p.slot.tail)))
  }

  /** The first n completions. */
  ghost function Completions(p: Path, f: Feistel, to: Feistel, log: LogSize, log': LogSize, n: nat): seq<Path>
    requires log < log' && p.slot.tail != 0
  {
    if n == 0 then [] else
      Completions(p, f, to, log, log', n - 1) + [Extended(p, f, to, log, log', n - 1)]
  }

  lemma NothingToJoin(p: Path, f: Feistel, to: Feistel, log: LogSize, log': LogSize)
    requires log <= log' && p.slot.tail == 0
    ensures UnionPaths(p, f, to, log, log') == []
  {
  }

  lemma NoCompletions(p: Path, f: Feistel, to: Feistel, log: LogSize, log': LogSize)
    requires log < log' && p.slot.tail != 0
    ensures Completions(p, f, to, log, log', 0) == []
  {
  }

  lemma CompletionsStep(p: Path, f: Feistel, to: Feistel, log: LogSize, log': LogSize, i: nat)
    requires log < log' && p.slot.tail != 0
    ensures Completions(p, f, to, log, log', i + 1) ==
            Completions(p, f, to, log, log', i) + [Extended(p, f, to, log, log', i)]
  {
  }

  ghost function Joiner(f: Feistel, to: Feistel, log: LogSize, log': LogSize): Path -> seq<Path>
    requires log <= log'
  {
    (p: Path) => UnionPaths(p, f, to, log, log')
  }

  /** Union: all entries of that, in order, are inserted into b. */
  ghost predicate Joined(b: Layout, that: Layout, a: Layout) {
    && that.log <= b.log
    && InsertsAll(b, SidePaths(that.side0, Joiner(that.f0, b.f0, that.log, b.log)) +
                     SidePaths(that.side1, Joiner(that.f1, b.f0, that.log, b.log)), a)
  }

  lemma UpsizedSize(b: Layout, a: Layout)
    requires Upsized(b, a)
    ensures a.log == b.log + 1 && a.f0 == b.f0 && a.f1 == b.f1
  {
    hide InsertsAll, SidePaths, Doubler, EmptySide;
    InsertsAllKeepsSize(Empty(b.f0, b.f1, b.log + 1),
                        SidePaths(b.side0, Doubler(b.f0, b.f0, b.log)) + SidePaths(b.side1, Doubler(b.f1, b.f0, b.log)),
                        a);
  }

  // ---------- growing when there is need, and adding ----------

  /** The load test, on what there is: more than nine tenths of the slots' number in use, or all
  but four, or more than eight paths in the stashes. */
  ghost predicate Crowded(l: Layout) {
    var slots := |l.side0.table| + |l.side1.table|;
    10 * InUse(l) > 9 * slots || InUse(l) + 4 >= slots || InStash(l) > 8
  }

  /** n doublings, each of them of a crowded layout. */
  ghost predicate Grows(b: Layout, n: nat, a: Layout) {
    if n == 0 then a == b else exists m: Layout :: Grows(b, n - 1, m) && Crowded(m) && Upsized(m, a)
  }

  lemma {:induction false} GrowsSize(b: Layout, n: nat, a: Layout)
    requires Grows(b, n, a)
    ensures a.log == b.log + n && (n > 0 ==> Crowded(b)) && a.f0 == b.f0 && a.f1 == b.f1
  {
    hide Crowded, Upsized;
    if n == 0 {
    } else {
      var m: Layout :| Grows(b, n - 1, m) && Crowded(m) && Upsized(m, a);
      GrowsSize(b, n - 1, m);
      UpsizedSize(m, a);
    }
  }

  lemma GrowsStart(b: Layout)
    ensures Grows(b, 0, b)
  {
  }

  lemma GrowsMore(b: Layout, n: nat, m: Layout, a: Layout)
    requires Grows(b, n, m) && Crowded(m) && Upsized(m, a)
    ensures Grows(b, n + 1, a)
  {
    hide Crowded, Upsized;
  }

  /** Adding a key: doublings while there is need and no longer, and then its path is inserted. */
  ghost predicate Adds(b: Layout, k: nat, a: Layout) {
    exists n: nat, m: Layout :: Grows(b, n, m) && !Crowded(m) && InsertsOne(m, 0, ToPath(k, m.f0, m.log), a)
  }

  /** Adding grows a crowded filter and no other, and takes up at most one place if it does not. */
  lemma AddsSize(b: Layout, k: nat, a: Layout)
    requires Adds(b, k, a)
    ensures if Crowded(b) then a.log > b.log else a.log == b.log
    ensures !Crowded(b) ==> InUse(b) <= InUse(a) <= InUse(b) + 1 && InStash(b) <= InStash(a) <= InStash(b) + 1
    ensures a.f0 == b.f0 && a.f1 == b.f1
  {
    hide Crowded, Inserts, ToPath, InUse, InStash;
    var n: nat, m: Layout :| Grows(b, n, m) && !Crowded(m) && InsertsOne(m, 0, ToPath(k, m.f0, m.log), a);
    GrowsSize(b, n, m);
    var ok: bool, e: nat :| Inserts(m, 0, ToPath(k, m.f0, m.log), 32, a, ok, e);
    InsertsKeepsSize(m, 0, ToPath(k, m.f0, m.log), 32, a, ok, e);
    InsertsCount(m, 0, ToPath(k, m.f0, m.log), 32, a, ok, e);
  }
}
