/** The minimal taffy cuckoo filter: c/include/filter/minimal-taffy-cuckoo.h and
c/lib/minimal-taffy-cuckoo.c. */
module MinimalTaffyCuckoo {
  import opened Bits
  import opened Prefixes
  import opened Counting
  import opened Buckets
  import opened Feistels
  import opened MinimalPaths
  import opened MinimalContents
  import opened MinimalMoves
  import opened MinimalUnstash

  const TTL: nat := 128

  /** Every array's elements. */
  ghost function Snapshot(levels: seq<array<Slot<Rest>>>): (tables: seq<Table>)
    reads levels
    ensures |tables| == |levels|
    ensures forall l :: 0 <= l < |levels| ==> tables[l] == levels[l][..]
  {
    if levels == [] then [] else Snapshot(levels[..|levels| - 1]) + [levels[|levels| - 1][..]]
  }

  method NewLevel(logLevelSize: nat) returns (level: array<Slot<Rest>>)
    ensures fresh(level) && level.Length == SLOTS * Pow2(logLevelSize)
    ensures forall i :: 0 <= i < level.Length ==> level[i].tail == 0
    ensures level[..] == EmptyTable(logLevelSize)
  {
    level := new Slot<Rest>[SLOTS * Pow2(logLevelSize)](_ => Slot(Rest(false, 0), 0));
  }

  method NewLevels(logLevelSize: nat) returns (ls: seq<array<Slot<Rest>>>)
    ensures |ls| == LEVELS && forall l, m :: 0 <= l < m < LEVELS ==> ls[l] != ls[m]
    ensures forall a :: a in ls ==> fresh(a)
    ensures forall l :: 0 <= l < LEVELS ==> fresh(ls[l])
    ensures forall l :: 0 <= l < LEVELS ==> ls[l].Length == SLOTS * Pow2(logLevelSize)
    ensures forall l, i :: 0 <= l < LEVELS && 0 <= i < ls[l].Length ==> ls[l][i].tail == 0
    ensures forall l :: 0 <= l < LEVELS ==> ls[l][..] == EmptyTable(logLevelSize)
  {
    hide EmptyTable;
    ls := [];
    for i := 0 to LEVELS
      invariant |ls| == i
      invariant forall l, m :: 0 <= l < m < i ==> ls[l] != ls[m]
      invariant forall a :: a in ls ==> fresh(a)
      invariant forall l :: 0 <= l < i ==> fresh(ls[l])
      invariant forall l :: 0 <= l < i ==> ls[l].Length == SLOTS * Pow2(logLevelSize)
      invariant forall l, j :: 0 <= l < i && 0 <= j < ls[l].Length ==> ls[l][j].tail == 0
      invariant forall l :: 0 <= l < i ==> ls[l][..] == EmptyTable(logLevelSize)
    {
      var level := NewLevel(logLevelSize);
      ls := ls + [level];
    }
  }

  class Side {
    var hi: Feistel
    var lo: Feistel
    var levels: seq<array<Slot<Rest>>>
    var stash: seq<Path>

    function Geo(cursor: nat, low: LogSize): Geometry
      reads this
    {
      Geometry(lo, hi, cursor, low)
    }

    ghost function Tables(): seq<Table>
      reads this, levels
    {
      Snapshot(levels)
    }

    ghost function Now(): SideLayout
      reads this, levels
    {
      SideLayout(Tables(), stash)
    }

    /** The prefixes that the side stores. */
    ghost function Stock(cursor: nat, low: LogSize): multiset<Prefix>
      reads this, levels
    {
      SideContents(Geo(cursor, low), Tables(), stash)
    }

    /** The path's bucket can take it without an eviction. */
    ghost predicate HasPlaceFor(p: Path)
      requires p.slot.tail != 0
      reads this, levels
    {
      p.level < |levels| && HasPlace(levels[p.level][..], p.bucket, p.slot)
    }

    lemma PlaceNow(p: Path)
      requires p.slot.tail != 0
      ensures HasPlaceFor(p) <==> p.level < |Tables()| && HasPlace(Tables()[p.level], p.bucket, p.slot)
    {
      hide HasPlace;
    }

    /** The levels are separate arrays. */
    ghost predicate Separate()
      reads this
    {
      && |levels| == LEVELS
      && forall l, m :: 0 <= l < m < LEVELS ==> levels[l] != levels[m]
    }

    /** Every slot in use and every stash entry is a path of this side. */
    ghost predicate Sound(cursor: nat, low: LogSize)
      reads this, levels
    {
      && Separate()
      && ValidTables(Geo(cursor, low), Tables())
      && ValidStash(Geo(cursor, low), stash)
    }

    /** The levels are the old arrays or new ones. */
    twostate predicate Regrown()
      reads this
    {
      && |levels| == |old(levels)|
      && forall l :: 0 <= l < |levels| ==> levels[l] == old(levels[l]) || fresh(levels[l])
    }

    lemma LevelsCount(cursor: nat, low: LogSize)
      requires Sound(cursor, low)
      ensures |levels| == LEVELS
    {
    }

    constructor (logLevelSize: LogSize, keys: seq<Word>)
      requires |keys| == 12
      ensures hi == Feistel(keys[0], keys[1], keys[2], keys[3])
      ensures lo == Feistel(keys[6], keys[7], keys[8], keys[9])
      ensures stash == [] && Sound(0, logLevelSize) && Stock(0, logLevelSize) == multiset{}
      ensures Now() == EmptySide(logLevelSize)
      ensures forall a :: a in levels ==> fresh(a)
      ensures forall l :: 0 <= l < |levels| ==> fresh(levels[l])
    {
      hide Pow2, PathPrefix, TablesContents, ValidPath, EmptyTable;
      hi := Feistel(keys[0], keys[1], keys[2], keys[3]);
      lo := Feistel(keys[6], keys[7], keys[8], keys[9]);
      stash := [];
      var ls := NewLevels(logLevelSize);
      levels := ls;
      new;
      TablesEmpty(Geo(0, logLevelSize), Tables());
      assert Tables() == EmptySide(logLevelSize).tables;
    }

    /** Whether the side holds a path that the key's path q extends. */
    method Find(q: Path) returns (found: bool)
      requires q.slot.tail != 0 && q.level < |levels|
      requires SLOTS * q.bucket + SLOTS <= levels[q.level].Length
      ensures found <==> SideHit(Tables(), stash, q)
    {
      for j := 0 to |stash|
        invariant forall i :: 0 <= i < j ==> !StashHit(stash[i], q)
      {
        if StashHit(stash[j], q) {
          return true;
        }
      }
      found := FindInBucket(levels[q.level], q.bucket, q.slot);
    }

    /** Takes the level at the cursor and the stash out, and puts in an empty level of twice the
    size; the rest reads as before. */
    method Open(cursor: nat, low: LogSize) returns (last: array<Slot<Rest>>, paths: seq<Path>)
      requires Sound(cursor, low) && cursor < LEVELS
      modifies this
      ensures Sound(cursor + 1, low)
      ensures hi == old(hi) && lo == old(lo) && stash == []
      ensures last == old(levels[cursor]) && paths == old(stash)
      ensures cursor < |old(Now()).tables| && last[..] == old(Now()).tables[cursor]
      ensures Now() == OpenedSide(old(Geo(cursor, low)), old(Now()))
      ensures |levels| == |old(levels)| && levels == old(levels)[cursor := levels[cursor]] && fresh(levels[cursor])
      ensures last !in levels && forall a :: a in levels ==> a == levels[cursor] || a in old(levels)
      ensures ValidTable(old(Geo(cursor, low)), cursor, last[..]) && ValidStash(old(Geo(cursor, low)), paths)
      ensures var from := old(Geo(cursor, low));
              && Stock(cursor + 1, low) + Contents(last[..], LevelReader(from, cursor)) + StashContents(from, paths) ==
                 old(Stock(cursor, low))
              && Keys(Stock(cursor + 1, low)) + Drained(from, last[..], paths) == old(Keys(Stock(cursor, low)))
              && |Stock(cursor + 1, low)| + |Contents(last[..], LevelReader(from, cursor))| + |paths| ==
                 old(|Stock(cursor, low)|)
    {
      hide Pow2, PathPrefix, Snapshot, TablesContents, StashContents, Contents, LevelSize, ValidTable, ValidPath,
           LevelReader, Keys, Drained, EmptyTable;
      last, paths := levels[cursor], stash;
      ghost var before := Tables();
      var next := NewLevel(low + 1);
      OpenSide(Geo(cursor, low), before, stash, next[..]);
      levels := levels[cursor := next];
      stash := [];
      assert Tables() == before[cursor := next[..]];
      OpenedStock(old(Stock(cursor, low)), Stock(cursor + 1, low), old(Geo(cursor, low)), last[..], paths);
    }

    /** Inserts into the path's level. What comes back is empty if the path took a free slot,
    the path itself if it was covered already, and else another path at the same place. */
    method Insert(p: Path, ghost cursor: nat, ghost low: LogSize) returns (r: Path, ghost at: nat)
      requires Sound(cursor, low) && ValidPath(Geo(cursor, low), p)
      modifies levels[p.level]
      ensures Sound(cursor, low)
      ensures r == p.(slot := r.slot)
      ensures r.slot.tail != 0 ==> ValidPath(Geo(cursor, low), r)
      ensures Stock(cursor, low) + PathContents(Geo(cursor, low), r) ==
              old(Stock(cursor, low)) + PathContents(Geo(cursor, low), p)
      ensures r == p ==> KeysOf(PathPrefix(Geo(cursor, low), p)) <= Keys(old(Stock(cursor, low)))
      ensures SideHit(Tables(), stash, p)
      ensures r.slot.tail == 0 || r == p <==> old(HasPlaceFor(p))
      ensures |Tables()| == |old(Tables())| && p.level < |old(Tables())| && p.slot.tail != 0
      ensures Tables() == old(Tables())[p.level := Tables()[p.level]] && stash == old(stash)
      ensures SLOTS * p.bucket + SLOTS <= |old(Tables())[p.level]|
      ensures InsertStep(old(Tables())[p.level], Tables()[p.level], p.bucket, p.slot, r.slot, at)
    {
      hide Pow2, PathPrefix, Snapshot, TablesContents, StashContents, Contents, ScanFrom, LevelSize, InsertStep,
           HasPlace;
      ghost var geo := Geo(cursor, low);
      ghost var before := Tables();
      BucketFits(geo, before, p);
      var slot;
      slot, at := InsertInBucket(levels[p.level], p.bucket, p.slot);
      r := p.(slot := slot);
      assert Tables() == before[p.level := levels[p.level][..]];
      TableInsert(geo, before, Tables(), stash, p, slot, at);
      EvictsIffFull(before[p.level], levels[p.level][..], p.bucket, p.slot, slot, at);
    }
  }

  // ---------- one step of an insertion, on stocks ----------

  /** An evicted path and what it is translated to stand for the same keys. */
  lemma EvictedKeys(stock: multiset<Prefix>, from: Geometry, to: Geometry, r: Path, target: set<nat>)
    requires ValidPath(from, r) && to.low == from.low
    requires Keys(stock) + KeysOf(PathPrefix(from, r)) == target
    ensures var (next, extra) := RePath(r, from, to);
            && ValidPath(to, next)
            && (extra.slot.tail == 0 ==> Keys(stock) + KeysOf(PathPrefix(to, next)) == target)
            && (extra.slot.tail != 0 ==>
                  && ValidPath(to, extra)
                  && (Keys(stock) + KeysOf(PathPrefix(to, extra))) + KeysOf(PathPrefix(to, next)) == target)
  {
    hide PathPrefix, ValidPath, Keys, RePath;
    RePathExact(r, from, to);
  }

  lemma SlotsAsShift(low: LogSize, cursor: nat)
    ensures 2 * SLOTS * (Pow2(low) * LEVELS + Pow2(low) * cursor) == Up(32 + cursor, low + 3)
  {
    hide Up, Pow2;
    UpIsProduct(32 + cursor, low + 3);
    EightTimes(low);
    Distribute(Pow2(low), cursor);
  }

  lemma Distribute(p: nat, c: nat)
    ensures 8 * (p * 32 + p * c) == (32 + c) * (8 * p)
  {
  }

  /** One more prefix of log size + 19 bits accepts less than what RoomLeft leaves. */
  lemma AcceptedAfter(before: multiset<Prefix>, pr: Prefix, cursor: nat, low: LogSize)
    requires pr.width == low + 19
    requires |Keys(before)| + Up(3, 51 - low) <= Up(32 + cursor, 54)
    ensures |Keys(before + multiset{pr})| < Up(32 + cursor, 54)
  {
    hide Keys, Up, Pow2;
    KeysUnion(before, multiset{pr});
    PrefixKeysBound(pr, low + 19);
    Pow2Monotone(45 - low, 51 - low);
    Pow2IsUp(51 - low);
    UpSum(1, 2, 51 - low);
    UpPositive(2, 51 - low);
  }

  lemma ItemsAre(b: Layout, from0: Geometry, from1: Geometry, paths0: seq<Path>, paths1: seq<Path>,
                 table0: Table, table1: Table)
    requires CanOpen(b) && b.geo0 == from0 && b.geo1 == from1
    requires b.side0.stash == paths0 && b.side1.stash == paths1
    requires b.side0.tables[from0.cursor] == table0 && b.side1.tables[from1.cursor] == table1
    ensures Items(b) == StashItems(0, paths0, from0) + StashItems(1, paths1, from1) +
                        TableItems(0, table0, from0) + TableItems(1, table1, from1)
  {
    hide StashItems, TableItems;
  }

  lemma ClosesTo(m: Layout, a: Layout)
    requires m.geo0.cursor == m.geo1.cursor && m.geo0.low == m.geo1.low
    requires if m.geo0.cursor == LEVELS then m.geo0.low < 45 && a == StartedOver(m) else a == m
    ensures Closes(m, a)
  {
  }

  /** The keys of a level and a stash that were taken out. */
  ghost function Drained(from: Geometry, table: Table, paths: seq<Path>): set<nat> {
    Keys(Contents(table, LevelReader(from, from.cursor))) + Keys(StashContents(from, paths))
  }

  lemma OpenedStock(stock: multiset<Prefix>, rest: multiset<Prefix>, from: Geometry, table: Table, paths: seq<Path>)
    requires ValidStash(from, paths)
    requires rest + Contents(table, LevelReader(from, from.cursor)) + StashContents(from, paths) == stock
    ensures Keys(stock) == Keys(rest) + Drained(from, table, paths)
    ensures |stock| == |rest| + |Contents(table, LevelReader(from, from.cursor))| + |paths|
  {
    hide Keys, Contents, StashOf, LevelReader;
    var level, stash := Contents(table, LevelReader(from, from.cursor)), StashContents(from, paths);
    KeysUnion(rest + level, stash);
    KeysUnion(rest, level);
    StashCount(paths, StashReader(from));
    assert |rest + level + stash| == |rest| + |level| + |stash|;
  }

  lemma OpenedBoth(stock0: multiset<Prefix>, rest0: multiset<Prefix>, drained0: set<nat>,
                   stock1: multiset<Prefix>, rest1: multiset<Prefix>, drained1: set<nat>)
    requires Keys(stock0) == Keys(rest0) + drained0 && Keys(stock1) == Keys(rest1) + drained1
    ensures Keys(rest0 + rest1) + drained0 + drained1 == Keys(stock0 + stock1)
    ensures |rest0 + rest1| == |rest0| + |rest1| && |stock0 + stock1| == |stock0| + |stock1|
  {
    hide Keys;
    KeysUnion(stock0, stock1);
    KeysUnion(rest0, rest1);
  }

  lemma AddLast(a: set<nat>, b: set<nat>, c: set<nat>)
    ensures a + b + c == a + (b + c)
  {
  }

  lemma NoStash(from: Geometry, paths: seq<Path>)
    ensures Keys(StashContents(from, paths[..0])) == {}
  {
    hide Keys;
    NoKeys();
    StashNone(paths, StashReader(from));
  }

  class Filter {
    const side0: Side
    const side1: Side
    var cursor: nat
    var logSideSize: LogSize
    var occupied: int
    /** The prefixes of all the keys ever added. */
    ghost var added: multiset<Prefix>

    function SideAt(i: nat): Side {
      if i == 0 then side0 else side1
    }

    function Geo(i: nat): Geometry
      reads this`cursor, this`logSideSize, side0, side1
    {
      SideAt(i).Geo(cursor, logSideSize)
    }

    /** No array is used twice. */
    ghost predicate Shape()
      reads side0, side1
    {
      side0 != side1 && forall a :: a in side0.levels ==> a !in side1.levels
    }

    /** Every slot in use and every stash entry is a path of its side. */
    ghost predicate Sound()
      reads this`cursor, this`logSideSize, side0, side1, side0.levels, side1.levels
    {
      && Shape()
      && cursor <= LEVELS
      && side0.Sound(cursor, logSideSize)
      && side1.Sound(cursor, logSideSize)
    }

    /** The prefixes that the filter stores. */
    ghost function Stock(): multiset<Prefix>
      reads this`cursor, this`logSideSize, side0, side1, side0.levels, side1.levels
    {
      side0.Stock(cursor, logSideSize) + side1.Stock(cursor, logSideSize)
    }

    /** What the filter holds. */
    ghost function Now(): Layout
      reads this`cursor, this`logSideSize, side0, side1, side0.levels, side1.levels
    {
      Layout(Geo(0), Geo(1), side0.Now(), side1.Now())
    }

    /** The filter stands for the keys of target once p is inserted on side i. */
    ghost predicate InFlight(i: nat, p: Path, target: set<nat>, slack: int)
      reads this, side0, side1, side0.levels, side1.levels
    {
      && Sound()
      && ValidPath(Geo(i), p)
      && Keys(Stock()) + KeysOf(PathPrefix(Geo(i), p)) == target
      && occupied == |Stock()| + slack
    }

    /** The insertion is over. */
    ghost predicate Landed(target: set<nat>, slack: int)
      reads this, side0, side1, side0.levels, side1.levels
    {
      Sound() && Keys(Stock()) == target && occupied == |Stock()| + slack
    }

    ghost predicate Valid()
      reads this, side0, side1, side0.levels, side1.levels
    {
      && Sound()
      && cursor < LEVELS
      && occupied == |Stock()|
      && Keys(Stock()) == Keys(added)
    }

    constructor (logSize: LogSize, entropy: seq<Word>)
      requires |entropy| == 24
      ensures Valid() && added == multiset{} && cursor == 0 && logSideSize == logSize
      ensures occupied == 0 && side0.stash == side1.stash == []
      ensures Now() == Empty(Feistel(entropy[6], entropy[7], entropy[8], entropy[9]),
                             Feistel(entropy[0], entropy[1], entropy[2], entropy[3]),
                             Feistel(entropy[18], entropy[19], entropy[20], entropy[21]),
                             Feistel(entropy[12], entropy[13], entropy[14], entropy[15]), logSize)
      ensures fresh(side0) && fresh(side1)
      ensures forall l :: 0 <= l < |side0.levels| ==> fresh(side0.levels[l])
      ensures forall l :: 0 <= l < |side1.levels| ==> fresh(side1.levels[l])
    {
      hide Pow2, PathPrefix, TablesContents, StashContents, ValidTables, ValidStash, Snapshot, SideContents, EmptySide,
           Keys;
      side0 := new Side(logSize, entropy[..12]);
      side1 := new Side(logSize, entropy[12..]);
      cursor := 0;
      logSideSize := logSize;
      occupied := 0;
      added := multiset{};
      new;
      assert Stock() == multiset{};
    }

    /** Inserting on one side leaves the other as it is. */
    method InsertOnSide(i: nat, p: Path) returns (r: Path, ghost at: nat)
      requires i < 2 && Sound() && ValidPath(Geo(i), p)
      modifies side0.levels, side1.levels
      ensures Sound()
      ensures r.slot.tail != 0 ==> ValidPath(Geo(i), r)
      ensures Stock() + PathContents(Geo(i), r) == old(Stock()) + PathContents(Geo(i), p)
      ensures r == p ==> KeysOf(PathPrefix(Geo(i), p)) <= Keys(old(Stock()))
      ensures p.slot.tail != 0 && (r.slot.tail == 0 || r == p <==> Fits(old(Now()), i, p))
      ensures r == p.(slot := r.slot) && Put(old(Now()), i, p, Now(), r.slot, at)
    {
      hide PathPrefix, ValidPath, SideContents, ValidTables, ValidStash, Keys, Snapshot, SideHit, PathContents,
           InsertStep, HasPlace;
      ghost var mine, other := SideAt(i).Stock(cursor, logSideSize), SideAt(1 - i).Stock(cursor, logSideSize);
      assert Stock() == mine + other;
      LevelInRange(Geo(i), p);
      assert SideAt(i).levels[p.level] in SideAt(i).levels;
      assert SideAt(i).levels[p.level] !in SideAt(1 - i).levels;
      SideAt(i).PlaceNow(p);
      r, at := SideAt(i).Insert(p, cursor, logSideSize);
      ghost var mine' := SideAt(i).Stock(cursor, logSideSize);
      assert SideAt(1 - i).Stock(cursor, logSideSize) == other;
      AddToBoth(mine', PathContents(Geo(i), r), mine, PathContents(Geo(i), p), other);
      assert Stock() == mine' + other;
      KeysUnion(mine, other);
    }

    method StashOnSide(i: nat, p: Path)
      requires i < 2 && Sound() && ValidPath(Geo(i), p)
      modifies this`occupied, side0`stash, side1`stash
      ensures Sound() && occupied == old(occupied) + 1
      ensures Stock() == old(Stock()) + multiset{PathPrefix(Geo(i), p)}
      ensures SideAt(i).stash == old(SideAt(i).stash) + [p] && SideAt(1 - i).stash == old(SideAt(1 - i).stash)
      ensures Now() == Stashed(old(Now()), i, p)
    {
      hide PathPrefix, ValidPath, TablesContents, ValidTables, Keys, Snapshot, StashOf;
      LevelInRange(Geo(i), p);
      StashPush(SideAt(i).stash, p, StashReader(Geo(i)));
      SideAt(i).stash := SideAt(i).stash + [p];
      occupied := occupied + 1;
    }

    /** The end of an insertion that ran out of turns. */
    method GiveUp(i: nat, p: Path, ghost target: set<nat>, ghost slack: int, ghost start: Start)
      requires i < 2 && InFlight(i, p, target, slack) && Continues(start, Now(), i, p, 0)
      modifies this`occupied, side0`stash, side1`stash
      ensures Landed(target, slack)
      ensures SideAt(i).stash == old(SideAt(i).stash) + [p] && SideAt(1 - i).stash == old(SideAt(1 - i).stash)
      ensures Inserts(start.b, start.s, start.p, start.budget, Now())
    {
      hide PathPrefix, ValidPath, Keys, Side.Sound, Side.Stock, Sound, Stock, Now, Inserts, Stashed;
      ghost var ttl: nat := 0;
      StashInserts(Now(), i, p, ttl);
      ContinuesEnd(start, Now(), i, p, ttl, Stashed(Now(), i, p));
      KeysUnion(Stock(), multiset{PathPrefix(Geo(i), p)});
      StashOnSide(i, p);
    }

    /** One turn of the insertion loop on side i, with ttl turns left: done, or another path to
    insert on the other side. */
    method Turn(i: nat, p: Path, ttl: nat, ghost target: set<nat>, ghost slack: int, ghost start: Start)
      returns (done: bool, next: Path)
      requires i < 2 && InFlight(i, p, target, slack) && Continues(start, Now(), i, p, ttl + 1)
      modifies this`occupied, side0`stash, side1`stash, side0.levels, side1.levels
      ensures done ==> Landed(target, slack)
      ensures !done ==> InFlight(1 - i, next, target, slack)
      ensures p.slot.tail != 0 && (Fits(old(Now()), i, p) ==> done && unchanged(side0`stash, side1`stash))
      ensures if done then Inserts(start.b, start.s, start.p, start.budget, Now())
              else Continues(start, Now(), 1 - i, next, ttl)
      decreases ttl, 2
    {
      hide PathPrefix, ValidPath, PathContents, Keys, Side.Sound, Side.Stock, Sound, Stock, Now,
           Put, Fits, Inserts, Continues, ContinuesAcross;
      ghost var before, from := Stock(), Now();
      ghost var kick;
      var r;
      r, kick := InsertOnSide(i, p);
      if Fits(from, i, p) {
        PlaceFound(from, i, p, ttl + 1, Now(), r.slot, kick);
        ContinuesEnd(start, from, i, p, ttl + 1, Now());
      } else {
        ContinuesEvicted(start, from, i, p, ttl + 1, ttl, Now(), r.slot, kick);
      }
      LevelInRange(Geo(i), p);
      PathKeys(Geo(i), p);
      PathKeys(Geo(i), r);
      InsertedKeys(before, Stock(), PathPrefix(Geo(i), p), PathContents(Geo(i), r));
      if r.slot.tail == 0 {
        occupied := occupied + 1;
        return true, p;
      }
      if r == p {
        return true, p;
      }
      next := Translate(i, r, ttl, target, slack, start);
      return false, next;
    }

    /** Sends an evicted path to the other side. If it has to be split, one part is inserted there
    at once. */
    method Translate(i: nat, r: Path, ttl: nat, ghost target: set<nat>, ghost slack: int, ghost start: Start)
      returns (next: Path)
      requires i < 2 && InFlight(i, r, target, slack) && ContinuesAcross(start, Now(), i, r, ttl)
      modifies this`occupied, side0`stash, side1`stash, side0.levels, side1.levels
      ensures InFlight(1 - i, next, target, slack) && Continues(start, Now(), 1 - i, next, ttl)
      decreases ttl, 1
    {
      hide PathPrefix, ValidPath, Keys, RePath, Side.Sound, Side.Stock, Sound, Stock, Now, Inserts, Fits, Continues,
           ContinuesAcross;
      LevelInRange(Geo(i), r);
      EvictedKeys(Stock(), Geo(i), Geo(1 - i), r, target);
      GeosNow(i);
      ghost var from := Now();
      var (follow, more) := RePath(r, Geo(i), Geo(1 - i));
      if more.slot.tail != 0 {
        InsertDetail(1 - i, more, ttl);
        ContinuesSplit(start, from, i, r, ttl, follow, more, Now());
      } else {
        ContinuesWhole(start, from, i, r, ttl, follow);
      }
      next := follow;
    }

    lemma GeosNow(i: nat)
      requires i < 2
      ensures GeoOf(Now(), i) == Geo(i) && GeoOf(Now(), Other(i)) == Geo(1 - i) && Other(i) == 1 - i
    {
      hide Snapshot;
    }

    lemma StashesNow()
      ensures Now().side0.stash == side0.stash && Now().side1.stash == side1.stash
    {
      hide Snapshot;
    }

    /** Inserts a path, evicting and translating until a slot takes it or ttl runs out. The
    keys of the filter become exactly the old ones and those of the path, whatever is evicted. */
    method InsertDetail(side: nat, path: Path, budget: nat)
      requires side < 2 && Sound() && ValidPath(Geo(side), path)
      modifies this`occupied, side0`stash, side1`stash, side0.levels, side1.levels
      ensures Sound()
      ensures Keys(Stock()) == old(Keys(Stock())) + KeysOf(PathPrefix(Geo(side), path))
      ensures occupied - |Stock()| == old(occupied - |Stock()|)
      ensures path.slot.tail != 0
      ensures budget > 0 && Fits(old(Now()), side, path) ==> unchanged(side0`stash, side1`stash)
      ensures Inserts(old(Now()), side, path, budget, Now())
      decreases budget, 0
    {
      hide PathPrefix, ValidPath, Keys, Side.Sound, Side.Stock, Sound, Stock, Now, Inserts, Fits, Continues, InFlight,
           Landed;
      LevelInRange(Geo(side), path);
      StashesNow();
      ghost var start := Start(Now(), side, path, budget);
      ContinuesFirst(start);
      ghost var target := Keys(Stock()) + KeysOf(PathPrefix(Geo(side), path));
      ghost var slack := occupied - |Stock()|;
      FlightStarts(side, path);
      var p := path;
      var ttl: nat := budget;
      while true
        invariant ttl <= budget && InFlight(side, p, target, slack) && Continues(start, Now(), side, p, ttl)
        decreases ttl
      {
        ghost var turns := ttl;
        var j := 0;
        while j < 2
          invariant j <= 2 && ttl <= turns && (j > 0 ==> ttl < turns)
          invariant InFlight(if j == 1 then 1 - side else side, p, target, slack)
          invariant Continues(start, Now(), if j == 1 then 1 - side else side, p, ttl)
        {
          var i := if j == 1 then 1 - side else side;
          if ttl == 0 {
            GiveUp(i, p, target, slack, start);
            LandedMeans(target, slack);
            SparedStash(start);
            return;
          }
          ttl := ttl - 1;
          var done;
          done, p := Turn(i, p, ttl, target, slack, start);
          if done {
            LandedMeans(target, slack);
            SparedStash(start);
            return;
          }
          j := j + 1;
        }
      }
    }

    lemma FlightStarts(side: nat, path: Path)
      requires side < 2 && Sound() && ValidPath(Geo(side), path)
      ensures InFlight(side, path, Keys(Stock()) + KeysOf(PathPrefix(Geo(side), path)), occupied - |Stock()|)
    {
      hide Keys, Sound, Stock, PathPrefix, ValidPath;
    }

    lemma SparedStash(start: Start)
      requires Inserts(start.b, start.s, start.p, start.budget, Now())
      ensures start.budget > 0 && Fits(start.b, start.s, start.p) ==>
                side0.stash == start.b.side0.stash && side1.stash == start.b.side1.stash
    {
      hide Inserts, Fits, Now;
      if start.budget > 0 && Fits(start.b, start.s, start.p) {
        PlaceSparesStash(start.b, start.s, start.p, start.budget, Now());
        StashesNow();
      }
    }

    /** Both probes of one side. */
    method FindOnSide(i: nat, k: Word) returns (found: bool)
      requires i < 2 && Sound()
      ensures found <==> Accepts(SideAt(i).Stock(cursor, logSideSize), k)
    {
      hide PathPrefix, ValidPath, SideHit, KeyPath, ValidTables, ValidStash, SideContents, Accepts, Snapshot;
      ghost var tables, stash := SideAt(i).Tables(), SideAt(i).stash;
      ProbesExact(Geo(i), tables, stash, k);
      KeyPathFits(Geo(i), tables, k, true);
      KeyPathFits(Geo(i), tables, k, false);
      var p := KeyPath(Geo(i), k, true);
      if p.slot.tail != 0 {
        found := SideAt(i).Find(p);
        if found {
          return;
        }
      }
      p := KeyPath(Geo(i), k, false);
      if p.slot.tail != 0 {
        found := SideAt(i).Find(p);
        if found {
          return;
        }
      }
      found := false;
    }

    lemma KeysAreAdded()
      requires Valid()
      ensures Keys(Stock()) == Keys(added)
    {
    }

    lemma AcceptedBySides(k: Word)
      requires Valid()
      ensures Accepts(added, k) <==> k in Keys(Stock())
      ensures k in Keys(Stock()) <==>
              Accepts(side0.Stock(cursor, logSideSize), k) || Accepts(side1.Stock(cursor, logSideSize), k)
    {
      hide Keys, Accepts, Side.Sound, Side.Stock, Sound;
      KeysUnion(side0.Stock(cursor, logSideSize), side1.Stock(cursor, logSideSize));
      KeysIff(side0.Stock(cursor, logSideSize), k);
      KeysIff(side1.Stock(cursor, logSideSize), k);
      KeysIff(added, k);
    }

    /** Whether the filter accepts a key: exactly if it extends a prefix that was added. */
    method FindHash(k: Word) returns (found: bool)
      requires Valid()
      ensures found <==> k in Keys(Stock())
      ensures found <==> Accepts(added, k)
    {
      hide Keys, Accepts, Side.Sound, Side.Stock, Sound, Stock;
      AcceptedBySides(k);
      for i := 0 to 2
        invariant i > 0 ==> !Accepts(side0.Stock(cursor, logSideSize), k)
        invariant i > 1 ==> !Accepts(side1.Stock(cursor, logSideSize), k)
      {
        found := FindOnSide(i, k);
        if found {
          return;
        }
      }
      found := false;
    }

    /** Translates a path of the previous cursor and inserts what it becomes. */
    method Reinsert(s: nat, p: Path, from: Geometry)
      requires s < 2 && Sound() && ValidPath(from, p) && Geo(s) == Advanced(from)
      modifies this`occupied, side0`stash, side1`stash, side0.levels, side1.levels
      ensures Sound()
      ensures Keys(Stock()) == old(Keys(Stock())) + KeysOf(PathPrefix(from, p))
      ensures occupied - |Stock()| == old(occupied - |Stock()|)
      ensures InsertsAll(old(Now()), Moved(s, p, from), Now())
      ensures p.slot.tail != 0
      ensures var (r, q) := RePath(p, from, Advanced(from));
              q.slot.tail == 0 && Fits(old(Now()), s, r) ==> unchanged(side0`stash, side1`stash)
    {
      hide PathPrefix, ValidPath, Keys, RePath, Side.Sound, Side.Stock, Sound, Stock, Now, Inserts, InsertsAll, Fits;
      LevelInRange(from, p);
      RePathExact(p, from, Geo(s));
      ghost var start := Now();
      InsertsAllNone(start);
      var (r, q) := RePath(p, from, Geo(s));
      if q.slot.tail != 0 {
        InsertDetail(s, q, TTL);
        InsertsAllPush(start, [], start, Item(s, q), Now());
        assert [] + [Item(s, q)] == [Item(s, q)];
      }
      ghost var mid := Now();
      ghost var first := if q.slot.tail != 0 then [Item(s, q)] else [];
      InsertDetail(s, r, TTL);
      InsertsAllPush(start, first, mid, Item(s, r), Now());
      assert first + [Item(s, r)] == Moved(s, p, from);
    }

    method ReinsertStash(s: nat, paths: seq<Path>, from: Geometry)
      requires s < 2 && Sound() && ValidStash(from, paths) && Geo(s) == Advanced(from)
      modifies this`occupied, side0`stash, side1`stash, side0.levels, side1.levels
      ensures Sound()
      ensures Keys(Stock()) == old(Keys(Stock())) + Keys(StashContents(from, paths))
      ensures occupied - |Stock()| == old(occupied - |Stock()|)
      ensures InsertsAll(old(Now()), StashItems(s, paths, from), Now())
    {
      hide PathPrefix, Keys, StashContents, Side.Sound, Side.Stock, Sound, Stock, Now, InsertsAll, StashItems,
           ValidStash, Landed;
      ghost var start := Now();
      ghost var keys, slack := Keys(Stock()), occupied - |Stock()|;
      InsertsAllNone(start);
      NoItems(s, paths, [], from);
      NoStash(from, paths);
      LandedNow(keys, slack);
      for i := 0 to |paths|
        invariant Landed(keys + Keys(StashContents(from, paths[..i])), slack)
        invariant InsertsAll(start, StashItems(s, paths[..i], from), Now())
      {
        ReinsertEntry(s, paths, i, from, keys, slack, start);
      }
      assert paths[..|paths|] == paths;
      LandedMeans(keys + Keys(StashContents(from, paths)), slack);
    }

    lemma LandedNow(keys: set<nat>, slack: int)
      requires Sound() && Keys(Stock()) == keys && occupied - |Stock()| == slack
      ensures Landed(keys + {}, slack) && Landed(keys, slack)
    {
      hide Keys, Sound, Stock;
      assert keys + {} == keys;
    }

    lemma LandedMeans(keys: set<nat>, slack: int)
      requires Landed(keys, slack)
      ensures Sound() && Keys(Stock()) == keys && occupied - |Stock()| == slack
    {
      hide Keys, Sound, Stock;
    }

    /** Moves entry i of a stash that was taken out back into the filter. */
    method ReinsertEntry(s: nat, paths: seq<Path>, i: nat, from: Geometry, ghost keys: set<nat>, ghost slack: int,
                         ghost start: Layout)
      requires s < 2 && ValidStash(from, paths) && i < |paths| && Geo(s) == Advanced(from)
      requires Landed(keys + Keys(StashContents(from, paths[..i])), slack)
      requires InsertsAll(start, StashItems(s, paths[..i], from), Now())
      modifies this`occupied, side0`stash, side1`stash, side0.levels, side1.levels
      ensures Landed(keys + Keys(StashContents(from, paths[..i + 1])), slack)
      ensures InsertsAll(start, StashItems(s, paths[..i + 1], from), Now())
    {
      hide PathPrefix, ValidPath, Keys, StashOf, Side.Sound, Side.Stock, Sound, Stock, Now, InsertsAll, StashItems,
           Moved, RePath, Fits;
      ghost var mid := Now();
      LevelInRange(from, paths[i]);
      StashKeysStep(paths, i, StashReader(from));
      StashItemsStep(s, paths, i, from);
      Reinsert(s, paths[i], from);
      InsertsAllJoin(start, StashItems(s, paths[..i], from), mid, Moved(s, paths[i], from), Now());
      AddLast(keys, Keys(StashContents(from, paths[..i])), KeysOf(PathPrefix(from, paths[i])));
    }

    /** Moves slot j of bucket i of the level that was taken out back into the filter. */
    method ReinsertSlot(s: nat, last: array<Slot<Rest>>, i: nat, j: nat, from: Geometry,
                        ghost table: Table, ghost keys: set<nat>, ghost slack: int, ghost start: Layout)
      requires s < 2 && from.cursor < LEVELS && Geo(s) == Advanced(from)
      requires table == last[..] && ValidTable(from, from.cursor, table)
      requires j < SLOTS && SLOTS * i + SLOTS <= |table|
      requires ghost var done := Contents(table[..SLOTS * i + j], LevelReader(from, from.cursor));
               Landed(keys + Keys(done), slack - |done|)
      requires InsertsAll(start, TableItems(s, table[..SLOTS * i + j], from), Now())
      modifies this`occupied, side0`stash, side1`stash, side0.levels, side1.levels
      ensures ghost var done := Contents(table[..SLOTS * i + j + 1], LevelReader(from, from.cursor));
              Landed(keys + Keys(done), slack - |done|)
      ensures InsertsAll(start, TableItems(s, table[..SLOTS * i + j + 1], from), Now())
    {
      hide PathPrefix, ValidPath, Keys, Contents, LevelReader, ValidRest, Side.Sound, Side.Stock, Now, InsertsAll,
           TableItems, RePath, Sound, Stock;
      ghost var mid, p := Now(), Path(from.cursor, i, table[SLOTS * i + j]);
      LevelStep(from, from.cursor, table, i, j);
      TableItemsStep(s, table, i, j, from);
      if last[SLOTS * i + j].tail == 0 {
        assert Moved(s, p, from) == [];
        assert TableItems(s, table[..SLOTS * i + j], from) + [] == TableItems(s, table[..SLOTS * i + j], from);
        return;
      }
      occupied := occupied - 1;
      Reinsert(s, Path(from.cursor, i, last[SLOTS * i + j]), from);
      InsertsAllJoin(start, TableItems(s, table[..SLOTS * i + j], from), mid, Moved(s, p, from), Now());
    }

    /** Moves the slots of the level that was taken out back into the filter. */
    method ReinsertLevel(s: nat, last: array<Slot<Rest>>, from: Geometry, ghost table: Table)
      requires s < 2 && Sound() && from.cursor < LEVELS && Geo(s) == Advanced(from)
      requires table == last[..] && ValidTable(from, from.cursor, table)
      requires last !in side0.levels && last !in side1.levels
      modifies this`occupied, side0`stash, side1`stash, side0.levels, side1.levels
      ensures Sound()
      ensures Keys(Stock()) == old(Keys(Stock())) + Keys(Contents(table, LevelReader(from, from.cursor)))
      ensures occupied - |Stock()| == old(occupied - |Stock()|) - |Contents(table, LevelReader(from, from.cursor))|
      ensures InsertsAll(old(Now()), TableItems(s, table, from), Now())
    {
      hide PathPrefix, ValidPath, Keys, Contents, LevelReader, ValidRest, Side.Sound, Side.Stock, Sound, Stock, Now,
           InsertsAll, TableItems, Landed, ValidTable;
      ghost var start := Now();
      InsertsAllNone(start);
      NoItems(s, [], table, from);
      TableSize(from, table);
      ghost var g := LevelReader(from, from.cursor);
      ghost var keys, slack := Keys(Stock()), occupied - |Stock()|;
      LevelStart(from, from.cursor, table);
      LandedNow(keys, slack);
      var buckets := Pow2(from.low);
      for i := 0 to buckets
        invariant Landed(keys + Keys(Contents(table[..SLOTS * i], g)), slack - |Contents(table[..SLOTS * i], g)|)
        invariant InsertsAll(start, TableItems(s, table[..SLOTS * i], from), Now())
        invariant last[..] == table
      {
        for j := 0 to SLOTS
          invariant Landed(keys + Keys(Contents(table[..SLOTS * i + j], g)),
                           slack - |Contents(table[..SLOTS * i + j], g)|)
          invariant InsertsAll(start, TableItems(s, table[..SLOTS * i + j], from), Now())
          invariant last[..] == table
        {
          ReinsertSlot(s, last, i, j, from, table, keys, slack, start);
        }
      }
      assert table[..SLOTS * buckets] == table;
      LandedMeans(keys + Keys(Contents(table, g)), slack - |Contents(table, g)|);
    }

    lemma TableSize(from: Geometry, table: Table)
      requires ValidTable(from, from.cursor, table)
      ensures |table| == SLOTS * Pow2(from.low)
    {
      hide Pow2;
    }

    /** Both sides are opened and the cursor advances. */
    method OpenSides() returns (last0: array<Slot<Rest>>, last1: array<Slot<Rest>>,
                                paths0: seq<Path>, paths1: seq<Path>)
      requires Sound() && cursor < LEVELS
      modifies this`cursor, side0, side1
      ensures Sound() && cursor == old(cursor) + 1
      ensures SideGeoKept(old(Geo(0)), 0) && SideGeoKept(old(Geo(1)), 1)
      ensures TakenOut(old(Geo(0)), last0, paths0) && TakenOut(old(Geo(1)), last1, paths1)
      ensures side0.Regrown() && side1.Regrown()
      ensures CanOpen(old(Now())) && Now() == Opened(old(Now()))
      ensures last0[..] == old(Now()).side0.tables[old(cursor)] && paths0 == old(side0.stash)
      ensures last1[..] == old(Now()).side1.tables[old(cursor)] && paths1 == old(side1.stash)
      ensures Keys(side0.Stock(cursor, logSideSize)) + Drained(old(Geo(0)), last0[..], paths0) ==
              old(Keys(side0.Stock(cursor, logSideSize)))
      ensures Keys(side1.Stock(cursor, logSideSize)) + Drained(old(Geo(1)), last1[..], paths1) ==
              old(Keys(side1.Stock(cursor, logSideSize)))
      ensures |side0.Stock(cursor, logSideSize)| + |Contents(last0[..], LevelReader(old(Geo(0)), old(cursor)))| +
              |paths0| == old(|side0.Stock(cursor, logSideSize)|)
      ensures |side1.Stock(cursor, logSideSize)| + |Contents(last1[..], LevelReader(old(Geo(1)), old(cursor)))| +
              |paths1| == old(|side1.Stock(cursor, logSideSize)|)
    {
      hide Pow2, PathPrefix, Keys, StashContents, Contents, ValidTable, ValidPath, ValidStash, LevelReader, Side.Sound,
           Side.Stock, Drained, OpenedSide, Side.Now, Side.Tables;
      var c := cursor;
      side0.LevelsCount(c, logSideSize);
      side1.LevelsCount(c, logSideSize);
      assert side0.levels[c] in side0.levels && side1.levels[c] in side1.levels;
      last0, paths0 := side0.Open(c, logSideSize);
      last1, paths1 := side1.Open(c, logSideSize);
      cursor := c + 1;
    }

    /** First part of upsize: a level and the stash of each side are taken out. */
    method OpenLevel() returns (last0: array<Slot<Rest>>, last1: array<Slot<Rest>>,
                                paths0: seq<Path>, paths1: seq<Path>)
      requires Sound() && cursor < LEVELS
      modifies this`cursor, this`occupied, side0, side1
      ensures Sound() && cursor == old(cursor) + 1
      ensures SideGeoKept(old(Geo(0)), 0) && SideGeoKept(old(Geo(1)), 1)
      ensures TakenOut(old(Geo(0)), last0, paths0) && TakenOut(old(Geo(1)), last1, paths1)
      ensures occupied - |Stock()| == old(occupied - |Stock()|)
                                      + |Contents(last0[..], LevelReader(old(Geo(0)), old(cursor)))|
                                      + |Contents(last1[..], LevelReader(old(Geo(1)), old(cursor)))|
      ensures Keys(Stock()) + Drained(old(Geo(0)), last0[..], paths0) + Drained(old(Geo(1)), last1[..], paths1) ==
              old(Keys(Stock()))
      ensures side0.Regrown() && side1.Regrown()
      ensures CanOpen(old(Now())) && Now() == Opened(old(Now()))
      ensures last0[..] == old(Now()).side0.tables[old(cursor)] && paths0 == old(side0.stash)
      ensures last1[..] == old(Now()).side1.tables[old(cursor)] && paths1 == old(side1.stash)
    {
      hide Keys, StashContents, Contents, LevelReader, Side.Stock, Drained, Opened, CanOpen, Now, Sound, TakenOut;
      var c := cursor;
      ghost var stock0, stock1 := side0.Stock(c, logSideSize), side1.Stock(c, logSideSize);
      ghost var from0, from1 := Geo(0), Geo(1);
      last0, last1, paths0, paths1 := OpenSides();
      occupied := occupied - |paths0| - |paths1|;
      OpenedBoth(stock0, side0.Stock(c + 1, logSideSize), Drained(from0, last0[..], paths0),
                 stock1, side1.Stock(c + 1, logSideSize), Drained(from1, last1[..], paths1));
    }

    ghost predicate SideGeoKept(from: Geometry, s: nat)
      reads this`logSideSize, side0, side1
    {
      from.lo == SideAt(s).lo && from.hi == SideAt(s).hi && from.low == logSideSize
    }

    /** A level and stash that are no longer part of the filter. */
    ghost predicate TakenOut(from: Geometry, last: array<Slot<Rest>>, paths: seq<Path>)
      reads side0, side1, last
    {
      && from.cursor < LEVELS
      && ValidTable(from, from.cursor, last[..])
      && ValidStash(from, paths)
      && last !in side0.levels && last !in side1.levels
    }

    /** Whether the next size still fits a path into 64 key bits. */
    predicate CanGrow()
      reads this
    {
      cursor + 1 < LEVELS || logSideSize < 45
    }

    /** Last part of upsize: once all levels are doubled, the cursor starts over at the next
    size and the permutations change places. */
    method StartOver()
      requires Sound() && cursor == LEVELS && logSideSize < 45
      modifies this`cursor, this`logSideSize, side0`lo, side0`hi, side1`lo, side1`hi
      ensures Sound() && cursor == 0 && logSideSize == old(logSideSize) + 1
      ensures Stock() == old(Stock())
      ensures forall i :: 0 <= i < 2 ==> SideAt(i).lo == old(SideAt(i).hi) && SideAt(i).hi == old(SideAt(i).lo)
      ensures Now() == StartedOver(old(Now()))
    {
      hide Pow2, PathPrefix, SideContents, ValidTables, ValidPath, ValidStash, Snapshot;
      WrapSide(Geo(0), side0.Tables(), side0.stash);
      WrapSide(Geo(1), side1.Tables(), side1.stash);
      cursor := 0;
      logSideSize := logSideSize + 1;
      side0.lo, side0.hi := side0.hi, side0.lo;
      side1.lo, side1.hi := side1.hi, side1.lo;
    }

    /** Middle part of upsize: both stashes and both levels that were taken out go back in. */
    method Refill(from0: Geometry, last0: array<Slot<Rest>>, paths0: seq<Path>,
                  from1: Geometry, last1: array<Slot<Rest>>, paths1: seq<Path>)
      requires Sound() && from0.low == from1.low == logSideSize
      requires TakenOut(from0, last0, paths0) && TakenOut(from1, last1, paths1)
      requires Geo(0) == Advanced(from0) && Geo(1) == Advanced(from1)
      modifies this`occupied, side0`stash, side1`stash, side0.levels, side1.levels
      ensures Sound()
      ensures Keys(Stock()) ==
              old(Keys(Stock()) + Drained(from0, last0[..], paths0) + Drained(from1, last1[..], paths1))
      ensures occupied - |Stock()| == old(occupied - |Stock()|)
                                      - |old(Contents(last0[..], LevelReader(from0, from0.cursor)))|
                                      - |old(Contents(last1[..], LevelReader(from1, from1.cursor)))|
      ensures InsertsAll(old(Now()), StashItems(0, paths0, from0) + StashItems(1, paths1, from1) +
                                     TableItems(0, old(last0[..]), from0) + TableItems(1, old(last1[..]), from1), Now())
    {
      hide Pow2, PathPrefix, Keys, StashContents, Contents, ValidTable, ValidPath, ValidStash, LevelReader, Side.Sound,
           Side.Stock, Stock, Now, InsertsAll, StashItems, TableItems;
      ghost var table0, table1 := last0[..], last1[..];
      assert Shape();
      ghost var start := Now();
      ReinsertStash(0, paths0, from0);
      ghost var first := Now();
      ReinsertStash(1, paths1, from1);
      ghost var second := Now();
      InsertsAllJoin(start, StashItems(0, paths0, from0), first, StashItems(1, paths1, from1), second);
      assert last0[..] == table0 && last1[..] == table1;
      ReinsertLevel(0, last0, from0, table0);
      ghost var third := Now();
      InsertsAllJoin(start, StashItems(0, paths0, from0) + StashItems(1, paths1, from1), second,
                     TableItems(0, table0, from0), third);
      assert last1[..] == table1;
      ReinsertLevel(1, last1, from1, table1);
      InsertsAllJoin(start,
                     StashItems(0, paths0, from0) + StashItems(1, paths1, from1) + TableItems(0, table0, from0), third,
                     TableItems(1, table1, from1), Now());
    }

    /** Doubles one level. The keys that the filter accepts stay the same. */
    method Upsize()
      requires Valid() && CanGrow()
      modifies this, side0, side1, side0.levels, side1.levels
      ensures Valid() && added == old(added)
      ensures Keys(Stock()) == old(Keys(Stock()))
      ensures if old(cursor) + 1 < LEVELS then cursor == old(cursor) + 1 && logSideSize == old(logSideSize)
              else cursor == 0 && logSideSize == old(logSideSize) + 1
      ensures side0.Regrown() && side1.Regrown()
      ensures Upsized(old(Now()), Now())
      ensures Calm(old(Now())) ==> side0.stash == [] && side1.stash == []
    {
      hide Pow2, PathPrefix, Keys, StashContents, Contents, ValidTable, ValidPath, ValidStash, LevelReader, Side.Sound,
           Side.Stock, Sound, Stock, Now, InsertsAll, Items, Opened, Closes, CanOpen, Calm;
      ghost var b := Now();
      DoubleLevel();
      ghost var m := Now();
      NowParts();
      if cursor == LEVELS {
        StartOver();
      }
      ClosesTo(m, Now());
      NowParts();
      if Calm(b) {
        UpsizeUnstashes(b, Now());
      }
    }

    /** All of upsize but the start over. */
    method DoubleLevel()
      requires Sound() && cursor < LEVELS && occupied == |Stock()|
      modifies this`cursor, this`occupied, side0, side1, side0.levels, side1.levels
      ensures Sound() && cursor == old(cursor) + 1 && occupied == |Stock()|
      ensures Keys(Stock()) == old(Keys(Stock()))
      ensures side0.Regrown() && side1.Regrown()
      ensures CanOpen(old(Now())) && InsertsAll(Opened(old(Now())), Items(old(Now())), Now())
    {
      hide Pow2, PathPrefix, Keys, StashContents, Contents, ValidTable, ValidPath, ValidStash, LevelReader, Side.Sound,
           Side.Stock, Sound, Stock, Now, InsertsAll, Items, Opened, CanOpen, StashItems, TableItems, Drained;
      ghost var b := Now();
      NowParts();
      var from0, from1 := Geo(0), Geo(1);
      var last0, last1, paths0, paths1 := OpenLevel();
      ItemsAre(b, from0, from1, paths0, paths1, last0[..], last1[..]);
      Refill(from0, last0, paths0, from1, last1, paths1);
    }

    lemma NowParts()
      ensures Now().geo0 == Geo(0) && Now().geo1 == Geo(1)
      ensures Now().side0.stash == side0.stash && Now().side1.stash == side1.stash
      ensures Now().geo0.cursor == Now().geo1.cursor == cursor && Now().geo0.low == Now().geo1.low == logSideSize
    {
      hide Snapshot;
    }

    /** The load test by the counter, the size and the cursor agrees with what is in the tables and
    stashes. */
    lemma LoadTest()
      requires Valid()
      ensures NeedsRoom() <==> Crowded(Now())
    {
      hide Keys, Pow2, UsedInTables, SlotsInTables, Snapshot, ValidTables, ValidPath, Stock, Side.Stock;
      OccupiedIsUsed();
      CapacityIsAllocated();
    }

    /** The filter has grown at least as far as log size low and the cursor c. */
    predicate NotBefore(low: nat, c: nat)
      reads this
    {
      low < logSideSize || (low == logSideSize && c <= cursor)
    }

    /** Upsizes until there is room. It gives up, changing no answer, only when a larger filter
    is needed and the 64 bits of a key are used up. */
    method MakeRoom() returns (ok: bool, ghost doublings: nat)
      requires Valid()
      modifies this, side0, side1, side0.levels, side1.levels
      ensures Valid() && added == old(added)
      ensures if ok then !NeedsRoom() else NeedsRoom() && !CanGrow()
      ensures NotBefore(old(logSideSize), old(cursor)) && (old(NeedsRoom()) || unchanged(this, side0, side1))
      ensures side0.Regrown() && side1.Regrown()
      ensures Grows(old(Now()), doublings, Now()) && (ok <==> !Crowded(Now()))
    {
      hide Keys, Side.Sound, Side.Stock, Capacity, Sound, Stock, Now, Grows, Crowded, NeedsRoom, Upsized;
      doublings := 0;
      GrowsStart(Now());
      LoadTest();
      while NeedsRoom()
        invariant Grows(old(Now()), doublings, Now()) && (NeedsRoom() <==> Crowded(Now()))
        invariant Valid() && added == old(added) && NotBefore(old(logSideSize), old(cursor))
        invariant old(NeedsRoom()) || unchanged(this, side0, side1)
        invariant side0.Regrown() && side1.Regrown()
        decreases 45 - logSideSize, LEVELS - cursor
      {
        if !CanGrow() {
          return false, doublings;
        }
        ghost var from := Now();
        Upsize();
        GrowsMore(old(Now()), doublings, from, Now());
        doublings := doublings + 1;
        LoadTest();
      }
      ok := true;
    }

    /** Adds a key: afterwards the filter accepts what it did before and the keys that agree
    with k in its first log size + 19 bits. */
    method AddHash(k: Word) returns (ok: bool)
      requires Valid()
      modifies this, side0, side1, side0.levels, side1.levels
      ensures Valid() && NotBefore(old(logSideSize), old(cursor))
      ensures ok ==> added == old(added) + multiset{Prefix(logSideSize + 19, Top(logSideSize + 19, k))}
      ensures !ok ==> added == old(added) && NeedsRoom() && !CanGrow()
      ensures old(NeedsRoom()) || (ok && cursor == old(cursor) && logSideSize == old(logSideSize))
      ensures ok ==> |Keys(Stock())| < Up(32 + cursor, 54)
      ensures side0.Regrown() && side1.Regrown()
      ensures if ok then Adds(old(Now()), k, Now())
              else Crowded(Now()) && exists n: nat :: Grows(old(Now()), n, Now())
    {
      hide Keys, Top, Sound, Stock, NeedsRoom, Up, Pow2, Now, Grows, Crowded, InsertsOne, KeyPath;
      ghost var n;
      ok, n := MakeRoom();
      if ok {
        ghost var before, m := added, Now();
        RoomLeft();
        InsertKey(k);
        AcceptedAfter(before, Prefix(logSideSize + 19, Top(logSideSize + 19, k)), cursor, logSideSize);
      }
    }

    method InsertKey(k: Word)
      requires Valid()
      modifies this`occupied, this`added, side0`stash, side1`stash, side0.levels, side1.levels
      ensures Valid()
      ensures added == old(added) + multiset{Prefix(logSideSize + 19, Top(logSideSize + 19, k))}
      ensures InsertsOne(old(Now()), Item(0, KeyPath(old(Now()).geo0, k, false)), Now())
    {
      hide PathPrefix, Keys, ValidPath, KeyPath, Top, Side.Sound, Side.Stock, Sound, Stock, Now, Inserts, Fits;
      NowParts();
      var p := KeyPath(Geo(0), k, false);
      KeyPathPrefix(Geo(0), k);
      InsertDetail(0, p, TTL);
      ghost var pr := Prefix(logSideSize + 19, Top(logSideSize + 19, k));
      KeysUnion(added, multiset{pr});
      added := added + multiset{pr};
    }

    /** The load test, 0.9 taken exactly. */
    predicate NeedsRoom()
      reads this, side0, side1
    {
      10 * occupied > 9 * Capacity() || occupied + 4 >= Capacity() || |side0.stash| + |side1.stash| > 8
    }

    /** How many slots and stash places are counted on: two more than there are slots. */
    function Capacity(): nat
      reads this`cursor, this`logSideSize
    {
      2 + 2 * SLOTS * (Pow2(logSideSize) * LEVELS + Pow2(logSideSize) * cursor)
    }

    /** The capacity is two more than the number of allocated slots, whatever the cursor. */
    lemma CapacityIsAllocated()
      requires Sound()
      ensures Capacity() == 2 + SlotsInTables(side0.Tables()) + SlotsInTables(side1.Tables())
    {
      hide Pow2, ValidTable, SlotsInTables, Snapshot;
      SlotsOfLevels(Geo(0), side0.Tables(), Pow2(logSideSize));
      SlotsOfLevels(Geo(1), side1.Tables(), Pow2(logSideSize));
    }

    /** The counter is the number of slots in use and stash entries. */
    lemma OccupiedIsUsed()
      requires Valid()
      ensures occupied == UsedInTables(side0.Tables()) + |side0.stash| + UsedInTables(side1.Tables()) + |side1.stash|
    {
      hide ValidPath, ValidTables, UsedInTables, Snapshot, Keys;
      SideCount(Geo(0), side0.Tables(), side0.stash);
      SideCount(Geo(1), side1.Tables(), side1.stash);
    }

    /** While there is room, the added keys leave so many more keys unaccepted. */
    lemma RoomLeft()
      requires Valid() && !NeedsRoom()
      ensures |Keys(added)| + Up(3, 51 - logSideSize) <= Up(32 + cursor, 54)
    {
      hide Keys, Sound, Stock, Up, Pow2;
      AcceptedBound();
      SlotsAsShift(logSideSize, cursor);
      UpUp(32 + cursor, logSideSize + 3, 51 - logSideSize);
      UpSum(occupied, 3, 51 - logSideSize);
      UpMonotone(occupied + 3, Up(32 + cursor, logSideSize + 3), 51 - logSideSize);
    }

    /** With occupied places in use at most occupied * 2^(51 - log size) of the 2^64 keys are
    accepted, whatever the cursor. */
    lemma AcceptedBound()
      requires Valid()
      ensures occupied >= 0 && |Keys(Stock())| <= Up(occupied, 51 - logSideSize)
    {
      hide PathPrefix, Keys, SideContents, Side.Sound, Side.Tables;
      forall pr | pr in Stock()
        ensures logSideSize + 13 <= pr.width
      {
        if pr in side0.Stock(cursor, logSideSize) {
          StoredWidth(Geo(0), side0.Tables(), side0.stash, pr);
        } else {
          StoredWidth(Geo(1), side1.Tables(), side1.stash, pr);
        }
      }
      KeysBound(Stock(), logSideSize + 13);
    }
  }
}
