/** The taffy cuckoo filter: c/include/filter/taffy-cuckoo.h and c/lib/taffy-cuckoo.c. */
module TaffyCuckoo {
  import opened Bits
  import opened Prefixes
  import opened Counting
  import opened Buckets
  import opened Feistels
  import opened TaffyPaths
  import opened TaffyContents
  import opened TaffyMoves

  const TTL: nat := 32

  class Side {
    const f: Feistel
    const data: array<Slot<nat>>
    var stash: seq<Path>

    /** The prefixes that the side stores. */
    ghost function Stock(log: LogSize): multiset<Prefix>
      reads this, data
    {
      SideContents(f, log, data[..], stash)
    }

    /** Every slot in use and every stash entry is a path of this side. */
    ghost predicate Sound(log: LogSize)
      reads this, data
    {
      ValidTable(log, data[..]) && ValidStash(log, stash)
    }

    ghost function Now(): SideLayout
      reads this, data
    {
      SideLayout(data[..], stash)
    }

    /** A side's keys are those of its table and those of its stash. */
    lemma StockKeys(log: LogSize)
      ensures Keys(Stock(log)) == Keys(Contents(data[..], TableReader(f, log))) + Keys(StashContents(f, log, stash))
    {
      hide Keys, Contents, StashContents, TableReader;
      KeysUnion(Contents(data[..], TableReader(f, log)), StashContents(f, log, stash));
    }

    lemma SlotCount(log: LogSize)
      requires Sound(log)
      ensures data.Length == SLOTS * Pow2(log)
    {
    }

    /** The path's bucket can take it without an eviction. */
    ghost predicate HasPlaceFor(p: Path)
      requires p.slot.tail != 0
      reads data
    {
      HasPlace(data[..], p.bucket, p.slot)
    }

    constructor (log: LogSize, keys: seq<Word>)
      requires |keys| == 4
      ensures f == Feistel(keys[0], keys[1], keys[2], keys[3])
      ensures stash == [] && fresh(data) && Sound(log) && Stock(log) == multiset{}
      ensures forall i :: 0 <= i < data.Length ==> data[i] == Slot(0, 0)
    {
      f := Feistel(keys[0], keys[1], keys[2], keys[3]);
      data := new Slot<nat>[SLOTS * Pow2(log)](_ => Slot(0, 0));
      stash := [];
      new;
      ContentsEmpty(data[..], TableReader(f, log));
    }

    /** Whether the side holds a path that the key's path q extends. */
    method Find(q: Path) returns (found: bool)
      requires q.slot.tail != 0 && SLOTS * q.bucket + SLOTS <= data.Length
      ensures found <==> SideHit(data[..], stash, q)
    {
      for j := 0 to |stash|
        invariant forall i :: 0 <= i < j ==> !StashHit(stash[i], q)
      {
        if StashHit(stash[j], q) {
          return true;
        }
      }
      found := FindInBucket(data, q.bucket, q.slot);
    }

    /** Inserts into the path's bucket. What comes back is empty if the path took a free slot,
    the path itself if it was covered already, and else another path of the same bucket. */
    method Insert(p: Path, ghost log: LogSize) returns (r: Path, ghost at: nat)
      requires Sound(log) && ValidPath(log, p)
      modifies data
      ensures Sound(log)
      ensures r == p.(slot := r.slot)
      ensures r.slot.tail != 0 ==> ValidPath(log, r)
      ensures Stock(log) + PathContents(f, log, r) == old(Stock(log)) + PathContents(f, log, p)
      ensures r == p ==> KeysOf(PathPrefix(f, log, p)) <= Keys(old(Stock(log)))
      ensures r.slot.tail == 0 || r == p <==> old(HasPlaceFor(p))
      ensures SLOTS * p.bucket + SLOTS <= data.Length && p.slot.tail != 0
      ensures InsertStep(old(data[..]), data[..], p.bucket, p.slot, r.slot, at)
    {
      hide Pow2, PathPrefix, StashContents, Contents, ScanFrom, InsertStep, HasPlace;
      ghost var before := data[..];
      BucketFits(log, before, p);
      var slot;
      slot, at := InsertInBucket(data, p.bucket, p.slot);
      r := p.(slot := slot);
      TableInsert(f, log, before, data[..], stash, p, slot, at);
      EvictsIffFull(before, data[..], p.bucket, p.slot, slot, at);
    }

    /** Copies the slots and the stash of a side of the same size. */
    method CopyFrom(that: Side, ghost log: LogSize)
      requires that.data != data && that.f == f && Sound(log) && that.Sound(log)
      modifies this`stash, data
      ensures data[..] == that.data[..] && stash == that.stash
      ensures Sound(log) && Stock(log) == that.Stock(log)
    {
      hide Pow2, SideContents, ValidPath;
      SlotCount(log);
      that.SlotCount(log);
      stash := that.stash;
      forall i | 0 <= i < data.Length {
        data[i] := that.data[i];
      }
    }
  }

  lemma StashFirst(keys: set<nat>, stashed: set<nat>, stored: set<nat>)
    ensures keys + stashed + stored == keys + (stored + stashed)
  {
  }

  class Filter {
    var side0: Side
    var side1: Side
    var logSideSize: LogSize
    var occupied: int
    const entropy: seq<Word>
    /** The prefixes of all the keys ever added. */
    ghost var added: multiset<Prefix>

    function SideAt(i: nat): Side
      reads this`side0, this`side1
    {
      if i == 0 then side0 else side1
    }

    ghost predicate Shape()
      reads this`side0, this`side1
    {
      && side0 != side1 && side0.data != side1.data
      && |entropy| == 8
      && side0.f == Feistel(entropy[0], entropy[1], entropy[2], entropy[3])
      && side1.f == Feistel(entropy[4], entropy[5], entropy[6], entropy[7])
    }

    ghost predicate Sound()
      reads this`side0, this`side1, this`logSideSize, side0, side1, side0.data, side1.data
    {
      Shape() && side0.Sound(logSideSize) && side1.Sound(logSideSize)
    }

    /** The prefixes that the filter stores. */
    ghost function Stock(): multiset<Prefix>
      reads this`side0, this`side1, this`logSideSize, side0, side1, side0.data, side1.data
    {
      side0.Stock(logSideSize) + side1.Stock(logSideSize)
    }

    /** What the filter holds. */
    ghost function Now(): Layout
      reads this`side0, this`side1, this`logSideSize, side0, side1, side0.data, side1.data
    {
      Layout(side0.f, side1.f, logSideSize, side0.Now(), side1.Now())
    }

    ghost predicate Valid()
      reads this, side0, side1, side0.data, side1.data
    {
      Sound() && occupied == |Stock()| && Keys(Stock()) == Keys(added)
    }

    /** The filter stands for the keys of target once p is inserted on side i. */
    ghost predicate InFlight(i: nat, p: Path, target: set<nat>, slack: int)
      reads this, side0, side1, side0.data, side1.data
    {
      && Sound()
      && ValidPath(logSideSize, p)
      && Keys(Stock()) + KeysOf(PathPrefix(SideAt(i).f, logSideSize, p)) == target
      && occupied == |Stock()| + slack
    }

    constructor (log: LogSize, entropies: seq<Word>)
      requires |entropies| == 8
      ensures Valid() && added == multiset{} && logSideSize == log && entropy == entropies
      ensures fresh(side0) && fresh(side1) && fresh(side0.data) && fresh(side1.data)
      ensures side0.stash == side1.stash == [] && occupied == 0
      ensures Now() == Empty(Feistel(entropies[0], entropies[1], entropies[2], entropies[3]),
                             Feistel(entropies[4], entropies[5], entropies[6], entropies[7]), log)
    {
      hide Pow2, PathPrefix, StashContents, SideContents;
      side0 := new Side(log, entropies[..4]);
      side1 := new Side(log, entropies[4..]);
      logSideSize := log;
      occupied := 0;
      entropy := entropies;
      added := multiset{};
      new;
      assert Stock() == multiset{};
      assert side0.Now() == EmptySide(log) && side1.Now() == EmptySide(log);
    }

    lemma KeysAreAdded()
      requires Valid()
      ensures Keys(Stock()) == Keys(added)
    {
    }

    lemma AcceptedBySides(k: Word)
      requires Valid()
      ensures Accepts(added, k) <==> k in Keys(Stock())
      ensures k in Keys(Stock()) <==> Accepts(side0.Stock(logSideSize), k) || Accepts(side1.Stock(logSideSize), k)
    {
      hide Keys, Accepts, Side.Sound, Side.Stock, Sound;
      KeysUnion(side0.Stock(logSideSize), side1.Stock(logSideSize));
      KeysIff(side0.Stock(logSideSize), k);
      KeysIff(side1.Stock(logSideSize), k);
      KeysIff(added, k);
    }

    /** Whether the filter accepts a key: exactly if it extends a prefix that was added. */
    method FindHash(k: Word) returns (found: bool)
      requires Valid()
      ensures found <==> k in Keys(Stock())
      ensures found <==> Accepts(added, k)
    {
      hide Keys, Accepts, PathPrefix, Pow2, SideHit, SideContents, ToPath;
      AcceptedBySides(k);
      for s := 0 to 2
        invariant s > 0 ==> !Accepts(side0.Stock(logSideSize), k)
        invariant s > 1 ==> !Accepts(side1.Stock(logSideSize), k)
      {
        var side := SideAt(s);
        SideFindsExactly(side.f, logSideSize, side.data[..], side.stash, k);
        BucketFits(logSideSize, side.data[..], ToPath(k, side.f, logSideSize));
        found := side.Find(ToPath(k, side.f, logSideSize));
        if found {
          return;
        }
      }
      found := false;
    }

    /** Inserting on one side leaves the other as it is. */
    method InsertOnSide(i: nat, p: Path) returns (r: Path, ghost at: nat)
      requires i < 2 && Sound() && ValidPath(logSideSize, p)
      modifies side0.data, side1.data
      ensures Sound()
      ensures r.slot.tail != 0 ==> ValidPath(logSideSize, r)
      ensures Stock() + PathContents(SideAt(i).f, logSideSize, r) ==
              old(Stock()) + PathContents(SideAt(i).f, logSideSize, p)
      ensures r == p ==> KeysOf(PathPrefix(SideAt(i).f, logSideSize, p)) <= Keys(old(Stock()))
      ensures r == Path(p.bucket, r.slot) && Put(old(Now()), i, p, Now(), r.slot, at)
      ensures r.slot.tail == 0 || r == p <==> Fits(old(Now()), i, p)
    {
      hide PathPrefix, ValidPath, SideContents, ValidTable, ValidStash, Keys, PathContents, InsertStep, HasPlace;
      var f := SideAt(i).f;
      ghost var mine, other := SideAt(i).Stock(logSideSize), SideAt(1 - i).Stock(logSideSize);
      assert Stock() == mine + other;
      r, at := SideAt(i).Insert(p, logSideSize);
      ghost var mine' := SideAt(i).Stock(logSideSize);
      assert SideAt(1 - i).Stock(logSideSize) == other;
      AddToBoth(mine', PathContents(f, logSideSize, r), mine, PathContents(f, logSideSize, p), other);
      assert Stock() == mine' + other;
      KeysUnion(mine, other);
    }

    method StashOnSide(i: nat, p: Path)
      requires i < 2 && Sound() && ValidPath(logSideSize, p)
      modifies this`occupied, side0`stash, side1`stash
      ensures Sound() && occupied == old(occupied) + 1
      ensures Stock() == old(Stock()) + multiset{PathPrefix(SideAt(i).f, logSideSize, p)}
      ensures Now() == Stashed(old(Now()), i, p) && StashSize() == old(StashSize()) + 1
    {
      hide PathPrefix, ValidPath, ValidTable, Keys, StashOf, Contents;
      PathInUse(logSideSize, p);
      StashPush(SideAt(i).stash, p, StashReader(SideAt(i).f, logSideSize));
      SideAt(i).stash := SideAt(i).stash + [p];
      occupied := occupied + 1;
    }

    function StashSize(): nat
      reads this, side0, side1
    {
      |side0.stash| + |side1.stash|
    }

    /** One turn of the insertion loop on side at: done, or another path for the other side. */
    method Turn(at: nat, q: Path, ttl: nat, ghost target: set<nat>, ghost slack: int, ghost start: Start, ghost n: nat)
      returns (done: bool, ok: bool, p: Path)
      requires at < 2 && InFlight(at, q, target, slack) && Continues(start, n, Now(), at, q, ttl)
      modifies this`occupied, side0`stash, side1`stash, side0.data, side1.data
      ensures done ==> Landed(target, slack) && StashSize() == old(StashSize()) + (if ok then 0 else 1)
      ensures done ==> old(occupied) <= occupied <= old(occupied) + 1
      ensures !done ==> ttl > 0 && InFlight(1 - at, p, target, slack)
      ensures !done ==> occupied == old(occupied) && StashSize() == old(StashSize())
      ensures done ==> Inserts(start.b, start.s, start.p, start.budget, Now(), ok, if ok then n else n + 1)
      ensures !done ==> Continues(start, n + 1, Now(), 1 - at, p, ttl - 1)
    {
      hide PathPrefix, ValidPath, PathContents, Keys, Across, Side.Sound, Side.Stock, Sound, Stock, Now, Put, Fits,
           Inserts, Continues, Stashed;
      ghost var before, from := Stock(), Now();
      ghost var kick;
      PathInUse(logSideSize, q);
      p, kick := InsertOnSide(at, q);
      ghost var to, r := Now(), p.slot;
      PathKeys(SideAt(at).f, logSideSize, q);
      PathKeys(SideAt(at).f, logSideSize, p);
      InsertedKeys(before, Stock(), PathPrefix(SideAt(at).f, logSideSize, q),
                   PathContents(SideAt(at).f, logSideSize, p));
      if p.slot.tail == 0 || p == q {
        PlaceFound(from, at, q, ttl, to, r, kick);
        ContinuesEnd(start, n, from, at, q, ttl, to, true, 0);
      }
      if p.slot.tail == 0 {
        occupied := occupied + 1;
        return true, true, p;
      }
      if p == q {
        return true, true, p;
      }
      if ttl == 0 {
        SpentInserts(from, at, q, to, r, kick);
        ContinuesEnd(start, n, from, at, q, ttl, Stashed(to, at, p), false, 1);
        KeysUnion(Stock(), multiset{PathPrefix(SideAt(at).f, logSideSize, p)});
        StashOnSide(at, p);
        return true, false, p;
      }
      ContinuesMove(start, n, from, at, q, ttl, ttl - 1, to, r, kick);
      EvictedSame(from, at, q, to, r, kick);
      EvictedHere(at, q, r);
      AcrossExact(p, SideAt(at).f, SideAt(1 - at).f, logSideSize);
      return false, false, Across(p, SideAt(at).f, SideAt(1 - at).f, logSideSize);
    }

    lemma EvictedHere(at: nat, q: Path, r: Slot<nat>)
      requires at < 2
      ensures Evicted(Now(), at, q, r) ==
              Across(Path(q.bucket, r), SideAt(at).f, SideAt(1 - at).f, logSideSize)
      ensures Other(at) == 1 - at
    {
      hide Across;
    }

    /** Inserts a path, evicting and moving paths across until a slot takes one or ttl runs
    out; false means that a path went to a stash. The keys of the filter become exactly the old
    ones and those of the path, whatever is evicted, and at most one more place is in use. */
    method InsertSidePathTtl(s: nat, path: Path, budget: nat) returns (ok: bool, ghost evictions: nat)
      requires s < 2 && Sound() && ValidPath(logSideSize, path)
      modifies this`occupied, side0`stash, side1`stash, side0.data, side1.data
      ensures Sound()
      ensures Keys(Stock()) == old(Keys(Stock())) + KeysOf(PathPrefix(SideAt(s).f, logSideSize, path))
      ensures occupied - |Stock()| == old(occupied - |Stock()|) && old(occupied) <= occupied <= old(occupied) + 1
      ensures StashSize() == old(StashSize()) + (if ok then 0 else 1)
      ensures Inserts(old(Now()), s, path, budget, Now(), ok, evictions)
      ensures if ok then evictions <= budget else evictions == budget + 1
      ensures Fits(old(Now()), s, path) <==> evictions == 0
    {
      hide PathPrefix, ValidPath, Keys, Side.Sound, Side.Stock, Sound, Stock, Now, Inserts, Continues, Fits;
      ghost var from, n: nat := Start(Now(), s, path, budget), 0;
      ContinuesFirst(from);
      ghost var target := Keys(Stock()) + KeysOf(PathPrefix(SideAt(s).f, logSideSize, path));
      ghost var slack := occupied - |Stock()|;
      var p := path;
      var ttl: nat := budget;
      while true
        invariant ttl <= budget && InFlight(s, p, target, slack)
        invariant Continues(from, n, Now(), s, p, ttl)
        invariant occupied == old(occupied) && StashSize() == old(StashSize())
        decreases ttl
      {
        ghost var start := ttl;
        var i := 0;
        while i < 2
          invariant i <= 2 && ttl <= start && (i > 0 ==> ttl < start)
          invariant InFlight(if i == 1 then 1 - s else s, p, target, slack)
          invariant Continues(from, n, Now(), if i == 1 then 1 - s else s, p, ttl)
          invariant occupied == old(occupied) && StashSize() == old(StashSize())
        {
          var done;
          done, ok, p := Turn(if i == 1 then 1 - s else s, p, ttl, target, slack, from, n);
          if done {
            evictions := if ok then n else n + 1;
            StashedWhenSpent(from.b, s, path, budget, Now(), ok, evictions);
            return;
          }
          n := n + 1;
          ttl := ttl - 1;
          i := i + 1;
        }
      }
    }

    method InsertSidePath(s: nat, q: Path) returns (ok: bool)
      requires s < 2 && Sound() && ValidPath(logSideSize, q)
      modifies this`occupied, side0`stash, side1`stash, side0.data, side1.data
      ensures Sound()
      ensures Keys(Stock()) == old(Keys(Stock())) + KeysOf(PathPrefix(SideAt(s).f, logSideSize, q))
      ensures occupied - |Stock()| == old(occupied - |Stock()|) && old(occupied) <= occupied <= old(occupied) + 1
      ensures StashSize() == old(StashSize()) + (if ok then 0 else 1)
      ensures InsertsOne(old(Now()), s, q, Now()) && (Fits(old(Now()), s, q) ==> ok)
    {
      hide Inserts, Keys, Stock, Sound, Now, Fits;
      ghost var evictions;
      ok, evictions := InsertSidePathTtl(s, q, TTL);
    }

    // ---------- doubling ----------

    /** The other filter shares nothing with this one. */
    ghost predicate Apart(t: Filter)
      reads this, t, side0, side1
    {
      && t != this
      && t.side0 != side0 && t.side0 != side1 && t.side1 != side0 && t.side1 != side1
      && t.side0.data != side0.data && t.side0.data != side1.data
      && t.side1.data != side0.data && t.side1.data != side1.data
    }

    /** Inserts into t what becomes of a slot of bucket i on side s: nothing, one or two paths. */
    method UpsizeHelper(sl: Slot<nat>, i: nat, s: nat, t: Filter)
      requires s < 2 && Apart(t) && t.Sound() && logSideSize < 49 && t.logSideSize == logSideSize + 1
      requires sl.tail != 0 ==> ValidPath(logSideSize, Path(i, sl))
      modifies t`occupied, t.side0`stash, t.side1`stash, t.side0.data, t.side1.data
      ensures t.Sound()
      ensures Keys(t.Stock()) == old(Keys(t.Stock())) + Keys(PathContents(SideAt(s).f, logSideSize, Path(i, sl)))
      ensures t.occupied - |t.Stock()| == old(t.occupied - |t.Stock()|)
      ensures InsertsAll(old(t.Now()), DoubledPaths(Path(i, sl), SideAt(s).f, t.side0.f, logSideSize), t.Now())
    {
      hide PathPrefix, ValidPath, Keys, Doubled, Side.Sound, Side.Stock, Sound, Stock, Now, InsertsAll, InsertsOne,
           Fits;
      NoKeys();
      ghost var start := t.Now();
      InsertsAllNone(start);
      if sl.tail == 0 {
        return;
      }
      DoubledExact(Path(i, sl), SideAt(s).f, t.side0.f, logSideSize);
      var (a, b) := Doubled(Path(i, sl), SideAt(s).f, t.side0.f, logSideSize);
      var ok := t.InsertSidePath(0, a);
      ghost var once := t.Now();
      InsertsAllPush(start, [], start, a, once);
      assert [] + [a] == [a];
      if b.slot.tail != 0 {
        ok := t.InsertSidePath(0, b);
        InsertsAllPush(start, [a], once, b, t.Now());
        assert [a] + [b] == [a, b];
      }
    }

    /** Inserts into t everything in the stash of side s. */
    method UpsizeStash(s: nat, t: Filter)
      requires s < 2 && Sound() && Apart(t) && t.Sound() && logSideSize < 49 && t.logSideSize == logSideSize + 1
      modifies t`occupied, t.side0`stash, t.side1`stash, t.side0.data, t.side1.data
      ensures t.Landed(old(Keys(t.Stock())) + Keys(StashContents(SideAt(s).f, logSideSize, SideAt(s).stash)),
                       old(t.occupied - |t.Stock()|))
      ensures InsertsAll(old(t.Now()),
                         StashPaths(SideAt(s).stash, Doubler(SideAt(s).f, t.side0.f, logSideSize)), t.Now())
    {
      hide PathPrefix, ValidPath, Keys, PathContents, StashOf, Contents, ValidTable, Side.Stock, Now, InsertsAll,
           StashPaths, DoubledPaths;
      ghost var start, d := t.Now(), Doubler(SideAt(s).f, t.side0.f, logSideSize);
      InsertsAllNone(start);
      NoPaths(SideAt(s).stash, [], d);
      var side := SideAt(s);
      ghost var log, f := logSideSize, side.f;
      ghost var keys, slack := Keys(t.Stock()), t.occupied - |t.Stock()|;
      NoKeys();
      StashNone(side.stash, StashReader(f, log));
      for i := 0 to |side.stash|
        invariant t.Landed(keys + Keys(StashContents(f, log, side.stash[..i])), slack)
        invariant InsertsAll(start, StashPaths(side.stash[..i], d), t.Now())
      {
        ghost var mid := t.Now();
        StashKeysStep(side.stash, i, StashReader(f, log));
        StashPathsStep(side.stash, i, d);
        UpsizeHelper(side.stash[i].slot, side.stash[i].bucket, s, t);
        InsertsAllJoin(start, StashPaths(side.stash[..i], d), mid, d(side.stash[i]), t.Now());
      }
      assert side.stash[..|side.stash|] == side.stash;
    }

    /** Inserts into t everything in the table of side s. */
    method UpsizeTable(s: nat, t: Filter)
      requires s < 2 && Sound() && Apart(t) && t.Sound() && logSideSize < 49 && t.logSideSize == logSideSize + 1
      modifies t`occupied, t.side0`stash, t.side1`stash, t.side0.data, t.side1.data
      ensures t.Landed(old(Keys(t.Stock())) + Keys(Contents(SideAt(s).data[..], TableReader(SideAt(s).f, logSideSize))),
                       old(t.occupied - |t.Stock()|))
      ensures InsertsAll(old(t.Now()),
                         TablePaths(SideAt(s).data[..], Doubler(SideAt(s).f, t.side0.f, logSideSize)), t.Now())
    {
      hide PathPrefix, ValidPath, Keys, PathContents, StashContents, Contents, Side.Stock, Pow2, TableReader, Stock,
           Now, InsertsAll, TablePaths, DoubledPaths;
      var side := SideAt(s);
      ghost var start, d := t.Now(), Doubler(side.f, t.side0.f, logSideSize);
      InsertsAllNone(start);
      NoPaths([], side.data[..], d);
      ghost var g := TableReader(side.f, logSideSize);
      ghost var keys, slack := Keys(t.Stock()), t.occupied - |t.Stock()|;
      ghost var table := side.data[..];
      var buckets := Pow2(logSideSize);
      assert |table| == SLOTS * buckets;
      NoKeys();
      TableNone(side.f, logSideSize, table);
      for i := 0 to buckets
        invariant t.Landed(keys + Keys(Contents(table[..SLOTS * i], g)), slack)
        invariant InsertsAll(start, TablePaths(table[..SLOTS * i], d), t.Now())
      {
        for j := 0 to SLOTS
          invariant t.Landed(keys + Keys(Contents(table[..SLOTS * i + j], g)), slack)
          invariant InsertsAll(start, TablePaths(table[..SLOTS * i + j], d), t.Now())
        {
          ghost var mid, p := t.Now(), Path(i, table[SLOTS * i + j]);
          TableKeysStep(side.f, logSideSize, table, i, j);
          TablePathsStep(table, i, j, d);
          UpsizeHelper(side.data[SLOTS * i + j], i, s, t);
          InsertsAllJoin(start, TablePaths(table[..SLOTS * i + j], d), mid, d(p), t.Now());
        }
      }
      assert table[..SLOTS * buckets] == table;
    }

    /** Inserts into t everything that side s holds. */
    method UpsizeSide(s: nat, t: Filter)
      requires s < 2 && Sound() && Apart(t) && t.Sound() && logSideSize < 49 && t.logSideSize == logSideSize + 1
      modifies t`occupied, t.side0`stash, t.side1`stash, t.side0.data, t.side1.data
      ensures t.Landed(old(Keys(t.Stock())) + Keys(SideAt(s).Stock(logSideSize)), old(t.occupied - |t.Stock()|))
      ensures InsertsAll(old(t.Now()),
                         SidePaths(SideAt(s).Now(), Doubler(SideAt(s).f, t.side0.f, logSideSize)), t.Now())
    {
      hide Keys, StashContents, Contents, TableReader, Side.Sound, Side.Stock, Stock, Now, InsertsAll, StashPaths,
           TablePaths, Doubler;
      ghost var start, d := t.Now(), Doubler(SideAt(s).f, t.side0.f, logSideSize);
      ghost var keys := Keys(t.Stock());
      ghost var stashed := Keys(StashContents(SideAt(s).f, logSideSize, SideAt(s).stash));
      ghost var stored := Keys(Contents(SideAt(s).data[..], TableReader(SideAt(s).f, logSideSize)));
      UpsizeStash(s, t);
      ghost var mid := t.Now();
      UpsizeTable(s, t);
      InsertsAllJoin(start, StashPaths(SideAt(s).stash, d), mid, TablePaths(SideAt(s).data[..], d), t.Now());
      SideAt(s).StockKeys(logSideSize);
      StashFirst(keys, stashed, stored);
    }

    ghost predicate Landed(keys: set<nat>, slack: int)
      reads this, side0, side1, side0.data, side1.data
    {
      Sound() && Keys(Stock()) == keys && occupied == |Stock()| + slack
    }

    /** The sides are the old ones or new. */
    twostate predicate Regrown()
      reads this
    {
      || (side0 == old(side0) && side1 == old(side1))
      || (fresh(side0) && fresh(side1) && fresh(side0.data) && fresh(side1.data))
    }

    /** Inserts into t everything that this filter holds. */
    method FillLarger(t: Filter)
      requires Sound() && Apart(t) && t.Sound() && logSideSize < 49 && t.logSideSize == logSideSize + 1
      modifies t`occupied, t.side0`stash, t.side1`stash, t.side0.data, t.side1.data
      ensures t.Landed(old(Keys(t.Stock())) + Keys(Stock()), old(t.occupied - |t.Stock()|))
      ensures InsertsAll(old(t.Now()), SidePaths(side0.Now(), Doubler(side0.f, t.side0.f, logSideSize)) +
                                       SidePaths(side1.Now(), Doubler(side1.f, t.side0.f, logSideSize)), t.Now())
    {
      hide PathPrefix, ValidPath, Keys, Side.Stock, Side.Sound, InsertsAll, SidePaths, Doubler, Side.Now, Now;
      ghost var empty := t.Now();
      UpsizeSide(0, t);
      ghost var half := t.Now();
      UpsizeSide(1, t);
      InsertsAllJoin(empty, SidePaths(side0.Now(), Doubler(side0.f, t.side0.f, logSideSize)), half,
                     SidePaths(side1.Now(), Doubler(side1.f, t.side0.f, logSideSize)), t.Now());
      KeysUnion(side0.Stock(logSideSize), side1.Stock(logSideSize));
    }

    /** A new filter of twice the size that accepts the same keys. */
    method Larger() returns (t: Filter)
      requires Sound() && logSideSize < 49
      ensures fresh(t) && fresh(t.side0) && fresh(t.side1) && fresh(t.side0.data) && fresh(t.side1.data)
      ensures t.Landed(Keys(Stock()), 0) && t.logSideSize == logSideSize + 1 && t.entropy == entropy
      ensures Upsized(Now(), t.Now())
    {
      hide PathPrefix, ValidPath, Keys, Side.Stock, Side.Sound, InsertsAll, SidePaths, Doubler, EmptySide, Side.Now,
           Empty;
      t := new Filter(logSideSize + 1, entropy);
      NoKeys();
      FillLarger(t);
    }

    /** Doubles the filter. The keys that it accepts stay the same. */
    method Upsize()
      requires Valid() && logSideSize < 49
      modifies this
      ensures Valid() && added == old(added) && Regrown()
      ensures Keys(Stock()) == old(Keys(Stock())) && logSideSize == old(logSideSize) + 1
      ensures Upsized(old(Now()), Now())
    {
      hide PathPrefix, ValidPath, Keys, Side.Sound, Side.Stock, Upsized;
      var t := Larger();
      side0, side1, logSideSize, occupied := t.side0, t.side1, t.logSideSize, t.occupied;
    }

    function Capacity(): nat
      reads this`logSideSize
    {
      2 * SLOTS * Pow2(logSideSize)
    }

    /** The load test, 0.90 taken exactly. */
    predicate NeedsRoom()
      reads this, side0, side1
    {
      10 * occupied > 9 * Capacity() || occupied + 4 >= Capacity() || StashSize() > 8
    }

    /** The load test by the counter and the size agrees with what is in the tables and stashes. */
    lemma LoadTest()
      requires Valid()
      ensures NeedsRoom() <==> Crowded(Now())
      ensures occupied == InUse(Now()) && StashSize() == InStash(Now())
    {
      hide Keys, Pow2, UsedSlots, ValidPath, Stock, Side.Stock;
      OccupiedIsUsed();
      side0.SlotCount(logSideSize);
      side1.SlotCount(logSideSize);
    }

    /** Upsizes until there is room. It gives up, changing no answer, only when a larger filter
    is needed and the 64 bits of a key are used up. */
    method MakeRoom() returns (ok: bool, ghost doublings: nat)
      requires Valid()
      modifies this
      ensures Valid() && added == old(added) && Regrown() && logSideSize >= old(logSideSize)
      ensures old(NeedsRoom()) || unchanged(this)
      ensures if ok then !NeedsRoom() else NeedsRoom() && logSideSize == 49
      ensures Grows(old(Now()), doublings, Now()) && (ok <==> !Crowded(Now()))
    {
      hide Keys, Side.Sound, Side.Stock, Capacity, Sound, Stock, Now, Grows, Crowded, NeedsRoom, Upsized;
      doublings := 0;
      GrowsStart(Now());
      LoadTest();
      while NeedsRoom()
        invariant Grows(old(Now()), doublings, Now()) && (NeedsRoom() <==> Crowded(Now()))
        invariant Valid() && added == old(added) && Regrown() && logSideSize >= old(logSideSize)
        invariant old(NeedsRoom()) || unchanged(this)
        decreases 49 - logSideSize
      {
        if logSideSize == 49 {
          return false, doublings;
        }
        ghost var from := Now();
        Upsize();
        GrowsMore(old(Now()), doublings, from, Now());
        doublings := doublings + 1;
        LoadTest();
      }
      ok := true;
    }

    /** Adds a key: afterwards the filter accepts what it did before and the keys that agree
    with k in its first log size + 15 bits. */
    method AddHash(k: Word) returns (ok: bool)
      requires Valid()
      modifies this, side0, side1, side0.data, side1.data
      ensures Valid() && Regrown() && logSideSize >= old(logSideSize)
      ensures ok ==> added == old(added) + multiset{Prefix(logSideSize + 15, Top(logSideSize + 15, k))}
      ensures ok ==> occupied <= Capacity() - 4 && |Keys(Stock())| < Pow2(57)
      ensures !ok ==> added == old(added) && NeedsRoom() && logSideSize == 49
      ensures old(NeedsRoom()) ||
              (ok && logSideSize == old(logSideSize)
               && old(occupied) <= occupied <= old(occupied) + 1
               && old(StashSize()) <= StashSize() <= old(StashSize()) + 1)
      ensures if ok then Adds(old(Now()), k, Now())
              else Crowded(Now()) && exists n: nat :: Grows(old(Now()), n, Now())
    {
      hide Keys, Top, Sound, Stock, Pow2, Now, Crowded, Grows, InsertsOne, ToPath;
      ghost var n;
      ok, n := MakeRoom();
      if ok {
        ghost var m := Now();
        InsertKey(k);
        FewAccepted();
      }
    }

    method InsertKey(k: Word)
      requires Valid()
      modifies this`occupied, this`added, side0`stash, side1`stash, side0.data, side1.data
      ensures Valid() && old(occupied) <= occupied <= old(occupied) + 1
      ensures old(StashSize()) <= StashSize() <= old(StashSize()) + 1
      ensures added == old(added) + multiset{Prefix(logSideSize + 15, Top(logSideSize + 15, k))}
      ensures InsertsOne(old(Now()), 0, ToPath(k, old(Now()).f0, old(Now()).log), Now())
    {
      hide PathPrefix, Keys, ValidPath, ToPath, Top, Side.Sound, Side.Stock, Sound, Stock, InsertsOne, Fits;
      KeyPathPrefix(side0.f, logSideSize, k);
      var inserted := InsertSidePath(0, ToPath(k, side0.f, logSideSize));
      ghost var pr := Prefix(logSideSize + 15, Top(logSideSize + 15, k));
      KeysUnion(added, multiset{pr});
      added := added + multiset{pr};
    }

    /** The counter is the number of slots in use and stash entries. */
    lemma OccupiedIsUsed()
      requires Valid()
      ensures occupied == UsedSlots(side0.data[..]) + |side0.stash| + UsedSlots(side1.data[..]) + |side1.stash|
    {
      hide ValidPath, ValidTable, UsedSlots, Keys;
      SideCount(side0.f, logSideSize, side0.data[..], side0.stash);
      SideCount(side1.f, logSideSize, side1.data[..], side1.stash);
    }

    /** With occupied places in use at most occupied * 2^(54 - log size) of the 2^64 keys are
    accepted. */
    lemma AcceptedBound()
      requires Valid()
      ensures occupied >= 0 && |Keys(Stock())| <= Up(occupied, 54 - logSideSize)
    {
      hide PathPrefix, Keys, SideContents, Side.Sound;
      forall pr | pr in Stock()
        ensures logSideSize + 10 <= pr.width
      {
        if pr in side0.Stock(logSideSize) {
          StoredWidth(side0.f, logSideSize, side0.data[..], side0.stash, pr);
        } else {
          StoredWidth(side1.f, logSideSize, side1.data[..], side1.stash, pr);
        }
      }
      KeysBound(Stock(), logSideSize + 10);
    }

    /** While there is a free place fewer than 2^57 keys are accepted: a fraction of 2^-7. */
    lemma FewAccepted()
      requires Valid() && occupied < Capacity()
      ensures |Keys(Stock())| < Pow2(57)
    {
      hide Keys, Sound, Stock, Up;
      AcceptedBound();
      assert Capacity() == Pow2(logSideSize + 3) by { EightTimes(logSideSize); }
      JoinBound(occupied, 0, logSideSize + 3, 54 - logSideSize);
    }

    // ---------- union ----------

    /** Inserts what a path of side `side` of that, a filter of at most this size, stands for. */
    method UnionHelp(that: Filter, side: nat, p: Path)
      requires side < 2 && Sound() && Apart(that) && that.logSideSize <= logSideSize
      requires ValidPath(that.logSideSize, p)
      modifies this`occupied, side0`stash, side1`stash, side0.data, side1.data
      ensures Landed(old(Keys(Stock())) + KeysOf(PathPrefix(that.SideAt(side).f, that.logSideSize, p)),
                     old(occupied - |Stock()|))
      ensures InsertsAll(old(Now()),
                         UnionPaths(p, that.SideAt(side).f, side0.f, that.logSideSize, logSideSize), Now())
    {
      hide PathPrefix, ValidPath, Keys, Across, Enlarged, Extended, Extensions, TailLength, Pow2, And, Shl,
           FromPathNoTail, Side.Sound, Side.Stock, Sound, Stock, Now, InsertsAll, InsertsOne, Completions, Fits;
      ghost var start := Now();
      var f, from := that.SideAt(side).f, that.logSideSize;
      PathInUse(from, p);
      var tailSize := TailLength(p.slot.tail);
      if from == logSideSize {
        AcrossExact(p, f, side0.f, from);
        var ok := InsertSidePath(0, Across(p, f, side0.f, from));
        InsertsAllSingle(start, Across(p, f, side0.f, from), Now());
      } else if from + tailSize >= logSideSize {
        TailIsDisjoint(p, f, from);
        EnlargedExact(p, f, side0.f, from, logSideSize);
        var ok := InsertSidePath(0, Enlarged(p, f, side0.f, from, logSideSize));
        InsertsAllSingle(start, Enlarged(p, f, side0.f, from, logSideSize), Now());
      } else {
        UnionExtend(p, f, from, logSideSize - from - tailSize);
      }
    }

    /** The path's tail is too short: all ways to extend it are inserted. */
    method UnionExtend(p: Path, f: Feistel, from: LogSize, m: nat)
      requires Sound() && ValidPath(from, p) && from < logSideSize
      requires logSideSize == from + TailLength(p.slot.tail) + m
      modifies this`occupied, side0`stash, side1`stash, side0.data, side1.data
      ensures Landed(old(Keys(Stock())) + KeysOf(PathPrefix(f, from, p)), old(occupied - |Stock()|))
      ensures p.slot.tail != 0
      ensures InsertsAll(old(Now()), Completions(p, f, side0.f, from, logSideSize, Pow2(m)), Now())
    {
      hide PathPrefix, ValidPath, Keys, Extended, TailLength, Pow2, Up, And, Shl, JoinedKey, FromPathNoTail,
           Side.Sound, Side.Stock, Sound, Stock, Now, InsertsAll, InsertsOne, Fits, Completions;
      TailIsDisjoint(p, f, from);
      PathInUse(from, p);
      ghost var start := Now();
      InsertsAllNone(start);
      NoCompletions(p, f, side0.f, from, logSideSize);
      ghost var pr := PathPrefix(f, from, p);
      ghost var keys, slack := Keys(Stock()), occupied - |Stock()|;
      NoKeys();
      for i := 0 to Pow2(m)
        invariant Landed(keys + Keys(Extensions(pr, m, i)), slack)
        invariant InsertsAll(start, Completions(p, f, side0.f, from, logSideSize, i), Now())
      {
        ghost var mid := Now();
        UnionCompletion(p, f, from, m, i, keys, slack);
        CompletionsStep(p, f, side0.f, from, logSideSize, i);
        InsertsAllPush(start, Completions(p, f, side0.f, from, logSideSize, i), mid,
                       Extended(p, f, side0.f, from, logSideSize, i), Now());
      }
      ExtendedWidth(f, from, p);
      ExtensionsCover(pr, m);
    }

    /** One of the completions. */
    method UnionCompletion(p: Path, f: Feistel, from: LogSize, m: nat, i: nat, ghost keys: set<nat>, ghost slack: int)
      requires ValidPath(from, p) && from < logSideSize && p.slot.tail != 0
      requires logSideSize == from + TailLength(p.slot.tail) + m && i < Pow2(m)
      requires Landed(keys + Keys(Extensions(PathPrefix(f, from, p), m, i)), slack)
      modifies this`occupied, side0`stash, side1`stash, side0.data, side1.data
      ensures Landed(keys + Keys(Extensions(PathPrefix(f, from, p), m, i + 1)), slack)
      ensures InsertsOne(old(Now()), 0, Extended(p, f, side0.f, from, logSideSize, i), Now())
    {
      hide PathPrefix, ValidPath, Keys, Extended, TailLength, Pow2, Up, And, Shl, JoinedKey, FromPathNoTail,
           Side.Sound, Side.Stock, Sound, Stock, Now, InsertsOne, Fits;
      ghost var pr := PathPrefix(f, from, p);
      ExtensionIsDisjoint(p, f, from, logSideSize, i, m);
      ExtendedExact(p, f, side0.f, from, logSideSize, i, m);
      KeysUnion(Extensions(pr, m, i), multiset{Prefix(pr.width + m, Up(pr.bits, m) + i)});
      var ok := InsertSidePath(0, Extended(p, f, side0.f, from, logSideSize, i));
    }

    method UnionStash(that: Filter, s: nat)
      requires s < 2 && Sound() && that.Sound() && Apart(that) && that.logSideSize <= logSideSize
      modifies this`occupied, side0`stash, side1`stash, side0.data, side1.data
      ensures Landed(old(Keys(Stock())) + Keys(StashContents(that.SideAt(s).f, that.logSideSize, that.SideAt(s).stash)),
                     old(occupied - |Stock()|))
      ensures InsertsAll(old(Now()),
                         StashPaths(that.SideAt(s).stash,
                                    Joiner(that.SideAt(s).f, side0.f, that.logSideSize, logSideSize)), Now())
    {
      hide PathPrefix, ValidPath, Keys, StashOf, Contents, ValidTable, Side.Stock, Now, InsertsAll, StashPaths,
           UnionPaths, Stock, InsertsOne;
      ghost var start, d := Now(), Joiner(that.SideAt(s).f, side0.f, that.logSideSize, logSideSize);
      InsertsAllNone(start);
      NoPaths(that.SideAt(s).stash, [], d);
      var side := that.SideAt(s);
      ghost var log, f := that.logSideSize, side.f;
      ghost var keys, slack := Keys(Stock()), occupied - |Stock()|;
      NoKeys();
      StashNone(side.stash, StashReader(f, log));
      for i := 0 to |side.stash|
        invariant Landed(keys + Keys(StashContents(f, log, side.stash[..i])), slack)
        invariant InsertsAll(start, StashPaths(side.stash[..i], d), Now())
      {
        ghost var mid := Now();
        StashKeysStep(side.stash, i, StashReader(f, log));
        StashPathsStep(side.stash, i, d);
        PathInUse(log, side.stash[i]);
        UnionHelp(that, s, side.stash[i]);
        InsertsAllJoin(start, StashPaths(side.stash[..i], d), mid, d(side.stash[i]), Now());
      }
      assert side.stash[..|side.stash|] == side.stash;
    }

    method UnionTable(that: Filter, s: nat)
      requires s < 2 && Sound() && that.Sound() && Apart(that) && that.logSideSize <= logSideSize
      modifies this`occupied, side0`stash, side1`stash, side0.data, side1.data
      ensures Landed(old(Keys(Stock())) +
                     Keys(Contents(that.SideAt(s).data[..], TableReader(that.SideAt(s).f, that.logSideSize))),
                     old(occupied - |Stock()|))
      ensures InsertsAll(old(Now()),
                         TablePaths(that.SideAt(s).data[..],
                                    Joiner(that.SideAt(s).f, side0.f, that.logSideSize, logSideSize)), Now())
    {
      hide PathPrefix, ValidPath, Keys, StashContents, Contents, Side.Stock, Pow2, TableReader, Stock, Now, InsertsAll,
           TablePaths, UnionPaths;
      var side := that.SideAt(s);
      ghost var start, d := Now(), Joiner(side.f, side0.f, that.logSideSize, logSideSize);
      InsertsAllNone(start);
      NoPaths([], side.data[..], d);
      ghost var g := TableReader(side.f, that.logSideSize);
      ghost var keys, slack := Keys(Stock()), occupied - |Stock()|;
      ghost var table := side.data[..];
      var buckets := Pow2(that.logSideSize);
      assert |table| == SLOTS * buckets;
      NoKeys();
      TableNone(side.f, that.logSideSize, table);
      for i := 0 to buckets
        invariant Landed(keys + Keys(Contents(table[..SLOTS * i], g)), slack)
        invariant InsertsAll(start, TablePaths(table[..SLOTS * i], d), Now())
      {
        for j := 0 to SLOTS
          invariant Landed(keys + Keys(Contents(table[..SLOTS * i + j], g)), slack)
          invariant InsertsAll(start, TablePaths(table[..SLOTS * i + j], d), Now())
        {
          ghost var mid, p := Now(), Path(i, table[SLOTS * i + j]);
          TableKeysStep(side.f, that.logSideSize, table, i, j);
          TablePathsStep(table, i, j, d);
          if side.data[SLOTS * i + j].tail == 0 {
            NothingToJoin(p, side.f, side0.f, that.logSideSize, logSideSize);
            assert d(p) == [] && TablePaths(table[..SLOTS * i + j], d) + [] == TablePaths(table[..SLOTS * i + j], d);
            continue;
          }
          UnionHelp(that, s, Path(i, side.data[SLOTS * i + j]));
          InsertsAllJoin(start, TablePaths(table[..SLOTS * i + j], d), mid, d(p), Now());
        }
      }
      assert table[..SLOTS * buckets] == table;
    }

    method UnionSide(that: Filter, s: nat)
      requires s < 2 && Sound() && that.Sound() && Apart(that) && that.logSideSize <= logSideSize
      modifies this`occupied, side0`stash, side1`stash, side0.data, side1.data
      ensures Landed(old(Keys(Stock())) + Keys(that.SideAt(s).Stock(that.logSideSize)), old(occupied - |Stock()|))
      ensures InsertsAll(old(Now()),
                         SidePaths(that.SideAt(s).Now(),
                                   Joiner(that.SideAt(s).f, side0.f, that.logSideSize, logSideSize)), Now())
    {
      hide Keys, StashContents, Contents, TableReader, Side.Sound, Side.Stock, Stock, Now, InsertsAll, StashPaths,
           TablePaths, Joiner;
      ghost var start, d := Now(), Joiner(that.SideAt(s).f, side0.f, that.logSideSize, logSideSize);
      ghost var side, log := that.SideAt(s), that.logSideSize;
      ghost var keys := Keys(Stock());
      ghost var stashed := Keys(StashContents(side.f, log, side.stash));
      ghost var stored := Keys(Contents(side.data[..], TableReader(side.f, log)));
      UnionStash(that, s);
      ghost var mid := Now();
      UnionTable(that, s);
      InsertsAllJoin(start, StashPaths(side.stash, d), mid, TablePaths(side.data[..], d), Now());
      side.StockKeys(log);
      StashFirst(keys, stashed, stored);
    }

    /** Adds to this filter everything that another one of at most the same size stores. */
    method UnionOne(that: Filter)
      requires Sound() && that.Sound() && Apart(that) && that.logSideSize <= logSideSize
      modifies this`occupied, side0`stash, side1`stash, side0.data, side1.data
      ensures Landed(old(Keys(Stock())) + Keys(that.Stock()), old(occupied - |Stock()|))
      ensures Joined(old(Now()), that.Now(), Now())
    {
      hide Keys, Side.Stock, Side.Sound, InsertsAll, SidePaths, Joiner;
      ghost var start := Now();
      UnionSide(that, 0);
      ghost var half := Now();
      UnionSide(that, 1);
      InsertsAllJoin(start, SidePaths(that.side0.Now(), Joiner(that.side0.f, side0.f, that.logSideSize, logSideSize)),
                     half, SidePaths(that.side1.Now(), Joiner(that.side1.f, side0.f, that.logSideSize, logSideSize)),
                     Now());
      KeysUnion(that.side0.Stock(that.logSideSize), that.side1.Stock(that.logSideSize));
    }

    /** Equal entropy makes equal permutations. */
    lemma SameFeistels(t: Filter)
      requires Shape() && t.Shape() && t.entropy == entropy
      ensures t.side0.f == side0.f && t.side1.f == side1.f
      ensures t.side0 != t.side1 && t.side0.data != t.side1.data
    {
    }

    lemma Shaped()
      requires Sound()
      ensures |entropy| == 8
    {
    }

    method CopySides(t: Filter)
      requires Sound() && t.Sound() && Apart(t) && t.entropy == entropy && t.logSideSize == logSideSize
      modifies t.side0`stash, t.side1`stash, t.side0.data, t.side1.data
      ensures t.Sound() && t.Stock() == Stock()
      ensures t.side0.data[..] == side0.data[..] && t.side0.stash == side0.stash
      ensures t.side1.data[..] == side1.data[..] && t.side1.stash == side1.stash
      ensures t.Now() == Now()
    {
      hide Keys, Side.Sound, Side.Stock, Shape;
      SameFeistels(t);
      t.side0.CopyFrom(side0, logSideSize);
      t.side1.CopyFrom(side1, logSideSize);
    }

    /** A copy that shares nothing with this filter. */
    method Clone() returns (t: Filter)
      requires Valid()
      ensures fresh(t) && fresh(t.side0) && fresh(t.side1) && fresh(t.side0.data) && fresh(t.side1.data)
      ensures t.Valid() && t.Stock() == Stock() && t.added == added && t.logSideSize == logSideSize
      ensures t.entropy == entropy && t.occupied == occupied
      ensures t.side0.data[..] == side0.data[..] && t.side0.stash == side0.stash
      ensures t.side1.data[..] == side1.data[..] && t.side1.stash == side1.stash
      ensures t.Now() == Now()
    {
      hide Keys, Side.Sound, Side.Stock, Shape, Sound, Stock, Now;
      Shaped();
      t := new Filter(logSideSize, entropy);
      CopySides(t);
      t.occupied := occupied;
      t.added := added;
    }

    /** A copy of this filter with everything added that the other one stores. */
    method CloneAndAdd(that: Filter) returns (t: Filter)
      requires Valid() && that.Valid() && that.logSideSize <= logSideSize
      ensures fresh(t) && t.Valid() && t.added == added + that.added
      ensures Keys(t.Stock()) == Keys(Stock()) + Keys(that.Stock())
      ensures Joined(Now(), that.Now(), t.Now())
    {
      hide Keys, Side.Sound, Side.Stock, Sound, Stock, Joined, Now;
      t := Clone();
      t.UnionOne(that);
      KeysUnion(added, that.added);
      t.added := added + that.added;
    }
  }

  /** Union copies the filter with more places in use and adds the other one to the copy. */
  predicate UnionFits(x: Filter, y: Filter)
    reads x, y
  {
    if x.occupied > y.occupied then y.logSideSize <= x.logSideSize else x.logSideSize <= y.logSideSize
  }

  /** The union accepts a key exactly if x or y does. */
  method Union(x: Filter, y: Filter) returns (r: Filter)
    requires x.Valid() && y.Valid() && UnionFits(x, y)
    ensures fresh(r) && r.Valid() && r.added == x.added + y.added
    ensures Keys(r.Stock()) == Keys(x.Stock()) + Keys(y.Stock())
    ensures if x.occupied > y.occupied then Joined(x.Now(), y.Now(), r.Now()) else Joined(y.Now(), x.Now(), r.Now())
  {
    hide Keys, Filter.Valid, Filter.Stock, Joined;
    if x.occupied > y.occupied {
      r := x.CloneAndAdd(y);
    } else {
      r := y.CloneAndAdd(x);
    }
  }

  /** How full a filter is does not say how large it is: the copied filter can be the smaller
  one, and then the assertion at the start of union_one fails. */
  method CopiedFilterCanBeSmaller(entropy: seq<Word>) returns (x: Filter, y: Filter)
    requires |entropy| == 8
    ensures x.Valid() && y.Valid() && !UnionFits(x, y)
  {
    hide Keys, Filter.Valid, Filter.Stock;
    x := new Filter(2, entropy);
    y := new Filter(1, entropy);
  }
}
