/** What one side of a taffy cuckoo filter stores, on values: its table and its stash, read back
as a multiset of key prefixes. */
module TaffyContents {
  import opened Bits
  import opened Tails
  import opened Prefixes
  import opened Buckets
  import opened Feistels
  import opened TaffyPaths

  type Table = seq<Slot<nat>>

  predicate ValidTable(log: LogSize, table: Table) {
    && |table| == SLOTS * Pow2(log)
    && forall i :: 0 <= i < |table| ==> table[i].rest < Pow2(HEAD_SIZE)
  }

  predicate ValidStash(log: LogSize, stash: seq<Path>) {
    forall j :: 0 <= j < |stash| ==> ValidPath(log, stash[j])
  }

  ghost function PathContents(f: Feistel, log: LogSize, p: Path): multiset<Prefix> {
    if p.slot.tail == 0 then multiset{} else multiset{PathPrefix(f, log, p)}
  }

  lemma PathKeys(f: Feistel, log: LogSize, p: Path)
    ensures p.slot.tail == 0 ==> Keys(PathContents(f, log, p)) == {} && |PathContents(f, log, p)| == 0
    ensures p.slot.tail != 0 ==>
              PathContents(f, log, p) == multiset{PathPrefix(f, log, p)} && |PathContents(f, log, p)| == 1
  {
    hide PathPrefix;
    NoKeys();
  }

  /** The stash's entries, read back. */
  ghost function StashReader(f: Feistel, log: LogSize): Path -> multiset<Prefix> {
    (p: Path) => PathContents(f, log, p)
  }

  ghost function StashContents(f: Feistel, log: LogSize, stash: seq<Path>): multiset<Prefix> {
    StashOf(stash, StashReader(f, log))
  }

  ghost function SideContents(f: Feistel, log: LogSize, table: Table, stash: seq<Path>): multiset<Prefix> {
    Contents(table, TableReader(f, log)) + StashContents(f, log, stash)
  }

  // ---------- finding ----------

  predicate StashHit(stored: Path, q: Path)
    requires q.slot.tail != 0
  {
    && stored.slot.tail != 0
    && q.bucket == stored.bucket
    && q.slot.rest == stored.slot.rest
    && IsPrefixOf(stored.slot.tail, q.slot.tail)
  }

  ghost predicate SideHit(table: Table, stash: seq<Path>, q: Path)
    requires q.slot.tail != 0
  {
    || (exists j :: 0 <= j < |stash| && StashHit(stash[j], q))
    || (exists i :: SLOTS * q.bucket <= i < SLOTS * q.bucket + SLOTS && i < |table| && Matches(table[i], q.slot))
  }

  lemma StoredPathValid(log: LogSize, table: Table, i: nat)
    requires ValidTable(log, table) && i < |table| && table[i].tail != 0
    ensures ValidPath(log, Path(i / SLOTS, table[i]))
  {
    hide Pow2;
  }

  lemma BucketFits(log: LogSize, table: Table, p: Path)
    requires ValidTable(log, table) && ValidPath(log, p)
    ensures SLOTS * p.bucket + SLOTS <= |table|
  {
    hide Pow2;
  }

  lemma PathInUse(log: LogSize, p: Path)
    requires ValidPath(log, p)
    ensures p.slot.tail != 0
  {
  }

  /** A side finds exactly the keys that its stored prefixes cover. */
  lemma SideFindsExactly(f: Feistel, log: LogSize, table: Table, stash: seq<Path>, k: Word)
    requires ValidTable(log, table) && ValidStash(log, stash)
    ensures var q := ToPath(k, f, log);
            ValidPath(log, q) && (SideHit(table, stash, q) <==> Accepts(SideContents(f, log, table, stash), k))
  {
    hide ToPath, PathPrefix, SideContents, SideHit, Pow2;
    KeyPathPrefix(f, log, k);
    if SideHit(table, stash, ToPath(k, f, log)) {
      HitCovers(f, log, table, stash, k);
    }
    if Accepts(SideContents(f, log, table, stash), k) {
      var pr :| pr in SideContents(f, log, table, stash) && Covers(pr, k);
      CoverHits(f, log, table, stash, k, pr);
    }
  }

  lemma HitCovers(f: Feistel, log: LogSize, table: Table, stash: seq<Path>, k: Word)
    requires ValidTable(log, table) && ValidStash(log, stash)
    requires var q := ToPath(k, f, log); q.slot.tail != 0 && SideHit(table, stash, q)
    ensures Accepts(SideContents(f, log, table, stash), k)
  {
    hide ToPath, PathPrefix, ValidPath, IsPrefixOf, Pow2;
    var q := ToPath(k, f, log);
    if j :| 0 <= j < |stash| && StashHit(stash[j], q) {
      ProbeExact(f, log, stash[j], k);
      StashMember(stash, j, PathPrefix(f, log, stash[j]), StashReader(f, log));
    } else {
      var i :| SLOTS * q.bucket <= i < SLOTS * q.bucket + SLOTS && i < |table| && Matches(table[i], q.slot);
      StoredPathValid(log, table, i);
      ProbeExact(f, log, Path(i / SLOTS, table[i]), k);
      ContentsMember(table, i, TableReader(f, log));
    }
  }

  lemma CoverHits(f: Feistel, log: LogSize, table: Table, stash: seq<Path>, k: Word, pr: Prefix)
    requires ValidTable(log, table) && ValidStash(log, stash)
    requires pr in SideContents(f, log, table, stash) && Covers(pr, k)
    ensures var q := ToPath(k, f, log); q.slot.tail != 0 && SideHit(table, stash, q)
  {
    hide ToPath, PathPrefix, IsPrefixOf, Pow2;
    var q := ToPath(k, f, log);
    if pr in StashContents(f, log, stash) {
      var j := StashSource(stash, pr, StashReader(f, log));
      ProbeExact(f, log, stash[j], k);
      assert StashHit(stash[j], q);
    } else {
      var i := ContentsSource(table, pr, TableReader(f, log));
      StoredPathValid(log, table, i);
      ProbeExact(f, log, Path(i / SLOTS, table[i]), k);
      assert Matches(table[i], q.slot);
      assert SLOTS * q.bucket <= i < SLOTS * q.bucket + SLOTS;
    }
  }

  // ---------- inserting ----------

  lemma InsertKeepsTable(log: LogSize, table: Table, after: Table, bucket: nat, slot: Slot<nat>, r: Slot<nat>, at: nat)
    requires ValidTable(log, table) && SLOTS * bucket + SLOTS <= |table| && slot.tail != 0
    requires slot.rest < Pow2(HEAD_SIZE) && InsertStep(table, after, bucket, slot, r, at)
    ensures ValidTable(log, after) && r.rest < Pow2(HEAD_SIZE)
  {
    hide Pow2, ScanFrom;
    ScanFound(table, bucket, slot, 0);
    if at < ScanFrom(table, bucket, slot, 0) {
      ScanStops(table, bucket, slot, 0, at);
    }
  }

  /** A side after an insertion into its table. */
  lemma TableInsert(f: Feistel, log: LogSize, before: Table, after: Table, stash: seq<Path>, p: Path,
                    r: Slot<nat>, at: nat)
    requires ValidTable(log, before) && ValidPath(log, p) && SLOTS * p.bucket + SLOTS <= |before|
    requires InsertStep(before, after, p.bucket, p.slot, r, at)
    ensures ValidTable(log, after)
    ensures var q := p.(slot := r);
            && (r.tail != 0 ==> ValidPath(log, q))
            && SideContents(f, log, after, stash) + PathContents(f, log, q) ==
               SideContents(f, log, before, stash) + PathContents(f, log, p)
            && (q == p ==> KeysOf(PathPrefix(f, log, p)) <= Keys(SideContents(f, log, before, stash)))
  {
    hide Pow2, PathPrefix, StashContents, Contents, ScanFrom, InsertStep, Keys, ValidTable;
    var g := TableReader(f, log);
    InsertKeepsTable(log, before, after, p.bucket, p.slot, r, at);
    InsertConserves(before, after, p.bucket, p.slot, r, at, g);
    AddToBoth(Contents(after, g), SlotContents(g, p.bucket, r), Contents(before, g), SlotContents(g, p.bucket, p.slot),
              StashContents(f, log, stash));
    ReaderMonotone(f, log);
    InsertReturnsSame(before, after, p.bucket, p.slot, r, at, g);
    KeysUnion(Contents(before, g), StashContents(f, log, stash));
  }

  /** A side stores one prefix for every slot in use and every stash entry. */
  lemma SideCount(f: Feistel, log: LogSize, table: Table, stash: seq<Path>)
    requires ValidStash(log, stash)
    ensures |SideContents(f, log, table, stash)| == UsedSlots(table) + |stash|
  {
    ContentsCount(table, TableReader(f, log));
    StashCount(stash, StashReader(f, log));
  }

  // ---------- a table read off slot by slot ----------

  lemma TableStep(f: Feistel, log: LogSize, table: Table, bucket: nat, j: nat)
    requires j < SLOTS && SLOTS * bucket + SLOTS <= |table| && ValidTable(log, table)
    ensures var i := SLOTS * bucket + j;
            var p := Path(bucket, table[i]);
            var g := TableReader(f, log);
            && (p.slot.tail != 0 ==> ValidPath(log, p))
            && Contents(table[..i + 1], g) == Contents(table[..i], g) + PathContents(f, log, p)
  {
    hide PathPrefix, Contents, Pow2;
    var i := SLOTS * bucket + j;
    BucketOf(bucket, j);
    ContentsStep(table, i, TableReader(f, log));
    if table[i].tail != 0 {
      StoredPathValid(log, table, i);
    }
  }

  lemma TableNone(f: Feistel, log: LogSize, table: Table)
    ensures Contents(table[..0], TableReader(f, log)) == multiset{}
  {
  }

  lemma TableKeysStep(f: Feistel, log: LogSize, table: Table, bucket: nat, j: nat)
    requires j < SLOTS && SLOTS * bucket + SLOTS <= |table| && ValidTable(log, table)
    ensures var i := SLOTS * bucket + j;
            var p := Path(bucket, table[i]);
            var g := TableReader(f, log);
            && (p.slot.tail != 0 ==> ValidPath(log, p))
            && Keys(Contents(table[..i + 1], g)) == Keys(Contents(table[..i], g)) + Keys(PathContents(f, log, p))
  {
    hide PathContents, Contents, Keys, ValidTable, ValidPath;
    TableStep(f, log, table, bucket, j);
    KeysUnion(Contents(table[..SLOTS * bucket + j], TableReader(f, log)),
              PathContents(f, log, Path(bucket, table[SLOTS * bucket + j])));
  }

  // ---------- widths ----------

  /** Every stored prefix is between log + 10 and log + 15 bits wide. */
  lemma StoredWidth(f: Feistel, log: LogSize, table: Table, stash: seq<Path>, pr: Prefix)
    requires pr in SideContents(f, log, table, stash)
    ensures log + 10 <= pr.width <= log + 15
  {
    hide HeadOf, Up, TailBits;
    if pr in StashContents(f, log, stash) {
      var j := StashSource(stash, pr, StashReader(f, log));
    } else {
      var i := ContentsSource(table, pr, TableReader(f, log));
    }
  }

  lemma ExtendedWidth(f: Feistel, log: LogSize, p: Path)
    ensures PathPrefix(f, log, p).width == log + HEAD_SIZE + TailLength(p.slot.tail)
  {
    hide HeadOf, Up, TailBits;
  }
}
