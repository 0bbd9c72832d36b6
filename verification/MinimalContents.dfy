/** What one side of a minimal taffy cuckoo filter stores, on values: its 32 level tables and
its stash, read back as a multiset of key prefixes. */
module MinimalContents {
  import opened Bits
  import opened Tails
  import opened Prefixes
  import opened Buckets
  import opened Feistels
  import opened MinimalPaths

  type Table = seq<Slot<Rest>>

  predicate ValidTable(geo: Geometry, level: nat, table: Table) {
    && |table| == SLOTS * Pow2(LevelSize(geo, level))
    && forall i :: 0 <= i < |table| && table[i].tail != 0 ==> ValidRest(geo, level, table[i].rest)
  }

  predicate ValidTables(geo: Geometry, tables: seq<Table>) {
    |tables| == LEVELS && forall l :: 0 <= l < LEVELS ==> ValidTable(geo, l, tables[l])
  }

  predicate ValidStash(geo: Geometry, stash: seq<Path>) {
    forall j :: 0 <= j < |stash| ==> ValidPath(geo, stash[j])
  }

  ghost function PathContents(geo: Geometry, p: Path): multiset<Prefix> {
    if p.slot.tail == 0 then multiset{} else multiset{PathPrefix(geo, p)}
  }

  ghost function TablesContents(geo: Geometry, tables: seq<Table>): multiset<Prefix> {
    if tables == [] then multiset{} else
      var n := |tables| - 1;
      TablesContents(geo, tables[..n]) + Contents(tables[n], LevelReader(geo, n))
  }

  lemma PathKeys(geo: Geometry, p: Path)
    ensures p.slot.tail == 0 ==> Keys(PathContents(geo, p)) == {} && |PathContents(geo, p)| == 0
    ensures p.slot.tail != 0 ==> PathContents(geo, p) == multiset{PathPrefix(geo, p)} && |PathContents(geo, p)| == 1
  {
    hide PathPrefix;
    NoKeys();
  }

  /** The stash's entries, read back. */
  ghost function StashReader(geo: Geometry): Path -> multiset<Prefix> {
    (p: Path) => PathContents(geo, p)
  }

  ghost function StashContents(geo: Geometry, stash: seq<Path>): multiset<Prefix> {
    StashOf(stash, StashReader(geo))
  }

  ghost function SideContents(geo: Geometry, tables: seq<Table>, stash: seq<Path>): multiset<Prefix> {
    TablesContents(geo, tables) + StashContents(geo, stash)
  }

  // ---------- updates ----------

  lemma {:induction false} TablesUpdate(geo: Geometry, tables: seq<Table>, l: nat, t: Table)
    requires l < |tables|
    ensures TablesContents(geo, tables[l := t]) + Contents(tables[l], LevelReader(geo, l)) ==
            TablesContents(geo, tables) + Contents(t, LevelReader(geo, l))
  {
    hide Contents, LevelReader;
    var n := |tables| - 1;
    if l == n {
      assert tables[l := t][..n] == tables[..n];
    } else {
      TablesUpdate(geo, tables[..n], l, t);
      assert tables[l := t][..n] == tables[..n][l := t];
      AddToBoth(TablesContents(geo, tables[l := t][..n]), Contents(tables[l], LevelReader(geo, l)),
                TablesContents(geo, tables[..n]), Contents(t, LevelReader(geo, l)),
                Contents(tables[n], LevelReader(geo, n)));
    }
  }

  lemma {:induction false} TablesAgree(geo: Geometry, geo': Geometry, tables: seq<Table>)
    requires forall l :: 0 <= l < |tables| ==>
               Contents(tables[l], LevelReader(geo, l)) == Contents(tables[l], LevelReader(geo', l))
    ensures TablesContents(geo, tables) == TablesContents(geo', tables)
  {
    if tables == [] {
    } else {
      var n := |tables| - 1;
      assert forall l :: 0 <= l < n ==> tables[..n][l] == tables[l];
      TablesAgree(geo, geo', tables[..n]);
    }
  }

  lemma {:induction false} TablesEmpty(geo: Geometry, tables: seq<Table>)
    requires forall l, i :: 0 <= l < |tables| && 0 <= i < |tables[l]| ==> tables[l][i].tail == 0
    ensures TablesContents(geo, tables) == multiset{}
  {
    if tables == [] {
    } else {
      var n := |tables| - 1;
      assert forall l :: 0 <= l < n ==> tables[..n][l] == tables[l];
      ContentsEmpty(tables[n], LevelReader(geo, n));
      TablesEmpty(geo, tables[..n]);
    }
  }

  // ---------- members ----------

  lemma {:induction false} TablesMember(geo: Geometry, tables: seq<Table>, l: nat, i: nat)
    requires l < |tables| && i < |tables[l]| && tables[l][i].tail != 0
    ensures PathPrefix(geo, Path(l, i / SLOTS, tables[l][i])) in TablesContents(geo, tables)
  {
    var n := |tables| - 1;
    if l == n {
      ContentsMember(tables[l], i, LevelReader(geo, l));
    } else {
      TablesMember(geo, tables[..n], l, i);
    }
  }

  lemma {:induction false} TablesSource(geo: Geometry, tables: seq<Table>, pr: Prefix) returns (l: nat, i: nat)
    requires pr in TablesContents(geo, tables)
    ensures l < |tables| && i < |tables[l]| && tables[l][i].tail != 0
    ensures pr == PathPrefix(geo, Path(l, i / SLOTS, tables[l][i]))
  {
    var n := |tables| - 1;
    if pr in TablesContents(geo, tables[..n]) {
      l, i := TablesSource(geo, tables[..n], pr);
    } else {
      l := n;
      i := ContentsSource(tables[n], pr, LevelReader(geo, n));
    }
  }

  // ---------- finding ----------

  predicate StashHit(stored: Path, q: Path)
    requires q.slot.tail != 0
  {
    && stored.slot.tail != 0
    && stored.slot.rest == q.slot.rest
    && IsPrefixOf(stored.slot.tail, q.slot.tail)
    && stored.level == q.level
    && stored.bucket == q.bucket
  }

  ghost predicate TableHit(table: Table, q: Path)
    requires q.slot.tail != 0
  {
    exists i :: SLOTS * q.bucket <= i < SLOTS * q.bucket + SLOTS && i < |table| && Matches(table[i], q.slot)
  }

  ghost predicate SideHit(tables: seq<Table>, stash: seq<Path>, q: Path)
    requires q.slot.tail != 0 && q.level < |tables|
  {
    (exists j :: 0 <= j < |stash| && StashHit(stash[j], q)) || TableHit(tables[q.level], q)
  }

  /** A probe that hits has found a stored prefix covering the key. */
  lemma HitCovers(geo: Geometry, tables: seq<Table>, stash: seq<Path>, k: Word, short: bool)
    requires ValidTables(geo, tables) && ValidStash(geo, stash)
    requires var q := KeyPath(geo, k, short);
             q.slot.tail != 0 && q.level < LEVELS && SideHit(tables, stash, q)
    ensures Accepts(SideContents(geo, tables, stash), k)
  {
    hide KeyPath, PathPrefix, ValidPath, IsPrefixOf, Pow2;
    var q := KeyPath(geo, k, short);
    if j :| 0 <= j < |stash| && StashHit(stash[j], q) {
      ProbeExact(geo, stash[j], k);
      SameKind(geo, stash[j], k, short);
      StashMember(stash, j, PathPrefix(geo, stash[j]), StashReader(geo));
    } else {
      var table := tables[q.level];
      var i :| SLOTS * q.bucket <= i < SLOTS * q.bucket + SLOTS && i < |table| && Matches(table[i], q.slot);
      var p := Path(q.level, i / SLOTS, tables[q.level][i]);
      StoredPathValid(geo, tables, q.level, i);
      ProbeExact(geo, p, k);
      SameKind(geo, p, k, short);
      TablesMember(geo, tables, q.level, i);
    }
  }

  lemma StoredPathValid(geo: Geometry, tables: seq<Table>, l: nat, i: nat)
    requires ValidTables(geo, tables) && l < LEVELS && i < |tables[l]| && tables[l][i].tail != 0
    ensures ValidPath(geo, Path(l, i / SLOTS, tables[l][i]))
  {
    hide Pow2;
    assert ValidTable(geo, l, tables[l]);
  }

  lemma SameKind(geo: Geometry, p: Path, k: Word, short: bool)
    requires ValidPath(geo, p)
    requires var q := KeyPath(geo, k, short); q.slot.tail != 0 && SamePlace(p, q)
    ensures Short(geo, p.level, p.slot.rest) == short
  {
    ProbeExact(geo, p, k);
  }

  /** The probe of a stored path's own kind hits if the path covers the key. */
  lemma CoverHits(geo: Geometry, tables: seq<Table>, stash: seq<Path>, k: Word, pr: Prefix)
    requires ValidTables(geo, tables) && ValidStash(geo, stash)
    requires pr in SideContents(geo, tables, stash) && Covers(pr, k)
    ensures exists short :: var q := KeyPath(geo, k, short);
              q.slot.tail != 0 && q.level < LEVELS && SideHit(tables, stash, q)
  {
    hide KeyPath, PathPrefix, ValidPath, IsPrefixOf, Pow2;
    if pr in StashContents(geo, stash) {
      var j := StashSource(stash, pr, StashReader(geo));
      ProbeExact(geo, stash[j], k);
      var q := KeyPath(geo, k, Short(geo, stash[j].level, stash[j].slot.rest));
      assert StashHit(stash[j], q);
      LevelInRange(geo, stash[j]);
    } else {
      var l, i := TablesSource(geo, tables, pr);
      var p := Path(l, i / SLOTS, tables[l][i]);
      StoredPathValid(geo, tables, l, i);
      ProbeExact(geo, p, k);
      var q := KeyPath(geo, k, Short(geo, p.level, p.slot.rest));
      assert Matches(tables[l][i], q.slot);
      assert SLOTS * q.bucket <= i < SLOTS * q.bucket + SLOTS;
    }
  }

  lemma LevelInRange(geo: Geometry, p: Path)
    requires ValidPath(geo, p)
    ensures p.level < LEVELS && p.slot.tail != 0
  {
  }

  // ---------- doubling one level, and starting over ----------

  /** Which level is doubled next changes nothing in how the other levels are read. */
  lemma NextCursorReads(geo: Geometry, p: Path)
    requires p.level != geo.cursor && ValidPath(geo, p)
    ensures var geo' := geo.(cursor := geo.cursor + 1);
            ValidPath(geo', p) && PathPrefix(geo', p) == PathPrefix(geo, p)
  {
    hide PermuteBackward, Up, Pow2;
  }

  function Wrapped(geo: Geometry): Geometry
    requires geo.low < 45
  {
    Geometry(geo.hi, geo.lo, 0, geo.low + 1)
  }

  /** When all levels have been doubled, what was a doubled level's path is an undoubled
  level's short path, for the next size and with the permutations swapped. */
  lemma WrapReads(geo: Geometry, p: Path)
    requires geo.cursor == LEVELS && geo.low < 45 && ValidPath(geo, p)
    ensures ValidPath(Wrapped(geo), p) && PathPrefix(Wrapped(geo), p) == PathPrefix(geo, p)
  {
    hide PermuteBackward, Up, Pow2;
    assert LevelSize(Wrapped(geo), p.level) == LevelSize(geo, p.level);
    assert FpSize(Wrapped(geo), p.level, p.slot.rest) == FpSize(geo, p.level, p.slot.rest);
    assert Width(Wrapped(geo), p.level, p.slot.rest) == Width(geo, p.level, p.slot.rest);
  }

  lemma TableReadsAlike(geo: Geometry, geo': Geometry, l: nat, table: Table)
    requires l < LEVELS && ValidTable(geo, l, table)
    requires LevelSize(geo', l) == LevelSize(geo, l)
    requires forall p: Path :: p.level == l && ValidPath(geo, p) ==>
               ValidPath(geo', p) && PathPrefix(geo', p) == PathPrefix(geo, p)
    ensures ValidTable(geo', l, table)
    ensures Contents(table, LevelReader(geo', l)) == Contents(table, LevelReader(geo, l))
  {
    hide PathPrefix, Pow2, LevelSize;
    forall i | 0 <= i < |table| && table[i].tail != 0
      ensures ValidRest(geo', l, table[i].rest)
      ensures LevelReader(geo', l)(i / SLOTS, table[i]) == LevelReader(geo, l)(i / SLOTS, table[i])
    {
      var p := Path(l, i / SLOTS, table[i]);
      assert ValidPath(geo, p);
      assert ValidPath(geo', p);
    }
    ContentsAgree(table, LevelReader(geo', l), LevelReader(geo, l));
  }

  /** Starting over keeps the contents of a side. */
  lemma WrapSide(geo: Geometry, tables: seq<Table>, stash: seq<Path>)
    requires geo.cursor == LEVELS && geo.low < 45
    requires ValidTables(geo, tables) && ValidStash(geo, stash)
    ensures ValidTables(Wrapped(geo), tables) && ValidStash(Wrapped(geo), stash)
    ensures SideContents(Wrapped(geo), tables, stash) == SideContents(geo, tables, stash)
  {
    hide PathPrefix, Pow2, ValidPath, Contents, ValidTable;
    forall p | ValidPath(geo, p)
      ensures ValidPath(Wrapped(geo), p) && PathPrefix(Wrapped(geo), p) == PathPrefix(geo, p)
    {
      WrapReads(geo, p);
    }
    forall l | 0 <= l < LEVELS
      ensures ValidTable(Wrapped(geo), l, tables[l])
      ensures Contents(tables[l], LevelReader(Wrapped(geo), l)) == Contents(tables[l], LevelReader(geo, l))
    {
      TableReadsAlike(geo, Wrapped(geo), l, tables[l]);
    }
    TablesAgree(Wrapped(geo), geo, tables);
    StashAgree(stash, StashReader(Wrapped(geo)), StashReader(geo));
  }

  // ---------- inserting into one level ----------

  lemma BucketFits(geo: Geometry, tables: seq<Table>, p: Path)
    requires ValidTables(geo, tables) && ValidPath(geo, p)
    ensures p.level < LEVELS && SLOTS * p.bucket + SLOTS <= |tables[p.level]|
  {
    hide Pow2;
    assert ValidTable(geo, p.level, tables[p.level]);
  }

  lemma ReaderMonotone(geo: Geometry, level: nat)
    ensures ShorterCoversMore(LevelReader(geo, level))
  {
    hide HeadOf, IsPrefixOf, EntryPrefix, Pow2;
    var g := LevelReader(geo, level);
    forall b: nat, s: Slot<Rest>, t: Slot<Rest> | t.tail != 0 && Matches(s, t)
      ensures KeysOf(g(b, t)) <= KeysOf(g(b, s))
    {
      var p, q := Path(level, b, s), Path(level, b, t);
      SameHead(geo, p, q);
      PrefixCoversMore(Width(geo, level, s.rest), HeadOf(geo, p), s.tail, t.tail);
    }
  }

  lemma InsertKeepsTable(geo: Geometry, l: nat, table: Table, after: Table, bucket: nat, slot: Slot<Rest>,
                         r: Slot<Rest>, at: nat)
    requires ValidTable(geo, l, table) && SLOTS * bucket + SLOTS <= |table| && slot.tail != 0
    requires ValidRest(geo, l, slot.rest) && InsertStep(table, after, bucket, slot, r, at)
    ensures ValidTable(geo, l, after)
    ensures r.tail != 0 ==> ValidRest(geo, l, r.rest)
  {
    hide Pow2, ScanFrom, ValidRest, LevelSize;
    ScanFound(table, bucket, slot, 0);
    if at < ScanFrom(table, bucket, slot, 0) {
      ScanStops(table, bucket, slot, 0, at);
    }
  }

  /** A side after an insertion into one of its levels. */
  lemma TableInsert(geo: Geometry, before: seq<Table>, after: seq<Table>, stash: seq<Path>, p: Path,
                    r: Slot<Rest>, at: nat)
    requires ValidTables(geo, before) && ValidPath(geo, p) && p.level < LEVELS
    requires SLOTS * p.bucket + SLOTS <= |before[p.level]|
    requires |after| == LEVELS && after == before[p.level := after[p.level]]
    requires InsertStep(before[p.level], after[p.level], p.bucket, p.slot, r, at)
    ensures ValidTables(geo, after)
    ensures var q := p.(slot := r);
            && (r.tail != 0 ==> ValidPath(geo, q))
            && SideContents(geo, after, stash) + PathContents(geo, q) ==
               SideContents(geo, before, stash) + PathContents(geo, p)
            && (q == p ==> KeysOf(PathPrefix(geo, p)) <= Keys(SideContents(geo, before, stash)))
    ensures SideHit(after, stash, p)
  {
    hide Pow2, PathPrefix, TablesContents, StashContents, Contents, ScanFrom, LevelSize, InsertStep, ValidTable;
    var l := p.level;
    var g := LevelReader(geo, l);
    InsertKeepsTable(geo, l, before[l], after[l], p.bucket, p.slot, r, at);
    InsertConserves(before[l], after[l], p.bucket, p.slot, r, at, g);
    TablesUpdate(geo, before, l, after[l]);
    TablesBalance(TablesContents(geo, after), TablesContents(geo, before),
                  Contents(after[l], g), Contents(before[l], g),
                  SlotContents(g, p.bucket, r), SlotContents(g, p.bucket, p.slot), StashContents(geo, stash));
    ReaderMonotone(geo, l);
    InsertReturnsSame(before[l], after[l], p.bucket, p.slot, r, at, g);
    TableKeys(geo, before, stash, l);
    InsertCovers(before[l], after[l], p.bucket, p.slot, r, at);
  }

  lemma TablesBalance<T>(a': multiset<T>, a: multiset<T>, c': multiset<T>, c: multiset<T>,
                         r: multiset<T>, s: multiset<T>, st: multiset<T>)
    requires a' + c == a + c' && c' + r == c + s
    ensures (a' + st) + r == (a + st) + s
  {
    assert (a' + r) + c == (a' + c) + r == (a + c') + r == a + (c' + r) == a + (c + s) == (a + s) + c;
    assert a' + r == ((a' + r) + c) - c;
    assert a + s == ((a + s) + c) - c;
    assert (a' + st) + r == (a' + r) + st;
    assert (a + st) + s == (a + s) + st;
  }

  lemma {:induction false} TableKeys(geo: Geometry, tables: seq<Table>, stash: seq<Path>, l: nat)
    requires l < |tables|
    ensures Keys(Contents(tables[l], LevelReader(geo, l))) <= Keys(SideContents(geo, tables, stash))
  {
    TableSubset(geo, tables, l);
    KeysMonotone(Contents(tables[l], LevelReader(geo, l)), SideContents(geo, tables, stash));
  }

  lemma {:induction false} TableSubset(geo: Geometry, tables: seq<Table>, l: nat)
    requires l < |tables|
    ensures Contents(tables[l], LevelReader(geo, l)) <= TablesContents(geo, tables)
  {
    hide Contents;
    var n := |tables| - 1;
    if l == n {
    } else {
      TableSubset(geo, tables[..n], l);
      assert tables[..n][l] == tables[l];
    }
  }

  // ---------- doubling one level ----------

  /** Taking the level at the cursor and the stash out of a side, and putting an empty level of
  twice the size in: the rest reads as before. */
  lemma OpenSide(geo: Geometry, tables: seq<Table>, stash: seq<Path>, empty: Table)
    requires geo.cursor < LEVELS && ValidTables(geo, tables)
    requires |empty| == SLOTS * Pow2(geo.low + 1) && forall i :: 0 <= i < |empty| ==> empty[i].tail == 0
    ensures var geo' := geo.(cursor := geo.cursor + 1);
            var tables' := tables[geo.cursor := empty];
            && ValidTables(geo', tables')
            && SideContents(geo', tables', []) + Contents(tables[geo.cursor], LevelReader(geo, geo.cursor))
               + StashContents(geo, stash) == SideContents(geo, tables, stash)
  {
    hide PathPrefix, Pow2, ValidPath, Contents, ValidTable, LevelReader, TablesContents;
    var c := geo.cursor;
    var geo' := geo.(cursor := c + 1);
    var tables' := tables[c := empty];
    NewLevelValid(geo', c, empty);
    ContentsEmpty(empty, LevelReader(geo, c));
    ContentsEmpty(empty, LevelReader(geo', c));
    forall l | 0 <= l < LEVELS
      ensures ValidTable(geo', l, tables'[l])
      ensures Contents(tables'[l], LevelReader(geo, l)) == Contents(tables'[l], LevelReader(geo', l))
    {
      if l != c {
        NextCursorTable(geo, l, tables[l]);
      }
    }
    TablesAgree(geo, geo', tables');
    TablesUpdate(geo, tables, c, empty);
    assert StashContents(geo', []) == multiset{};
    MoveAside(TablesContents(geo', tables'), Contents(tables[c], LevelReader(geo, c)), StashContents(geo, stash));
  }

  lemma MoveAside<T>(a: multiset<T>, b: multiset<T>, c: multiset<T>)
    ensures (a + multiset{}) + b + c == (a + b) + c
  {
    assert a + multiset{} == a;
  }

  lemma NewLevelValid(geo: Geometry, l: nat, empty: Table)
    requires l < geo.cursor && |empty| == SLOTS * Pow2(geo.low + 1)
    requires forall i :: 0 <= i < |empty| ==> empty[i].tail == 0
    ensures ValidTable(geo, l, empty)
  {
  }

  lemma NextCursorTable(geo: Geometry, l: nat, table: Table)
    requires l < LEVELS && l != geo.cursor && ValidTable(geo, l, table)
    ensures ValidTable(geo.(cursor := geo.cursor + 1), l, table)
    ensures Contents(table, LevelReader(geo, l)) ==
            Contents(table, LevelReader(geo.(cursor := geo.cursor + 1), l))
  {
    hide PathPrefix, Pow2, ValidPath, Contents, ValidTable, LevelReader;
    forall p: Path | p.level == l && ValidPath(geo, p)
      ensures ValidPath(geo.(cursor := geo.cursor + 1), p)
      ensures PathPrefix(geo.(cursor := geo.cursor + 1), p) == PathPrefix(geo, p)
    {
      NextCursorReads(geo, p);
    }
    TableReadsAlike(geo, geo.(cursor := geo.cursor + 1), l, table);
  }

  // ---------- finding, exactly ----------

  ghost predicate Probe(geo: Geometry, tables: seq<Table>, stash: seq<Path>, k: Word, short: bool)
    requires |tables| == LEVELS
  {
    var q := KeyPath(geo, k, short);
    q.slot.tail != 0 && q.level < LEVELS && SideHit(tables, stash, q)
  }

  /** The two probes of a side find exactly the keys that its stored prefixes cover. */
  lemma ProbesExact(geo: Geometry, tables: seq<Table>, stash: seq<Path>, k: Word)
    requires ValidTables(geo, tables) && ValidStash(geo, stash)
    ensures Probe(geo, tables, stash, k, true) || Probe(geo, tables, stash, k, false) <==>
            Accepts(SideContents(geo, tables, stash), k)
  {
    hide KeyPath, PathPrefix, ValidPath, SideContents, SideHit;
    if Accepts(SideContents(geo, tables, stash), k) {
      var pr :| pr in SideContents(geo, tables, stash) && Covers(pr, k);
      CoverHits(geo, tables, stash, k, pr);
      var short :| Probe(geo, tables, stash, k, short);
    }
    if Probe(geo, tables, stash, k, true) {
      HitCovers(geo, tables, stash, k, true);
    }
    if Probe(geo, tables, stash, k, false) {
      HitCovers(geo, tables, stash, k, false);
    }
  }

  lemma KeyPathFits(geo: Geometry, tables: seq<Table>, k: Word, short: bool)
    requires ValidTables(geo, tables)
    ensures var q := KeyPath(geo, k, short);
            && q.level < LEVELS
            && (!short ==> q.slot.tail != 0)
            && (q.slot.tail != 0 ==> ValidPath(geo, q) && SLOTS * q.bucket + SLOTS <= |tables[q.level]|)
  {
    hide ToPath, Pow2, ValidPath, HeadOf, High;
    TopBound(KeyWidth(geo.low, short), k);
    ToPathHead(k, geo, short);
    var q := KeyPath(geo, k, short);
    if q.slot.tail != 0 {
      BucketFits(geo, tables, q);
    }
  }

  // ---------- a level read off slot by slot ----------

  /** The slot read off next, as a path of its level. */
  lemma LevelStep(geo: Geometry, level: nat, table: Table, bucket: nat, j: nat)
    requires j < SLOTS && SLOTS * bucket + SLOTS <= |table|
    requires level < LEVELS && ValidTable(geo, level, table)
    ensures var i := SLOTS * bucket + j;
            var s := table[i];
            var g := LevelReader(geo, level);
            var p := Path(level, bucket, s);
            if s.tail == 0 then
              && Keys(Contents(table[..i + 1], g)) == Keys(Contents(table[..i], g))
              && |Contents(table[..i + 1], g)| == |Contents(table[..i], g)|
            else
              && ValidPath(geo, p)
              && Keys(Contents(table[..i + 1], g)) == Keys(Contents(table[..i], g)) + KeysOf(PathPrefix(geo, p))
              && |Contents(table[..i + 1], g)| == |Contents(table[..i], g)| + 1
  {
    hide Keys, PathPrefix, Contents, Pow2, LevelSize, ValidRest;
    var i := SLOTS * bucket + j;
    BucketOf(bucket, j);
    ContentsStep(table, i, LevelReader(geo, level));
    NoKeys();
    KeysUnion(Contents(table[..i], LevelReader(geo, level)),
              SlotContents(LevelReader(geo, level), bucket, table[i]));
  }

  lemma LevelStart(geo: Geometry, level: nat, table: Table)
    ensures Keys(Contents(table[..0], LevelReader(geo, level))) == {}
    ensures |Contents(table[..0], LevelReader(geo, level))| == 0
  {
  }

  // ---------- adding ----------

  /** The long path of a key covers the key's first low + 19 bits. */
  lemma KeyPathPrefix(geo: Geometry, k: Word)
    ensures var p := KeyPath(geo, k, false);
            && ValidPath(geo, p)
            && PathPrefix(geo, p) == Prefix(geo.low + 19, Top(geo.low + 19, k))
  {
    hide ToPath, Pow2, HeadOf, High, Up, Ctz;
    var w := KeyWidth(geo.low, false);
    TopBound(w, k);
    ToPathHead(k, geo, false);
    FullEntry(w, k);
  }

  // ---------- counting ----------

  ghost function UsedInTables(tables: seq<Table>): nat {
    if tables == [] then 0 else UsedInTables(tables[..|tables| - 1]) + UsedSlots(tables[|tables| - 1])
  }

  lemma {:induction false} TablesCount(geo: Geometry, tables: seq<Table>)
    ensures |TablesContents(geo, tables)| == UsedInTables(tables)
  {
    if tables == [] {
    } else {
      var n := |tables| - 1;
      TablesCount(geo, tables[..n]);
      ContentsCount(tables[n], LevelReader(geo, n));
    }
  }

  /** A side stores one prefix for every slot in use and every stash entry. */
  lemma SideCount(geo: Geometry, tables: seq<Table>, stash: seq<Path>)
    requires ValidStash(geo, stash)
    ensures |SideContents(geo, tables, stash)| == UsedInTables(tables) + |stash|
  {
    TablesCount(geo, tables);
    StashCount(stash, StashReader(geo));
  }

  ghost function SlotsInTables(tables: seq<Table>): nat {
    if tables == [] then 0 else SlotsInTables(tables[..|tables| - 1]) + |tables[|tables| - 1]|
  }

  lemma {:induction false} SlotsOfLevels(geo: Geometry, tables: seq<Table>, p: nat)
    requires p == Pow2(geo.low) && |tables| <= LEVELS
    requires forall l :: 0 <= l < |tables| ==> ValidTable(geo, l, tables[l])
    ensures var doubled := if geo.cursor < |tables| then geo.cursor else |tables|;
            SlotsInTables(tables) == SLOTS * (p * |tables| + p * doubled)
  {
    if tables == [] {
    } else {
      var n := |tables| - 1;
      assert forall l :: 0 <= l < n ==> tables[..n][l] == tables[l];
      SlotsOfLevels(geo, tables[..n], p);
      OneMore(p, n);
      assert ValidTable(geo, n, tables[n]);
      if n < geo.cursor {
        assert Pow2(LevelSize(geo, n)) == 2 * p;
      }
    }
  }

  lemma OneMore(p: nat, n: nat)
    ensures p * (n + 1) == p * n + p
  {
  }

  // ---------- widths ----------

  /** Every stored prefix is between low + 13 and low + 19 bits wide. */
  lemma StoredWidth(geo: Geometry, tables: seq<Table>, stash: seq<Path>, pr: Prefix)
    requires pr in SideContents(geo, tables, stash)
    ensures geo.low + 13 <= pr.width <= geo.low + 19
  {
    hide HeadOf, Up, TailBits;
    if pr in StashContents(geo, stash) {
      var j := StashSource(stash, pr, StashReader(geo));
    } else {
      var l, i := TablesSource(geo, tables, pr);
    }
  }
}
