/** The frozen taffy cuckoo filter, which keeps the fingerprints only, ten bits each: java's
FrozenTaffyCuckooFilter.java. */
module FrozenTaffyCuckoo {
  import opened Bits
  import opened Tails
  import opened Prefixes
  import opened Counting
  import opened Buckets
  import opened Feistels
  import opened TaffyPaths
  import opened TaffyContents
  import opened TaffyCuckoo

  const BYTES: nat := 5

  /** Java's narrowing cast, on bit patterns. */
  function Byte(x: nat): nat {
    x % 256
  }

  // ---------- four fingerprints in five bytes ----------

  function Pack(f0: nat, f1: nat, f2: nat, f3: nat): (bytes: seq<nat>)
    ensures |bytes| == BYTES
  {
    [Byte(Shl(f0, 0)),
     Or(Byte(Shl(f1, 2)), Byte(Shr(f0, 8))),
     Or(Byte(Shl(f2, 4)), Byte(Shr(f1, 6))),
     Or(Byte(Shl(f3, 6)), Byte(Shr(f2, 4))),
     Byte(Shr(f3, 2))]
  }

  /** The i-th fingerprint that the search reads out of five bytes. */
  function Unpack(bytes: seq<nat>, i: nat): nat
    requires |bytes| == BYTES && i < SLOTS
  {
    if i == 0 then Or(Shl(bytes[1] % 4, 8), bytes[0])
    else if i == 1 then Or(Shl(bytes[2] % 16, 6), Shr(bytes[1], 2))
    else if i == 2 then Or(Shl(bytes[3] % 64, 4), Shr(bytes[2], 4))
    else Or(Shl(bytes[4], 2), Shr(bytes[3], 6))
  }

  /** An "or" of a byte shifted up and a byte below it. */
  lemma OrBytes(hi: nat, lo: nat, n: nat)
    requires n <= 8 && hi < 1024 && lo < Pow2(n)
    ensures Or(Shl(hi, n), lo) == hi * Pow2(n) + lo
  {
    hide Or, Up;
    Pow2Small();
    ShlFits(hi, 10, n);
    OrIsSum(hi, lo, n);
    UpIsProduct(hi, n);
  }

  /** What ends up in a byte that two fingerprints share. */
  lemma SharedByte(hi: nat, lo: nat, n: nat)
    requires n <= 8 && hi < 1024 && lo < Pow2(n)
    ensures Or(Byte(Shl(hi, n)), Byte(lo)) == (hi % Pow2(8 - n)) * Pow2(n) + lo < 256
  {
    hide Or, Up, Low, High;
    Pow2Small();
    ShlFits(hi, 10, n);
    var m := 8 - n;
    HighLow(hi, m);
    UpSum(Up(High(hi, m), m), Low(hi, m), n);
    UpUp(High(hi, m), m, n);
    UpIsProduct(High(hi, m), 8);
    JoinBound(Low(hi, m), 0, m, n);
    assert Byte(Shl(hi, n)) == Up(Low(hi, m), n);
    OrIsSum(Low(hi, m), lo, n);
    JoinBound(Low(hi, m), lo, m, n);
    UpIsProduct(Low(hi, m), n);
    ShiftsAreArithmetic(hi, m);
    Pow2Monotone(n, 8);
  }

  lemma ShrIs(x: nat, n: nat)
    requires n <= 8
    ensures Shr(x, n) == x / Pow2(n)
  {
    ShiftsAreArithmetic(x, n);
  }

  /** The five bytes, in plain arithmetic. */
  lemma PackIs(f0: nat, f1: nat, f2: nat, f3: nat)
    requires f0 < 1024 && f1 < 1024 && f2 < 1024 && f3 < 1024
    ensures Pack(f0, f1, f2, f3) ==
            [f0 % 256, f1 % 64 * 4 + f0 / 256, f2 % 16 * 16 + f1 / 64, f3 % 4 * 64 + f2 / 16, f3 / 4]
  {
    hide Or, Shl, Shr;
    Pow2Values();
    ShrIs(f0, 8);
    ShrIs(f1, 6);
    ShrIs(f2, 4);
    ShrIs(f3, 2);
    SharedByte(f1, f0 / 256, 2);
    SharedByte(f2, f1 / 64, 4);
    SharedByte(f3, f2 / 16, 6);
    ShlZero(f0);
  }

  lemma Pow2Values()
    ensures Pow2(2) == 4 && Pow2(4) == 16 && Pow2(6) == 64 && Pow2(8) == 256
  {
    Pow2Small();
  }

  lemma ShlZero(x: nat)
    requires x < 1024
    ensures Shl(x, 0) == x
  {
  }

  lemma Digits(a: nat, a': nat, b: nat, b': nat, c: nat, c': nat)
    requires a' < 4 && b' < 16 && c' < 64
    ensures (a * 4 + a') % 4 == a' && (a * 4 + a') / 4 == a
    ensures (b * 16 + b') % 16 == b' && (b * 16 + b') / 16 == b
    ensures (c * 64 + c') % 64 == c' && (c * 64 + c') / 64 == c
  {
  }

  /** Reading back what was packed. */
  lemma PackRoundTrip(f0: nat, f1: nat, f2: nat, f3: nat)
    requires f0 < 1024 && f1 < 1024 && f2 < 1024 && f3 < 1024
    ensures var bytes := Pack(f0, f1, f2, f3);
            && (forall i :: 0 <= i < BYTES ==> bytes[i] < 256)
            && Unpack(bytes, 0) == f0 && Unpack(bytes, 1) == f1 && Unpack(bytes, 2) == f2 && Unpack(bytes, 3) == f3
  {
    hide Or, Shl, Shr, Pack;
    PackIs(f0, f1, f2, f3);
    Pow2Values();
    var b1, b2, b3 := f1 % 64 * 4 + f0 / 256, f2 % 16 * 16 + f1 / 64, f3 % 4 * 64 + f2 / 16;
    Digits(f1 % 64, f0 / 256, f2 % 16, f1 / 64, f3 % 4, f2 / 16);
    ShrIs(b1, 2);
    ShrIs(b2, 4);
    ShrIs(b3, 6);
    OrBytes(f0 / 256, f0 % 256, 8);
    OrBytes(f1 / 64, f1 % 64, 6);
    OrBytes(f2 / 16, f2 % 16, 4);
    OrBytes(f3 / 4, f3 % 4, 2);
  }

  /** Whether five bytes hold a fingerprint. */
  predicate FindFingerprint(fingerprint: nat, bytes: seq<nat>)
    requires |bytes| == BYTES
  {
    || fingerprint == Unpack(bytes, 0)
    || fingerprint == Unpack(bytes, 1)
    || fingerprint == Unpack(bytes, 2)
    || fingerprint == Unpack(bytes, 3)
  }

  // ---------- what a frozen side accepts ----------

  ghost predicate PackedBucket(table: Table, bytes: seq<nat>, bucket: nat)
    requires SLOTS * bucket + SLOTS <= |table| && BYTES * bucket + BYTES <= |bytes|
  {
    var i := SLOTS * bucket;
    bytes[BYTES * bucket..BYTES * bucket + BYTES] ==
    Pack(table[i].rest, table[i + 1].rest, table[i + 2].rest, table[i + 3].rest)
  }

  /** All buckets below n are packed. */
  ghost predicate Packed(table: Table, bytes: seq<nat>, n: nat)
    requires SLOTS * n <= |table| && BYTES * n <= |bytes|
  {
    forall b :: 0 <= b < n ==> PackedBucket(table, bytes, b)
  }

  /** Some slot of the key's bucket, in use or not, has the key's fingerprint, or a stash entry
  has its bucket and fingerprint, or the fingerprint is 0. */
  ghost predicate SideAccepts(f: Feistel, log: LogSize, table: Table, stash: seq<Path>, k: nat) {
    var q := ToPath(k, f, log);
    || q.slot.rest == 0
    || (exists j :: 0 <= j < |stash| && SamePlace(stash[j], q))
    || (exists i :: SLOTS * q.bucket <= i < SLOTS * q.bucket + SLOTS && i < |table| && table[i].rest == q.slot.rest)
  }

  lemma FingerprintFound(table: Table, bytes: seq<nat>, log: LogSize, q: Path)
    requires ValidTable(log, table) && ValidPath(log, q)
    requires |bytes| == BYTES * Pow2(log) && Packed(table, bytes, Pow2(log))
    ensures BYTES * q.bucket + BYTES <= |bytes|
    ensures FindFingerprint(q.slot.rest, bytes[BYTES * q.bucket..BYTES * q.bucket + BYTES]) <==>
            exists i :: SLOTS * q.bucket <= i < SLOTS * q.bucket + SLOTS && i < |table| && table[i].rest == q.slot.rest
  {
    hide Pow2, Pack, Unpack;
    assert Pow2(HEAD_SIZE) == 1024 by { TenBits(); }
    var i := SLOTS * q.bucket;
    assert PackedBucket(table, bytes, q.bucket);
    PackRoundTrip(table[i].rest, table[i + 1].rest, table[i + 2].rest, table[i + 3].rest);
  }

  /** Freezing loses no key: what a side finds its frozen form accepts. */
  lemma FrozenKeeps(f: Feistel, log: LogSize, table: Table, stash: seq<Path>, k: Word)
    requires ValidTable(log, table) && ValidStash(log, stash)
    requires Accepts(SideContents(f, log, table, stash), k)
    ensures SideAccepts(f, log, table, stash, k)
  {
    hide ToPath, SideContents, Pow2;
    SideFindsExactly(f, log, table, stash, k);
    var q := ToPath(k, f, log);
    if j :| 0 <= j < |stash| && StashHit(stash[j], q) {
      assert SamePlace(stash[j], q);
    } else {
      var i :| SLOTS * q.bucket <= i < SLOTS * q.bucket + SLOTS && i < |table| && Matches(table[i], q.slot);
      assert table[i].rest == q.slot.rest;
    }
  }

  // ---------- how much a frozen side accepts ----------

  /** A frozen side accepts what a side would that stores, without tails, every slot, every stash
  entry, and fingerprint 0 in every bucket. */
  ghost function FrozenTable(table: Table): (r: Table)
    ensures |r| == |table| && forall i :: 0 <= i < |table| ==> r[i] == table[i].(tail := NO_TAIL_BITS)
  {
    seq(|table|, i requires 0 <= i < |table| => table[i].(tail := NO_TAIL_BITS))
  }

  ghost function FrozenStash(log: LogSize, stash: seq<Path>): (r: seq<Path>)
    ensures |r| == |stash| + Pow2(log)
    ensures forall j :: 0 <= j < |stash| ==> r[j] == WithTail(stash[j], NO_TAIL_BITS)
    ensures forall b :: 0 <= b < Pow2(log) ==> r[|stash| + b] == Path(b, Slot(0, NO_TAIL_BITS))
  {
    seq(|stash|, j requires 0 <= j < |stash| => WithTail(stash[j], NO_TAIL_BITS)) +
    seq(Pow2(log), b requires 0 <= b < Pow2(log) => Path(b, Slot(0, NO_TAIL_BITS)))
  }

  ghost function FrozenStock(f: Feistel, log: LogSize, table: Table, stash: seq<Path>): multiset<Prefix> {
    SideContents(f, log, FrozenTable(table), FrozenStash(log, stash))
  }

  lemma NoTailCovers(t: Tail)
    requires t != 0
    ensures IsPrefixOf(NO_TAIL_BITS, t)
  {
    hide High;
    TailForm(t);
    Pow2IsUp(5);
    Pow2Small();
    CtzOfMarked(0, 5);
    PrefixTest(NO_TAIL_BITS, t);
    Pow2Six();
    HighBound(t, 0, 6);
    HighBound(NO_TAIL_BITS, 0, 6);
  }

  lemma FrozenIsValid(log: LogSize, table: Table, stash: seq<Path>)
    requires ValidTable(log, table) && ValidStash(log, stash)
    ensures ValidTable(log, FrozenTable(table)) && ValidStash(log, FrozenStash(log, stash))
  {
    hide Pow2;
    var r := FrozenStash(log, stash);
    forall j | 0 <= j < |r|
      ensures ValidPath(log, r[j])
    {
      if j < |stash| {
        assert ValidPath(log, stash[j]);
      } else {
        assert r[|stash| + (j - |stash|)] == Path(j - |stash|, Slot(0, NO_TAIL_BITS));
      }
    }
  }

  /** A frozen side accepts exactly what its stock of prefixes without tails covers. */
  lemma FrozenExact(f: Feistel, log: LogSize, table: Table, stash: seq<Path>, k: Word)
    requires ValidTable(log, table) && ValidStash(log, stash)
    ensures SideAccepts(f, log, table, stash, k) <==> Accepts(FrozenStock(f, log, table, stash), k)
  {
    hide ToPath, SideContents, Pow2, ValidTable, ValidStash, SideHit, SideAccepts, Accepts, FrozenTable, FrozenStash;
    FrozenIsValid(log, table, stash);
    SideFindsExactly(f, log, FrozenTable(table), FrozenStash(log, stash), k);
    if SideAccepts(f, log, table, stash, k) {
      FrozenAcceptsHit(f, log, table, stash, k);
    }
    if SideHit(FrozenTable(table), FrozenStash(log, stash), ToPath(k, f, log)) {
      FrozenHitAccepts(f, log, table, stash, k);
    }
  }

  lemma FrozenAcceptsHit(f: Feistel, log: LogSize, table: Table, stash: seq<Path>, k: Word)
    requires ValidPath(log, ToPath(k, f, log)) && SideAccepts(f, log, table, stash, k)
    ensures SideHit(FrozenTable(table), FrozenStash(log, stash), ToPath(k, f, log))
  {
    hide ToPath, Pow2, FrozenTable, FrozenStash, IsPrefixOf;
    var q := ToPath(k, f, log);
    NoTailCovers(q.slot.tail);
    if q.slot.rest == 0 {
      var r := FrozenStash(log, stash);
      assert r[|stash| + q.bucket] == Path(q.bucket, Slot(0, NO_TAIL_BITS));
      assert StashHit(r[|stash| + q.bucket], q);
    } else if j :| 0 <= j < |stash| && SamePlace(stash[j], q) {
      assert StashHit(FrozenStash(log, stash)[j], q);
    } else {
      var i :| SLOTS * q.bucket <= i < SLOTS * q.bucket + SLOTS && i < |table| && table[i].rest == q.slot.rest;
      assert Matches(FrozenTable(table)[i], q.slot);
    }
  }

  lemma FrozenHitAccepts(f: Feistel, log: LogSize, table: Table, stash: seq<Path>, k: Word)
    requires ValidPath(log, ToPath(k, f, log))
    requires SideHit(FrozenTable(table), FrozenStash(log, stash), ToPath(k, f, log))
    ensures SideAccepts(f, log, table, stash, k)
  {
    hide ToPath, Pow2, FrozenTable, FrozenStash, IsPrefixOf;
    var q := ToPath(k, f, log);
    var r := FrozenStash(log, stash);
    if j :| 0 <= j < |r| && StashHit(r[j], q) {
      if j < |stash| {
        assert SamePlace(stash[j], q);
      } else {
        assert r[|stash| + (j - |stash|)] == Path(j - |stash|, Slot(0, NO_TAIL_BITS));
      }
    } else {
      var i :| SLOTS * q.bucket <= i < SLOTS * q.bucket + SLOTS && i < |table|
               && Matches(FrozenTable(table)[i], q.slot);
      assert table[i].rest == q.slot.rest;
    }
  }

  lemma {:induction false} AllUsed(table: Table)
    requires forall i :: 0 <= i < |table| ==> table[i].tail != 0
    ensures UsedSlots(table) == |table|
  {
    if table == [] {
    } else {
      AllUsed(table[..|table| - 1]);
    }
  }

  lemma FrozenStockBound(f: Feistel, log: LogSize, table: Table, stash: seq<Path>)
    requires ValidTable(log, table) && ValidStash(log, stash)
    ensures |FrozenStock(f, log, table, stash)| == 5 * Pow2(log) + |stash|
    ensures forall pr :: pr in FrozenStock(f, log, table, stash) ==> log + 10 <= pr.width
  {
    hide SideContents, Pow2, ValidStash;
    FrozenIsValid(log, table, stash);
    SideCount(f, log, FrozenTable(table), FrozenStash(log, stash));
    AllUsed(FrozenTable(table));
    forall pr | pr in FrozenStock(f, log, table, stash)
      ensures log + 10 <= pr.width
    {
      StoredWidth(f, log, FrozenTable(table), FrozenStash(log, stash), pr);
    }
  }

  // ---------- the frozen filter ----------

  class Frozen {
    const log: LogSize
    const f0: Feistel
    const f1: Feistel
    var bytes0: array<nat>
    var bytes1: array<nat>
    var stash0: seq<Path>
    var stash1: seq<Path>
    /** The tables that were frozen, and the prefixes they stood for. */
    ghost var table0: Table
    ghost var table1: Table
    ghost var stock: multiset<Prefix>

    ghost predicate SideValid(table: Table, stash: seq<Path>, bytes: array<nat>)
      reads bytes
    {
      && ValidTable(log, table) && ValidStash(log, stash)
      && bytes.Length == BYTES * Pow2(log) && Packed(table, bytes[..], Pow2(log))
    }

    ghost predicate Valid()
      reads this, bytes0, bytes1
    {
      && SideValid(table0, stash0, bytes0)
      && SideValid(table1, stash1, bytes1)
      && stock == SideContents(f0, log, table0, stash0) + SideContents(f1, log, table1, stash1)
    }

    constructor (tcf: Filter)
      requires tcf.Valid()
      ensures Valid() && stock == tcf.Stock() && log == tcf.logSideSize && f0 == tcf.side0.f && f1 == tcf.side1.f
      ensures table0 == tcf.side0.data[..] && table1 == tcf.side1.data[..]
      ensures stash0 == tcf.side0.stash && stash1 == tcf.side1.stash
      ensures fresh(bytes0) && fresh(bytes1)
    {
      hide SideContents, Packed, ValidTable, ValidStash, Pow2, Keys;
      log := tcf.logSideSize;
      f0, f1 := tcf.side0.f, tcf.side1.f;
      var b0 := FromSide(tcf.side0.data, tcf.logSideSize);
      var b1 := FromSide(tcf.side1.data, tcf.logSideSize);
      bytes0, bytes1 := b0, b1;
      stash0, stash1 := tcf.side0.stash, tcf.side1.stash;
      table0, table1 := tcf.side0.data[..], tcf.side1.data[..];
      stock := tcf.Stock();
    }

    method FindOnSide(f: Feistel, stash: seq<Path>, bytes: array<nat>, ghost table: Table, k: Word)
      returns (found: bool)
      requires SideValid(table, stash, bytes)
      ensures found <==> SideAccepts(f, log, table, stash, k)
    {
      hide ToPath, Pow2, FindFingerprint;
      var p := ToPath(k, f, log);
      KeyPathPrefix(f, log, k);
      FingerprintFound(table, bytes[..], log, p);
      if 0 == p.slot.rest {
        return true;
      }
      for j := 0 to |stash|
        invariant forall i :: 0 <= i < j ==> !SamePlace(stash[i], p)
      {
        if SamePlace(stash[j], p) {
          return true;
        }
      }
      found := FindFingerprint(p.slot.rest, bytes[..][BYTES * p.bucket..BYTES * p.bucket + BYTES]);
    }

    /** The frozen filter accepts a key exactly if one of its sides does, and so every key that
    the filter it was made from accepted. */
    method FindHash(k: Word) returns (found: bool)
      requires Valid()
      ensures found <==> SideAccepts(f0, log, table0, stash0, k) || SideAccepts(f1, log, table1, stash1, k)
      ensures k in Keys(stock) ==> found
    {
      hide SideAccepts, SideContents, Covers;
      if k in Keys(stock) {
        if Accepts(SideContents(f0, log, table0, stash0), k) {
          FrozenKeeps(f0, log, table0, stash0, k);
        } else {
          FrozenKeeps(f1, log, table1, stash1, k);
        }
      }
      found := FindOnSide(f0, stash0, bytes0, table0, k);
      if !found {
        found := FindOnSide(f1, stash1, bytes1, table1, k);
      }
    }

    ghost function AcceptedKeys(): set<nat>
      reads this
    {
      set k: nat | k < WORD && (SideAccepts(f0, log, table0, stash0, k) || SideAccepts(f1, log, table1, stash1, k))
    }

    /** Of each bucket at most five fingerprints are accepted, 0 being one, and of each stash entry
    one; each goes with 2^(54 - log) keys. */
    lemma AcceptedBound()
      requires Valid()
      ensures |AcceptedKeys()| <= Up(10 * Pow2(log) + |stash0| + |stash1|, 54 - log)
    {
      hide SideAccepts, FrozenStock, Covers, Up, Pow2, SideContents, ValidTable, ValidStash, Packed;
      var s0, s1 := FrozenStock(f0, log, table0, stash0), FrozenStock(f1, log, table1, stash1);
      forall k: Word
        ensures k in AcceptedKeys() <==> k in Keys(s0 + s1)
      {
        FrozenExact(f0, log, table0, stash0, k);
        FrozenExact(f1, log, table1, stash1, k);
        KeysUnion(s0, s1);
        assert k in Keys(s0) + Keys(s1) <==> Accepts(s0, k) || Accepts(s1, k);
      }
      assert AcceptedKeys() == Keys(s0 + s1);
      FrozenStockBound(f0, log, table0, stash0);
      FrozenStockBound(f1, log, table1, stash1);
      KeysBound(s0 + s1, log + 10);
    }
  }

  /** Packs a side's fingerprints, bucket by bucket. */
  method FromSide(data: array<Slot<nat>>, log: LogSize) returns (bytes: array<nat>)
    requires ValidTable(log, data[..])
    ensures fresh(bytes) && bytes.Length == BYTES * Pow2(log) && Packed(data[..], bytes[..], Pow2(log))
  {
    hide Pack, Pow2;
    var buckets := Pow2(log);
    bytes := new nat[BYTES * buckets];
    for b := 0 to buckets
      invariant Packed(data[..], bytes[..], b)
    {
      ghost var before := bytes[..];
      var i, j := SLOTS * b, BYTES * b;
      var packed := Pack(data[i].rest, data[i + 1].rest, data[i + 2].rest, data[i + 3].rest);
      bytes[j] := packed[0];
      bytes[j + 1] := packed[1];
      bytes[j + 2] := packed[2];
      bytes[j + 3] := packed[3];
      bytes[j + 4] := packed[4];
      PackedStep(data[..], before, bytes[..], b);
    }
  }

  lemma PackedStep(table: Table, before: seq<nat>, after: seq<nat>, b: nat)
    requires |before| == |after| && SLOTS * b + SLOTS <= |table| && BYTES * b + BYTES <= |before|
    requires Packed(table, before, b) && after[..BYTES * b] == before[..BYTES * b]
    requires var i := SLOTS * b;
             var packed := Pack(table[i].rest, table[i + 1].rest, table[i + 2].rest, table[i + 3].rest);
             forall c :: 0 <= c < BYTES ==> after[BYTES * b + c] == packed[c]
    ensures Packed(table, after, b + 1)
  {
    hide Pack;
    forall c | 0 <= c < b
      ensures PackedBucket(table, after, c)
    {
      assert PackedBucket(table, before, c);
      assert after[BYTES * c..BYTES * c + BYTES] == after[..BYTES * b][BYTES * c..BYTES * c + BYTES];
    }
    assert PackedBucket(table, after, b);
  }
}
