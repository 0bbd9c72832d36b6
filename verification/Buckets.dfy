/** Tables of four-slot buckets, shared by both cuckoo filters: the insert and find scans of
c/include/filter/taffy-cuckoo.h (160-223) and minimal-taffy-cuckoo.h (25-73).

The rest is what a slot keeps besides its tail; the two filters differ in it only. */
module Buckets {
  import opened Prefixes
  import opened Tails

  const SLOTS: nat := 4

  /** A slot with tail 0 is empty, whatever the rest. */
  datatype Slot<F> = Slot(rest: F, tail: Tail)

  /** How a table's slots are read back: the prefix that a slot in a bucket stands for. */
  type Reader<!F> = (nat, Slot<F>) -> Prefix

  // ---------- what the scans look for ----------

  predicate Matches<F(==)>(stored: Slot<F>, wanted: Slot<F>)
    requires wanted.tail != 0
  {
    stored.tail != 0 && stored.rest == wanted.rest && IsPrefixOf(stored.tail, wanted.tail)
  }

  /** The first slot of a bucket, from offset i on, that ends an insertion; SLOTS if none. */
  function ScanFrom<F(==)>(data: seq<Slot<F>>, bucket: nat, wanted: Slot<F>, i: nat): (j: nat)
    requires SLOTS * bucket + SLOTS <= |data| && wanted.tail != 0 && i <= SLOTS
    ensures i <= j <= SLOTS
    decreases SLOTS - i
  {
    if i == SLOTS then SLOTS
    else if data[SLOTS * bucket + i].tail == 0 || Matches(data[SLOTS * bucket + i], wanted) then i
    else ScanFrom(data, bucket, wanted, i + 1)
  }

  /** A bucket can take a slot without an eviction. */
  ghost predicate HasPlace<F>(data: seq<Slot<F>>, bucket: nat, wanted: Slot<F>)
    requires wanted.tail != 0
  {
    exists i :: SLOTS * bucket <= i < SLOTS * bucket + SLOTS && i < |data|
                && (data[i].tail == 0 || Matches(data[i], wanted))
  }

  /** One insertion: the slot fills the first hole, or is found to be covered already, or
  evicts the slot at an arbitrary offset, which is then returned. */
  ghost predicate InsertStep<F>(before: seq<Slot<F>>, after: seq<Slot<F>>, bucket: nat, slot: Slot<F>,
                                r: Slot<F>, at: nat)
    requires SLOTS * bucket + SLOTS <= |before| && slot.tail != 0
  {
    var j := ScanFrom(before, bucket, slot, 0);
    if j == SLOTS then
      && at < SLOTS
      && after == before[SLOTS * bucket + at := slot]
      && r == before[SLOTS * bucket + at]
    else if before[SLOTS * bucket + j].tail == 0 then
      && at == j
      && after == before[SLOTS * bucket + at := slot]
      && r == slot.(tail := 0)
    else
      at == j && after == before && r == slot
  }

  // ---------- the scans ----------

  method InsertInBucket<F(==)>(data: array<Slot<F>>, bucket: nat, slot: Slot<F>)
    returns (r: Slot<F>, ghost at: nat)
    requires SLOTS * bucket + SLOTS <= data.Length && slot.tail != 0
    modifies data
    ensures InsertStep(old(data[..]), data[..], bucket, slot, r, at)
  {
    var i := 0;
    while i < SLOTS
      invariant i <= SLOTS
      invariant data[..] == old(data[..])
      invariant ScanFrom(data[..], bucket, slot, 0) == ScanFrom(data[..], bucket, slot, i)
    {
      if data[SLOTS * bucket + i].tail == 0 {
        data[SLOTS * bucket + i] := slot;
        return slot.(tail := 0), i;
      }
      if data[SLOTS * bucket + i].rest == slot.rest {
        if IsPrefixOf(data[SLOTS * bucket + i].tail, slot.tail) {
          return slot, i;
        }
      }
      i := i + 1;
    }
    // the random choice: any of the four slots
    var kick: nat :| kick < SLOTS;
    r, at := data[SLOTS * bucket + kick], kick;
    data[SLOTS * bucket + kick] := slot;
  }

  method FindInBucket<F(==)>(data: array<Slot<F>>, bucket: nat, slot: Slot<F>) returns (found: bool)
    requires SLOTS * bucket + SLOTS <= data.Length && slot.tail != 0
    ensures found <==> exists i :: SLOTS * bucket <= i < SLOTS * bucket + SLOTS && Matches(data[i], slot)
  {
    for i := SLOTS * bucket to SLOTS * bucket + SLOTS
      invariant forall j :: SLOTS * bucket <= j < i ==> !Matches(data[j], slot)
    {
      if data[i].tail == 0 {
        continue;
      }
      if data[i].rest == slot.rest && IsPrefixOf(data[i].tail, slot.tail) {
        return true;
      }
    }
    return false;
  }

  // ---------- contents ----------

  ghost function SlotContents<F>(g: Reader<F>, bucket: nat, s: Slot<F>): multiset<Prefix> {
    if s.tail == 0 then multiset{} else multiset{g(bucket, s)}
  }

  /** The prefixes that a table stores. */
  ghost function Contents<F>(data: seq<Slot<F>>, g: Reader<F>): multiset<Prefix> {
    if data == [] then multiset{} else
      var n := |data| - 1;
      Contents(data[..n], g) + SlotContents(g, n / SLOTS, data[n])
  }

  lemma AddToBoth<T>(a: multiset<T>, b: multiset<T>, c: multiset<T>, d: multiset<T>, x: multiset<T>)
    requires a + b == c + d
    ensures (a + x) + b == (c + x) + d
  {
    assert (a + x) + b == (a + b) + x;
    assert (c + x) + d == (c + d) + x;
  }

  lemma {:induction false} ContentsUpdate<F>(data: seq<Slot<F>>, i: nat, s: Slot<F>, g: Reader<F>)
    requires i < |data|
    ensures Contents(data[i := s], g) + SlotContents(g, i / SLOTS, data[i]) ==
            Contents(data, g) + SlotContents(g, i / SLOTS, s)
  {
    hide SlotContents;
    var n := |data| - 1;
    if i == n {
      assert data[i := s][..n] == data[..n];
    } else {
      ContentsUpdate(data[..n], i, s, g);
      assert data[i := s][..n] == data[..n][i := s];
      AddToBoth(Contents(data[i := s][..n], g), SlotContents(g, i / SLOTS, data[i]),
                Contents(data[..n], g), SlotContents(g, i / SLOTS, s),
                SlotContents(g, n / SLOTS, data[n]));
    }
  }

  lemma {:induction false} ContentsMember<F>(data: seq<Slot<F>>, i: nat, g: Reader<F>)
    requires i < |data| && data[i].tail != 0
    ensures g(i / SLOTS, data[i]) in Contents(data, g)
  {
    var n := |data| - 1;
    if i == n {
    } else {
      ContentsMember(data[..n], i, g);
    }
  }

  lemma {:induction false} ContentsSource<F>(data: seq<Slot<F>>, pr: Prefix, g: Reader<F>) returns (i: nat)
    requires pr in Contents(data, g)
    ensures i < |data| && data[i].tail != 0 && pr == g(i / SLOTS, data[i])
  {
    var n := |data| - 1;
    if pr in Contents(data[..n], g) {
      i := ContentsSource(data[..n], pr, g);
    } else {
      i := n;
    }
  }

  lemma {:induction false} ContentsEmpty<F>(data: seq<Slot<F>>, g: Reader<F>)
    requires forall i :: 0 <= i < |data| ==> data[i].tail == 0
    ensures Contents(data, g) == multiset{}
  {
    if data == [] {
    } else {
      ContentsEmpty(data[..|data| - 1], g);
    }
  }

  /** Two readers that agree on the slots in use see the same contents. */
  lemma {:induction false} ContentsAgree<F>(data: seq<Slot<F>>, g: Reader<F>, h: Reader<F>)
    requires forall i :: 0 <= i < |data| && data[i].tail != 0 ==> g(i / SLOTS, data[i]) == h(i / SLOTS, data[i])
    ensures Contents(data, g) == Contents(data, h)
  {
    if data == [] {
    } else {
      var n := |data| - 1;
      assert forall i :: 0 <= i < n ==> data[..n][i] == data[i];
      ContentsAgree(data[..n], g, h);
    }
  }

  /** The prefix read from a slot only grows when its tail gets shorter. */
  ghost predicate ShorterCoversMore<F(!new)>(g: Reader<F>) {
    forall b: nat, s: Slot<F>, t: Slot<F> {:trigger g(b, s), g(b, t)} ::
      t.tail != 0 && Matches(s, t) ==> KeysOf(g(b, t)) <= KeysOf(g(b, s))
  }

  lemma {:induction false} ScanStops<F>(data: seq<Slot<F>>, bucket: nat, slot: Slot<F>, i: nat, k: nat)
    requires SLOTS * bucket + SLOTS <= |data| && slot.tail != 0 && i <= k < SLOTS
    requires k < ScanFrom(data, bucket, slot, i)
    ensures data[SLOTS * bucket + k].tail != 0 && !Matches(data[SLOTS * bucket + k], slot)
    decreases k - i
  {
    if i == k {
    } else {
      ScanStops(data, bucket, slot, i + 1, k);
    }
  }

  lemma {:induction false} ScanFound<F>(data: seq<Slot<F>>, bucket: nat, slot: Slot<F>, i: nat)
    requires SLOTS * bucket + SLOTS <= |data| && slot.tail != 0 && i <= SLOTS
    ensures var j := ScanFrom(data, bucket, slot, i);
            j < SLOTS ==> data[SLOTS * bucket + j].tail == 0 || Matches(data[SLOTS * bucket + j], slot)
    decreases SLOTS - i
  {
    if i == SLOTS {
    } else {
      ScanFound(data, bucket, slot, i + 1);
    }
  }

  lemma BucketOf(bucket: nat, at: nat)
    requires at < SLOTS
    ensures (SLOTS * bucket + at) / SLOTS == bucket
  {
  }

  /** Nothing is lost or made up by an insertion: what the table holds afterwards, together
  with what it hands back, is what it held before together with the new slot. */
  lemma InsertConserves<F>(before: seq<Slot<F>>, after: seq<Slot<F>>, bucket: nat, slot: Slot<F>,
                           r: Slot<F>, at: nat, g: Reader<F>)
    requires SLOTS * bucket + SLOTS <= |before| && slot.tail != 0
    requires InsertStep(before, after, bucket, slot, r, at)
    ensures |after| == |before|
    ensures Contents(after, g) + SlotContents(g, bucket, r) == Contents(before, g) + SlotContents(g, bucket, slot)
  {
    BucketOf(bucket, at);
    ContentsUpdate(before, SLOTS * bucket + at, slot, g);
    ScanFound(before, bucket, slot, 0);
    if at < ScanFrom(before, bucket, slot, 0) {
      ScanStops(before, bucket, slot, 0, at);
    }
  }

  /** The slot itself comes back exactly when a stored slot already covers it; it is never
  what an eviction returns. */
  lemma InsertReturnsSame<F(!new)>(before: seq<Slot<F>>, after: seq<Slot<F>>, bucket: nat, slot: Slot<F>,
                                   r: Slot<F>, at: nat, g: Reader<F>)
    requires SLOTS * bucket + SLOTS <= |before| && slot.tail != 0
    requires InsertStep(before, after, bucket, slot, r, at) && ShorterCoversMore(g)
    ensures r == slot ==> after == before && KeysOf(g(bucket, slot)) <= Keys(Contents(before, g))
  {
    hide IsPrefixOf, Contents, Keys;
    var j := ScanFrom(before, bucket, slot, 0);
    ScanFound(before, bucket, slot, 0);
    if j == SLOTS {
      ScanStops(before, bucket, slot, 0, at);
      PrefixReflexive(slot.tail);
    } else if before[SLOTS * bucket + j].tail != 0 {
      var s := before[SLOTS * bucket + j];
      BucketOf(bucket, j);
      ContentsMember(before, SLOTS * bucket + j, g);
      assert Matches(s, slot) && KeysOf(g(bucket, slot)) <= KeysOf(g(bucket, s));
      KeysMember(Contents(before, g), g(bucket, s));
    }
  }

  /** There is an eviction exactly if the bucket has no place for the slot. */
  lemma EvictsIffFull<F(!new)>(before: seq<Slot<F>>, after: seq<Slot<F>>, bucket: nat, slot: Slot<F>,
                               r: Slot<F>, at: nat)
    requires SLOTS * bucket + SLOTS <= |before| && slot.tail != 0
    requires InsertStep(before, after, bucket, slot, r, at)
    ensures r.tail == 0 || r == slot <==> HasPlace(before, bucket, slot)
  {
    hide IsPrefixOf;
    var j := ScanFrom(before, bucket, slot, 0);
    ScanFound(before, bucket, slot, 0);
    if j == SLOTS {
      PrefixReflexive(slot.tail);
      forall i | SLOTS * bucket <= i < SLOTS * bucket + SLOTS
        ensures before[i].tail != 0 && !Matches(before[i], slot)
      {
        ScanStops(before, bucket, slot, 0, i - SLOTS * bucket);
      }
    }
  }

  /** After an insertion the slot's keys are found in the table. */
  lemma InsertCovers<F(!new)>(before: seq<Slot<F>>, after: seq<Slot<F>>, bucket: nat, slot: Slot<F>,
                              r: Slot<F>, at: nat)
    requires SLOTS * bucket + SLOTS <= |before| && slot.tail != 0
    requires InsertStep(before, after, bucket, slot, r, at)
    ensures |after| == |before|
    ensures exists i :: SLOTS * bucket <= i < SLOTS * bucket + SLOTS && Matches(after[i], slot)
  {
    ScanFound(before, bucket, slot, 0);
    PrefixReflexive(slot.tail);
    assert at < SLOTS;
    assert Matches(after[SLOTS * bucket + at], slot);
  }

  lemma ContentsStep<F>(data: seq<Slot<F>>, i: nat, g: Reader<F>)
    requires i < |data|
    ensures Contents(data[..i + 1], g) == Contents(data[..i], g) + SlotContents(g, i / SLOTS, data[i])
  {
    assert data[..i + 1][..i] == data[..i];
  }

  // ---------- stashes ----------

  /** The prefixes that a stash stores; an entry is read back as one prefix, or none. */
  ghost function StashOf<P>(stash: seq<P>, g: P -> multiset<Prefix>): multiset<Prefix> {
    if stash == [] then multiset{} else StashOf(stash[..|stash| - 1], g) + g(stash[|stash| - 1])
  }

  lemma StashPush<P>(stash: seq<P>, p: P, g: P -> multiset<Prefix>)
    ensures StashOf(stash + [p], g) == StashOf(stash, g) + g(p)
  {
    assert (stash + [p])[..|stash|] == stash;
  }

  lemma StashNone<P>(stash: seq<P>, g: P -> multiset<Prefix>)
    ensures StashOf(stash[..0], g) == multiset{}
  {
    assert stash[..0] == [];
  }

  lemma StashKeysStep<P>(stash: seq<P>, i: nat, g: P -> multiset<Prefix>)
    requires i < |stash|
    ensures Keys(StashOf(stash[..i + 1], g)) == Keys(StashOf(stash[..i], g)) + Keys(g(stash[i]))
  {
    hide Keys, StashOf;
    assert stash[..i + 1] == stash[..i] + [stash[i]];
    StashPush(stash[..i], stash[i], g);
    KeysUnion(StashOf(stash[..i], g), g(stash[i]));
  }

  lemma {:induction false} StashCount<P>(stash: seq<P>, g: P -> multiset<Prefix>)
    requires forall j :: 0 <= j < |stash| ==> |g(stash[j])| == 1
    ensures |StashOf(stash, g)| == |stash|
  {
    if stash == [] {
    } else {
      var n := |stash| - 1;
      assert forall j :: 0 <= j < n ==> stash[..n][j] == stash[j];
      StashCount(stash[..n], g);
    }
  }

  lemma {:induction false} StashMember<P>(stash: seq<P>, j: nat, pr: Prefix, g: P -> multiset<Prefix>)
    requires j < |stash| && pr in g(stash[j])
    ensures pr in StashOf(stash, g)
  {
    var n := |stash| - 1;
    if j == n {
    } else {
      StashMember(stash[..n], j, pr, g);
    }
  }

  lemma {:induction false} StashSource<P>(stash: seq<P>, pr: Prefix, g: P -> multiset<Prefix>) returns (j: nat)
    requires pr in StashOf(stash, g)
    ensures j < |stash| && pr in g(stash[j])
  {
    var n := |stash| - 1;
    if pr in StashOf(stash[..n], g) {
      j := StashSource(stash[..n], pr, g);
    } else {
      j := n;
    }
  }

  lemma {:induction false} StashAgree<P>(stash: seq<P>, g: P -> multiset<Prefix>, h: P -> multiset<Prefix>)
    requires forall j :: 0 <= j < |stash| ==> g(stash[j]) == h(stash[j])
    ensures StashOf(stash, g) == StashOf(stash, h)
  {
    if stash == [] {
    } else {
      var n := |stash| - 1;
      assert forall j :: 0 <= j < n ==> stash[..n][j] == stash[j];
      StashAgree(stash[..n], g, h);
    }
  }

  // ---------- one step of an insertion, on stocks ----------

  /** When one prefix is inserted and at most one comes back, a stock together with what came back
  stands for the same keys as the stock before together with what was inserted. */
  lemma InsertedKeys(before: multiset<Prefix>, after: multiset<Prefix>, pr: Prefix, back: multiset<Prefix>)
    requires after + back == before + multiset{pr}
    ensures Keys(after) + Keys(back) == Keys(before) + KeysOf(pr)
    ensures |after| + |back| == |before| + 1
    ensures back == multiset{pr} ==> after == before
  {
    hide Keys;
    KeysUnion(after, back);
    KeysUnion(before, multiset{pr});
    assert |after + back| == |before + multiset{pr}|;
    if back == multiset{pr} {
      assert after == (after + back) - back;
      assert before == (before + back) - back;
    }
  }

  // ---------- counting ----------

  /** How many slots are in use. */
  ghost function UsedSlots<F>(data: seq<Slot<F>>): nat {
    if data == [] then 0 else
      UsedSlots(data[..|data| - 1]) + (if data[|data| - 1].tail == 0 then 0 else 1)
  }

  lemma {:induction false} UsedUpdate<F>(data: seq<Slot<F>>, i: nat, s: Slot<F>)
    requires i < |data|
    ensures UsedSlots(data[i := s]) + (if data[i].tail == 0 then 0 else 1) ==
            UsedSlots(data) + (if s.tail == 0 then 0 else 1)
  {
    var n := |data| - 1;
    if i == n {
      assert data[i := s][..n] == data[..n];
    } else {
      UsedUpdate(data[..n], i, s);
      assert data[i := s][..n] == data[..n][i := s];
    }
  }

  /** An insertion uses one more slot if it finds a hole first, and else as many as before. */
  lemma InsertCounts<F(!new)>(before: seq<Slot<F>>, after: seq<Slot<F>>, bucket: nat, slot: Slot<F>,
                              r: Slot<F>, at: nat)
    requires SLOTS * bucket + SLOTS <= |before| && slot.tail != 0
    requires InsertStep(before, after, bucket, slot, r, at)
    ensures |after| == |before| && UsedSlots(before) <= UsedSlots(after) <= UsedSlots(before) + 1
    ensures !HasPlace(before, bucket, slot) ==> UsedSlots(after) == UsedSlots(before)
  {
    hide UsedSlots;
    EvictsIffFull(before, after, bucket, slot, r, at);
    ScanFound(before, bucket, slot, 0);
    if at < SLOTS {
      UsedUpdate(before, SLOTS * bucket + at, slot);
    }
    if ScanFrom(before, bucket, slot, 0) == SLOTS {
      ScanStops(before, bucket, slot, 0, at);
    }
  }

  lemma {:induction false} ContentsCount<F>(data: seq<Slot<F>>, g: Reader<F>)
    ensures |Contents(data, g)| == UsedSlots(data)
  {
    if data == [] {
    } else {
      ContentsCount(data[..|data| - 1], g);
    }
  }
}
