# Growing cuckoo filters and a peeled xor filter, modelled and proved

The library answers "might this 64-bit hash have been added?". This project models three of its
filters and proves, for all inputs and all random choices, exactly which hashes are answered
"yes".

**What a stored entry means.** A slot of a taffy filter keeps part of a key. The rest follows from
where the slot is (side, level, bucket), is hidden behind a Feistel permutation, and depends in the
minimal filter on how far the doubling has come. `Prefixes.Prefix` is the meaning of an entry: the
first bits of a key. `Prefixes.Keys` is the set of 64-bit keys that extend some prefix of a stock.
`Stock()` reads a filter's mutable tables and stashes back as a multiset of prefixes. Each
operation is proved against what it does to that set:

- finding answers membership in the set, no more and no less;
- inserting adds the keys of one prefix, whatever is evicted, moved to the other side, shortened,
  split or stashed;
- doubling (a whole filter, or one level of the minimal filter, with the wrap to the next size)
  leaves the set as it is;
- union yields the union of the sets;
- freezing loses nothing, and accepts exactly the described set.

**What an operation does to the slots.** The key set says what is answered, not where entries end
up, when the filter grows, or what is stashed. For that, `TaffyMoves` and `MinimalMoves` define on
values, for every random choice, how a layout (all slots, stashes, permutations and sizes) turns
into the next: an insertion visit by visit, a doubling or union as the list of paths it inserts,
in order, into which layout, and an addition as doublings while the load test, computed from the
tables themselves, asks for them. The methods are proved to follow these relations, and the
relations' consequences are lemmas: how many evictions precede a stashing, when nothing is
stashed, how sizes develop.

`Valid()` keeps, next to the form of the tables, the set equal to the keys of the ghost history
`added`, so the methods' contracts compose to the theorems about whole runs in `Runs`.

**The static filter.** Each hash is an edge on three cells of a table. `Peeling` proves that the
queue of `peel` takes in every vertex exactly if no set of edges is a 2-core, and that solving the
queue backwards makes every edge's equation hold, the queue's useless entries included.

**Form.** The tables, queues and filters are classes and arrays that the methods change in place,
as in the source. Bit operations work on unbounded numbers with the width written out: `Bits.Shl`
cuts at 64 bits, `Bits.High`, `Bits.Low` and `Bits.Up` are shift, mask and unbounded shift, and the
lemmas of `Bits` connect the two views. A random number from 0 to 3 is an arbitrary choice. A
source function with nested loops may be several methods here: `insert_detail` is `InsertDetail`
with the loop body `Turn`, its part `Translate` and the end `GiveUp`, the minimal `upsize` is `OpenLevel`, `Refill` (`ReinsertStash`,
`ReinsertLevel`, `ReinsertSlot`, `ReinsertEntry`) and `StartOver`, and `add_hash` is `MakeRoom` and `InsertKey`.

| file | content |
|---|---|
| Bits, Feistels, Tails | words, the permutation, marker-encoded bit sequences |
| Prefixes, Counting | what entries mean, and how many keys a stock accepts |
| Buckets | four-slot buckets and stashes: what both cuckoo filters share |
| MinimalPaths, MinimalContents, MinimalTaffyCuckoo | the minimal taffy cuckoo filter: quotienting, sides as values, the filter |
| MinimalResizing | what the general form of `re_path` does between different sizes |
| MinimalMoves, MinimalUnstash | its layouts and how operations change them; when doubling a level stashes nothing |
| TaffyPaths, TaffyContents, TaffyCuckoo | the taffy cuckoo filter, in the same order, with union |
| TaffyMoves | its layouts and how operations change them |
| FrozenTaffyCuckoo, Swar | its frozen form: packing, searching, the word-parallel search |
| Peeling, StaticFilter | the static filter |
| Runs | whole runs of the two growing filters |

## Model

| member | source | states |
|---|---|---|
| Runs.RunMinimal | c/include/filter/minimal-taffy-cuckoo.h:144-181 | Over every run of adds and upsizes from empty, the minimal filter accepts a key exactly if it agrees with an added key in its first log size + 19 bits, for the log size reached when that key was added. The layouts of the run begin with the empty one for the entropy given and end with the filter's own, and each follows from the one before by the operation: an upsize doubles one level, an add doubles levels while the layout is crowded and no longer and then inserts the key's path. A run stops early only when no larger filter fits 64-bit keys |
| Runs.RunTaffy | c/include/filter/taffy-cuckoo.h:297-400 | The same for the taffy cuckoo filter with log size + 15 bits: no false negatives, and every false positive is explained by an added prefix; each layout of the run follows from the one before by a doubling or an addition |
| Runs.TaffyStepSize | c/include/filter/taffy-cuckoo.h:390-400 | An add grows a crowded layout, and no other; where it does not grow it takes up at most one more place and one more stash entry |
| Runs.MinimalStepSize | c/include/filter/minimal-taffy-cuckoo.h:169-181 | An add moves a crowded layout to a later level or a larger size, and no other; an upsize takes exactly one step |
| Runs.AddedAgrees | c/include/filter/taffy-cuckoo.h:390-400 | A run's history of prefixes covers a key iff the key agrees with one of the added keys in the bits that were taken of it |
| Runs.RunExplained | c/include/filter/taffy-cuckoo.h:297-311 | A filter whose stock accepts what the history does answers exactly by agreement with added keys |
| MinimalTaffyCuckoo.Filter.Upsize | c/lib/minimal-taffy-cuckoo.c:104-194 | Doubling the level at the cursor changes no answer and no history, and moves the cursor by one or, from the last level, to level 0 of the next size; the new layout is the opened one with all entries put back in order, each with 128 visits; from empty stashes, with only long fingerprints in the levels at the cursor, both stashes are empty afterwards |
| MinimalUnstash.UpsizeUnstashes | c/lib/minimal-taffy-cuckoo.c:104-194 | Doubling levels that hold only long fingerprints, from empty stashes, stashes nothing, whatever the choices: what comes from one bucket goes to two buckets that no other bucket goes to |
| MinimalUnstash.LongMoves | c/include/filter/paths.h:213-240 | A long fingerprint at the cursor keeps side, level and tail when re-pathed, gives its highest bit to the bucket, and becomes short |
| MinimalMoves.UpsizedGeometry | c/lib/minimal-taffy-cuckoo.c:118-189 | An upsize advances the cursor or, after the last level, starts over at the next size with the permutations exchanged |
| MinimalTaffyCuckoo.Filter.OpenLevel | c/lib/minimal-taffy-cuckoo.c:105-144 | Taking out one level and the stash of each side and advancing the cursor loses nothing: what is left and what was taken out make up the old keys, and the counter is off by the slots taken out; the layout is the old one with an empty level of twice the size and without stashes |
| MinimalTaffyCuckoo.Side.Open | c/lib/minimal-taffy-cuckoo.c:105-144 | On one side, the same as an equation between multisets of prefixes: all other levels read as before although the cursor moved |
| MinimalTaffyCuckoo.Filter.Refill | c/lib/minimal-taffy-cuckoo.c:146-179 | Putting stashes and levels back adds exactly their keys and settles the counter; stashes first, then levels, in order |
| MinimalTaffyCuckoo.Filter.ReinsertStash | c/lib/minimal-taffy-cuckoo.c:146-159 | Re-pathing and inserting a stash adds exactly its keys; in order |
| MinimalTaffyCuckoo.Filter.ReinsertLevel | c/lib/minimal-taffy-cuckoo.c:160-179 | Re-pathing and inserting the slots of the old level adds exactly their keys, and counts down once per slot in use; in order |
| MinimalTaffyCuckoo.Filter.Reinsert | c/lib/minimal-taffy-cuckoo.c:147-158 | One translated entry, split or not, adds exactly the keys of the entry as the old cursor read it; its paths are inserted with 128 visits each, the second one first; the stashes stay as they are if it is not split and its bucket has a place |
| MinimalTaffyCuckoo.Filter.StartOver | c/lib/minimal-taffy-cuckoo.c:181-189 | Resetting the cursor, raising the size and swapping the permutations re-reads every entry as the same prefix |
| MinimalContents.WrapSide | c/lib/minimal-taffy-cuckoo.c:181-189 | The whole contents of a side, tables and stash, are the same before and after the wrap |
| MinimalTaffyCuckoo.Filter.InsertDetail | c/include/filter/minimal-taffy-cuckoo.h:183-230 | Inserting makes the accepted keys the old ones together with those of the path, for every eviction choice, with recursion on split paths and stashing when the budget is used up; the layout follows the relation of MinimalMoves with exactly the visits given: a path is stashed when none is left, and never while its bucket has a place; the counter stays exact; it terminates |
| MinimalMoves.PlaceSparesStash | c/include/filter/minimal-taffy-cuckoo.h:183-230 | With a visit left and a place in its bucket, a path leaves both stashes as they are |
| MinimalMoves.AddsGeometry | c/include/filter/minimal-taffy-cuckoo.h:169-181 | Adding moves a crowded filter on and leaves any other where it is |
| MinimalTaffyCuckoo.Filter.GiveUp | c/include/filter/minimal-taffy-cuckoo.h:192-202 | Out of turns, the path in flight goes to the stash of the side it is on, and the target keys are reached |
| MinimalTaffyCuckoo.Filter.Turn | c/include/filter/minimal-taffy-cuckoo.h:201-227 | One turn keeps "stock and path in flight together stand for the target keys", on the other side for the evicted path |
| MinimalTaffyCuckoo.Filter.Translate | c/include/filter/minimal-taffy-cuckoo.h:216-228 | Sending an evicted path across, and inserting at once the second one if it is split, keeps the path in flight and the stock standing for the target keys |
| MinimalTaffyCuckoo.Side.Insert | c/include/filter/minimal-taffy-cuckoo.h:107-114 | Stock after and returned path are stock before and new path; a path handed back unchanged was covered already; the inserted path is found afterwards, as the source asserts |
| MinimalTaffyCuckoo.Filter.StashOnSide | c/include/filter/minimal-taffy-cuckoo.h:192-201 | Stashing adds exactly the path's prefix and counts it |
| MinimalTaffyCuckoo.Filter.FindHash | c/include/filter/minimal-taffy-cuckoo.h:144-161 | The answer is yes iff the key extends a stored prefix, and iff it extends an added one |
| MinimalTaffyCuckoo.Filter.FindOnSide | c/include/filter/minimal-taffy-cuckoo.h:146-158 | The short and the long probe of a side together find exactly the keys of its stock |
| MinimalTaffyCuckoo.Side.Find | c/include/filter/minimal-taffy-cuckoo.h:89-102 | Whether stash or bucket holds an entry of the same place whose tail is a prefix of the wanted one |
| MinimalContents.ProbesExact | c/include/filter/minimal-taffy-cuckoo.h:144-161 | One of the two probes hits iff a stored prefix covers the key |
| MinimalTaffyCuckoo.Filter.AddHash | c/include/filter/minimal-taffy-cuckoo.h:169-181 | Adds to the history exactly the first log size + 19 bits of the key; fails only when more room is needed and no larger filter fits 64-bit keys, and then changes no answer; does not grow without need; after success fewer than (32 + cursor) * 2^54 of the 2^64 keys are accepted; levels are doubled only in crowded layouts, and the path goes into one that is not |
| MinimalTaffyCuckoo.Filter.MakeRoom | c/include/filter/minimal-taffy-cuckoo.h:171-175 | After upsizing the load test is false, and no answer has changed; nothing at all is changed if it was false before |
| MinimalTaffyCuckoo.Filter.LoadTest | c/include/filter/minimal-taffy-cuckoo.h:171-173 | The test by counter, size and cursor is the one by what is in use, what is allocated and what is stashed: over nine tenths, all but four, or more than eight in the stashes |
| MinimalTaffyCuckoo.Filter.CapacityIsAllocated | c/include/filter/minimal-taffy-cuckoo.h:131-136 | Capacity is two more than the number of slots allocated in both sides' 32 tables, at every cursor |
| MinimalTaffyCuckoo.Filter.OccupiedIsUsed | c/lib/minimal-taffy-cuckoo.c:104-194 | The counter is the number of slots in use and stash entries of both sides, in every valid state |
| MinimalTaffyCuckoo.Filter.AcceptedBound | c/include/filter/minimal-taffy-cuckoo.h:144-161 | At most occupied * 2^(51 - log size) of the 2^64 keys are accepted, whatever the cursor |
| MinimalTaffyCuckoo.Filter.constructor | c/lib/minimal-taffy-cuckoo.c:62-73 | A new filter is valid and has an empty history, and is the empty layout for its 24 entropy words |
| MinimalTaffyCuckoo.Side.constructor | c/lib/minimal-taffy-cuckoo.c:28-41 | A side takes its two permutations from the entropy words 0 to 3 and 6 to 9 and stores nothing |
| MinimalPaths.RePathExact | c/include/filter/paths.h:213-343 | Between equal sizes, which is how both functions are called, translating a path to the other side, or to the next cursor, keeps its prefix, also when a bit is stolen from the tail; when it is split, the two new prefixes are the halves of the old one, the one ending in 0 being the extra path |
| MinimalResizing.RePathKeepsIff | c/include/filter/paths.h:280-343 | For all pairs of sizes, what comes out stands for the keys of the path that went in if and only if the sizes are equal, or the size grows by one and a long fingerprint lands on a level not doubled yet, or the size shrinks by one and the key is short and without tail |
| MinimalResizing.GrowingFails | c/include/filter/paths.h:280-302 | For one, a path on a doubled level loses its meaning when the size grows by one |
| MinimalResizing.DifferentWidths | c/include/filter/paths.h:280-343 | Prefixes of different widths never cover the same keys |
| MinimalPaths.PathRoundTrip | c/include/filter/paths.h:84-163 | A key that begins with the bits a path un-permutes to has that path again, level, bucket, fingerprint and length flag, for every cursor, size and length |
| MinimalPaths.ToPathHead | c/include/filter/paths.h:106-146 | A key's path is empty iff the key is taken short and lands before the cursor; otherwise it is valid and un-permutes to the key's first bits |
| MinimalPaths.PathKey | c/include/filter/paths.h:148-163 | The un-permuted bits of a path end up in the high bits of the word |
| MinimalPaths.ProbeExact | c/include/filter/paths.h:106-146 | The probe of a stored path's own kind meets it iff the path's prefix covers the key; the other probe never does |
| MinimalContents.KeyPathPrefix | c/include/filter/minimal-taffy-cuckoo.h:176-179 | The path that an add inserts stands for exactly the first log size + 19 bits |
| Buckets.InsertInBucket | c/include/filter/minimal-taffy-cuckoo.h:27-59 | The first hole is filled, or the first covering slot ends the scan, or one of four slots is exchanged for the new one |
| Buckets.FindInBucket | c/include/filter/minimal-taffy-cuckoo.h:61-75 | Yes iff a slot of the bucket is in use, has the same rest and a tail that is a prefix of the wanted tail |
| Buckets.InsertConserves | c/include/filter/taffy-cuckoo.h:166-202 | Table after and returned slot hold the same multiset of prefixes as table before and new slot |
| Buckets.InsertReturnsSame | c/include/filter/taffy-cuckoo.h:163-202 | The slot itself comes back only if the table is unchanged and covered its keys already: an evicted slot is never mistaken for it |
| Buckets.EvictsIffFull | c/include/filter/taffy-cuckoo.h:163-202 | A slot is evicted iff none of the four is empty or covers the new one |
| Buckets.InsertCovers | c/include/filter/minimal-taffy-cuckoo.h:107-114 | After an insertion the bucket holds a slot that matches the new one |
| TaffyCuckoo.Filter.FindHash | c/include/filter/taffy-cuckoo.h:297-311 | The answer is yes iff the key extends a stored prefix, and iff it extends an added one |
| TaffyCuckoo.Side.Find | c/include/filter/taffy-cuckoo.h:204-223 | Whether stash or bucket holds an entry of the same place whose tail is a prefix of the wanted one |
| TaffyContents.SideFindsExactly | c/include/filter/taffy-cuckoo.h:204-223 | A side's search by a key's path hits iff a stored prefix covers the key |
| TaffyCuckoo.Filter.InsertSidePathTtl | c/include/filter/taffy-cuckoo.h:317-375 | Inserting makes the accepted keys the old ones together with those of the path, for every eviction choice; the layout follows the relation of TaffyMoves; false is returned iff one more path is stashed, and that is after exactly budget + 1 evictions, each from a bucket without a place; at most one more place is in use; it terminates |
| TaffyMoves.StashedWhenSpent | c/include/filter/taffy-cuckoo.h:333-372 | An insertion fails after exactly one eviction more than there are moves, succeeds after at most as many as there are moves, and evicts nothing iff the first bucket has a place |
| TaffyMoves.InsertsCount | c/include/filter/taffy-cuckoo.h:333-372 | Whatever the choices, an insertion takes up at most one more place, and one more in the stash iff it fails |
| TaffyCuckoo.Filter.Turn | c/include/filter/taffy-cuckoo.h:333-372 | One turn keeps "stock and path in flight together stand for the target keys" |
| TaffyCuckoo.Side.Insert | c/include/filter/taffy-cuckoo.h:166-202 | Stock after and returned path are stock before and new path; a path handed back unchanged was covered already |
| TaffyCuckoo.Filter.Upsize | c/lib/taffy-cuckoo.c:239-258 | Doubling changes no answer, raises the log size by one and keeps the counter exact; the new layout is what an empty one of twice the size becomes when all entries are inserted in order, with 32 moves each |
| TaffyCuckoo.Filter.UpsizeHelper | c/lib/taffy-cuckoo.c:205-237 | The keys that the larger filter gains from a slot are exactly those of the slot in the smaller one; an empty slot adds none |
| TaffyCuckoo.Filter.UpsizeSide | c/lib/taffy-cuckoo.c:243-253 | Stash and table of a side add exactly the side's keys to the larger filter |
| TaffyPaths.DoubledExact | c/lib/taffy-cuckoo.c:205-237 | A non-empty tail gives its first bit to the head and the prefix stays; an empty one yields the two half-prefixes, first the one ending in 0 |
| TaffyCuckoo.Filter.AddHash | c/include/filter/taffy-cuckoo.h:390-400 | Adds to the history exactly the first log size + 15 bits of the key, and then fewer than 2^57 of the 2^64 keys are accepted; fails only at the largest size; does not grow without need; the filter is doubled while it is crowded and no longer, and then the path is inserted |
| TaffyCuckoo.Filter.LoadTest | c/include/filter/taffy-cuckoo.h:392-394 | The test by counter and size is the one by what is in use and what is allocated: over nine tenths, all but four, or more than eight in the stashes |
| TaffyMoves.AddsSize | c/include/filter/taffy-cuckoo.h:390-400 | Adding grows a crowded filter and no other |
| TaffyCuckoo.Filter.AcceptedBound | c/include/filter/taffy-cuckoo.h:204-223 | At most occupied * 2^(54 - log size) of the 2^64 keys are accepted |
| TaffyCuckoo.Filter.FewAccepted | c/include/filter/taffy-cuckoo.h:313-315 | With a free place left fewer than 2^57 keys are accepted, a fraction of 2^-7 |
| TaffyCuckoo.Filter.OccupiedIsUsed | c/lib/taffy-cuckoo.c:169-181 | The counter is the number of slots in use and stash entries, what the source's disabled check counts |
| Counting.KeysBound | c/include/filter/taffy-cuckoo.h:204-223 | A stock of n prefixes of at least w bits accepts at most n * 2^(64 - w) keys |
| TaffyCuckoo.Union | c/lib/taffy-cuckoo.c:336-348 | The result accepts a key iff one of the inputs does; the result is the fuller filter, or the second one if none is, with all entries of the other inserted in order; the inputs are not changed |
| TaffyCuckoo.Filter.UnionOne | c/lib/taffy-cuckoo.c:315-334 | Adding a filter of at most this size adds exactly its keys, whatever the counter's state |
| TaffyCuckoo.Filter.UnionHelp | c/lib/taffy-cuckoo.c:260-313 | One entry adds exactly its keys, in each of the three cases: equal size, long enough tail, too short tail |
| TaffyCuckoo.Filter.UnionExtend | c/lib/taffy-cuckoo.c:284-312 | Inserting all completions of a short tail adds exactly the keys of the short prefix |
| TaffyPaths.AcrossExact | c/include/filter/taffy-cuckoo.h:366-372 | Moving a path to another permutation of the same size keeps its prefix |
| TaffyPaths.EnlargedExact | c/lib/taffy-cuckoo.c:274-283 | A tail long enough for the larger filter is shifted into the head and the prefix stays |
| TaffyPaths.ExtendedExact | c/lib/taffy-cuckoo.c:284-312 | The i-th completion stands for the prefix with i appended in the missing bits |
| TaffyPaths.JoinedKeyIsPrefix | c/lib/taffy-cuckoo.c:275-279 | Dropping the tail's marker and joining what is left to the head gives the prefix's bits, at the top of the word |
| TaffyPaths.TailIsDisjoint | c/lib/taffy-cuckoo.c:275-292 | The tail put in place has no bit in common with the un-permuted head, as two of the assertions say |
| TaffyPaths.ExtensionIsDisjoint | c/lib/taffy-cuckoo.c:299-306 | Nor have the bits of a completion with head and tail together, as the third assertion says |
| Prefixes.ExtensionsCover | c/lib/taffy-cuckoo.c:299-311 | The 2^m extensions of a prefix by m bits cover exactly its keys |
| TaffyCuckoo.CopiedFilterCanBeSmaller | c/lib/taffy-cuckoo.c:315-348 | Two valid filters for which union copies the smaller one, so that the assertion at line 317 fails |
| TaffyCuckoo.Filter.Clone | c/lib/taffy-cuckoo.c:74-97 | A copy of the same contents that shares nothing with the original |
| TaffyCuckoo.Filter.constructor | c/lib/taffy-cuckoo.c:64-72 | A new filter is valid, stores nothing and has an empty history |
| TaffyPaths.PathRoundTrip | c/include/filter/taffy-cuckoo.h:106-142 | A key that begins with the bits a path un-permutes to has that path again, up to the tail |
| TaffyPaths.ToPathHead | c/include/filter/taffy-cuckoo.h:106-127 | A key's path is valid and un-permutes to the key's first log size + 10 bits, with the next five as tail |
| TaffyPaths.ProbeExact | c/include/filter/taffy-cuckoo.h:204-223 | A key's path meets a stored path iff the stored prefix covers the key |
| TaffyPaths.KeyPathPrefix | c/include/filter/taffy-cuckoo.h:397-398 | The path that an add inserts stands for exactly the first log size + 15 bits |
| Prefixes.EntryCovers | c/include/filter/util.h:155-180 | An entry covers a key iff the key begins with its head and its tail is a prefix of the next five bits, by the word-level test |
| Prefixes.StealBit | c/include/filter/paths.h:250-262 | Moving the tail's first bit to the head leaves the prefix as it is |
| Prefixes.StealBits | c/lib/taffy-cuckoo.c:274-283 | The same for several bits at once |
| Prefixes.SplitEntry | c/lib/taffy-cuckoo.c:216-227 | A prefix without tail bits covers the union of its two one-bit extensions |
| Tails.PrefixMeaning | c/include/filter/util.h:155-180 | The word-level test holds iff the encoded sequence of the one is a prefix of that of the other |
| Tails.PairMeaning | c/include/filter/util.h:205-224 | The pair is non-zero iff the sequences differ in their last bit only, and then encodes what they have in common |
| Tails.PairCovers | c/include/filter/util.h:205-224 | A non-zero pair's sequence extends to exactly what one of the two sequences extends to |
| Feistels.BackwardUndoesForward | c/include/filter/util.h:47-89 | The backward permutation undoes the forward one on w-bit words, for every w below 64 and all keys, with 64-bit wrap-around in the rounds |
| Feistels.ForwardUndoesBackward | c/include/filter/util.h:47-89 | And the other way round, so both are bijections |
| Feistels.ForwardInjective | c/include/filter/util.h:47-69 | Equal images come from equal words |
| Feistels.ForwardIs | c/include/filter/util.h:15-69 | The permuted word in plain arithmetic, for every width: the low half is mixed with the high bits of high half times first key word plus second, modulo 2^w, and the high half with those of the new low half times third plus fourth |
| FrozenTaffyCuckoo.Frozen.FindHash | java/libfilter/src/main/java/com/github/jbapple/libfilter/FrozenTaffyCuckooFilter.java:85-101 | A key is accepted iff on one side its fingerprint is 0 or some slot or stash entry has its bucket and fingerprint; everything the source filter accepts stays accepted |
| FrozenTaffyCuckoo.Frozen.constructor | java/libfilter/src/main/java/com/github/jbapple/libfilter/FrozenTaffyCuckooFilter.java:38-47 | The frozen filter is about the tables, stashes, permutations and stock of the filter it is made from, and its bytes are its own |
| FrozenTaffyCuckoo.FromSide | java/libfilter/src/main/java/com/github/jbapple/libfilter/FrozenTaffyCuckooFilter.java:14-36 | Every bucket's five bytes are the packed fingerprints of its four slots |
| FrozenTaffyCuckoo.PackRoundTrip | java/libfilter/src/main/java/com/github/jbapple/libfilter/FrozenTaffyCuckooFilter.java:16-24 | Four ten-bit fingerprints packed into five bytes are read back unchanged by the expressions of lines 64 to 75 |
| FrozenTaffyCuckoo.FingerprintFound | java/libfilter/src/main/java/com/github/jbapple/libfilter/FrozenTaffyCuckooFilter.java:49-76 | The search in five bytes succeeds iff one of the bucket's four slots has the fingerprint |
| FrozenTaffyCuckoo.FrozenKeeps | java/libfilter/src/main/java/com/github/jbapple/libfilter/FrozenTaffyCuckooFilter.java:85-101 | What a side's stock accepts its frozen form accepts |
| FrozenTaffyCuckoo.FrozenExact | java/libfilter/src/main/java/com/github/jbapple/libfilter/FrozenTaffyCuckooFilter.java:85-101 | A frozen side accepts exactly the keys of the stock that has every slot and stash entry without its tail, and fingerprint 0 in every bucket |
| FrozenTaffyCuckoo.Frozen.AcceptedBound | java/libfilter/src/main/java/com/github/jbapple/libfilter/FrozenTaffyCuckooFilter.java:85-101 | At most (10 * 2^log + stash entries) * 2^(54 - log) of the 2^64 keys are accepted |
| Swar.HasZeroExact | c/include/filter/taffy-cuckoo.h:247-249 | The word is non-zero iff one of the four ten-bit lanes is zero, for every 64-bit word and although borrows cross lanes |
| Swar.HasValueExact | c/include/filter/taffy-cuckoo.h:250-252 | The word is non-zero iff one of the four lanes equals the value |
| Swar.BucketSearch | c/include/filter/taffy-cuckoo.h:254-273 | On a packed bucket the search answers whether one of the four fields equals the fingerprint |
| Peeling.Peel | c/lib/peel.h:73-106 | For any hypergraph, without edges too, the result is the number of vertices that no 2-core touches, and the queue is the breadth-first one, vertices in order; all vertices are peeled iff no non-empty set of edges is a 2-core; if so and there are edges, the queue is an order in which all of them can be solved; no vertex is left with one edge; the queue never overruns |
| Peeling.PeelOnce | c/lib/peel.h:51-71 | Counts and xors are those of the graph without the edge; at most two vertices are queued, each seen for the first time, in the order of the edge |
| Peeling.PopulatePeelNodes | c/lib/peel.h:34-43 | Every vertex gets the number of its edges and the xor of their numbers |
| Peeling.OrderExcludesTwoCore | c/lib/peel.h:75-106 | A graph with a peel order has no 2-core |
| Peeling.QueueDone | c/lib/peel.h:87-105 | When the queue is used up it is a peel order if full, and else the remaining edges are a 2-core |
| Peeling.QueueFits | c/lib/peel.h:73-98 | The queue has at most one entry per vertex, and is full iff it has all |
| Peeling.QueueStep | c/lib/peel.h:58-68 | Dropping one edge at one vertex keeps the queue's invariant, with the vertex queued iff one edge is left |
| Peeling.DegreeOne | c/lib/peel.h:53-56 | A vertex with one edge left holds that edge's number in its xor |
| Peeling.PeeledHere | c/lib/peel.h:87-98 | The edge at the head of the queue touches no vertex that was queued before |
| Peeling.Unpeel | c/lib/peel.h:108-119 | From an all-zero table every edge's equation holds afterwards; every cell is zero before it is written, and ends as the xor of its entry's fingerprint and of those cells of the entry's edge that come later in the queue; all others stay zero |
| Peeling.SettledUnique | c/lib/peel.h:108-119 | Edges and order determine the table |
| Peeling.CoreRemains | c/lib/peel.h:87-98 | No edge of any 2-core is ever peeled |
| Peeling.QueueIsCoreless | c/lib/peel.h:87-105 | When the queue is used up its length is the number of vertices that no 2-core touches |
| Peeling.UnpeelStep | c/lib/peel.h:108-119 | Any entry, of an edge peeled there, peeled elsewhere, or of a vertex without edges, keeps the equations solved so far |
| Peeling.FindEdge | c/include/filter/static.h:62-68 | Yes iff the edge's three cells xor to its fingerprint |
| StaticFilters.Attempt | c/lib/static.c:12-76 | An attempt fails iff the hashes' edges have a 2-core; otherwise every hash is found in the result, and the table is the only one that solving the edges in the order of peeling leads to |
| StaticFilters.AttemptFails | c/lib/static.c:57-72 | Two equal hashes make the attempt fail at every size; at a size not above the window any two hashes do |
| StaticFilters.WholeWindow | c/include/filter/static.h:37-59 | In a table not larger than the window all hashes have the same edge and fingerprint 0 |
| StaticFilters.EdgeOfValid | c/include/filter/static.h:37-59 | Three different vertices below m, within one window of consecutive positions, for every hash and every m from 3 on |
| StaticFilters.DrawSpread | c/include/filter/static.h:43-56 | Every draw is different from those before it and lies in the window |
| StaticFilters.FindFree | c/include/filter/static.h:46-49 | The probing loop ends after at most two steps at the first free position, going round the window |
| StaticFilters.MakeEdge | c/include/filter/static.h:37-59 | Window start, the three draws and the fingerprint are the mixed-radix digits of the hash, scaled as a fraction of 2^64; each vertex is the first free position of the window from its draw on; the vertices are different and below m |
| StaticFilters.EdgeDigits | c/include/filter/static.h:38-57 | hash * (m - w) * w * w * w * 256 / 2^64, w being the window, is (((start * w + d0) * w + d1) * w + d2) * 256 + fingerprint, with all draws below w |
| StaticFilters.FirstFreeIsFirst | c/include/filter/static.h:46-49 | The position found is the first one, going round from the draw, that is not used yet |
| StaticFilters.StaticFilter.FindHash | c/include/filter/static.h:70-75 | Yes iff the three cells of the edge that the hash's digits give xor to the fingerprint they give |
| StaticFilters.InitEdges | c/lib/peel.h:14-19 | One edge per hash, in order |

## Left out

- MinimalTaffyCuckoo.Filter.AddHash: returns false where the source would double past 64 key bits (log size 45, all levels doubled), because no path exists there; the source has no such check.
- TaffyCuckoo.Filter.AddHash: the same at log size 49.
- MinimalResizing.RePathKeepsIff: one function models `re_path_upsize` and `re_path`. Where `to_path` returns early and leaves bucket and fingerprint unset, they are 0 here; the condition does not depend on them.
- TaffyCuckoo.Union: requires the assertion at c/lib/taffy-cuckoo.c:317 of its caller; the choice of the copied filter by `occupied` does not ensure it, as CopiedFilterCanBeSmaller shows.
- StaticFilters.Attempt: one attempt for a given table size; sizing by logarithms and by what the allocator returns, and the retry loop, are not modelled. The loop need not end: with two equal hashes no size succeeds (AttemptFails); the exact condition, size by size, is the 2-core of Attempt. Without hashes only a table of size 0 is modelled: with a larger one, which an allocator that aligns by hand may return, unpeel reads an edge that does not exist.
- StaticFilters.MakeEdge: the truncated power of m in the window is a parameter, any natural number, instead of floating point.
- StaticFilters.StaticFilter.FindHash: tables of fewer than three cells are excluded; the source's lookup reads outside such a table.
- MinimalTaffyCuckoo.Filter.MakeRoom: 0.9 is taken exactly, the source uses a double; in TaffyCuckoo too.
- Buckets.InsertInBucket: the evicted slot is an arbitrary one of the four; the generator in c/include/filter/util.h is not modelled, nor is its state copied by Clone.
- Swar.BucketSearch: only the bucket search of the C frozen filter. Its freezing with non-empty stashes is left out: it stores un-permuted prefixes that the lookup compares with permuted ones, and copies a number of entries as a number of bytes when a stash grows.
- Machine limits on sizes: `1u <<` as a loop bound, promotion of bit-fields to `int` before shifts, and 64-bit counters are not modelled. Field widths, 64-bit shifts and 64-bit wrap-around in hashing are.
- Allocation, freeing, memory mapping and stash capacities: a stash is a sequence.
- The Java taffy and xor filters, apart from the frozen form: slots packed into shorts, a stash list shared by clones, hashes of 32 bits.
- The block and taffy-block filters: they would only add easy members.
- The taffy vector quotient filter, false positive estimates, sizing by bytes, wrappers for other languages, benchmarks.
