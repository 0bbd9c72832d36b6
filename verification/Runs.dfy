/** Whole runs of the two growing filters, from empty. */
module Runs {
  import opened Bits
  import opened Prefixes
  import opened Feistels
  import TaffyCuckoo
  import TaffyMoves
  import MinimalTaffyCuckoo
  import MinimalMoves

  datatype Op = Add(key: Word) | Grow

  /** The prefixes that a run has added: of each added key as many bits as the filter took. */
  ghost function Added(ops: seq<Op>, widths: seq<nat>): multiset<Prefix>
    requires |widths| == |ops|
    requires forall i :: 0 <= i < |widths| ==> widths[i] <= 64
  {
    if ops == [] then multiset{} else
      var n := |ops| - 1;
      Added(ops[..n], widths[..n]) +
      if ops[n].Add? then multiset{Prefix(widths[n], Top(widths[n], ops[n].key))} else multiset{}
  }

  /** k agrees with a key added by the run in as many bits as the filter took of that key. */
  ghost predicate Agrees(ops: seq<Op>, widths: seq<nat>, k: nat)
    requires |widths| == |ops|
    requires forall i :: 0 <= i < |widths| ==> widths[i] <= 64
  {
    exists i :: 0 <= i < |ops| && ops[i].Add? && Top(widths[i], k) == Top(widths[i], ops[i].key)
  }

  lemma {:induction false} AddedAgrees(ops: seq<Op>, widths: seq<nat>, k: nat)
    requires |widths| == |ops|
    requires forall i :: 0 <= i < |widths| ==> widths[i] <= 64
    ensures Accepts(Added(ops, widths), k) <==> Agrees(ops, widths, k)
  {
    hide Top;
    if ops == [] {
    } else {
      var n := |ops| - 1;
      AddedAgrees(ops[..n], widths[..n], k);
      AgreesStep(ops, widths, k);
      if ops[n].Add? {
        AcceptsOneMore(Added(ops[..n], widths[..n]), Prefix(widths[n], Top(widths[n], ops[n].key)), k);
      }
    }
  }

  lemma AcceptsOneMore(m: multiset<Prefix>, pr: Prefix, k: nat)
    ensures Accepts(m + multiset{pr}, k) <==> Accepts(m, k) || Covers(pr, k)
  {
    hide Covers;
    if Covers(pr, k) {
      assert pr in m + multiset{pr};
    }
    if Accepts(m, k) {
      var q :| q in m && Covers(q, k);
      assert q in m + multiset{pr};
    }
  }

  lemma AgreesStep(ops: seq<Op>, widths: seq<nat>, k: nat)
    requires |widths| == |ops| > 0
    requires forall i :: 0 <= i < |widths| ==> widths[i] <= 64
    ensures var n := |ops| - 1;
            Agrees(ops, widths, k) <==>
            Agrees(ops[..n], widths[..n], k) || (ops[n].Add? && Top(widths[n], k) == Top(widths[n], ops[n].key))
  {
    hide Top;
    var n := |ops| - 1;
    if Agrees(ops[..n], widths[..n], k) {
      var i :| 0 <= i < n && ops[..n][i].Add? && Top(widths[..n][i], k) == Top(widths[..n][i], ops[..n][i].key);
      assert ops[i].Add? && Top(widths[i], k) == Top(widths[i], ops[i].key);
    }
    if Agrees(ops, widths, k) {
      var i :| 0 <= i < |ops| && ops[i].Add? && Top(widths[i], k) == Top(widths[i], ops[i].key);
      if i < n {
        assert ops[..n][i].Add? && Top(widths[..n][i], k) == Top(widths[..n][i], ops[..n][i].key);
      }
    }
  }

  lemma AddedPush(ops: seq<Op>, widths: seq<nat>, i: nat, w: nat)
    requires i < |ops| && |widths| == i && w <= 64
    requires forall j :: 0 <= j < |widths| ==> widths[j] <= 64
    ensures Added(ops[..i + 1], widths + [w]) ==
            Added(ops[..i], widths) +
            if ops[i].Add? then multiset{Prefix(w, Top(w, ops[i].key))} else multiset{}
  {
    hide Top;
    assert ops[..i + 1][..i] == ops[..i] && (widths + [w])[..i] == widths;
  }

  /** k is accepted iff it agrees with a key that the run has added. */
  ghost predicate Explained(ops: seq<Op>, widths: seq<nat>, stock: multiset<Prefix>)
    requires |widths| == |ops|
    requires forall i :: 0 <= i < |widths| ==> widths[i] <= 64
  {
    forall k: Word :: k in Keys(stock) <==> Agrees(ops, widths, k)
  }

  lemma RunExplained(ops: seq<Op>, widths: seq<nat>, stock: multiset<Prefix>)
    requires |widths| == |ops|
    requires forall i :: 0 <= i < |widths| ==> widths[i] <= 64
    requires Keys(stock) == Keys(Added(ops, widths))
    ensures Explained(ops, widths, stock)
  {
    hide Covers, Agrees, Added;
    forall k: Word
      ensures k in Keys(stock) <==> Agrees(ops, widths, k)
    {
      AddedAgrees(ops, widths, k);
      assert k in Keys(Added(ops, widths)) <==> Accepts(Added(ops, widths), k);
    }
  }

  // ---------- the taffy cuckoo filter ----------

  /** Growing doubles the layout. Adding doubles it while it is crowded and no longer, and then
  inserts the key's path. */
  ghost predicate TaffyStep(op: Op, l: TaffyMoves.Layout, l': TaffyMoves.Layout) {
    match op
    case Add(k) => TaffyMoves.Adds(l, k, l')
    case Grow => TaffyMoves.Upsized(l, l')
  }

  /** A crowded layout grows in every step, one that is not in a growing step only, and then an
  addition takes up at most one more place. */
  lemma TaffyStepSize(op: Op, l: TaffyMoves.Layout, l': TaffyMoves.Layout)
    requires TaffyStep(op, l, l')
    ensures op.Grow? ==> l'.log == l.log + 1
    ensures op.Add? ==> if TaffyMoves.Crowded(l) then l'.log > l.log else l'.log == l.log
    ensures op.Add? && !TaffyMoves.Crowded(l) ==>
              && TaffyMoves.InUse(l) <= TaffyMoves.InUse(l') <= TaffyMoves.InUse(l) + 1
              && TaffyMoves.InStash(l) <= TaffyMoves.InStash(l') <= TaffyMoves.InStash(l) + 1
  {
    hide TaffyMoves.Adds, TaffyMoves.Upsized, TaffyMoves.Crowded, TaffyMoves.InUse, TaffyMoves.InStash;
    match op
    case Add(k) => TaffyMoves.AddsSize(l, k, l');
    case Grow => TaffyMoves.UpsizedSize(l, l');
  }

  /** The layouts before, between and after the operations of a run from empty. */
  ghost predicate TaffyTrace(ops: seq<Op>, layouts: seq<TaffyMoves.Layout>, first: TaffyMoves.Layout) {
    && |layouts| == |ops| + 1 && layouts[0] == first
    && (forall i, j :: 0 <= i <= j < |layouts| ==> layouts[i].log <= layouts[j].log)
    && (forall i :: 0 <= i < |ops| ==> TaffyStep(ops[i], layouts[i], layouts[i + 1]))
  }

  /** Of the i-th key, as many bits are taken as the size reached for it, and 15. */
  ghost predicate TaffyWidths(widths: seq<nat>, layouts: seq<TaffyMoves.Layout>) {
    |layouts| == |widths| + 1 && forall i :: 0 <= i < |widths| ==> widths[i] == layouts[i + 1].log + 15
  }

  lemma TaffyPush(ops: seq<Op>, layouts: seq<TaffyMoves.Layout>, first: TaffyMoves.Layout, i: nat,
                  next: TaffyMoves.Layout)
    requires i < |ops| && TaffyTrace(ops[..i], layouts, first) && TaffyStep(ops[i], layouts[i], next)
    ensures TaffyTrace(ops[..i + 1], layouts + [next], first)
  {
    hide TaffyStep, TaffyMoves.Crowded, TaffyMoves.InUse, TaffyMoves.InStash;
    TaffyStepSize(ops[i], layouts[i], next);
  }

  lemma TaffyStart(first: TaffyMoves.Layout)
    ensures TaffyTrace([], [first], first) && TaffyWidths([], [first])
  {
  }

  lemma TaffyWidthsPush(widths: seq<nat>, layouts: seq<TaffyMoves.Layout>, next: TaffyMoves.Layout)
    requires TaffyWidths(widths, layouts)
    ensures TaffyWidths(widths + [next.log + 15], layouts + [next])
  {
  }

  method StepTaffy(t: TaffyCuckoo.Filter, op: Op) returns (ok: bool)
    requires t.Valid()
    modifies t, t.side0, t.side1, t.side0.data, t.side1.data
    ensures t.Valid() && t.Regrown() && t.logSideSize >= old(t.logSideSize)
    ensures t.added == old(t.added) +
            if ok && op.Add? then multiset{Prefix(t.logSideSize + 15, Top(t.logSideSize + 15, op.key))} else multiset{}
    ensures ok ==> TaffyStep(op, old(t.Now()), t.Now())
    ensures !ok ==> t.logSideSize == 49
  {
    hide Top, Keys, Pow2, TaffyCuckoo.Filter.Valid, TaffyCuckoo.Filter.Stock, TaffyCuckoo.Filter.Now,
         TaffyCuckoo.Filter.NeedsRoom, TaffyMoves.Adds, TaffyMoves.Upsized, TaffyMoves.Crowded, TaffyMoves.Grows;
    if op.Add? {
      ok := t.AddHash(op.key);
    } else {
      ok := t.logSideSize < 49;
      if ok {
        t.Upsize();
      }
    }
  }

  function KeyOf(entropy: seq<Word>, i: nat): Feistel
    requires i + 4 <= |entropy|
  {
    Feistel(entropy[i], entropy[i + 1], entropy[i + 2], entropy[i + 3])
  }

  /** A run of the taffy cuckoo filter: a key is accepted iff it agrees with an added one in as
  many first bits as the log size reached when that key was added, and 15 more. The run stops
  early only when the filter cannot grow any more. */
  method RunTaffy(log: TaffyCuckoo.TaffyPaths.LogSize, entropy: seq<Word>, ops: seq<Op>)
    returns (t: TaffyCuckoo.Filter, done: nat, ghost widths: seq<nat>, ghost layouts: seq<TaffyMoves.Layout>)
    requires |entropy| == 8
    ensures t.Valid() && done <= |ops| && |widths| == done
    ensures TaffyTrace(ops[..done], layouts, TaffyMoves.Empty(KeyOf(entropy, 0), KeyOf(entropy, 4), log))
    ensures TaffyWidths(widths, layouts) && forall i :: 0 <= i < done ==> widths[i] <= 64
    ensures Explained(ops[..done], widths, t.Stock())
    ensures if done < |ops| then layouts[done].log <= t.logSideSize == 49 else layouts[done] == t.Now()
  {
    hide Top, Covers, Keys, Explained, TaffyCuckoo.Filter.Valid, TaffyCuckoo.Filter.Stock, TaffyCuckoo.Side.Now,
         Added, TaffyMoves.Empty, TaffyTrace, TaffyWidths, TaffyStep;
    t := new TaffyCuckoo.Filter(log, entropy);
    done := 0;
    widths := [];
    ghost var first := t.Now();
    layouts := [first];
    NothingAdded();
    TaffyStart(first);
    assert ops[..0] == [];
    while done < |ops|
      invariant done <= |ops| && |widths| == done && |layouts| == done + 1 && t.Valid()
      invariant fresh(t) && fresh(t.side0) && fresh(t.side1) && fresh(t.side0.data) && fresh(t.side1.data)
      invariant TaffyTrace(ops[..done], layouts, first) && TaffyWidths(widths, layouts)
      invariant layouts[done] == t.Now()
      invariant forall i :: 0 <= i < done ==> widths[i] <= 64
      invariant t.added == Added(ops[..done], widths)
    {
      var ok := StepTaffy(t, ops[done]);
      if !ok {
        assert t.added == Added(ops[..done], widths);
        break;
      }
      AddedPush(ops, widths, done, t.logSideSize + 15);
      TaffyPush(ops, layouts, first, done, t.Now());
      TaffyWidthsPush(widths, layouts, t.Now());
      widths := widths + [t.logSideSize + 15];
      layouts := layouts + [t.Now()];
      done := done + 1;
    }
    t.KeysAreAdded();
    RunExplained(ops[..done], widths, t.Stock());
  }

  lemma NothingAdded()
    ensures Added([], []) == multiset{}
  {
  }

  // ---------- the minimal taffy cuckoo filter ----------

  /** Growing doubles one level. Adding doubles levels while the layout is crowded and no longer,
  and then inserts the key's long path. */
  ghost predicate MinimalStep(op: Op, l: MinimalMoves.Layout, l': MinimalMoves.Layout) {
    match op
    case Add(k) => MinimalMoves.Adds(l, k, l')
    case Grow => MinimalMoves.Upsized(l, l')
  }

  /** s is at a smaller size than t, or at the same size and no later level. */
  predicate NotAfter(s: MinimalMoves.MinimalPaths.Geometry, t: MinimalMoves.MinimalPaths.Geometry) {
    s.low < t.low || (s.low == t.low && s.cursor <= t.cursor)
  }

  /** A crowded layout grows in every step, one that is not in a growing step only, by one level. */
  lemma MinimalStepSize(op: Op, l: MinimalMoves.Layout, l': MinimalMoves.Layout)
    requires MinimalStep(op, l, l')
    ensures op.Grow? ==> if l.geo0.cursor + 1 == 32 then l'.geo0.cursor == 0 && l'.geo0.low == l.geo0.low + 1
                         else l'.geo0.cursor == l.geo0.cursor + 1 && l'.geo0.low == l.geo0.low
    ensures op.Add? ==> if MinimalMoves.Crowded(l) then MinimalMoves.Before(l.geo0, l'.geo0) else l'.geo0 == l.geo0
    ensures NotAfter(l.geo0, l'.geo0)
  {
    hide MinimalMoves.Adds, MinimalMoves.Upsized, MinimalMoves.Crowded;
    match op
    case Add(k) => MinimalMoves.AddsGeometry(l, k, l');
    case Grow => MinimalMoves.UpsizedGeometry(l, l');
  }

  ghost predicate MinimalTrace(ops: seq<Op>, layouts: seq<MinimalMoves.Layout>, first: MinimalMoves.Layout) {
    && |layouts| == |ops| + 1 && layouts[0] == first
    && (forall i, j :: 0 <= i <= j < |layouts| ==> NotAfter(layouts[i].geo0, layouts[j].geo0))
    && (forall i :: 0 <= i < |ops| ==> MinimalStep(ops[i], layouts[i], layouts[i + 1]))
  }

  /** Of the i-th key, as many bits are taken as the size reached for it, and 19. */
  ghost predicate MinimalWidths(widths: seq<nat>, layouts: seq<MinimalMoves.Layout>) {
    |layouts| == |widths| + 1 && forall i :: 0 <= i < |widths| ==> widths[i] == layouts[i + 1].geo0.low + 19
  }

  lemma MinimalPush(ops: seq<Op>, layouts: seq<MinimalMoves.Layout>, first: MinimalMoves.Layout, i: nat,
                    next: MinimalMoves.Layout)
    requires i < |ops| && MinimalTrace(ops[..i], layouts, first) && MinimalStep(ops[i], layouts[i], next)
    ensures MinimalTrace(ops[..i + 1], layouts + [next], first)
  {
    hide MinimalStep, MinimalMoves.Crowded;
    MinimalStepSize(ops[i], layouts[i], next);
  }

  lemma MinimalStart(first: MinimalMoves.Layout)
    ensures MinimalTrace([], [first], first) && MinimalWidths([], [first])
  {
  }

  lemma MinimalWidthsPush(widths: seq<nat>, layouts: seq<MinimalMoves.Layout>, next: MinimalMoves.Layout)
    requires MinimalWidths(widths, layouts)
    ensures MinimalWidths(widths + [next.geo0.low + 19], layouts + [next])
  {
  }

  method StepMinimal(t: MinimalTaffyCuckoo.Filter, op: Op) returns (ok: bool)
    requires t.Valid()
    modifies t, t.side0, t.side1, t.side0.levels, t.side1.levels
    ensures t.Valid() && t.side0.Regrown() && t.side1.Regrown()
    ensures NotAfter(old(t.Geo(0)), t.Geo(0))
    ensures t.added == old(t.added) +
            if ok && op.Add? then multiset{Prefix(t.logSideSize + 19, Top(t.logSideSize + 19, op.key))} else multiset{}
    ensures ok ==> MinimalStep(op, old(t.Now()), t.Now())
    ensures !ok ==> !t.CanGrow()
  {
    hide Top, Keys, Up, Pow2, MinimalTaffyCuckoo.Filter.Valid, MinimalTaffyCuckoo.Filter.Stock,
         MinimalTaffyCuckoo.Filter.Now, MinimalTaffyCuckoo.Filter.NeedsRoom, MinimalTaffyCuckoo.Filter.CanGrow,
         MinimalMoves.Adds, MinimalMoves.Upsized, MinimalMoves.Crowded, MinimalMoves.Grows,
         MinimalTaffyCuckoo.MinimalUnstash.Calm;
    if op.Add? {
      ok := t.AddHash(op.key);
    } else {
      ok := t.CanGrow();
      if ok {
        t.Upsize();
      }
    }
  }

  /** A run of the minimal filter: the same, with 19 more bits than the log size that was reached
  when the key was added. */
  method RunMinimal(log: MinimalTaffyCuckoo.MinimalPaths.LogSize, entropy: seq<Word>, ops: seq<Op>)
    returns (t: MinimalTaffyCuckoo.Filter, done: nat, ghost widths: seq<nat>, ghost layouts: seq<MinimalMoves.Layout>)
    requires |entropy| == 24
    ensures t.Valid() && done <= |ops| && |widths| == done
    ensures MinimalTrace(ops[..done], layouts, MinimalMoves.Empty(KeyOf(entropy, 6), KeyOf(entropy, 0),
                                                                  KeyOf(entropy, 18), KeyOf(entropy, 12), log))
    ensures MinimalWidths(widths, layouts) && forall i :: 0 <= i < done ==> widths[i] <= 64
    ensures Explained(ops[..done], widths, t.Stock())
    ensures NotAfter(layouts[done].geo0, t.Geo(0))
    ensures if done < |ops| then !t.CanGrow() else layouts[done] == t.Now()
  {
    hide Top, Covers, Keys, Explained, MinimalTaffyCuckoo.Filter.Valid, MinimalTaffyCuckoo.Filter.Stock,
         MinimalTaffyCuckoo.Side.Now, MinimalTaffyCuckoo.Filter.CanGrow, Added, MinimalMoves.Empty,
         MinimalTrace, MinimalWidths, MinimalStep;
    t := new MinimalTaffyCuckoo.Filter(log, entropy);
    done := 0;
    widths := [];
    ghost var first := t.Now();
    layouts := [first];
    NothingAdded();
    MinimalStart(first);
    assert ops[..0] == [];
    while done < |ops|
      invariant done <= |ops| && |widths| == done && |layouts| == done + 1 && t.Valid()
      invariant fresh(t) && fresh(t.side0) && fresh(t.side1)
      invariant forall l :: 0 <= l < |t.side0.levels| ==> fresh(t.side0.levels[l])
      invariant forall l :: 0 <= l < |t.side1.levels| ==> fresh(t.side1.levels[l])
      invariant MinimalTrace(ops[..done], layouts, first) && MinimalWidths(widths, layouts)
      invariant layouts[done] == t.Now()
      invariant forall i :: 0 <= i < done ==> widths[i] <= 64
      invariant t.added == Added(ops[..done], widths)
    {
      var ok := StepMinimal(t, ops[done]);
      if !ok {
        assert t.added == Added(ops[..done], widths);
        break;
      }
      AddedPush(ops, widths, done, t.logSideSize + 19);
      MinimalPush(ops, layouts, first, done, t.Now());
      MinimalWidthsPush(widths, layouts, t.Now());
      widths := widths + [t.logSideSize + 19];
      layouts := layouts + [t.Now()];
      done := done + 1;
    }
    t.KeysAreAdded();
    RunExplained(ops[..done], widths, t.Stock());
  }
}
