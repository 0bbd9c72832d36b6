/** The static filter: c/include/filter/static.h and one attempt of c/lib/static.c. */
module StaticFilters {
  import opened Bits
  import opened Peeling

  // ---------- edges from hashes ----------

  /** The high word of the 128-bit product. */
  function HighWord(hash: Word, x: nat): nat {
    hash * x / WORD
  }

  /** The low word of the product. */
  function LowWord(hash: Word, x: nat): Word {
    hash * x % WORD
  }

  /** The source's 3 + pow(m, 2.0 / 3.0), capped at m; power is the truncated power. */
  function WindowOf(m: nat, power: nat): nat {
    if ARITY + power > m then m else ARITY + power
  }

  function Next(v: nat, window: nat): nat {
    if v + 1 == window then 0 else v + 1
  }

  predicate InEdge(v: nat, vertex: seq<nat>) {
    v in vertex
  }

  /** The first position from v on, going round in the window, whose vertex is not used yet:
  with at most two vertices used it is one of three. */
  function FirstFree(v: nat, window: nat, start: nat, vertex: seq<nat>): nat {
    if !InEdge(v + start, vertex) then v
    else if !InEdge(Next(v, window) + start, vertex) then Next(v, window)
    else Next(Next(v, window), window)
  }

  /** The first n vertices, and the hash with that many draws taken out. */
  function Draw(hash: Word, window: nat, start: nat, n: nat): (seq<nat>, Word) {
    if n == 0 then ([], hash) else
      var (vertex, h) := Draw(hash, window, start, n - 1);
      (vertex + [FirstFree(HighWord(h, window), window, start, vertex) + start], LowWord(h, window))
  }

  function StartOf(hash: Word, m: nat, power: nat): nat {
    if WindowOf(m, power) <= m then HighWord(hash, m - WindowOf(m, power)) else 0
  }

  function EdgeOf(hash: Word, m: nat, power: nat): Edge
    requires m >= ARITY
  {
    var window := WindowOf(m, power);
    var (vertex, h) := Draw(LowWord(hash, m - window), window, StartOf(hash, m, power), ARITY);
    TopByte(h);
    Edge(vertex, Shr(h, 56) as bv8)
  }

  lemma TopByte(h: Word)
    ensures Shr(h, 56) < 256
  {
    Pow2Word();
    HighBound(h, 8, 56);
    Pow2Small();
  }

  lemma HighWordBound(hash: Word, x: nat)
    ensures HighWord(hash, x) <= x && (x > 0 ==> HighWord(hash, x) < x)
  {
    ProductBound(hash, WORD - 1, x);
    var p := hash * x;
    assert p <= (WORD - 1) * x;
  }

  lemma ProductBound(a: nat, b: nat, x: nat)
    requires a <= b
    ensures a * x <= b * x
  {
  }

  /** The free position is in the window, and free. */
  lemma FirstFreeIsFree(v: nat, window: nat, start: nat, vertex: seq<nat>)
    requires v < window && window >= 3 && |vertex| <= 2
    ensures FirstFree(v, window, start, vertex) < window
    ensures FirstFree(v, window, start, vertex) + start !in vertex
  {
  }

  /** Vertices drawn are different and lie in one window of consecutive positions. */
  lemma {:induction false} DrawSpread(hash: Word, window: nat, start: nat, n: nat)
    requires window >= 3 && n <= ARITY
    ensures var vertex := Draw(hash, window, start, n).0;
            && |vertex| == n
            && (forall i :: 0 <= i < n ==> start <= vertex[i] < start + window)
            && (forall i, j :: 0 <= i < j < n ==> vertex[i] != vertex[j])
  {
    hide HighWord, LowWord, FirstFree;
    if n == 0 {
    } else {
      DrawSpread(hash, window, start, n - 1);
      var (vertex, h) := Draw(hash, window, start, n - 1);
      HighWordBound(h, window);
      FirstFreeIsFree(HighWord(h, window), window, start, vertex);
    }
  }

  lemma WindowFits(hash: Word, m: nat, power: nat)
    requires m >= ARITY
    ensures ARITY <= WindowOf(m, power) <= m && StartOf(hash, m, power) + WindowOf(m, power) <= m
  {
    HighWordBound(hash, m - WindowOf(m, power));
  }

  /** Three different vertices below m, in one window, for every hash and table size. */
  lemma EdgeOfValid(hash: Word, m: nat, power: nat)
    requires m >= ARITY
    ensures ValidEdge(EdgeOf(hash, m, power), m)
    ensures forall i :: 0 <= i < ARITY ==>
              StartOf(hash, m, power) <= EdgeOf(hash, m, power).vertex[i] < StartOf(hash, m, power) + WindowOf(m, power)
  {
    WindowFits(hash, m, power);
    DrawSpread(LowWord(hash, m - WindowOf(m, power)), WindowOf(m, power), StartOf(hash, m, power), ARITY);
  }

  // ---------- the edge as digits of the hash ----------

  /** Multiplying a number of words and a rest: the whole part gains the next digit. */
  lemma NextDigit(x: nat, whole: nat, h: Word, w: nat)
    requires x == whole * WORD + h
    ensures x * w == (whole * w + HighWord(h, w)) * WORD + LowWord(h, w)
  {
    hide HighWord, LowWord;
    ProductOfSum(whole * WORD, h, w);
    WordParts(h, w);
    MoveWord(whole, w);
    ProductOfSum(whole * w, HighWord(h, w), WORD);
  }

  lemma ProductOfSum(a: nat, b: nat, c: nat)
    ensures (a + b) * c == a * c + b * c
  {
  }

  lemma MoveWord(a: nat, b: nat)
    ensures a * WORD * b == a * b * WORD
  {
  }

  lemma WordParts(h: Word, x: nat)
    ensures h * x == HighWord(h, x) * WORD + LowWord(h, x)
  {
  }

  lemma WholePart(whole: nat, h: Word)
    ensures (whole * WORD + h) / WORD == whole
  {
  }

  lemma TopByteIsDigit(h: Word)
    ensures Shr(h, 56) == HighWord(h, 256)
  {
    hide High, Pow2;
    ShiftsAreArithmetic(h, 56);
    assert Pow2(56) == 0x100_0000_0000_0000 by { Pow2Word56(); }
  }

  lemma Pow2Word56()
    ensures Pow2(56) == 0x100_0000_0000_0000
  {
    Pow2Small();
    Pow2Plus8(8);
    Pow2Plus8(16);
    Pow2Plus8(24);
    Pow2Plus8(32);
    Pow2Plus8(40);
    Pow2Plus8(48);
  }

  /** k positions on from v, going round. */
  function Onwards(v: nat, k: nat, window: nat): nat
    requires window > 0
  {
    (v + k) % window
  }

  /** The first free position is reached by going round from v: all before it are used. */
  lemma FirstFreeIsFirst(v: nat, window: nat, start: nat, vertex: seq<nat>) returns (k: nat)
    requires v < window && window >= 3 && |vertex| <= 2
    ensures k <= 2 && FirstFree(v, window, start, vertex) == Onwards(v, k, window)
    ensures forall j :: 0 <= j < k ==> Onwards(v, j, window) + start in vertex
  {
    NextIsRound(v, window, 0);
    NextIsRound(v, window, 1);
    k := if v + start !in vertex then 0 else if Next(v, window) + start !in vertex then 1 else 2;
  }

  lemma NextIsRound(v: nat, window: nat, k: nat)
    requires v < window && k < window
    ensures Onwards(v, k, window) < window
    ensures Next(Onwards(v, k, window), window) == Onwards(v, k + 1, window)
    ensures Onwards(v, 0, window) == v
  {
    RoundOnce(v + k, window);
    RoundOnce(v + k + 1, window);
    RoundOnce(v, window);
  }

  lemma RoundOnce(x: nat, window: nat)
    requires window > 0 && x <= 2 * window
    ensures x % window == if x < window then x else if x < 2 * window then x - window else 0
  {
  }

  /** The hash as a fraction of 2^64, scaled by the number n of starts, three times by the
  window w and by 256; the whole part. */
  function ScaledHash(hash: Word, n: nat, w: nat): nat {
    hash * n * w * w * w * 256 / WORD
  }

  function Digits(start: nat, w: nat, d0: nat, d1: nat, d2: nat, fingerprint: nat): nat {
    (((start * w + d0) * w + d1) * w + d2) * 256 + fingerprint
  }

  /** Window start, draws and fingerprint of e are the digits of the scaled hash; each vertex is
  the first free position from its draw on. */
  ghost predicate EdgeFromDigits(hash: Word, m: nat, power: nat, e: Edge, start: nat, d0: nat, d1: nat, d2: nat,
                                 fingerprint: nat)
    requires m >= 3
  {
    var w := if 3 + power > m then m else 3 + power;
    && d0 < w && d1 < w && d2 < w
    && |e.vertex| == 3
    && ScaledHash(hash, m - w, w) == Digits(start, w, d0, d1, d2, fingerprint)
    && fingerprint < 256 && e.fingerprint == fingerprint as bv8
    && e.vertex[0] == start + d0
    && e.vertex[1] == start + FirstFree(d1, w, start, e.vertex[..1])
    && e.vertex[2] == start + FirstFree(d2, w, start, e.vertex[..2])
  }

  lemma EdgeDigits(hash: Word, m: nat, power: nat) returns (d0: nat, d1: nat, d2: nat, fingerprint: nat)
    requires m >= ARITY
    ensures EdgeFromDigits(hash, m, power, EdgeOf(hash, m, power), StartOf(hash, m, power), d0, d1, d2, fingerprint)
  {
    hide HighWord, LowWord, FirstFree, Shr, ScaledHash, Digits;
    var w, start := WindowOf(m, power), StartOf(hash, m, power);
    WindowFits(hash, m, power);
    var h0 := LowWord(hash, m - w);
    var h1 := LowWord(h0, w);
    var h2 := LowWord(h1, w);
    var h3 := LowWord(h2, w);
    d0, d1, d2 := HighWord(h0, w), HighWord(h1, w), HighWord(h2, w);
    HighWordBound(h0, w);
    HighWordBound(h1, w);
    HighWordBound(h2, w);
    TopByte(h3);
    TopByteIsDigit(h3);
    Scaled(hash, m - w, w, start, h0);
    Drawn(h0, w, start);
    FirstDraw(d0, w, start);
    var e := EdgeOf(hash, m, power);
    assert e.vertex[..1] == [e.vertex[0]] && e.vertex[..2] == [e.vertex[0], e.vertex[1]];
    fingerprint := Shr(h3, 56);
  }

  lemma FirstDraw(v: nat, window: nat, start: nat)
    ensures FirstFree(v, window, start, []) == v
  {
  }

  /** The three draws, one after the other. */
  lemma Drawn(h0: Word, w: nat, start: nat)
    ensures var h1, h2 := LowWord(h0, w), LowWord(LowWord(h0, w), w);
            var a := FirstFree(HighWord(h0, w), w, start, []) + start;
            var b := FirstFree(HighWord(h1, w), w, start, [a]) + start;
            var c := FirstFree(HighWord(h2, w), w, start, [a, b]) + start;
            Draw(h0, w, start, ARITY) == ([a, b, c], LowWord(h2, w))
  {
    hide HighWord, LowWord, FirstFree;
    var h1 := LowWord(h0, w);
    var h2 := LowWord(h1, w);
    var a := FirstFree(HighWord(h0, w), w, start, []) + start;
    var b := FirstFree(HighWord(h1, w), w, start, [a]) + start;
    var c := FirstFree(HighWord(h2, w), w, start, [a, b]) + start;
    var none: seq<nat> := [];
    assert Draw(h0, w, start, 0) == (none, h0);
    assert none + [a] == [a] && Draw(h0, w, start, 1) == ([a], h1);
    assert [a] + [b] == [a, b] && Draw(h0, w, start, 2) == ([a, b], h2);
    assert [a, b] + [c] == [a, b, c];
  }

  lemma Scaled(hash: Word, n: nat, w: nat, start: nat, h0: Word)
    requires start == HighWord(hash, n) && h0 == LowWord(hash, n)
    ensures var h1, h2 := LowWord(h0, w), LowWord(LowWord(h0, w), w);
            var h3 := LowWord(h2, w);
            ScaledHash(hash, n, w) ==
            Digits(start, w, HighWord(h0, w), HighWord(h1, w), HighWord(h2, w), HighWord(h3, 256))
  {
    hide HighWord, LowWord;
    WordParts(hash, n);
    var h1 := LowWord(h0, w);
    var h2 := LowWord(h1, w);
    var h3 := LowWord(h2, w);
    var a := start * w + HighWord(h0, w);
    var b := a * w + HighWord(h1, w);
    var c := b * w + HighWord(h2, w);
    NextDigit(hash * n, start, h0, w);
    NextDigit(hash * n * w, a, h1, w);
    NextDigit(hash * n * w * w, b, h2, w);
    NextDigit(hash * n * w * w * w, c, h3, 256);
    WholePart(c * 256 + HighWord(h3, 256), LowWord(h3, 256));
  }

  /** Goes round the window until a free position is found. */
  method FindFree(v: nat, window: nat, start: nat, vertex: seq<nat>) returns (w: nat)
    requires v < window && window >= 3 && |vertex| <= 2
    ensures w == FirstFree(v, window, start, vertex)
  {
    w := v;
    ghost var probes := 0;
    while InEdge(w + start, vertex)
      invariant probes <= 2
      invariant probes == 0 ==> w == v
      invariant probes == 1 ==> w == Next(v, window) && InEdge(v + start, vertex)
      invariant probes == 2 ==> && w == Next(Next(v, window), window) && InEdge(v + start, vertex)
                                && InEdge(Next(v, window) + start, vertex)
      decreases 2 - probes
    {
      FirstFreeIsFree(v, window, start, vertex);
      w := w + 1;
      w := if w == window then 0 else w;
      probes := probes + 1;
    }
  }

  /** Makes a hash's edge: three different vertices less than m, and a fingerprint. */
  method MakeEdge(hash: Word, m: nat, power: nat) returns (result: Edge)
    requires m >= ARITY
    ensures result == EdgeOf(hash, m, power) && ValidEdge(result, m)
    ensures exists start, d0, d1, d2, fingerprint ::
              EdgeFromDigits(hash, m, power, result, start, d0, d1, d2, fingerprint)
  {
    hide HighWord, LowWord, FirstFree, Shr, EdgeFromDigits;
    var window := ARITY + power;
    window := if window > m then m else window;
    WindowFits(hash, m, power);
    var start := HighWord(hash, m - window);
    var h := LowWord(hash, m - window);
    ghost var first := h;
    var vertex: seq<nat> := [];
    for j := 0 to ARITY
      invariant (vertex, h) == Draw(first, window, start, j) && |vertex| == j
    {
      HighWordBound(h, window);
      var v := FindFree(HighWord(h, window), window, start, vertex);
      vertex := vertex + [v + start];
      h := LowWord(h, window);
    }
    TopByte(h);
    result := Edge(vertex, Shr(h, 56) as bv8);
    EdgeOfValid(hash, m, power);
    ghost var d0, d1, d2, fingerprint := EdgeDigits(hash, m, power);
  }

  // ---------- when construction cannot succeed ----------

  /** Two edges with the same vertices are a 2-core of their own. */
  lemma TwinsAreTwoCore(edges: seq<Edge>, d: nat, e: nat)
    requires d < e < |edges| && edges[d].vertex == edges[e].vertex
    ensures TwoCore(edges, {d, e})
  {
    forall x, v | x in {d, e} && v in edges[x].vertex
      ensures Degree(edges, {d, e}, v, |edges|) >= 2
    {
      TwinDegree(edges, d, e, v, |edges|);
    }
  }

  lemma {:induction false} TwinDegree(edges: seq<Edge>, d: nat, e: nat, v: nat, n: nat)
    requires d < e < n <= |edges| && v in edges[d].vertex && v in edges[e].vertex
    ensures Degree(edges, {d, e}, v, n) >= 2
  {
    if e < n - 1 {
      TwinDegree(edges, d, e, v, n - 1);
    } else {
      DegreePositive(edges, {d, e}, v, n - 1, d);
    }
  }

  /** When the window is the whole table, all hashes have the same edge. */
  lemma WholeWindow(hash: Word, m: nat, power: nat)
    requires ARITY <= m <= ARITY + power
    ensures EdgeOf(hash, m, power) == Edge([0, 1, 2], 0)
  {
    ZeroWords(hash, m);
    DrawFromZero(m);
    LowOfSmall(0, 56);
  }

  lemma ZeroWords(hash: Word, m: nat)
    ensures HighWord(hash, 0) == 0 && LowWord(hash, 0) == 0
    ensures HighWord(0, m) == 0 && LowWord(0, m) == 0
  {
    assert 0 * m == 0 && hash * 0 == 0;
  }

  lemma DrawFromZero(m: nat)
    requires m >= ARITY
    ensures Draw(0, m, 0, ARITY) == ([0, 1, 2], 0)
  {
    hide HighWord, LowWord;
    ZeroWords(0, m);
    var none: seq<nat> := [];
    var one, two: seq<nat> := [0], [0, 1];
    assert FirstFree(0, m, 0, none) == 0;
    assert InEdge(0, one) && Next(0, m) == 1 && FirstFree(0, m, 0, one) == 1;
    assert InEdge(0, two) && InEdge(1, two) && Next(1, m) == 2 && FirstFree(0, m, 0, two) == 2;
    assert Draw(0, m, 0, 0) == (none, 0);
    assert none + [0] == one && Draw(0, m, 0, 1) == (one, 0);
    assert one + [1] == two && Draw(0, m, 0, 2) == (two, 0);
    assert two + [2] == [0, 1, 2];
  }

  ghost function EdgesOf(hashes: seq<Word>, m: nat, power: nat): (edges: seq<Edge>)
    requires m >= ARITY || hashes == []
    ensures |edges| == |hashes|
    ensures forall i :: 0 <= i < |hashes| ==> edges[i] == EdgeOf(hashes[i], m, power)
  {
    if hashes == [] then [] else
      EdgesOf(hashes[..|hashes| - 1], m, power) + [EdgeOf(hashes[|hashes| - 1], m, power)]
  }

  /** Equal hashes make the attempt fail at every size. At a size not above the window any two
  hashes do. */
  lemma AttemptFails(hashes: seq<Word>, m: nat, power: nat, d: nat, e: nat)
    requires m >= ARITY && d < e < |hashes| && (hashes[d] == hashes[e] || m <= ARITY + power)
    ensures exists s :: TwoCore(EdgesOf(hashes, m, power), s)
  {
    if m <= ARITY + power {
      WholeWindow(hashes[d], m, power);
      WholeWindow(hashes[e], m, power);
    }
    TwinsAreTwoCore(EdgesOf(hashes, m, power), d, e);
  }

  // ---------- the filter ----------

  class StaticFilter {
    const power: nat
    const table: array<bv8>

    ghost predicate Accepts(hash: Word)
      requires table.Length >= ARITY
      reads table
    {
      EdgeOfValid(hash, table.Length, power);
      Balanced(EdgeOf(hash, table.Length, power), table[..])
    }

    constructor (power: nat, table: array<bv8>)
      ensures this.power == power && this.table == table
    {
      this.power := power;
      this.table := table;
    }

    method FindHash(hash: Word) returns (found: bool)
      requires table.Length >= ARITY
      ensures found <==> Accepts(hash)
    {
      var e := MakeEdge(hash, table.Length, power);
      found := FindEdge(e, table);
    }
  }

  method InitEdges(hashes: seq<Word>, m: nat, power: nat) returns (edges: seq<Edge>)
    requires m >= ARITY || hashes == []
    ensures edges == EdgesOf(hashes, m, power) && ValidEdges(edges, m)
  {
    edges := [];
    for i := 0 to |hashes|
      invariant edges == EdgesOf(hashes[..i], m, power) && ValidEdges(edges, m)
    {
      var e := MakeEdge(hashes[i], m, power);
      assert hashes[..i + 1][..i] == hashes[..i];
      edges := edges + [e];
    }
    assert hashes[..|hashes|] == hashes;
  }

  /** The table that solving the equations in the order of peeling leads to, and no other one. */
  ghost predicate DeterminedTable(edges: seq<Edge>, xors: seq<bv8>) {
    && ValidEdges(edges, |xors|)
    && PeelOrder(edges, PeelQueue(edges, |xors|), |xors|)
    && SettledFrom(edges, PeelQueue(edges, |xors|), xors, 0)
  }

  lemma EmptyOrder(edges: seq<Edge>, order: seq<EdgePeel>)
    requires |edges| == |order| == 0
    ensures PeelOrder(edges, order, 0)
  {
  }

  lemma OneTable(edges: seq<Edge>, xs: seq<bv8>, ys: seq<bv8>)
    requires |xs| == |ys| && DeterminedTable(edges, xs) && DeterminedTable(edges, ys)
    ensures xs == ys
  {
    hide PeelOrder, PeelQueue, SettledFrom;
    SettledUnique(edges, PeelQueue(edges, |xs|), xs, ys, 0);
  }

  /** One attempt to build a table of m cells: it fails exactly if the edges have a 2-core, and
  else every hash is found. */
  method Attempt(hashes: seq<Word>, m: nat, power: nat) returns (result: StaticFilter?)
    requires if hashes == [] then m == 0 else m >= ARITY
    ensures result == null <==> exists s :: TwoCore(EdgesOf(hashes, m, power), s)
    ensures result != null ==>
              && fresh(result) && fresh(result.table)
              && result.table.Length == m && result.power == power
              && (forall i :: 0 <= i < |hashes| ==> result.Accepts(hashes[i]))
              && DeterminedTable(EdgesOf(hashes, m, power), result.table[..])
  {
    hide PeelOrder, SettledFrom, PeelQueue, TwoCore, Coreless, NodesMatch, Balanced;
    var xors := new bv8[m](_ => 0);
    var edges := InitEdges(hashes, m, power);
    var nodes := new PeelNode[m](_ => PeelNode(0, 0));
    PopulatePeelNodes(edges, nodes);
    var toPeel := new EdgePeel[m](_ => EdgePeel(0, 0));
    var answer := Peel(edges, nodes, toPeel);
    if answer < m {
      return null;
    }
    assert toPeel[..m] == toPeel[..];
    if hashes == [] {
      EmptyOrder(edges, toPeel[..]);
    }
    Unpeel(edges, toPeel[..], xors);
    result := new StaticFilter(power, xors);
  }
}
