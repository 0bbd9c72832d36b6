/** Peeling a 3-uniform hypergraph and solving its equations backwards: c/lib/peel.h. */
module Peeling {
  import opened Bits

  const ARITY: nat := 3

  datatype Edge = Edge(vertex: seq<nat>, fingerprint: bv8)

  /** How many edges are incident to a node, and the exclusive or of their numbers. */
  datatype PeelNode = PeelNode(count: nat, edges: nat)

  datatype EdgePeel = EdgePeel(edgeNumber: nat, peeledVertex: nat)

  // ---------- hypergraphs ----------

  /** Three different vertices, all below m. */
  predicate ValidEdge(e: Edge, m: nat) {
    && |e.vertex| == ARITY
    && (forall i :: 0 <= i < ARITY ==> e.vertex[i] < m)
    && (forall i, j :: 0 <= i < j < ARITY ==> e.vertex[i] != e.vertex[j])
  }

  predicate ValidEdges(edges: seq<Edge>, m: nat) {
    forall e :: 0 <= e < |edges| ==> ValidEdge(edges[e], m)
  }

  /** The number of the edges in s, among the first n, that touch v. */
  ghost function Degree(edges: seq<Edge>, s: set<nat>, v: nat, n: nat): nat
    requires n <= |edges|
  {
    if n == 0 then 0 else
      Degree(edges, s, v, n - 1) + (if n - 1 in s && v in edges[n - 1].vertex then 1 else 0)
  }

  /** The exclusive or of their numbers. */
  ghost function IdXor(edges: seq<Edge>, s: set<nat>, v: nat, n: nat): nat
    requires n <= |edges|
  {
    if n == 0 then 0 else
      if n - 1 in s && v in edges[n - 1].vertex then Xor(IdXor(edges, s, v, n - 1), n - 1)
      else IdXor(edges, s, v, n - 1)
  }

  ghost function Ids(n: nat): (s: set<nat>)
    ensures forall e: nat :: e in s <==> e < n
  {
    if n == 0 then {} else Ids(n - 1) + {n - 1}
  }

  /** A nonempty set of edges each of whose vertices is touched by at least two of them. */
  ghost predicate TwoCore(edges: seq<Edge>, s: set<nat>) {
    && s != {}
    && (forall e :: e in s ==> e < |edges|)
    && (forall e, v :: e in s && v in edges[e].vertex ==> Degree(edges, s, v, |edges|) >= 2)
  }

  ghost predicate Touched(edges: seq<Edge>, s: set<nat>, v: nat) {
    exists e :: e in s && e < |edges| && v in edges[e].vertex
  }

  /** Some 2-core touches v. */
  ghost predicate Cored(edges: seq<Edge>, v: nat) {
    exists s :: TwoCore(edges, s) && Touched(edges, s, v)
  }

  /** The vertices below m that no 2-core touches. */
  ghost function Coreless(edges: seq<Edge>, m: nat): set<nat> {
    set v: nat | v < m && !Cored(edges, v)
  }

  /** An order in which the edges can be solved: every edge e has an entry at one of its
  vertices before which no vertex of e occurs. */
  ghost predicate PeelOrder(edges: seq<Edge>, order: seq<EdgePeel>, m: nat) {
    && (forall i :: 0 <= i < |order| ==> order[i].edgeNumber < |edges| && order[i].peeledVertex < m)
    && (forall i, j :: 0 <= i < j < |order| ==> order[i].peeledVertex != order[j].peeledVertex)
    && (forall e: nat :: e < |edges| ==> Solved(edges, order, e))
  }

  ghost predicate Solved(edges: seq<Edge>, order: seq<EdgePeel>, e: nat) {
    exists i: nat :: PeeledAt(edges, order, e, i)
  }

  ghost predicate PeeledAt(edges: seq<Edge>, order: seq<EdgePeel>, e: nat, i: nat) {
    && e < |edges| && i < |order|
    && order[i].edgeNumber == e
    && order[i].peeledVertex in edges[e].vertex
    && forall j :: 0 <= j < i ==> order[j].peeledVertex !in edges[e].vertex
  }

  // ---------- removing an edge ----------

  lemma {:induction false} XorSwap(a: nat, b: nat, c: nat)
    ensures Xor(Xor(a, b), c) == Xor(Xor(a, c), b)
    decreases a + b + c
  {
    if a + b + c == 0 {
    } else {
      XorSwap(a / 2, b / 2, c / 2);
      XorHalves(a, b);
      XorHalves(a, c);
      XorHalves(Xor(a, b), c);
      XorHalves(Xor(a, c), b);
    }
  }

  lemma {:induction false} RemoveEdge(edges: seq<Edge>, s: set<nat>, v: nat, n: nat, e: nat)
    requires n <= |edges| && e < n && e in s && v in edges[e].vertex
    ensures Degree(edges, s, v, n) == Degree(edges, s - {e}, v, n) + 1
    ensures IdXor(edges, s - {e}, v, n) == Xor(IdXor(edges, s, v, n), e)
  {
    hide Xor;
    if e == n - 1 {
      RemoveUntouched(edges, s, v, n - 1, e);
      XorCancels(IdXor(edges, s, v, n - 1), e);
    } else {
      RemoveEdge(edges, s, v, n - 1, e);
      if n - 1 in s && v in edges[n - 1].vertex {
        XorSwap(IdXor(edges, s, v, n - 1), e, n - 1);
      }
    }
  }

  lemma {:induction false} RemoveUntouched(edges: seq<Edge>, s: set<nat>, v: nat, n: nat, e: nat)
    requires n <= |edges| && (e >= n || v !in edges[e].vertex)
    ensures Degree(edges, s - {e}, v, n) == Degree(edges, s, v, n)
    ensures IdXor(edges, s - {e}, v, n) == IdXor(edges, s, v, n)
  {
    if n == 0 {
    } else {
      RemoveUntouched(edges, s, v, n - 1, e);
    }
  }

  lemma {:induction false} DegreeZero(edges: seq<Edge>, s: set<nat>, v: nat, n: nat, e: nat)
    requires n <= |edges| && Degree(edges, s, v, n) == 0 && e < n && e in s
    ensures v !in edges[e].vertex
  {
    if e == n - 1 {
    } else {
      DegreeZero(edges, s, v, n - 1, e);
    }
  }

  lemma {:induction false} NoEdgesZero(edges: seq<Edge>, s: set<nat>, v: nat, n: nat)
    requires n <= |edges| && Degree(edges, s, v, n) == 0
    ensures IdXor(edges, s, v, n) == 0
  {
    if n == 0 {
    } else {
      NoEdgesZero(edges, s, v, n - 1);
    }
  }

  /** With one incident edge left, the exclusive or is its number. */
  lemma {:induction false} DegreeOne(edges: seq<Edge>, s: set<nat>, v: nat, n: nat)
    requires n <= |edges| && Degree(edges, s, v, n) == 1
    ensures var e := IdXor(edges, s, v, n); e < n && e in s && v in edges[e].vertex
  {
    if n - 1 in s && v in edges[n - 1].vertex {
      NoEdgesZero(edges, s, v, n - 1);
    } else {
      DegreeOne(edges, s, v, n - 1);
    }
  }

  lemma {:induction false} DegreePositive(edges: seq<Edge>, s: set<nat>, v: nat, n: nat, e: nat)
    requires n <= |edges| && e < n && e in s && v in edges[e].vertex
    ensures Degree(edges, s, v, n) >= 1
  {
    if e == n - 1 {
    } else {
      DegreePositive(edges, s, v, n - 1, e);
    }
  }

  /** With two or more incident edges there is one besides e. */
  lemma {:induction false} AnotherEdge(edges: seq<Edge>, s: set<nat>, v: nat, n: nat, e: nat) returns (d: nat)
    requires n <= |edges| && Degree(edges, s, v, n) >= 2
    ensures d < n && d != e && d in s && v in edges[d].vertex
  {
    if n - 1 in s && v in edges[n - 1].vertex && n - 1 != e {
      d := n - 1;
    } else if n - 1 in s && v in edges[n - 1].vertex {
      d := AnEdge(edges, s, v, n - 1);
    } else {
      d := AnotherEdge(edges, s, v, n - 1, e);
    }
  }

  lemma {:induction false} AnEdge(edges: seq<Edge>, s: set<nat>, v: nat, n: nat) returns (d: nat)
    requires n <= |edges| && Degree(edges, s, v, n) >= 1
    ensures d < n && d in s && v in edges[d].vertex
  {
    if n - 1 in s && v in edges[n - 1].vertex {
      d := n - 1;
    } else {
      d := AnEdge(edges, s, v, n - 1);
    }
  }

  // ---------- a peel order rules a 2-core out ----------

  /** The vertex of the edge that is solved first is touched by no other edge of the set. */
  lemma LonelyVertex(edges: seq<Edge>, order: seq<EdgePeel>, m: nat, s: set<nat>, e: nat, i: nat, d: nat)
    requires PeelOrder(edges, order, m) && PeeledAt(edges, order, e, i) && d in s && d < |edges| && d != e
    requires forall d: nat, j: nat :: d in s && PeeledAt(edges, order, d, j) ==> i <= j
    ensures order[i].peeledVertex !in edges[d].vertex
  {
    assert Solved(edges, order, d);
    var j: nat :| PeeledAt(edges, order, d, j);
  }

  /** Peeling orders and 2-cores exclude each other. */
  lemma OrderExcludesTwoCore(edges: seq<Edge>, order: seq<EdgePeel>, m: nat, s: set<nat>)
    requires PeelOrder(edges, order, m)
    ensures !TwoCore(edges, s)
  {
    if TwoCore(edges, s) {
      var e, i := FirstPeeled(edges, order, s);
      var d := AnotherEdge(edges, s, order[i].peeledVertex, |edges|, e);
      LonelyVertex(edges, order, m, s, e, i, d);
    }
  }

  lemma NoEdgesNoCore(edges: seq<Edge>, s: set<nat>)
    requires |edges| == 0
    ensures !TwoCore(edges, s)
  {
  }

  lemma FirstPeeled(edges: seq<Edge>, order: seq<EdgePeel>, s: set<nat>) returns (e: nat, i: nat)
    requires s != {} && forall d :: d in s ==> Solved(edges, order, d)
    ensures e in s && PeeledAt(edges, order, e, i)
    ensures forall d: nat, j: nat :: d in s && PeeledAt(edges, order, d, j) ==> i <= j
  {
    e :| e in s;
    i :| PeeledAt(edges, order, e, i);
    while exists d: nat, j: nat :: d in s && PeeledAt(edges, order, d, j) && j < i
      invariant e in s && PeeledAt(edges, order, e, i)
      decreases i
    {
      var d: nat, j: nat :| d in s && PeeledAt(edges, order, d, j) && j < i;
      e, i := d, j;
    }
  }

  // ---------- the state of a peeling ----------

  ghost function NodeOf(edges: seq<Edge>, s: set<nat>, v: nat): PeelNode {
    PeelNode(Degree(edges, s, v, |edges|), IdXor(edges, s, v, |edges|))
  }

  /** The nodes describe the hypergraph whose remaining edges are s. */
  ghost predicate NodesMatch(edges: seq<Edge>, nodes: seq<PeelNode>, s: set<nat>) {
    forall v :: 0 <= v < |nodes| ==> nodes[v] == NodeOf(edges, s, v)
  }

  ghost predicate Queued(q: seq<EdgePeel>, v: nat) {
    exists i :: 0 <= i < |q| && q[i].peeledVertex == v
  }

  /** The queue holds, once each, the nodes below seen with at most one edge left. Those before
  begin have none left; those after it are recorded with their last edge. */
  ghost predicate QueueState(n: nat, nodes: seq<PeelNode>, q: seq<EdgePeel>, begin: nat, seen: nat) {
    && begin <= |q| && seen <= |nodes|
    && (forall i :: 0 <= i < |q| ==> (n > 0 ==> q[i].edgeNumber < n) && q[i].peeledVertex < |nodes|)
    && (forall i, j :: 0 <= i < j < |q| ==> q[i].peeledVertex != q[j].peeledVertex)
    && (forall v :: 0 <= v < |nodes| ==> (Queued(q, v) <==> v < seen && nodes[v].count <= 1))
    && (forall i :: 0 <= i < begin ==> nodes[q[i].peeledVertex].count == 0)
    && (forall i :: begin <= i < |q| && nodes[q[i].peeledVertex].count == 1 ==>
          q[i].edgeNumber == nodes[q[i].peeledVertex].edges)
  }

  /** Every edge is still there or has been solved. */
  ghost predicate Progress(edges: seq<Edge>, q: seq<EdgePeel>, s: set<nat>) {
    && (forall e :: e in s ==> e < |edges|)
    && (forall e: nat :: e < |edges| && e !in s ==> Solved(edges, q, e))
  }

  ghost function Vertices(q: seq<EdgePeel>): (s: set<nat>)
    ensures forall v :: v in s <==> Queued(q, v)
  {
    if q == [] then {} else
      var n := |q| - 1;
      assert forall v :: Queued(q, v) <==> Queued(q[..n], v) || v == q[n].peeledVertex by {
        forall v | Queued(q, v) ensures Queued(q[..n], v) || v == q[n].peeledVertex {
          var i :| 0 <= i < |q| && q[i].peeledVertex == v;
          if i < n { assert q[..n][i].peeledVertex == v; }
        }
        forall v | Queued(q[..n], v) ensures Queued(q, v) {
          var i :| 0 <= i < n && q[..n][i].peeledVertex == v;
          assert q[i].peeledVertex == v;
        }
        assert q[n].peeledVertex == q[n].peeledVertex;
      }
      Vertices(q[..n]) + {q[n].peeledVertex}
  }

  lemma NewAtEnd(q: seq<EdgePeel>, n: nat)
    requires n + 1 == |q|
    requires forall i, j :: 0 <= i < j < |q| ==> q[i].peeledVertex != q[j].peeledVertex
    ensures !Queued(q[..n], q[n].peeledVertex)
    ensures forall i, j :: 0 <= i < j < n ==> q[..n][i].peeledVertex != q[..n][j].peeledVertex
  {
  }

  lemma {:induction false} VerticesCount(q: seq<EdgePeel>)
    requires forall i, j :: 0 <= i < j < |q| ==> q[i].peeledVertex != q[j].peeledVertex
    ensures |Vertices(q)| == |q|
  {
    hide Queued;
    if q == [] {
    } else {
      var n := |q| - 1;
      NewAtEnd(q, n);
      VerticesCount(q[..n]);
    }
  }

  lemma {:induction false} IdsCount(n: nat)
    ensures |Ids(n)| == n
  {
    if n == 0 {
    } else {
      IdsCount(n - 1);
      assert n - 1 !in Ids(n - 1) && Ids(n) == Ids(n - 1) + {n - 1};
    }
  }

  lemma {:induction false} FullSubset(a: set<nat>, b: set<nat>)
    requires a <= b
    ensures |a| <= |b| && (|a| == |b| ==> a == b)
    decreases |b|
  {
    if a == {} {
    } else {
      var x :| x in a;
      FullSubset(a - {x}, b - {x});
      assert a == a - {x} + {x} && b == b - {x} + {x};
    }
  }

  /** The queue never overruns an array of one place for each node; full, it holds them all. */
  lemma QueueFits(q: seq<EdgePeel>, m: nat)
    requires forall i :: 0 <= i < |q| ==> q[i].peeledVertex < m
    requires forall i, j :: 0 <= i < j < |q| ==> q[i].peeledVertex != q[j].peeledVertex
    ensures |q| <= m
    ensures |q| == m <==> forall v: nat :: v < m ==> Queued(q, v)
  {
    VerticesCount(q);
    IdsCount(m);
    FullSubset(Vertices(q), Ids(m));
    if forall v: nat :: v < m ==> Queued(q, v) {
      assert Vertices(q) == Ids(m);
    }
  }

  /** One node loses one edge: it is queued when exactly one is left. */
  lemma QueueStep(n: nat, nodes: seq<PeelNode>, q: seq<EdgePeel>, begin: nat, w: nat, x: nat)
    requires QueueState(n, nodes, q, begin, |nodes|) && w < |nodes| && nodes[w].count >= 1
    requires nodes[w].count == 2 ==> x < n
    ensures var nodes' := nodes[w := PeelNode(nodes[w].count - 1, x)];
            var q' := if nodes[w].count == 2 then q + [EdgePeel(x, w)] else q;
            QueueState(n, nodes', q', begin, |nodes|)
    ensures nodes[w].count == 2 ==> |q| < |nodes|
  {
    if nodes[w].count == 2 {
      QueueGains(n, nodes, q, begin, w, x);
    } else {
      QueueStays(n, nodes, q, begin, w, x);
    }
  }

  lemma QueueGains(n: nat, nodes: seq<PeelNode>, q: seq<EdgePeel>, begin: nat, w: nat, x: nat)
    requires QueueState(n, nodes, q, begin, |nodes|) && w < |nodes| && nodes[w].count == 2 && x < n
    ensures QueueState(n, nodes[w := PeelNode(1, x)], q + [EdgePeel(x, w)], begin, |nodes|)
    ensures |q| < |nodes|
  {
    hide Queued;
    AllQueued(q);
    assert !Queued(q, w);
    QueueFits(q, |nodes|);
    QueuedPush(q, EdgePeel(x, w));
  }

  lemma QueueStays(n: nat, nodes: seq<PeelNode>, q: seq<EdgePeel>, begin: nat, w: nat, x: nat)
    requires QueueState(n, nodes, q, begin, |nodes|) && w < |nodes| && nodes[w].count >= 1 && nodes[w].count != 2
    ensures QueueState(n, nodes[w := PeelNode(nodes[w].count - 1, x)], q, begin, |nodes|)
  {
    hide Queued;
    AllQueued(q);
  }

  lemma AllQueued(q: seq<EdgePeel>)
    ensures forall i :: 0 <= i < |q| ==> Queued(q, q[i].peeledVertex)
  {
    forall i | 0 <= i < |q|
      ensures Queued(q, q[i].peeledVertex)
    {
      QueuedAt(q, i);
    }
  }

  lemma QueuedAt(q: seq<EdgePeel>, i: nat)
    requires i < |q|
    ensures Queued(q, q[i].peeledVertex)
  {
  }

  lemma QueuedPush(q: seq<EdgePeel>, p: EdgePeel)
    ensures forall v :: Queued(q + [p], v) <==> Queued(q, v) || v == p.peeledVertex
  {
    var q' := q + [p];
    forall v | Queued(q, v) ensures Queued(q', v) {
      var i :| 0 <= i < |q| && q[i].peeledVertex == v;
      assert q'[i].peeledVertex == v;
    }
    assert q'[|q|].peeledVertex == p.peeledVertex;
  }

  lemma SolvedPush(edges: seq<Edge>, q: seq<EdgePeel>, more: seq<EdgePeel>, e: nat)
    requires Solved(edges, q, e)
    ensures Solved(edges, q + more, e)
  {
    var i: nat :| PeeledAt(edges, q, e, i);
    assert PeeledAt(edges, q + more, e, i);
  }

  // ---------- the order of the queue ----------

  /** The vertices below m with at most one edge, in order, each with that edge. */
  ghost function SurveyQueue(edges: seq<Edge>, s: set<nat>, m: nat): seq<EdgePeel> {
    if m == 0 then [] else
      SurveyQueue(edges, s, m - 1) +
      if Degree(edges, s, m - 1, |edges|) <= 1 then [EdgePeel(IdXor(edges, s, m - 1, |edges|), m - 1)] else []
  }

  /** Those of the vertices vs, in order, that have one edge left in s, each with that edge; v is
  left out. */
  ghost function Uncovered(edges: seq<Edge>, s: set<nat>, v: nat, vs: seq<nat>): seq<EdgePeel> {
    if vs == [] then [] else
      var w := vs[|vs| - 1];
      Uncovered(edges, s, v, vs[..|vs| - 1]) +
      if Degree(edges, s, w, |edges|) == 1 && w != v then [EdgePeel(IdXor(edges, s, w, |edges|), w)] else []
  }

  /** The queue at the end of a peeling that has come to entry begin of q with the edges s left:
  an entry whose vertex has an edge left removes it and appends what this uncovers. */
  ghost function QueueFrom(edges: seq<Edge>, s: set<nat>, q: seq<EdgePeel>, begin: nat, m: nat): seq<EdgePeel>
    decreases if begin < m then m - begin else 0
  {
    if begin >= |q| || begin >= m then q else
      var v := q[begin].peeledVertex;
      var e := IdXor(edges, s, v, |edges|);
      if Degree(edges, s, v, |edges|) == 0 || e >= |edges| then QueueFrom(edges, s, q, begin + 1, m)
      else QueueFrom(edges, s - {e}, q + Uncovered(edges, s - {e}, v, edges[e].vertex), begin + 1, m)
  }

  ghost function PeelQueue(edges: seq<Edge>, m: nat): seq<EdgePeel> {
    QueueFrom(edges, Ids(|edges|), SurveyQueue(edges, Ids(|edges|), m), 0, m)
  }

  lemma UncoveredStep(edges: seq<Edge>, s: set<nat>, v: nat, vs: seq<nat>, i: nat)
    requires i < |vs|
    ensures Uncovered(edges, s, v, vs[..i + 1]) ==
            Uncovered(edges, s, v, vs[..i]) +
            if NodeOf(edges, s, vs[i]).count == 1 && vs[i] != v then [EdgePeel(NodeOf(edges, s, vs[i]).edges, vs[i])]
            else []
  {
    assert vs[..i + 1][..i] == vs[..i];
  }

  lemma UncoveredNone(edges: seq<Edge>, s: set<nat>, v: nat, vs: seq<nat>)
    ensures Uncovered(edges, s, v, vs[..0]) == []
  {
  }

  lemma SurveyStep(edges: seq<Edge>, s: set<nat>, w: nat)
    ensures SurveyQueue(edges, s, w + 1) ==
            SurveyQueue(edges, s, w) +
            if NodeOf(edges, s, w).count <= 1 then [EdgePeel(NodeOf(edges, s, w).edges, w)] else []
  {
  }

  lemma QueueFromStep(edges: seq<Edge>, s: set<nat>, q: seq<EdgePeel>, begin: nat, m: nat)
    requires begin < |q| && begin < m
    ensures var v := q[begin].peeledVertex;
            var e := NodeOf(edges, s, v).edges;
            QueueFrom(edges, s, q, begin, m) ==
            if NodeOf(edges, s, v).count == 0 || e >= |edges| then QueueFrom(edges, s, q, begin + 1, m)
            else QueueFrom(edges, s - {e}, q + Uncovered(edges, s - {e}, v, edges[e].vertex), begin + 1, m)
  {
  }

  lemma QueueFromEnd(edges: seq<Edge>, s: set<nat>, q: seq<EdgePeel>, m: nat)
    ensures QueueFrom(edges, s, q, |q|, m) == q
  {
  }

  // ---------- populating the nodes ----------

  /** The nodes once the first i edges, and the first j vertices of edge i, are counted. */
  ghost predicate Counted(edges: seq<Edge>, nodes: seq<PeelNode>, i: nat, j: nat)
    requires i < |edges| || (i == |edges| && j == 0)
    requires i < |edges| ==> j <= |edges[i].vertex|
  {
    forall v :: 0 <= v < |nodes| ==>
      var n := if j > 0 && v in edges[i].vertex[..j] then i + 1 else i;
      nodes[v] == PeelNode(Degree(edges, Ids(|edges|), v, n), IdXor(edges, Ids(|edges|), v, n))
  }

  method PopulatePeelNodes(edges: seq<Edge>, nodes: array<PeelNode>)
    requires ValidEdges(edges, nodes.Length)
    requires forall v :: 0 <= v < nodes.Length ==> nodes[v] == PeelNode(0, 0)
    modifies nodes
    ensures NodesMatch(edges, nodes[..], Ids(|edges|))
  {
    for i := 0 to |edges|
      invariant Counted(edges, nodes[..], i, 0)
    {
      assert ValidEdge(edges[i], nodes.Length);
      for j := 0 to ARITY
        invariant Counted(edges, nodes[..], i, j)
      {
        ghost var before := nodes[..];
        var v := edges[i].vertex[j];
        nodes[v] := PeelNode(nodes[v].count + 1, Xor(nodes[v].edges, i));
        CountStep(edges, before, nodes[..], i, j);
      }
      assert edges[i].vertex[..ARITY] == edges[i].vertex;
      CountRow(edges, nodes[..], i);
    }
  }

  lemma CountStep(edges: seq<Edge>, before: seq<PeelNode>, after: seq<PeelNode>, i: nat, j: nat)
    requires i < |edges| && j < ARITY && ValidEdge(edges[i], |before|) && Counted(edges, before, i, j)
    requires var v := edges[i].vertex[j];
             after == before[v := PeelNode(before[v].count + 1, Xor(before[v].edges, i))]
    ensures Counted(edges, after, i, j + 1)
  {
    hide Xor, Ids;
    var w := edges[i].vertex[j];
    assert edges[i].vertex[..j + 1] == edges[i].vertex[..j] + [w];
    assert w !in edges[i].vertex[..j];
    CountOne(edges, w, i);
  }

  lemma CountOne(edges: seq<Edge>, v: nat, i: nat)
    requires i < |edges| && v in edges[i].vertex
    ensures Degree(edges, Ids(|edges|), v, i + 1) == Degree(edges, Ids(|edges|), v, i) + 1
    ensures IdXor(edges, Ids(|edges|), v, i + 1) == Xor(IdXor(edges, Ids(|edges|), v, i), i)
  {
  }

  lemma CountRow(edges: seq<Edge>, nodes: seq<PeelNode>, i: nat)
    requires i < |edges| && ValidEdge(edges[i], |nodes|) && Counted(edges, nodes, i, ARITY)
    ensures Counted(edges, nodes, i + 1, 0)
  {
    assert edges[i].vertex[..ARITY] == edges[i].vertex;
  }

  // ---------- peeling one edge ----------

  /** The nodes while edge e is being removed, its first i vertices being done. */
  ghost predicate Removing(edges: seq<Edge>, nodes: seq<PeelNode>, s: set<nat>, e: nat, i: nat)
    requires e < |edges| && i <= |edges[e].vertex|
  {
    forall v :: 0 <= v < |nodes| ==> nodes[v] == NodeOf(edges, if v in edges[e].vertex[..i] then s - {e} else s, v)
  }

  lemma RemovingStep(edges: seq<Edge>, before: seq<PeelNode>, s: set<nat>, e: nat, i: nat)
    requires e < |edges| && e in s && i < ARITY && ValidEdge(edges[e], |before|) && Removing(edges, before, s, e, i)
    ensures var w := edges[e].vertex[i];
            && before[w].count >= 1
            && Removing(edges, before[w := PeelNode(before[w].count - 1, Xor(before[w].edges, e))], s, e, i + 1)
            && (before[w].count == 2 ==> Xor(before[w].edges, e) < |edges|)
  {
    var w := edges[e].vertex[i];
    assert edges[e].vertex[..i + 1] == edges[e].vertex[..i] + [w];
    assert w !in edges[e].vertex[..i];
    RemoveEdge(edges, s, w, |edges|, e);
    if before[w].count == 2 {
      DegreeOne(edges, s - {e}, w, |edges|);
    }
  }

  lemma RemovedNode(edges: seq<Edge>, nodes: seq<PeelNode>, s: set<nat>, e: nat, i: nat)
    requires e < |edges| && i < ARITY && ValidEdge(edges[e], |nodes|) && Removing(edges, nodes, s, e, i + 1)
    ensures nodes[edges[e].vertex[i]] == NodeOf(edges, s - {e}, edges[e].vertex[i])
  {
    assert edges[e].vertex[i] in edges[e].vertex[..i + 1];
  }

  lemma RemovingDone(edges: seq<Edge>, nodes: seq<PeelNode>, s: set<nat>, e: nat)
    requires e < |edges| && ValidEdge(edges[e], |nodes|) && Removing(edges, nodes, s, e, ARITY)
    ensures NodesMatch(edges, nodes, s - {e})
  {
    assert edges[e].vertex[..ARITY] == edges[e].vertex;
    forall v | 0 <= v < |nodes|
      ensures nodes[v] == NodeOf(edges, s - {e}, v)
    {
      if v !in edges[e].vertex {
        RemoveUntouched(edges, s, v, |edges|, e);
      }
    }
  }

  lemma RemovingNothing(edges: seq<Edge>, nodes: seq<PeelNode>, s: set<nat>, e: nat)
    requires e < |edges| && NodesMatch(edges, nodes, s)
    ensures Removing(edges, nodes, s, e, 0)
  {
  }

  lemma NodeFields(edges: seq<Edge>, s: set<nat>, v: nat)
    ensures NodeOf(edges, s, v) == PeelNode(Degree(edges, s, v, |edges|), IdXor(edges, s, v, |edges|))
  {
  }

  /** One vertex of the edge that is removed; queued when this leaves it with one edge. */
  method DropEdge(vertex: nat, vertexNumber: nat, edgeNumber: nat, nodes: array<PeelNode>, toPeel: array<EdgePeel>,
                  end: nat, ghost n: nat, ghost begin: nat) returns (queued: bool)
    requires vertex < nodes.Length && nodes[vertex].count >= 1 && toPeel.Length == nodes.Length && end <= toPeel.Length
    requires QueueState(n, nodes[..], toPeel[..end], begin, nodes.Length)
    requires nodes[vertex].count == 2 ==> Xor(nodes[vertex].edges, edgeNumber) < n
    requires vertex == vertexNumber ==> nodes[vertex].count == 1
    modifies nodes, toPeel
    ensures nodes[..] == old(nodes[..])[vertex := PeelNode(old(nodes[vertex].count) - 1,
                                                           Xor(old(nodes[vertex].edges), edgeNumber))]
    ensures toPeel[..end] == old(toPeel[..end])
    ensures queued ==> end < toPeel.Length && toPeel[end] == EdgePeel(nodes[vertex].edges, vertex)
    ensures queued <==> nodes[vertex].count == 1 && vertex != vertexNumber
    ensures QueueState(n, nodes[..], toPeel[..if queued then end + 1 else end], begin, nodes.Length)
  {
    hide Xor, QueueState, Queued;
    ghost var q := toPeel[..end];
    QueueStep(n, nodes[..], q, begin, vertex, Xor(nodes[vertex].edges, edgeNumber));
    nodes[vertex] := PeelNode(nodes[vertex].count - 1, Xor(nodes[vertex].edges, edgeNumber));
    queued := nodes[vertex].count == 1 && vertex != vertexNumber;
    if queued {
      // New peelable node
      toPeel[end] := EdgePeel(nodes[vertex].edges, vertex);
      assert toPeel[..end + 1] == q + [EdgePeel(nodes[vertex].edges, vertex)];
    }
  }

  /** Removes the last edge of a node and queues the nodes that this leaves with one edge: at
  most two, as the node itself is not among them. */
  method PeelOnce(vertexNumber: nat, edges: seq<Edge>, nodes: array<PeelNode>, toPeel: array<EdgePeel>, end: nat,
                  ghost s: set<nat>, ghost begin: nat) returns (result: nat)
    requires ValidEdges(edges, nodes.Length) && toPeel.Length == nodes.Length && end <= toPeel.Length
    requires NodesMatch(edges, nodes[..], s) && QueueState(|edges|, nodes[..], toPeel[..end], begin, nodes.Length)
    requires vertexNumber < nodes.Length && nodes[vertexNumber].count == 1
    modifies nodes, toPeel
    ensures result < ARITY && end + result <= toPeel.Length
    ensures ghost var e := old(nodes[vertexNumber].edges);
            && e < |edges| && e in s && vertexNumber in edges[e].vertex && NodesMatch(edges, nodes[..], s - {e})
            && toPeel[end..end + result] == Uncovered(edges, s - {e}, vertexNumber, edges[e].vertex)
    ensures QueueState(|edges|, nodes[..], toPeel[..end + result], begin, nodes.Length)
    ensures toPeel[..end] == old(toPeel[..end]) && nodes[vertexNumber].count == 0
  {
    hide Degree, IdXor, Xor, QueueState, Queued, NodeOf, Removing, Uncovered;
    result := 0;
    assert nodes[vertexNumber] == NodeOf(edges, s, vertexNumber);
    NodeFields(edges, s, vertexNumber);
    var edgeNumber := nodes[vertexNumber].edges;
    DegreeOne(edges, s, vertexNumber, |edges|);
    assert ValidEdge(edges[edgeNumber], nodes.Length);
    RemovingNothing(edges, nodes[..], s, edgeNumber);
    ghost var seenSelf := false;
    ghost var vs := edges[edgeNumber].vertex;
    UncoveredNone(edges, s - {edgeNumber}, vertexNumber, vs);
    for i := 0 to ARITY
      invariant Removing(edges, nodes[..], s, edgeNumber, i)
      invariant end + result <= toPeel.Length && toPeel[..end] == old(toPeel[..end])
      invariant toPeel[end..end + result] == Uncovered(edges, s - {edgeNumber}, vertexNumber, vs[..i])
      invariant QueueState(|edges|, nodes[..], toPeel[..end + result], begin, nodes.Length)
      invariant seenSelf <==> exists j :: 0 <= j < i && edges[edgeNumber].vertex[j] == vertexNumber
      invariant result + (if seenSelf then 1 else 0) <= i
      invariant nodes[vertexNumber].count == (if seenSelf then 0 else 1)
    {
      var vertex := edges[edgeNumber].vertex[i];
      ghost var before := toPeel[..end + result];
      RemovingStep(edges, nodes[..], s, edgeNumber, i);
      UncoveredStep(edges, s - {edgeNumber}, vertexNumber, vs, i);
      seenSelf := seenSelf || vertex == vertexNumber;
      var queued := DropEdge(vertex, vertexNumber, edgeNumber, nodes, toPeel, end + result, |edges|, begin);
      assert toPeel[..end] == before[..end];
      assert toPeel[end..end + result] == before[end..];
      RemovedNode(edges, nodes[..], s, edgeNumber, i);
      if queued {
        result := result + 1;
      }
    }
    assert edges[edgeNumber].vertex[..ARITY] == edges[edgeNumber].vertex;
    RemovingDone(edges, nodes[..], s, edgeNumber);
  }

  // ---------- peeling everything that can be peeled ----------

  /** The first node, in order, that has at most one edge is queued with that edge. */
  lemma SeeNode(n: nat, nodes: seq<PeelNode>, q: seq<EdgePeel>, w: nat)
    requires QueueState(n, nodes, q, 0, w) && w < |nodes|
    ensures |q| < |nodes|
    ensures nodes[w].count > 1 ==> QueueState(n, nodes, q, 0, w + 1)
    ensures nodes[w].count <= 1 && (n > 0 ==> nodes[w].edges < n) ==>
              QueueState(n, nodes, q + [EdgePeel(nodes[w].edges, w)], 0, w + 1)
  {
    assert !Queued(q, w);
    QueueFits(q, |nodes|);
    QueuedPush(q, EdgePeel(nodes[w].edges, w));
  }

  lemma SmallDegree(edges: seq<Edge>, s: set<nat>, v: nat)
    requires NodeOf(edges, s, v).count <= 1
    ensures |edges| > 0 ==> NodeOf(edges, s, v).edges < |edges|
  {
    if Degree(edges, s, v, |edges|) == 0 {
      NoEdgesZero(edges, s, v, |edges|);
    } else {
      DegreeOne(edges, s, v, |edges|);
    }
  }

  /** Queues all nodes with at most one edge. */
  method Survey(edges: seq<Edge>, nodes: array<PeelNode>, toPeel: array<EdgePeel>, ghost s: set<nat>)
    returns (end: nat)
    requires toPeel.Length == nodes.Length && NodesMatch(edges, nodes[..], s)
    modifies toPeel
    ensures end <= toPeel.Length && QueueState(|edges|, nodes[..], toPeel[..end], 0, nodes.Length)
    ensures toPeel[..end] == SurveyQueue(edges, s, nodes.Length)
  {
    hide Degree, IdXor, Queued, NodeOf, QueueState;
    end := 0;
    EmptyQueue(|edges|, nodes[..]);
    var toSee := 0;
    while toSee < nodes.Length
      invariant toSee <= nodes.Length && end <= toPeel.Length
      invariant QueueState(|edges|, nodes[..], toPeel[..end], 0, toSee)
      invariant toPeel[..end] == SurveyQueue(edges, s, toSee)
    {
      assert nodes[toSee] == NodeOf(edges, s, toSee);
      SurveyStep(edges, s, toSee);
      SeeNode(|edges|, nodes[..], toPeel[..end], toSee);
      if nodes[toSee].count > 1 {
        toSee := toSee + 1;
        continue;
      }
      SmallDegree(edges, s, toSee);
      ghost var q := toPeel[..end];
      toPeel[end] := EdgePeel(nodes[toSee].edges, toSee);
      end := end + 1;
      assert toPeel[..end] == q + [EdgePeel(nodes[toSee].edges, toSee)];
      toSee := toSee + 1;
    }
  }

  lemma EmptyQueue(n: nat, nodes: seq<PeelNode>)
    ensures QueueState(n, nodes, [], 0, 0)
  {
  }

  lemma QueueBegin(n: nat, nodes: seq<PeelNode>, q: seq<EdgePeel>, begin: nat)
    requires QueueState(n, nodes, q, begin, |nodes|) && begin < |q|
    ensures var v := q[begin].peeledVertex;
            && v < |nodes|
            && nodes[v].count < 2
            && (nodes[v].count == 1 ==> q[begin].edgeNumber == nodes[v].edges)
  {
    assert Queued(q, q[begin].peeledVertex);
  }

  lemma QueueAdvance(n: nat, nodes: seq<PeelNode>, q: seq<EdgePeel>, begin: nat)
    requires QueueState(n, nodes, q, begin, |nodes|) && begin < |q| && nodes[q[begin].peeledVertex].count == 0
    ensures QueueState(n, nodes, q, begin + 1, |nodes|)
  {
  }

  /** The edge at the head of the queue is solved there: its vertices come no earlier. */
  lemma PeeledHere(edges: seq<Edge>, nodes: seq<PeelNode>, q: seq<EdgePeel>, begin: nat, s: set<nat>)
    requires QueueState(|edges|, nodes, q, begin, |nodes|) && begin < |q| && NodesMatch(edges, nodes, s)
    requires nodes[q[begin].peeledVertex].count == 1 && Progress(edges, q, s)
    ensures var e := q[begin].edgeNumber;
            e < |edges| && PeeledAt(edges, q, e, begin) && Progress(edges, q, s - {e})
  {
    var v := q[begin].peeledVertex;
    var e := q[begin].edgeNumber;
    assert nodes[v] == NodeOf(edges, s, v);
    DegreeOne(edges, s, v, |edges|);
    forall j | 0 <= j < begin
      ensures q[j].peeledVertex !in edges[e].vertex
    {
      assert nodes[q[j].peeledVertex] == NodeOf(edges, s, q[j].peeledVertex);
      DegreeZero(edges, s, q[j].peeledVertex, |edges|, e);
    }
    assert PeeledAt(edges, q, e, begin);
  }

  lemma ProgressPush(edges: seq<Edge>, q: seq<EdgePeel>, q': seq<EdgePeel>, s: set<nat>)
    requires Progress(edges, q, s) && |q| <= |q'| && q == q'[..|q|]
    ensures Progress(edges, q', s)
  {
    assert q' == q + q'[|q|..];
    forall e: nat | e < |edges| && e !in s
      ensures Solved(edges, q', e)
    {
      SolvedPush(edges, q, q'[|q|..], e);
    }
  }

  /** When the queue is used up: a full one is a peel order, else what remains is a 2-core. */
  lemma QueueDone(edges: seq<Edge>, nodes: seq<PeelNode>, q: seq<EdgePeel>, s: set<nat>)
    requires ValidEdges(edges, |nodes|) && NodesMatch(edges, nodes, s) && Progress(edges, q, s)
    requires QueueState(|edges|, nodes, q, |q|, |nodes|)
    ensures |q| <= |nodes|
    ensures |q| == |nodes| && |edges| > 0 ==> PeelOrder(edges, q, |nodes|)
    ensures |q| < |nodes| ==> TwoCore(edges, s)
    ensures forall v :: 0 <= v < |nodes| ==> nodes[v].count != 1
  {
    QueueFits(q, |nodes|);
    if |q| == |nodes| {
      forall e | e in s
        ensures false
      {
        RemainingTwice(edges, nodes, q, s, e, edges[e].vertex[0]);
      }
      assert forall e: nat :: e < |edges| ==> Solved(edges, q, e);
    } else {
      var v: nat :| v < |nodes| && !Queued(q, v);
      assert nodes[v] == NodeOf(edges, s, v);
      var d := AnEdge(edges, s, v, |edges|);
      forall e, w | e in s && w in edges[e].vertex
        ensures Degree(edges, s, w, |edges|) >= 2
      {
        RemainingTwice(edges, nodes, q, s, e, w);
      }
    }
  }

  /** No edge of a 2-core has been peeled. */
  lemma CoreRemains(edges: seq<Edge>, nodes: seq<PeelNode>, q: seq<EdgePeel>, s: set<nat>, c: set<nat>)
    requires ValidEdges(edges, |nodes|) && NodesMatch(edges, nodes, s) && Progress(edges, q, s)
    requires QueueState(|edges|, nodes, q, |q|, |nodes|) && TwoCore(edges, c)
    ensures c <= s
  {
    if !(c <= s) {
      var x :| x in c && x !in s;
      assert x in c - s;
      var e, i := FirstPeeled(edges, q, c - s);
      var v := q[i].peeledVertex;
      var d := AnotherEdge(edges, c, v, |edges|, e);
      assert nodes[v] == NodeOf(edges, s, v);
      if d in s {
        DegreePositive(edges, s, v, |edges|, d);
      }
    }
  }

  /** When the queue is used up it holds exactly the vertices that no 2-core touches. */
  lemma QueueIsCoreless(edges: seq<Edge>, nodes: seq<PeelNode>, q: seq<EdgePeel>, s: set<nat>)
    requires ValidEdges(edges, |nodes|) && NodesMatch(edges, nodes, s) && Progress(edges, q, s)
    requires QueueState(|edges|, nodes, q, |q|, |nodes|)
    ensures |q| == |Coreless(edges, |nodes|)|
  {
    hide TwoCore, QueueState, NodesMatch, Progress;
    forall v: nat
      ensures Queued(q, v) <==> v < |nodes| && !Cored(edges, v)
    {
      if Queued(q, v) {
        QueuedIsFree(edges, nodes, q, s, v);
      } else if v < |nodes| {
        UnqueuedIsCored(edges, nodes, q, s, v);
      }
    }
    assert Vertices(q) == Coreless(edges, |nodes|);
    QueueDistinct(|edges|, nodes, q);
    VerticesCount(q);
  }

  lemma QueueDistinct(n: nat, nodes: seq<PeelNode>, q: seq<EdgePeel>)
    requires QueueState(n, nodes, q, |q|, |nodes|)
    ensures forall i, j :: 0 <= i < j < |q| ==> q[i].peeledVertex != q[j].peeledVertex
  {
  }

  lemma QueuedIsFree(edges: seq<Edge>, nodes: seq<PeelNode>, q: seq<EdgePeel>, s: set<nat>, v: nat)
    requires ValidEdges(edges, |nodes|) && NodesMatch(edges, nodes, s) && Progress(edges, q, s)
    requires QueueState(|edges|, nodes, q, |q|, |nodes|) && Queued(q, v)
    ensures v < |nodes| && !Cored(edges, v)
  {
    var i :| 0 <= i < |q| && q[i].peeledVertex == v;
    assert nodes[v] == NodeOf(edges, s, v);
    if c :| TwoCore(edges, c) && Touched(edges, c, v) {
      CoreRemains(edges, nodes, q, s, c);
      var e :| e in c && e < |edges| && v in edges[e].vertex;
      DegreePositive(edges, s, v, |edges|, e);
    }
  }

  lemma UnqueuedIsCored(edges: seq<Edge>, nodes: seq<PeelNode>, q: seq<EdgePeel>, s: set<nat>, v: nat)
    requires ValidEdges(edges, |nodes|) && NodesMatch(edges, nodes, s) && Progress(edges, q, s)
    requires QueueState(|edges|, nodes, q, |q|, |nodes|) && !Queued(q, v) && v < |nodes|
    ensures Cored(edges, v)
  {
    QueueFits(q, |nodes|);
    QueueDone(edges, nodes, q, s);
    assert nodes[v] == NodeOf(edges, s, v);
    var d := AnEdge(edges, s, v, |edges|);
    assert Touched(edges, s, v);
  }

  lemma RemainingTwice(edges: seq<Edge>, nodes: seq<PeelNode>, q: seq<EdgePeel>, s: set<nat>, e: nat, w: nat)
    requires ValidEdges(edges, |nodes|) && NodesMatch(edges, nodes, s)
    requires QueueState(|edges|, nodes, q, |q|, |nodes|)
    requires e < |edges| && e in s && w in edges[e].vertex
    ensures Degree(edges, s, w, |edges|) >= 2 && w < |nodes| && !Queued(q, w)
  {
    assert ValidEdge(edges[e], |nodes|);
    DegreePositive(edges, s, w, |edges|, e);
    assert nodes[w] == NodeOf(edges, s, w);
  }

  /** Peels until no node has exactly one edge. All nodes get queued iff there is no 2-core, and
  then the queue is an order in which the edges can be solved. */
  method Peel(edges: seq<Edge>, nodes: array<PeelNode>, toPeel: array<EdgePeel>) returns (begin: nat)
    requires ValidEdges(edges, nodes.Length) && toPeel.Length == nodes.Length
    requires NodesMatch(edges, nodes[..], Ids(|edges|))
    modifies nodes, toPeel
    ensures begin <= nodes.Length
    ensures toPeel[..begin] == PeelQueue(edges, nodes.Length)
    ensures begin == |Coreless(edges, nodes.Length)|
    ensures begin == nodes.Length <==> !exists s :: TwoCore(edges, s)
    ensures begin == nodes.Length && |edges| > 0 ==> PeelOrder(edges, toPeel[..], nodes.Length)
    ensures forall v :: 0 <= v < nodes.Length ==> nodes[v].count != 1
  {
    hide QueueState, NodesMatch, Progress, TwoCore, PeelOrder, Ids, Coreless, QueueFrom,
         SurveyQueue, Uncovered, NodeOf;
    ghost var s := Ids(|edges|);
    AllRemain(edges, []);
    var end := Survey(edges, nodes, toPeel, s);
    ProgressPush(edges, [], toPeel[..end], s);
    begin := 0;
    while begin < end
      invariant begin <= end <= toPeel.Length
      invariant NodesMatch(edges, nodes[..], s) && Progress(edges, toPeel[..end], s)
      invariant QueueState(|edges|, nodes[..], toPeel[..end], begin, nodes.Length)
      invariant QueueFrom(edges, s, toPeel[..end], begin, nodes.Length) == PeelQueue(edges, nodes.Length)
      decreases toPeel.Length - begin
    {
      ghost var q := toPeel[..end];
      QueueFromStep(edges, s, q, begin, nodes.Length);
      QueueBegin(|edges|, nodes[..], q, begin);
      NodeMatches(edges, nodes[..], s, q[begin].peeledVertex);
      if nodes[toPeel[begin].peeledVertex].count == 0 {
        QueueAdvance(|edges|, nodes[..], q, begin);
        begin := begin + 1;
        continue;
      }
      PeeledHere(edges, nodes[..], q, begin, s);
      var more := PeelOnce(toPeel[begin].peeledVertex, edges, nodes, toPeel, end, s, begin);
      s := s - {q[begin].edgeNumber};
      assert toPeel[..end + more] == q + toPeel[end..end + more];
      end := end + more;
      ProgressPush(edges, q, toPeel[..end], s);
      QueueAdvance(|edges|, nodes[..], toPeel[..end], begin);
      begin := begin + 1;
    }
    QueueFromEnd(edges, s, toPeel[..end], nodes.Length);
    QueueDone(edges, nodes[..], toPeel[..end], s);
    QueueIsCoreless(edges, nodes[..], toPeel[..end], s);
    if begin == nodes.Length {
      assert toPeel[..end] == toPeel[..];
      forall t
        ensures !TwoCore(edges, t)
      {
        if |edges| == 0 {
          NoEdgesNoCore(edges, t);
        } else {
          OrderExcludesTwoCore(edges, toPeel[..], nodes.Length, t);
        }
      }
    }
  }

  lemma NodeMatches(edges: seq<Edge>, nodes: seq<PeelNode>, s: set<nat>, v: nat)
    requires NodesMatch(edges, nodes, s) && v < |nodes|
    ensures nodes[v] == NodeOf(edges, s, v)
  {
  }

  lemma AllRemain(edges: seq<Edge>, q: seq<EdgePeel>)
    ensures Progress(edges, q, Ids(|edges|))
  {
  }

  // ---------- solving backwards ----------

  /** The fingerprint and the first k table cells of an edge, all xored. */
  function Residue(e: Edge, xors: seq<bv8>, k: nat): bv8
    requires ValidEdge(e, |xors|) && k <= ARITY
  {
    if k == 0 then e.fingerprint else Xor8(Residue(e, xors, k - 1), xors[e.vertex[k - 1]])
  }

  /** Exclusive or of bytes. */
  function Xor8(a: bv8, b: bv8): bv8 {
    a ^ b
  }

  /** The edge's equation holds: its cells xor to its fingerprint. */
  predicate Balanced(e: Edge, xors: seq<bv8>)
    requires ValidEdge(e, |xors|)
  {
    e.fingerprint == Xor8(Xor8(xors[e.vertex[0]], xors[e.vertex[1]]), xors[e.vertex[2]])
  }

  lemma ResidueIsAll(e: Edge, xors: seq<bv8>)
    requires ValidEdge(e, |xors|)
    ensures Residue(e, xors, ARITY) ==
            Xor8(Xor8(Xor8(e.fingerprint, xors[e.vertex[0]]), xors[e.vertex[1]]), xors[e.vertex[2]])
    ensures Residue(e, xors, ARITY) == 0 <==> Balanced(e, xors)
  {
    hide Xor8;
    assert Residue(e, xors, 1) == Xor8(Residue(e, xors, 0), xors[e.vertex[0]]);
    assert Residue(e, xors, 2) == Xor8(Residue(e, xors, 1), xors[e.vertex[1]]);
    assert Residue(e, xors, 3) == Xor8(Residue(e, xors, 2), xors[e.vertex[2]]);
    XorMoves(e.fingerprint, xors[e.vertex[0]], xors[e.vertex[1]], xors[e.vertex[2]]);
  }

  lemma Xor8Laws(a: bv8, b: bv8)
    ensures Xor8(a, b) == Xor8(b, a) && Xor8(a, 0) == a
    ensures Xor8(a, b) == 0 <==> a == b
  {
  }

  lemma Xor8Associates(a: bv8, b: bv8, c: bv8)
    ensures Xor8(Xor8(a, b), c) == Xor8(a, Xor8(b, c))
  {
  }

  lemma XorMoves(f: bv8, a: bv8, b: bv8, c: bv8)
    ensures Xor8(Xor8(Xor8(f, a), b), c) == 0 <==> f == Xor8(Xor8(a, b), c)
  {
    hide Xor8;
    Xor8Associates(Xor8(f, a), b, c);
    Xor8Associates(f, a, Xor8(b, c));
    Xor8Associates(a, b, c);
    Xor8Laws(f, Xor8(a, Xor8(b, c)));
  }

  lemma XorTwice(f: bv8, a: bv8, b: bv8)
    ensures f == Xor8(Xor8(Xor8(Xor8(f, a), b), a), b)
  {
    hide Xor8;
    var r, z := Xor8(Xor8(f, a), b), Xor8(a, b);
    Xor8Associates(f, a, b);
    Xor8Associates(r, a, b);
    Xor8Associates(f, z, z);
    Xor8Laws(z, z);
    Xor8Laws(f, 0);
  }

  /** Whether the edge's fingerprint matches the table. */
  method FindEdge(e: Edge, xors: array<bv8>) returns (found: bool)
    requires ValidEdge(e, xors.Length)
    ensures found <==> Balanced(e, xors[..])
  {
    hide Xor8;
    var fingerprint := e.fingerprint;
    for i := 0 to ARITY
      invariant fingerprint == Residue(e, xors[..], i)
    {
      fingerprint := Xor8(fingerprint, xors[e.vertex[i]]);
    }
    ResidueIsAll(e, xors[..]);
    found := 0 == fingerprint;
  }

  /** Writing what is missing into an empty cell of an edge makes its equation hold. */
  lemma CellSolves(e: Edge, xors: seq<bv8>, v: nat)
    requires ValidEdge(e, |xors|) && v in e.vertex && v < |xors| && xors[v] == 0
    ensures Balanced(e, xors[v := Residue(e, xors, ARITY)])
  {
    hide Xor8, Residue;
    ResidueIsAll(e, xors);
    SolveFor(e.fingerprint, xors[e.vertex[0]], xors[e.vertex[1]], xors[e.vertex[2]]);
  }

  lemma SolveFor(f: bv8, a: bv8, b: bv8, c: bv8)
    ensures var r := Xor8(Xor8(Xor8(f, a), b), c);
            && (a == 0 ==> f == Xor8(Xor8(r, b), c))
            && (b == 0 ==> f == Xor8(Xor8(a, r), c))
            && (c == 0 ==> f == Xor8(Xor8(a, b), r))
  {
    hide Xor8;
    var r := Xor8(Xor8(Xor8(f, a), b), c);
    Xor8Laws(f, 0);
    Xor8Laws(Xor8(f, a), 0);
    Xor8Laws(Xor8(Xor8(f, a), b), 0);
    XorTwice(f, b, c);
    XorTwice(f, a, c);
    XorTwice(f, a, b);
    Xor8Laws(r, a);
    Xor8Associates(r, a, b);
    Xor8Laws(r, Xor8(a, b));
  }

  lemma CellElsewhere(e: Edge, xors: seq<bv8>, v: nat, x: bv8)
    requires ValidEdge(e, |xors|) && v !in e.vertex && v < |xors|
    ensures Balanced(e, xors[v := x]) <==> Balanced(e, xors)
  {
    hide Xor8;
  }

  /** The edges whose entry has been processed have their equation. */
  ghost predicate SolvedFrom(edges: seq<Edge>, order: seq<EdgePeel>, xors: seq<bv8>, j: nat)
    requires ValidEdges(edges, |xors|)
  {
    forall e: nat, i: nat :: e < |edges| && PeeledAt(edges, order, e, i) && j <= i ==> Balanced(edges[e], xors)
  }

  /** The cells of the entries still to come are empty. */
  ghost predicate Untouched(order: seq<EdgePeel>, xors: seq<bv8>, j: nat)
    requires j <= |order|
  {
    forall i :: 0 <= i < j ==> order[i].peeledVertex < |xors| && xors[order[i].peeledVertex] == 0
  }

  /** One entry, of whatever kind: peeled there, peeled elsewhere, or of a vertex without edges. */
  lemma UnpeelStep(edges: seq<Edge>, order: seq<EdgePeel>, xors: seq<bv8>, j: nat)
    requires ValidEdges(edges, |xors|) && PeelOrder(edges, order, |xors|) && j < |order|
    requires Untouched(order, xors, j + 1) && SolvedFrom(edges, order, xors, j + 1)
    ensures ValidEdge(edges[order[j].edgeNumber], |xors|)
    ensures var xors' := xors[order[j].peeledVertex := Residue(edges[order[j].edgeNumber], xors, ARITY)];
            Untouched(order, xors', j) && SolvedFrom(edges, order, xors', j)
  {
    hide Balanced, Residue;
    var v, d := order[j].peeledVertex, order[j].edgeNumber;
    assert ValidEdge(edges[d], |xors|);
    var xors' := xors[v := Residue(edges[d], xors, ARITY)];
    forall e: nat, i: nat | e < |edges| && PeeledAt(edges, order, e, i) && j <= i
      ensures Balanced(edges[e], xors')
    {
      assert ValidEdge(edges[e], |xors|);
      if i == j {
        CellSolves(edges[d], xors, v);
      } else {
        CellElsewhere(edges[e], xors, v, Residue(edges[d], xors, ARITY));
      }
    }
  }

  /** The cell of v if v comes after entry j in the order, and else 0. */
  ghost function CellAfter(order: seq<EdgePeel>, xors: seq<bv8>, j: nat, v: nat): bv8
    requires v < |xors|
  {
    if exists i :: j < i < |order| && order[i].peeledVertex == v then xors[v] else 0
  }

  /** The cell of entry j is what its edge's fingerprint and the cells that come later leave. */
  ghost predicate Settled(edges: seq<Edge>, order: seq<EdgePeel>, xors: seq<bv8>, j: nat)
    requires ValidEdges(edges, |xors|) && j < |order| && order[j].edgeNumber < |edges|
    requires order[j].peeledVertex < |xors|
  {
    var e := edges[order[j].edgeNumber];
    assert ValidEdge(e, |xors|);
    xors[order[j].peeledVertex] ==
    Xor8(Xor8(Xor8(e.fingerprint, CellAfter(order, xors, j, e.vertex[0])), CellAfter(order, xors, j, e.vertex[1])),
         CellAfter(order, xors, j, e.vertex[2]))
  }

  /** The entries from j on are settled, and all other cells are still 0. */
  ghost predicate SettledFrom(edges: seq<Edge>, order: seq<EdgePeel>, xors: seq<bv8>, j: nat)
    requires ValidEdges(edges, |xors|) && PeelOrder(edges, order, |xors|)
  {
    && (forall i :: j <= i < |order| ==> Settled(edges, order, xors, i))
    && (forall v :: 0 <= v < |xors| && xors[v] != 0 ==> Comes(order, j, v))
  }

  ghost predicate Comes(order: seq<EdgePeel>, j: nat, v: nat) {
    exists i :: j <= i < |order| && order[i].peeledVertex == v
  }

  lemma CellIsAfter(order: seq<EdgePeel>, xors: seq<bv8>, j: nat, v: nat)
    requires v < |xors| && (xors[v] != 0 ==> Comes(order, j + 1, v))
    ensures CellAfter(order, xors, j, v) == xors[v]
  {
    if xors[v] != 0 {
      var i :| j + 1 <= i < |order| && order[i].peeledVertex == v;
    }
  }

  /** Writing the cell of an entry at or before j changes nothing that comes after j. */
  lemma CellAfterKept(order: seq<EdgePeel>, xors: seq<bv8>, j: nat, v: nat, i: nat, x: bv8)
    requires v < |xors| && i <= j < |order| && order[i].peeledVertex < |xors|
    requires forall i, j :: 0 <= i < j < |order| ==> order[i].peeledVertex != order[j].peeledVertex
    ensures CellAfter(order, xors[order[i].peeledVertex := x], j, v) == CellAfter(order, xors, j, v)
  {
  }

  lemma NothingSettled(edges: seq<Edge>, order: seq<EdgePeel>, xors: seq<bv8>)
    requires ValidEdges(edges, |xors|) && PeelOrder(edges, order, |xors|)
    requires forall v :: 0 <= v < |xors| ==> xors[v] == 0
    ensures SettledFrom(edges, order, xors, |order|)
  {
    hide Xor8, Solved;
  }

  lemma SettleStep(edges: seq<Edge>, order: seq<EdgePeel>, xors: seq<bv8>, j: nat)
    requires ValidEdges(edges, |xors|) && PeelOrder(edges, order, |xors|) && j < |order|
    requires SettledFrom(edges, order, xors, j + 1)
    ensures ValidEdge(edges[order[j].edgeNumber], |xors|)
    ensures var xors' := xors[order[j].peeledVertex := Residue(edges[order[j].edgeNumber], xors, ARITY)];
            SettledFrom(edges, order, xors', j)
  {
    hide Residue, Xor8, CellAfter, Comes, Solved;
    var w, e := order[j].peeledVertex, edges[order[j].edgeNumber];
    assert ValidEdge(e, |xors|);
    var x := Residue(e, xors, ARITY);
    var xors' := xors[w := x];
    forall i | j <= i < |order|
      ensures Settled(edges, order, xors', i)
    {
      var d := edges[order[i].edgeNumber];
      assert ValidEdge(d, |xors|);
      forall k | 0 <= k < ARITY
        ensures CellAfter(order, xors', i, d.vertex[k]) == CellAfter(order, xors, i, d.vertex[k])
      {
        CellAfterKept(order, xors, i, d.vertex[k], j, x);
      }
      if i == j {
        ResidueIsAll(e, xors);
        CellIsAfter(order, xors, j, e.vertex[0]);
        CellIsAfter(order, xors, j, e.vertex[1]);
        CellIsAfter(order, xors, j, e.vertex[2]);
      } else {
        assert Settled(edges, order, xors, i);
      }
    }
    forall v | 0 <= v < |xors| && xors'[v] != 0
      ensures Comes(order, j, v)
    {
      ComesEarlier(order, j, v);
    }
  }

  lemma ComesEarlier(order: seq<EdgePeel>, j: nat, v: nat)
    requires j < |order|
    ensures Comes(order, j + 1, v) || order[j].peeledVertex == v <==> Comes(order, j, v)
  {
    if Comes(order, j, v) {
      var i :| j <= i < |order| && order[i].peeledVertex == v;
      assert i == j || j + 1 <= i;
    }
  }

  /** The order and the edges determine the table. */
  lemma {:induction false} SettledUnique(edges: seq<Edge>, order: seq<EdgePeel>, xs: seq<bv8>, ys: seq<bv8>, j: nat)
    requires |xs| == |ys| && ValidEdges(edges, |xs|) && PeelOrder(edges, order, |xs|) && j <= |order|
    requires SettledFrom(edges, order, xs, 0) && SettledFrom(edges, order, ys, 0)
    ensures forall i :: j <= i < |order| ==> xs[order[i].peeledVertex] == ys[order[i].peeledVertex]
    ensures j == 0 ==> xs == ys
    decreases |order| - j
  {
    hide Xor8, Solved;
    if j == |order| {
    } else {
      SettledUnique(edges, order, xs, ys, j + 1);
      var e := edges[order[j].edgeNumber];
      assert ValidEdge(e, |xs|);
      forall k | 0 <= k < ARITY
        ensures CellAfter(order, xs, j, e.vertex[k]) == CellAfter(order, ys, j, e.vertex[k])
      {
      }
      assert Settled(edges, order, xs, j) && Settled(edges, order, ys, j);
    }
    if j == 0 {
      forall v | 0 <= v < |xs|
        ensures xs[v] == ys[v]
      {
        if xs[v] != 0 || ys[v] != 0 {
          var i :| 0 <= i < |order| && order[i].peeledVertex == v;
        }
      }
    }
  }

  /** Solves all equations, last entry first. Every cell is zero before it is written, and the cell
  of each entry is what its edge needs of the cells that come later in the order. */
  method Unpeel(edges: seq<Edge>, order: seq<EdgePeel>, xors: array<bv8>)
    requires ValidEdges(edges, xors.Length) && PeelOrder(edges, order, xors.Length)
    requires forall v :: 0 <= v < xors.Length ==> xors[v] == 0
    modifies xors
    ensures forall e :: 0 <= e < |edges| ==> Balanced(edges[e], xors[..])
    ensures SettledFrom(edges, order, xors[..], 0)
  {
    hide Balanced, Residue, SettledFrom;
    NothingSettled(edges, order, xors[..]);
    for i := 0 to |order|
      invariant SettledFrom(edges, order, xors[..], |order| - i)
      invariant Untouched(order, xors[..], |order| - i)
      invariant SolvedFrom(edges, order, xors[..], |order| - i)
    {
      var j := |order| - 1 - i;
      UnpeelStep(edges, order, xors[..], j);
      SettleStep(edges, order, xors[..], j);
      var e := edges[order[j].edgeNumber];
      assert 0 == xors[order[j].peeledVertex];
      var remainder := XorEdge(e, xors);
      ghost var before := xors[..];
      xors[order[j].peeledVertex] := remainder;
      assert xors[..] == before[order[j].peeledVertex := remainder];
    }
    forall e: nat | e < |edges|
      ensures Balanced(edges[e], xors[..])
    {
      assert Solved(edges, order, e);
      var i: nat :| PeeledAt(edges, order, e, i);
    }
  }

  /** The inner loop of unpeel. */
  method XorEdge(e: Edge, xors: array<bv8>) returns (remainder: bv8)
    requires ValidEdge(e, xors.Length)
    ensures remainder == Residue(e, xors[..], ARITY)
  {
    remainder := e.fingerprint;
    for k := 0 to ARITY
      invariant remainder == Residue(e, xors[..], k)
    {
      remainder := Xor8(remainder, xors[e.vertex[k]]);
    }
  }
}
