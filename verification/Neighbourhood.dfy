/** The bounded breadth-first walk around a seed node of the fraud graph. */
module Neighbourhood {
  import opened Wrappers

  type NodeId = string

  datatype Edge = Edge(source: NodeId, target: NodeId)

  /** The two tables; `nodes` lists the ids in the order in which a query returns rows. */
  datatype Graph = Graph(nodes: seq<NodeId>, edges: seq<Edge>)

  ghost predicate Distinct<T>(s: seq<T>) {
    forall i, j :: 0 <= i < j < |s| ==> s[i] != s[j]
  }

  function ToSet<T>(s: seq<T>): set<T> {
    set x | x in s
  }

  /** Foreign keys: both ends of an edge are rows of the node table. */
  ghost predicate Valid(g: Graph) {
    Distinct(g.nodes) && forall e :: e in g.edges ==> e.source in g.nodes && e.target in g.nodes
  }

  // ---------- distance ----------

  ghost predicate Adjacent(g: Graph, a: NodeId, b: NodeId) {
    Edge(a, b) in g.edges || Edge(b, a) in g.edges
  }

  /** `w` walks from `seed` along edges, in either direction. */
  ghost predicate Walk(g: Graph, seed: NodeId, w: seq<NodeId>) {
    w != [] && w[0] == seed && forall i :: 0 < i < |w| ==> Adjacent(g, w[i - 1], w[i])
  }

  function Neighbours(edges: seq<Edge>, s: set<NodeId>): set<NodeId> {
    (set e | e in edges && e.source in s :: e.target) + (set e | e in edges && e.target in s :: e.source)
  }

  /** All nodes at distance at most `r` from the seed. */
  function Ball(g: Graph, seed: NodeId, r: nat): set<NodeId> {
    if r == 0 then {seed}
    else
      var inner := Ball(g, seed, r - 1);
      inner + Neighbours(g.edges, inner)
  }

  lemma NeighboursAdjacent(g: Graph, s: set<NodeId>, y: NodeId)
    ensures y in Neighbours(g.edges, s) <==> exists x :: x in s && Adjacent(g, x, y)
  {
    if y in Neighbours(g.edges, s) {
      var e :| e in g.edges && ((e.source in s && e.target == y) || (e.target in s && e.source == y));
      var x := if e.target == y && e.source in s then e.source else e.target;
      assert e == Edge(x, y) || e == Edge(y, x);
      assert x in s && Adjacent(g, x, y);
    }
    if x :| x in s && Adjacent(g, x, y) {
      var e := if Edge(x, y) in g.edges then Edge(x, y) else Edge(y, x);
      assert e in g.edges;
    }
  }

  /** The ball is what walks of at most `r` edges reach. */
  lemma {:induction false} BallIsDistance(g: Graph, seed: NodeId, r: nat, x: NodeId)
    ensures x in Ball(g, seed, r) <==> exists w :: Walk(g, seed, w) && |w| <= r + 1 && w[|w| - 1] == x
  {
    if x in Ball(g, seed, r) {
      var w := WalkTo(g, seed, r, x);
    }
    if w :| Walk(g, seed, w) && |w| <= r + 1 && w[|w| - 1] == x {
      WalkStays(g, seed, w);
      BallGrows(g, seed, |w| - 1, r);
    }
  }

  lemma {:induction false} WalkTo(g: Graph, seed: NodeId, r: nat, x: NodeId) returns (w: seq<NodeId>)
    requires x in Ball(g, seed, r)
    ensures Walk(g, seed, w) && |w| <= r + 1 && w[|w| - 1] == x
  {
    if r == 0 {
      w := [seed];
    } else if x in Ball(g, seed, r - 1) {
      w := WalkTo(g, seed, r - 1, x);
    } else {
      NeighboursAdjacent(g, Ball(g, seed, r - 1), x);
      var y :| y in Ball(g, seed, r - 1) && Adjacent(g, y, x);
      var v := WalkTo(g, seed, r - 1, y);
      w := v + [x];
    }
  }

  lemma {:induction false} WalkStays(g: Graph, seed: NodeId, w: seq<NodeId>)
    requires Walk(g, seed, w)
    ensures w[|w| - 1] in Ball(g, seed, |w| - 1)
  {
    if |w| > 1 {
      var v := w[..|w| - 1];
      WalkStays(g, seed, v);
      assert Adjacent(g, w[|w| - 2], w[|w| - 1]);
      NeighboursAdjacent(g, Ball(g, seed, |w| - 2), w[|w| - 1]);
    }
  }

  lemma {:induction false} BallGrows(g: Graph, seed: NodeId, q: nat, r: nat)
    requires q <= r
    ensures Ball(g, seed, q) <= Ball(g, seed, r)
  {
    if q < r {
      BallGrows(g, seed, q, r - 1);
    }
  }

  lemma NeighboursMonotone(edges: seq<Edge>, s: set<NodeId>, t: set<NodeId>)
    requires s <= t
    ensures Neighbours(edges, s) <= Neighbours(edges, t)
  {
  }

  lemma {:induction false} StopsWithin(g: Graph, seed: NodeId, r: nat, s: set<NodeId>)
    requires seed in s && Neighbours(g.edges, s) <= s
    ensures Ball(g, seed, r) <= s
  {
    if r > 0 {
      StopsWithin(g, seed, r - 1, s);
      NeighboursMonotone(g.edges, Ball(g, seed, r - 1), s);
    }
  }

  lemma {:induction false} SeedInBall(g: Graph, seed: NodeId, r: nat)
    ensures seed in Ball(g, seed, r)
  {
    if r > 0 { SeedInBall(g, seed, r - 1); }
  }

  /** A ball that one hop does not enlarge is enlarged by none. */
  lemma {:induction false} BallStops(g: Graph, seed: NodeId, q: nat, r: nat)
    requires q <= r && Neighbours(g.edges, Ball(g, seed, q)) <= Ball(g, seed, q)
    ensures Ball(g, seed, r) == Ball(g, seed, q)
  {
    SeedInBall(g, seed, q);
    StopsWithin(g, seed, r, Ball(g, seed, q));
    BallGrows(g, seed, q, r);
  }

  lemma {:induction false} BallInNodes(g: Graph, seed: NodeId, r: nat)
    requires Valid(g) && seed in g.nodes
    ensures forall x :: x in Ball(g, seed, r) ==> x in g.nodes
  {
    if r > 0 {
      BallInNodes(g, seed, r - 1);
    }
  }

  // ---------- the walk ----------

  /** The nodes first met at exactly this distance. */
  function Shell(g: Graph, seed: NodeId, r: nat): set<NodeId> {
    if r == 0 then {seed} else Ball(g, seed, r) - Ball(g, seed, r - 1)
  }

  /** It is enough to look around the last shell. */
  lemma ShellSuffices(g: Graph, seed: NodeId, r: nat)
    ensures Neighbours(g.edges, Shell(g, seed, r)) - Ball(g, seed, r) == Shell(g, seed, r + 1)
  {
    forall x | x in Shell(g, seed, r + 1)
      ensures x in Neighbours(g.edges, Shell(g, seed, r))
    {
      NeighboursAdjacent(g, Ball(g, seed, r), x);
      var y :| y in Ball(g, seed, r) && Adjacent(g, y, x);
      if r > 0 && y in Ball(g, seed, r - 1) {
        NeighboursAdjacent(g, Ball(g, seed, r - 1), x);
      }
      NeighboursAdjacent(g, Shell(g, seed, r), x);
    }
  }

  /** `findMany` over the edges with an end in the frontier. */
  function Incident(edges: seq<Edge>, frontier: seq<NodeId>): (r: seq<Edge>)
    ensures forall e :: e in r <==> e in edges && (e.source in frontier || e.target in frontier)
  {
    if edges == [] then []
    else
      var e := edges[0];
      (if e.source in frontier || e.target in frontier then [e] else []) + Incident(edges[1..], frontier)
  }

  /** `findMany` over the nodes with the given ids. */
  function Fetch(nodes: seq<NodeId>, ids: seq<NodeId>): (r: seq<NodeId>)
    ensures forall x :: x in r <==> x in nodes && x in ids
    ensures Distinct(nodes) ==> Distinct(r)
  {
    if nodes == [] then []
    else
      assert forall x :: x in nodes <==> x == nodes[0] || x in nodes[1..];
      (if nodes[0] in ids then [nodes[0]] else []) + Fetch(nodes[1..], ids)
  }

  lemma {:induction false} DistinctCount<T(!new)>(s: seq<T>)
    requires Distinct(s)
    ensures |ToSet(s)| == |s|
  {
    if s != [] {
      DistinctCount(s[1..]);
      assert ToSet(s) == {s[0]} + ToSet(s[1..]);
    }
  }

  lemma SubsetCount<T>(a: set<T>, b: set<T>)
    requires a <= b
    ensures |a| <= |b| && (|a| == |b| ==> a == b)
  {
    assert b == a + (b - a);
  }

  /** The ids at the ends of the edges that are not known yet, in order of discovery. */
  method Discover(edges: seq<Edge>, known: seq<NodeId>) returns (next: seq<NodeId>)
    ensures Distinct(next)
    ensures forall x :: x in next <==> x !in known && exists e :: e in edges && (x == e.source || x == e.target)
  {
    next := [];
    for k := 0 to |edges|
      invariant Distinct(next)
      invariant forall x :: x in next <==> x !in known && exists e :: e in edges[..k] && (x == e.source || x == e.target)
    {
      var e := edges[k];
      assert edges[..k + 1] == edges[..k] + [e];
      if e.source !in known && e.source !in next { next := next + [e.source]; }
      if e.target !in known && e.target !in next { next := next + [e.target]; }
    }
    assert edges[..|edges|] == edges;
  }

  /** One hop: the unknown ids next to the frontier are exactly the next shell. */
  method Expand(g: Graph, ghost seed: NodeId, ghost hop: nat, frontier: seq<NodeId>, byId: seq<NodeId>)
    returns (nextIds: seq<NodeId>)
    requires ToSet(byId) == Ball(g, seed, hop) && ToSet(frontier) == Shell(g, seed, hop)
    ensures Distinct(nextIds) && ToSet(nextIds) == Shell(g, seed, hop + 1)
    ensures nextIds == [] ==> Neighbours(g.edges, Ball(g, seed, hop)) <= Ball(g, seed, hop)
  {
    var edges := Incident(g.edges, frontier);
    nextIds := Discover(edges, byId);
    NextShell(g, seed, hop, frontier, edges, byId, nextIds);
  }

  /** After `hop` hops: the ball of that radius, or a full list drawn from it. */
  ghost predicate Collecting(g: Graph, seed: NodeId, hop: nat, cap: nat, byId: seq<NodeId>, frontier: seq<NodeId>) {
    && |byId| <= cap && Distinct(byId) && byId != [] && byId[0] == seed
    && ToSet(byId) <= Ball(g, seed, hop)
    && (|byId| < cap ==> ToSet(byId) == Ball(g, seed, hop) && ToSet(frontier) == Shell(g, seed, hop))
  }

  /** The ball of radius q, if it fits under the cap, is all there. */
  ghost predicate InFull(g: Graph, seed: NodeId, q: nat, cap: nat, known: set<NodeId>) {
    |Ball(g, seed, q)| <= cap ==> Ball(g, seed, q) <= known
  }

  /** Seed first, then hop by hop, cut off at `cap` nodes. The result is the whole ball when the ball
      fits, and a part of it with exactly `cap` nodes when it does not: then every nearer ball that fits is
      there in full. */
  method CollectNeighbourhood(g: Graph, seed: NodeId, hops: nat, cap: nat) returns (byId: seq<NodeId>)
    requires Valid(g) && seed in g.nodes && 0 < cap
    ensures Distinct(byId) && byId != [] && byId[0] == seed
    ensures ToSet(byId) <= Ball(g, seed, hops)
    ensures |byId| == Min(cap, |Ball(g, seed, hops)|)
    ensures |Ball(g, seed, hops)| <= cap ==> ToSet(byId) == Ball(g, seed, hops)
    ensures forall q: nat :: q <= hops ==> InFull(g, seed, q, cap, ToSet(byId))
  {
    byId := [seed];
    var frontier := [seed];
    var hop := 0;
    while hop < hops && |byId| < cap
      invariant hop <= hops && Collecting(g, seed, hop, cap, byId, frontier)
      invariant hop > 0 ==> Ball(g, seed, hop - 1) <= ToSet(byId)
      decreases hops - hop
    {
      var nextIds := Expand(g, seed, hop, frontier, byId);
      if |nextIds| == 0 {
        BallStops(g, seed, hop, hops);
        break;
      }
      var remaining := cap - |byId|;
      var fetchIds := nextIds[..Min(|nextIds|, remaining)];
      var fetched := Fetch(g.nodes, fetchIds);
      NextBall(g, seed, hop);
      AfterFetch(g.nodes, cap, Ball(g, seed, hop), Shell(g, seed, hop + 1), byId, nextIds, fetchIds);
      assert ToSet(byId) <= ToSet(byId + fetched);
      byId := byId + fetched;
      frontier := fetched;
      hop := hop + 1;
    }
    BallGrows(g, seed, hop, hops);
    Collected(byId, cap, Ball(g, seed, hop), Ball(g, seed, hops));
    DistinctCount(byId);
    NearestFirst(g, seed, hop, hops, cap, ToSet(byId));
  }

  /** Every ball that fits under the cap was collected, wherever the loop stopped. */
  lemma NearestFirst(g: Graph, seed: NodeId, hop: nat, hops: nat, cap: nat, known: set<NodeId>)
    requires hop <= hops && known <= Ball(g, seed, hop)
    requires hop > 0 ==> Ball(g, seed, hop - 1) <= known
    requires |known| >= cap || Ball(g, seed, hops) <= known
    ensures forall q: nat :: q <= hops ==> InFull(g, seed, q, cap, known)
  {
    forall q: nat | q <= hops
      ensures InFull(g, seed, q, cap, known)
    {
      if q < hop {
        NearerBall(g, seed, q, hop - 1, known);
      } else if |known| < cap {
        NearerBall(g, seed, q, hops, known);
      } else {
        FillsUp(g, seed, hop, q, cap, known);
      }
    }
  }

  lemma {:induction false} NearerBall(g: Graph, seed: NodeId, q: nat, r: nat, known: set<NodeId>)
    requires q <= r && Ball(g, seed, r) <= known
    ensures Ball(g, seed, q) <= known
  {
    BallGrows(g, seed, q, r);
  }

  lemma {:induction false} FillsUp(g: Graph, seed: NodeId, hop: nat, q: nat, cap: nat, known: set<NodeId>)
    requires hop <= q && known <= Ball(g, seed, hop) && cap <= |known|
    ensures InFull(g, seed, q, cap, known)
  {
    BallGrows(g, seed, hop, q);
    SubsetCount(known, Ball(g, seed, q));
  }

  /** The size of what was collected, when the loop stops short or at the full ball. */
  lemma Collected(byId: seq<NodeId>, cap: nat, ball: set<NodeId>, whole: set<NodeId>)
    requires Distinct(byId) && ToSet(byId) <= ball && ball <= whole
    requires |byId| == cap || (|byId| < cap && ToSet(byId) == ball && ball == whole)
    ensures |byId| == Min(cap, |whole|)
    ensures |whole| <= cap ==> ToSet(byId) == whole
  {
    DistinctCount(byId);
    SubsetCount(ToSet(byId), whole);
  }

  lemma NextBall(g: Graph, seed: NodeId, r: nat)
    requires Valid(g) && seed in g.nodes
    ensures Ball(g, seed, r + 1) == Ball(g, seed, r) + Shell(g, seed, r + 1)
    ensures Ball(g, seed, r) !! Shell(g, seed, r + 1)
    ensures forall x :: x in Shell(g, seed, r + 1) ==> x in g.nodes
  {
    BallInNodes(g, seed, r + 1);
  }

  lemma NextShell(g: Graph, seed: NodeId, hop: nat, frontier: seq<NodeId>, edges: seq<Edge>, byId: seq<NodeId>,
          nextIds: seq<NodeId>)
    requires ToSet(byId) == Ball(g, seed, hop) && ToSet(frontier) == Shell(g, seed, hop)
    requires edges == Incident(g.edges, frontier)
    requires forall x :: x in nextIds <==> x !in byId && exists e :: e in edges && (x == e.source || x == e.target)
    ensures ToSet(nextIds) == Shell(g, seed, hop + 1)
    ensures nextIds == [] ==> Neighbours(g.edges, Ball(g, seed, hop)) <= Ball(g, seed, hop)
  {
    ShellSuffices(g, seed, hop);
    var shell := Shell(g, seed, hop);
    forall x
      ensures x in nextIds <==> x in Neighbours(g.edges, shell) && x !in Ball(g, seed, hop)
    {
      assert x in byId <==> x in Ball(g, seed, hop);
      assert forall y :: y in frontier <==> y in shell;
      if x in nextIds {
        var e :| e in edges && (x == e.source || x == e.target);
        assert e in g.edges && (e.source in shell || e.target in shell);
      }
      if x in Neighbours(g.edges, shell) {
        var e :| e in g.edges && ((e.source in shell && e.target == x) || (e.target in shell && e.source == x));
        assert e in edges;
      }
    }
    assert ToSet(nextIds) == Neighbours(g.edges, shell) - Ball(g, seed, hop);
    if nextIds == [] {
      assert Ball(g, seed, hop + 1) - Ball(g, seed, hop) == {};
    }
  }

  lemma {:induction false} AfterFetch(nodes: seq<NodeId>, cap: nat, ball: set<NodeId>, shell: set<NodeId>,
                   byId: seq<NodeId>, nextIds: seq<NodeId>, fetchIds: seq<NodeId>)
    requires Distinct(nodes) && Distinct(byId) && Distinct(nextIds) && |byId| < cap
    requires ToSet(byId) == ball && ToSet(nextIds) == shell && ball !! shell
    requires forall x :: x in shell ==> x in nodes
    requires fetchIds == nextIds[..Min(|nextIds|, cap - |byId|)]
    ensures var fetched := Fetch(nodes, fetchIds);
      && Distinct(byId + fetched) && |byId + fetched| <= cap
      && ToSet(byId + fetched) <= ball + shell
      && (|byId + fetched| < cap ==> ToSet(byId + fetched) == ball + shell && ToSet(fetched) == shell)
  {
    TakeSome(nextIds, |fetchIds|);
    InSet(nextIds);
    FetchesAll(nodes, fetchIds);
    InSet(Fetch(nodes, fetchIds));
    InSet(fetchIds);
    InSet(byId);
    Append(byId, Fetch(nodes, fetchIds));
    if |byId| + |fetchIds| < cap {
      assert fetchIds == nextIds;
    }
  }

  lemma TakeSome<T(!new)>(s: seq<T>, n: nat)
    requires n <= |s| && Distinct(s)
    ensures Distinct(s[..n]) && ToSet(s[..n]) <= ToSet(s)
  {
  }

  lemma InSet<T(!new)>(s: seq<T>)
    ensures forall x :: x in s <==> x in ToSet(s)
  {
  }

  lemma {:induction false} FetchesAll(nodes: seq<NodeId>, ids: seq<NodeId>)
    requires Distinct(nodes) && Distinct(ids) && forall x :: x in ids ==> x in nodes
    ensures Distinct(Fetch(nodes, ids)) && ToSet(Fetch(nodes, ids)) == ToSet(ids) && |Fetch(nodes, ids)| == |ids|
  {
    DistinctCount(Fetch(nodes, ids));
    DistinctCount(ids);
    assert ToSet(Fetch(nodes, ids)) == ToSet(ids);
  }

  lemma Append<T(!new)>(a: seq<T>, b: seq<T>)
    requires Distinct(a) && Distinct(b) && forall x :: x in a ==> x !in b
    ensures Distinct(a + b) && ToSet(a + b) == ToSet(a) + ToSet(b)
  {
    var c := a + b;
    forall i, j | 0 <= i < j < |c|
      ensures c[i] != c[j]
    {
      if i < |a| {
        assert c[i] in a;
        if j >= |a| { assert c[j] in b; }
      } else {
        assert c[i] == b[i - |a|] && c[j] == b[j - |a|];
      }
    }
    assert forall x :: x in c <==> x in a || x in b;
  }
}
