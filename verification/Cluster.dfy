/** Single-level Louvain clustering (`louvain_communities`) in exact integer arithmetic.
    Gains and modularity are scaled so that no division is left. */
module Cluster {
  import opened Graph

  type NodeId = int
  type WeightedEdge = (NodeId, NodeId, int)
  type Neighbours = seq<(NodeId, int)>

  // ----- the weighted undirected graph -----

  ghost predicate Between(e: WeightedEdge, a: NodeId, b: NodeId) {
    a != b && e.2 > 0 && ((e.0 == a && e.1 == b) || (e.0 == b && e.1 == a))
  }

  /** The summed weight of the edges between `a` and `b`, in either direction. Loops and edges
      without positive weight do not count. */
  ghost function Weight(edges: seq<WeightedEdge>, a: NodeId, b: NodeId): (w: int)
    ensures w >= 0
  {
    if edges == [] then 0 else
    var n := |edges| - 1;
    Weight(edges[..n], a, b) + (if Between(edges[n], a, b) then edges[n].2 else 0)
  }

  lemma {:induction false} WeightSymmetric(edges: seq<WeightedEdge>, a: NodeId, b: NodeId)
    ensures Weight(edges, a, b) == Weight(edges, b, a) && Weight(edges, a, a) == 0
  {
    if edges != [] {
      WeightSymmetric(edges[..|edges| - 1], a, b);
    }
  }

  // ----- sums over a list of nodes -----

  /** The weight from `x` to the nodes of `us` that are in `m`. */
  ghost function WeightInto(edges: seq<WeightedEdge>, x: NodeId, us: seq<NodeId>, m: set<NodeId>): (w: int)
    ensures w >= 0
  {
    if us == [] then 0 else
    var u := us[|us| - 1];
    WeightInto(edges, x, us[..|us| - 1], m) + (if u in m then Weight(edges, x, u) else 0)
  }

  function Lookup(d: map<NodeId, int>, u: NodeId): int {
    if u in d then d[u] else 0
  }

  /** The summed degree of the nodes of `us` that are in `m`. */
  ghost function DegreeOf(d: map<NodeId, int>, us: seq<NodeId>, m: set<NodeId>): int {
    if us == [] then 0 else
    var u := us[|us| - 1];
    DegreeOf(d, us[..|us| - 1], m) + (if u in m then Lookup(d, u) else 0)
  }

  /** What the clustering runs on: the edges, the degrees, twice the total weight, and the list
      of all nodes and edge ends. */
  datatype Net = Net(edges: seq<WeightedEdge>, degree: map<NodeId, int>, twoM: int, us: seq<NodeId>)

  /** The contribution of the pair `x`, `y` to modularity when they share a community. */
  ghost function Bond(net: Net, x: NodeId, y: NodeId): int {
    net.twoM * Weight(net.edges, x, y) - Lookup(net.degree, x) * Lookup(net.degree, y)
  }

  ghost function BondInto(net: Net, x: NodeId, us: seq<NodeId>, m: set<NodeId>): int {
    if us == [] then 0 else
    var u := us[|us| - 1];
    BondInto(net, x, us[..|us| - 1], m) + (if u in m then Bond(net, x, u) else 0)
  }

  lemma {:induction false} BondIntoLinear(net: Net, x: NodeId, us: seq<NodeId>, m: set<NodeId>)
    ensures BondInto(net, x, us, m)
            == net.twoM * WeightInto(net.edges, x, us, m) - Lookup(net.degree, x) * DegreeOf(net.degree, us, m)
  {
    if us != [] {
      var u := us[|us| - 1];
      var rest := us[..|us| - 1];
      BondIntoLinear(net, x, rest, m);
      if u in m {
        Distribute(net.twoM, WeightInto(net.edges, x, rest, m), Weight(net.edges, x, u));
        Distribute(Lookup(net.degree, x), DegreeOf(net.degree, rest, m), Lookup(net.degree, u));
      }
    }
  }

  lemma Distribute(a: int, b: int, c: int)
    ensures a * (b + c) == a * b + a * c
  {
  }

  lemma BondSymmetric(net: Net, x: NodeId, y: NodeId)
    ensures Bond(net, x, y) == Bond(net, y, x)
  {
    WeightSymmetric(net.edges, x, y);
  }

  /** A node outside `m` adds its own bond when it joins `m`. */
  lemma {:induction false} BondIntoJoin(net: Net, x: NodeId, us: seq<NodeId>, m: set<NodeId>, n: NodeId)
    requires Distinct(us) && n !in m
    ensures BondInto(net, x, us, m + {n}) == BondInto(net, x, us, m) + (if n in us then Bond(net, x, n) else 0)
  {
    if us != [] {
      var rest := us[..|us| - 1];
      BondIntoJoin(net, x, rest, m, n);
      assert us == rest + [us[|us| - 1]];
      ElemsAppend(rest, us[|us| - 1]);
    }
  }

  // ----- modularity -----

  function CommunityOf(community: map<NodeId, NodeId>, u: NodeId): NodeId {
    if u in community then community[u] else u
  }

  /** The members of community `c`. */
  ghost function Members(us: seq<NodeId>, community: map<NodeId, NodeId>, c: NodeId): set<NodeId> {
    set u | u in us && CommunityOf(community, u) == c
  }

  ghost function BondSum(net: Net, xs: seq<NodeId>, community: map<NodeId, NodeId>): int {
    if xs == [] then 0 else
    var x := xs[|xs| - 1];
    BondSum(net, xs[..|xs| - 1], community)
    + BondInto(net, x, net.us, Members(net.us, community, CommunityOf(community, x)))
  }

  /** Modularity times the square of `twoM`: the bonds of all ordered pairs of nodes that share
      a community. */
  ghost function Modularity(net: Net, community: map<NodeId, NodeId>): int {
    BondSum(net, net.us, community)
  }

  /** How strongly node `n` is drawn to community `c`, itself not counted as a member. */
  ghost function Pull(net: Net, community: map<NodeId, NodeId>, n: NodeId, c: NodeId): int {
    BondInto(net, n, net.us, Members(net.us, community, c) - {n})
  }

  /** One row of the modularity sum after `n` moves from its community to `c`. */
  lemma RowAfterMove(net: Net, community: map<NodeId, NodeId>, n: NodeId, c: NodeId, x: NodeId)
    requires Distinct(net.us) && n in net.us && c != CommunityOf(community, n)
    ensures var after := community[n := c];
            BondInto(net, x, net.us, Members(net.us, after, CommunityOf(after, x)))
            - BondInto(net, x, net.us, Members(net.us, community, CommunityOf(community, x)))
            == if x == n then Pull(net, community, n, c) - Pull(net, community, n, CommunityOf(community, n))
               else if CommunityOf(community, x) == c then Bond(net, x, n)
               else if CommunityOf(community, x) == CommunityOf(community, n) then -Bond(net, x, n)
               else 0
  {
    var after := community[n := c];
    var a := CommunityOf(community, n);
    var us := net.us;
    if x == n {
      var mc, ma := Members(us, community, c) - {n}, Members(us, community, a) - {n};
      assert Members(us, after, c) == mc + {n};
      assert Members(us, community, a) == ma + {n};
      BondIntoJoin(net, x, us, mc, n);
      BondIntoJoin(net, x, us, ma, n);
    } else {
      var k := CommunityOf(community, x);
      if k == c {
        assert Members(us, after, c) == Members(us, community, c) + {n};
        BondIntoJoin(net, x, us, Members(us, community, c), n);
      } else if k == a {
        assert Members(us, community, a) == Members(us, after, a) + {n};
        BondIntoJoin(net, x, us, Members(us, after, a), n);
      } else {
        assert Members(us, after, k) == Members(us, community, k);
      }
    }
  }

  /** The rows of `xs` change by what `n` gains in them, plus its own row if it is among them. */
  lemma {:induction false} BondSumAfterMove(net: Net, community: map<NodeId, NodeId>, n: NodeId, c: NodeId,
                                            xs: seq<NodeId>)
    requires Distinct(net.us) && n in net.us && c != CommunityOf(community, n)
    requires Distinct(xs) && forall x :: x in xs ==> x in net.us
    ensures var a := CommunityOf(community, n);
            BondSum(net, xs, community[n := c]) - BondSum(net, xs, community)
            == BondInto(net, n, xs, Members(net.us, community, c) - {n})
               - BondInto(net, n, xs, Members(net.us, community, a) - {n})
               + (if n in xs then Pull(net, community, n, c) - Pull(net, community, n, a) else 0)
  {
    if xs != [] {
      var x := xs[|xs| - 1];
      var rest := xs[..|xs| - 1];
      assert xs == rest + [x];
      ElemsAppend(rest, x);
      BondSumAfterMove(net, community, n, c, rest);
      RowAfterMove(net, community, n, c, x);
      BondSymmetric(net, n, x);
    }
  }

  /** Moving `n` to `c` changes modularity by twice the difference in pull. */
  lemma MoveChangesModularity(net: Net, community: map<NodeId, NodeId>, n: NodeId, c: NodeId)
    requires Distinct(net.us) && n in net.us && c != CommunityOf(community, n)
    ensures Modularity(net, community[n := c])
            == Modularity(net, community)
               + 2 * (Pull(net, community, n, c) - Pull(net, community, n, CommunityOf(community, n)))
  {
    BondSumAfterMove(net, community, n, c, net.us);
  }

  // ----- modularity is bounded -----

  ghost predicate NonNegative(d: map<NodeId, int>) {
    forall u :: u in d ==> d[u] >= 0
  }

  lemma {:induction false} DegreeOfNonNegative(d: map<NodeId, int>, us: seq<NodeId>, m: set<NodeId>)
    requires NonNegative(d)
    ensures DegreeOf(d, us, m) >= 0
  {
    if us != [] {
      DegreeOfNonNegative(d, us[..|us| - 1], m);
    }
  }

  lemma {:induction false} WeightIntoGrows(edges: seq<WeightedEdge>, x: NodeId, us: seq<NodeId>, m: set<NodeId>,
                                           all: set<NodeId>)
    requires m <= all
    ensures WeightInto(edges, x, us, m) <= WeightInto(edges, x, us, all)
  {
    if us != [] {
      WeightIntoGrows(edges, x, us[..|us| - 1], m, all);
    }
  }

  /** The bonds if every pair shared a community and degrees did not count. */
  ghost function Cap(net: Net, xs: seq<NodeId>): int {
    if xs == [] then 0 else
    Cap(net, xs[..|xs| - 1]) + net.twoM * WeightInto(net.edges, xs[|xs| - 1], net.us, Elems(net.us))
  }

  lemma BondIntoCapped(net: Net, x: NodeId, m: set<NodeId>)
    requires net.twoM >= 0 && NonNegative(net.degree) && m <= Elems(net.us)
    ensures BondInto(net, x, net.us, m) <= net.twoM * WeightInto(net.edges, x, net.us, Elems(net.us))
  {
    BondIntoLinear(net, x, net.us, m);
    DegreeOfNonNegative(net.degree, net.us, m);
    WeightIntoGrows(net.edges, x, net.us, m, Elems(net.us));
    ScaledOrder(net.twoM, WeightInto(net.edges, x, net.us, m), WeightInto(net.edges, x, net.us, Elems(net.us)));
    ScaledOrder(Lookup(net.degree, x), 0, DegreeOf(net.degree, net.us, m));
  }

  lemma ScaledOrder(a: int, b: int, c: int)
    requires a >= 0 && b <= c
    ensures a * b <= a * c
  {
  }

  lemma {:induction false} BondSumCapped(net: Net, xs: seq<NodeId>, community: map<NodeId, NodeId>)
    requires net.twoM >= 0 && NonNegative(net.degree)
    ensures BondSum(net, xs, community) <= Cap(net, xs)
  {
    if xs != [] {
      var x := xs[|xs| - 1];
      BondSumCapped(net, xs[..|xs| - 1], community);
      BondIntoCapped(net, x, Members(net.us, community, CommunityOf(community, x)));
    }
  }

  // ----- adjacency lists -----

  function ListOf(adjacency: map<NodeId, Neighbours>, a: NodeId): Neighbours {
    if a in adjacency then adjacency[a] else []
  }

  ghost predicate Lists(list: Neighbours, b: NodeId) {
    exists i :: 0 <= i < |list| && list[i].0 == b
  }

  /** `list` holds every neighbour of `a` once, with the weight between them. */
  ghost predicate IsNeighbourList(edges: seq<WeightedEdge>, a: NodeId, list: Neighbours) {
    && (forall i, j :: 0 <= i < j < |list| ==> list[i].0 != list[j].0)
    && (forall i :: 0 <= i < |list| ==> list[i].1 == Weight(edges, a, list[i].0) > 0)
    && (forall b :: Weight(edges, a, b) > 0 ==> Lists(list, b))
  }

  /** The weights of `list` towards `m`. */
  ghost function ListWeight(list: Neighbours, m: set<NodeId>): int {
    if list == [] then 0 else
    var (u, w) := list[|list| - 1];
    ListWeight(list[..|list| - 1], m) + (if u in m then w else 0)
  }

  lemma {:induction false} WeightIntoJoin(edges: seq<WeightedEdge>, x: NodeId, us: seq<NodeId>, m: set<NodeId>,
                                          n: NodeId)
    requires Distinct(us) && n !in m
    ensures WeightInto(edges, x, us, m + {n})
            == WeightInto(edges, x, us, m) + (if n in us then Weight(edges, x, n) else 0)
  {
    if us != [] {
      var rest := us[..|us| - 1];
      WeightIntoJoin(edges, x, rest, m, n);
      assert us == rest + [us[|us| - 1]];
      ElemsAppend(rest, us[|us| - 1]);
    }
  }

  lemma {:induction false} WeightIntoAgrees(edges: seq<WeightedEdge>, x: NodeId, us: seq<NodeId>, m: set<NodeId>,
                                            m': set<NodeId>)
    requires forall u :: u in us && Weight(edges, x, u) > 0 ==> (u in m <==> u in m')
    ensures WeightInto(edges, x, us, m) == WeightInto(edges, x, us, m')
  {
    if us != [] {
      var rest := us[..|us| - 1];
      assert us[|us| - 1] in us && forall u :: u in rest ==> u in us;
      WeightIntoAgrees(edges, x, rest, m, m');
    }
  }

  ghost function Firsts(list: Neighbours): set<NodeId> {
    set i | 0 <= i < |list| :: list[i].0
  }

  lemma {:induction false} ListPrefixWeight(edges: seq<WeightedEdge>, x: NodeId, list: Neighbours, us: seq<NodeId>,
                                            m: set<NodeId>)
    requires Distinct(us)
    requires forall i, j :: 0 <= i < j < |list| ==> list[i].0 != list[j].0
    requires forall i :: 0 <= i < |list| ==> list[i].1 == Weight(edges, x, list[i].0) && list[i].0 in us
    ensures ListWeight(list, m) == WeightInto(edges, x, us, m * Firsts(list))
  {
    if list == [] {
      WeightIntoNone(edges, x, us);
      assert m * Firsts(list) == {};
    } else {
      var (u, w) := list[|list| - 1];
      var rest := list[..|list| - 1];
      ListPrefixWeight(edges, x, rest, us, m);
      assert forall i :: 0 <= i < |rest| ==> rest[i] == list[i];
      assert Firsts(list) == Firsts(rest) + {u} && u !in Firsts(rest);
      if u in m {
        WeightIntoJoin(edges, x, us, m * Firsts(rest), u);
        assert m * Firsts(list) == m * Firsts(rest) + {u};
      } else {
        assert m * Firsts(list) == m * Firsts(rest);
      }
    }
  }

  lemma {:induction false} WeightIntoNone(edges: seq<WeightedEdge>, x: NodeId, us: seq<NodeId>)
    ensures WeightInto(edges, x, us, {}) == 0
  {
    if us != [] {
      WeightIntoNone(edges, x, us[..|us| - 1]);
    }
  }

  /** Adding up a neighbour list is adding up over all nodes. */
  lemma ListIsWeightInto(edges: seq<WeightedEdge>, x: NodeId, list: Neighbours, us: seq<NodeId>, m: set<NodeId>)
    requires Distinct(us) && IsNeighbourList(edges, x, list)
    requires forall i :: 0 <= i < |list| ==> list[i].0 in us
    ensures ListWeight(list, m) == WeightInto(edges, x, us, m)
  {
    ListPrefixWeight(edges, x, list, us, m);
    forall u | u in us && Weight(edges, x, u) > 0 ensures u in m <==> u in m * Firsts(list) {
      assert Lists(list, u);
    }
    WeightIntoAgrees(edges, x, us, m, m * Firsts(list));
  }

  // ----- building the adjacency lists -----

  function Key(a: NodeId, b: NodeId): (NodeId, NodeId) {
    if a <= b then (a, b) else (b, a)
  }

  /** `merged` holds the weight of every pair of neighbours, under its ordered key. */
  ghost predicate IsMerged(edges: seq<WeightedEdge>, merged: map<(NodeId, NodeId), int>) {
    && (forall k :: k in merged ==> k.0 < k.1 && merged[k] == Weight(edges, k.0, k.1) > 0)
    && (forall a, b :: a < b && Weight(edges, a, b) > 0 ==> (a, b) in merged)
  }

  lemma WeightNext(edges: seq<WeightedEdge>, i: int, a: NodeId, b: NodeId)
    requires 0 <= i < |edges|
    ensures Weight(edges[..i + 1], a, b)
            == Weight(edges[..i], a, b) + (if Between(edges[i], a, b) then edges[i].2 else 0)
  {
    assert edges[..i + 1][..i] == edges[..i];
  }

  method MergeEdges(edges: seq<WeightedEdge>) returns (merged: map<(NodeId, NodeId), int>)
    ensures IsMerged(edges, merged)
  {
    merged := map[];
    NothingMerged();
    hide IsMerged;
    for i := 0 to |edges|
      invariant IsMerged(edges[..i], merged)
    {
      var (a, b, w) := edges[i];
      MergeNext(edges, i, merged);
      if a != b && w > 0 {
        var key := Key(a, b);
        merged := merged[key := (if key in merged then merged[key] else 0) + w];
      }
    }
    assert edges[..|edges|] == edges;
  }

  lemma NothingMerged()
    ensures IsMerged([], map[])
  {
  }

  lemma MergeNext(edges: seq<WeightedEdge>, i: int, merged: map<(NodeId, NodeId), int>)
    requires 0 <= i < |edges| && IsMerged(edges[..i], merged)
    ensures var (a, b, w) := edges[i]; var key := Key(a, b);
            IsMerged(edges[..i + 1], if a == b || w <= 0 then merged
                                     else merged[key := (if key in merged then merged[key] else 0) + w])
  {
    var (a, b, w) := edges[i];
    ghost var upTo := edges[..i + 1];
    forall x, y ensures Weight(upTo, x, y) == Weight(edges[..i], x, y) + (if Between(edges[i], x, y) then w else 0) {
      WeightNext(edges, i, x, y);
    }
    WeightSymmetric(edges[..i], a, b);
    hide Weight;
  }

  /** `list` holds the neighbours of `a` over the pairs in `done`. */
  ghost predicate IsPartialList(merged: map<(NodeId, NodeId), int>, done: set<(NodeId, NodeId)>, a: NodeId,
                                list: Neighbours) {
    && (forall i, j :: 0 <= i < j < |list| ==> list[i].0 != list[j].0)
    && (forall i :: 0 <= i < |list| ==>
          a != list[i].0 && Key(a, list[i].0) in done && Key(a, list[i].0) in merged
          && list[i].1 == merged[Key(a, list[i].0)])
    && (forall b :: a != b && Key(a, b) in done ==> Lists(list, b))
  }

  lemma AddNeighbour(merged: map<(NodeId, NodeId), int>, done: set<(NodeId, NodeId)>, a: NodeId, list: Neighbours,
                     b: NodeId)
    requires IsPartialList(merged, done, a, list) && a != b && Key(a, b) !in done && Key(a, b) in merged
    ensures IsPartialList(merged, done + {Key(a, b)}, a, list + [(b, merged[Key(a, b)])])
  {
    var list' := list + [(b, merged[Key(a, b)])];
    forall c | a != c && Key(a, c) in done + {Key(a, b)} ensures Lists(list', c) {
      if c == b {
        assert list'[|list|].0 == b;
      } else {
        assert Lists(list, c);
        var i :| 0 <= i < |list| && list[i].0 == c;
        assert list'[i].0 == c;
      }
    }
  }

  lemma OtherList(merged: map<(NodeId, NodeId), int>, done: set<(NodeId, NodeId)>, c: NodeId, list: Neighbours,
                  a: NodeId, b: NodeId)
    requires IsPartialList(merged, done, c, list) && c != a && c != b
    ensures IsPartialList(merged, done + {(a, b)}, c, list)
  {
  }

  lemma EmptyList(merged: map<(NodeId, NodeId), int>, a: NodeId)
    ensures IsPartialList(merged, {}, a, [])
  {
  }

  lemma FullList(edges: seq<WeightedEdge>, merged: map<(NodeId, NodeId), int>, a: NodeId, list: Neighbours)
    requires IsMerged(edges, merged) && IsPartialList(merged, merged.Keys, a, list)
    ensures IsNeighbourList(edges, a, list)
  {
    forall b ensures Weight(edges, a, b) == Weight(edges, b, a) && (a == b ==> Weight(edges, a, b) == 0) {
      WeightSymmetric(edges, a, b);
    }
  }

  lemma AddPair(merged: map<(NodeId, NodeId), int>, done: set<(NodeId, NodeId)>, before: map<NodeId, Neighbours>,
                a: NodeId, b: NodeId)
    requires a < b && (a, b) in merged && (a, b) !in done
    requires forall c :: IsPartialList(merged, done, c, ListOf(before, c))
    ensures var middle := before[a := ListOf(before, a) + [(b, merged[(a, b)])]];
            var after := middle[b := ListOf(middle, b) + [(a, merged[(a, b)])]];
            forall c :: IsPartialList(merged, done + {(a, b)}, c, ListOf(after, c))
  {
    AddNeighbour(merged, done, a, ListOf(before, a), b);
    AddNeighbour(merged, done, b, ListOf(before, b), a);
    hide IsPartialList;
    var middle := before[a := ListOf(before, a) + [(b, merged[(a, b)])]];
    var after := middle[b := ListOf(middle, b) + [(a, merged[(a, b)])]];
    forall c ensures IsPartialList(merged, done + {(a, b)}, c, ListOf(after, c)) {
      if c != a && c != b {
        OtherList(merged, done, c, ListOf(before, c), a, b);
      }
    }
  }

  /** The neighbour list of every node. */
  method UndirectedAdjacency(edges: seq<WeightedEdge>) returns (adjacency: map<NodeId, Neighbours>)
    ensures forall a :: IsNeighbourList(edges, a, ListOf(adjacency, a))
  {
    var merged := MergeEdges(edges);
    adjacency := map[];
    var todo := merged.Keys;
    assert forall k :: k in merged ==> k.0 < k.1;
    hide IsMerged, IsPartialList, IsNeighbourList;
    forall a ensures IsPartialList(merged, {}, a, []) {
      EmptyList(merged, a);
    }
    assert merged.Keys - todo == {};
    while todo != {}
      invariant todo <= merged.Keys
      invariant forall a :: IsPartialList(merged, merged.Keys - todo, a, ListOf(adjacency, a))
      decreases todo
    {
      var key := Pick(todo);
      var (a, b) := key;
      var w := merged[key];
      ghost var done := merged.Keys - todo;
      AddPair(merged, done, adjacency, a, b);
      adjacency := adjacency[a := ListOf(adjacency, a) + [(b, w)]];
      adjacency := adjacency[b := ListOf(adjacency, b) + [(a, w)]];
      todo := todo - {key};
      assert merged.Keys - todo == done + {key};
    }
    assert merged.Keys - {} == merged.Keys;
    forall a ensures IsNeighbourList(edges, a, ListOf(adjacency, a)) {
      FullList(edges, merged, a, ListOf(adjacency, a));
    }
  }

  // ----- moving one node -----

  /** The network matches the adjacency lists, and all nodes and neighbours are listed. */
  ghost predicate NetOk(net: Net, adjacency: map<NodeId, Neighbours>) {
    && Distinct(net.us) && net.twoM > 0 && NonNegative(net.degree)
    && (forall a :: IsNeighbourList(net.edges, a, ListOf(adjacency, a)))
    && (forall a, b :: Weight(net.edges, a, b) > 0 ==> b in net.us)
  }

  /** `communityDegree` is the summed degree of every community. */
  ghost predicate Tracked(net: Net, community: map<NodeId, NodeId>, communityDegree: map<NodeId, int>) {
    forall c :: Lookup(communityDegree, c) == DegreeOf(net.degree, net.us, Members(net.us, community, c))
  }

  /** No single move of `n` into the community of a neighbour raises modularity. */
  ghost predicate IsSettled(net: Net, community: map<NodeId, NodeId>, n: NodeId) {
    forall u :: Weight(net.edges, n, u) > 0 ==>
      Modularity(net, community[n := CommunityOf(community, u)]) <= Modularity(net, community)
  }

  lemma {:induction false} DegreeOfJoin(d: map<NodeId, int>, us: seq<NodeId>, m: set<NodeId>, n: NodeId)
    requires Distinct(us) && n !in m
    ensures DegreeOf(d, us, m + {n}) == DegreeOf(d, us, m) + (if n in us then Lookup(d, n) else 0)
  {
    if us != [] {
      var rest := us[..|us| - 1];
      DegreeOfJoin(d, rest, m, n);
      assert us == rest + [us[|us| - 1]];
      ElemsAppend(rest, us[|us| - 1]);
    }
  }

  /** The scaled gain the code compares is the pull of the candidate community. */
  lemma GainIsPull(net: Net, community: map<NodeId, NodeId>, n: NodeId, c: NodeId, kIn: int, sigma: int)
    requires Distinct(net.us) && n in net.us
    requires kIn == WeightInto(net.edges, n, net.us, Members(net.us, community, c))
    requires sigma == DegreeOf(net.degree, net.us, Members(net.us, community, c))
                      - (if c == CommunityOf(community, n) then Lookup(net.degree, n) else 0)
    ensures net.twoM * kIn - sigma * Lookup(net.degree, n) == Pull(net, community, n, c)
  {
    hide BondInto, WeightInto, DegreeOf, Weight;
    var m := Members(net.us, community, c);
    BondIntoLinear(net, n, net.us, m - {n});
    WeightSymmetric(net.edges, n, n);
    WeightIntoAgrees(net.edges, n, net.us, m, m - {n});
    if c == CommunityOf(community, n) {
      assert m == m - {n} + {n};
      DegreeOfJoin(net.degree, net.us, m - {n}, n);
    } else {
      assert m == m - {n};
    }
    assert sigma == DegreeOf(net.degree, net.us, m - {n});
  }

  lemma MoveKeepsTracked(net: Net, community: map<NodeId, NodeId>, degrees: map<NodeId, int>, n: NodeId, c: NodeId,
                         degrees': map<NodeId, int>)
    requires Distinct(net.us) && n in net.us && Tracked(net, community, degrees) && c != CommunityOf(community, n)
    requires forall k :: Lookup(degrees', k) == Lookup(degrees, k)
               + (if k == c then Lookup(net.degree, n) else 0)
               - (if k == CommunityOf(community, n) then Lookup(net.degree, n) else 0)
    ensures Tracked(net, community[n := c], degrees')
  {
    var a := CommunityOf(community, n);
    var after := community[n := c];
    forall k ensures Lookup(degrees', k) == DegreeOf(net.degree, net.us, Members(net.us, after, k)) {
      var m, m' := Members(net.us, community, k), Members(net.us, after, k);
      if k == c {
        assert m' == m + {n};
        DegreeOfJoin(net.degree, net.us, m, n);
      } else if k == a {
        assert m == m' + {n};
        DegreeOfJoin(net.degree, net.us, m', n);
      } else {
        assert m' == m;
      }
    }
  }

  /** `weightTo` adds up the neighbours of `list` by community. */
  ghost predicate IsTally(us: seq<NodeId>, community: map<NodeId, NodeId>, list: Neighbours,
                          weightTo: map<NodeId, int>) {
    && (forall c :: Lookup(weightTo, c) == ListWeight(list, Members(us, community, c)))
    && (forall i :: 0 <= i < |list| ==> CommunityOf(community, list[i].0) in weightTo)
  }

  method TallyNeighbours(node: NodeId, list: Neighbours, community: map<NodeId, NodeId>, ghost us: seq<NodeId>)
    returns (weightTo: map<NodeId, int>)
    requires forall i :: 0 <= i < |list| ==> list[i].0 in us && list[i].0 != node
    ensures IsTally(us, community, list, weightTo)
  {
    weightTo := map[];
    for i := 0 to |list|
      invariant IsTally(us, community, list[..i], weightTo)
    {
      var (neighbour, w) := list[i];
      assert list[..i + 1][..i] == list[..i];
      if neighbour != node {
        var c := CommunityOf(community, neighbour);
        weightTo := weightTo[c := Lookup(weightTo, c) + w];
      }
    }
    assert list[..|list|] == list;
  }

  lemma ListIsListed(net: Net, adjacency: map<NodeId, Neighbours>, n: NodeId)
    requires NetOk(net, adjacency)
    ensures Distinct(net.us) && IsNeighbourList(net.edges, n, ListOf(adjacency, n))
    ensures forall i :: 0 <= i < |ListOf(adjacency, n)| ==>
              ListOf(adjacency, n)[i].0 in net.us && ListOf(adjacency, n)[i].0 != n
  {
    WeightSymmetric(net.edges, n, n);
  }

  lemma NeighbourIsCandidate(net: Net, adjacency: map<NodeId, Neighbours>, community: map<NodeId, NodeId>, n: NodeId,
                             u: NodeId, weightTo: map<NodeId, int>)
    requires NetOk(net, adjacency) && Weight(net.edges, n, u) > 0
    requires IsTally(net.us, community, ListOf(adjacency, n), weightTo)
    ensures CommunityOf(community, u) in weightTo
  {
    assert Lists(ListOf(adjacency, n), u);
  }

  lemma CandidateGain(net: Net, adjacency: map<NodeId, Neighbours>, community: map<NodeId, NodeId>,
                      degrees: map<NodeId, int>, n: NodeId, weightTo: map<NodeId, int>, c: NodeId)
    requires NetOk(net, adjacency) && n in net.us && Tracked(net, community, degrees)
    requires IsTally(net.us, community, ListOf(adjacency, n), weightTo)
    ensures var sigma := Lookup(degrees, c) - (if c == CommunityOf(community, n) then Lookup(net.degree, n) else 0);
            net.twoM * Lookup(weightTo, c) - sigma * Lookup(net.degree, n) == Pull(net, community, n, c)
  {
    ListIsListed(net, adjacency, n);
    hide IsNeighbourList, NetOk, ListWeight, WeightInto, DegreeOf, Pull;
    var sigma := Lookup(degrees, c) - (if c == CommunityOf(community, n) then Lookup(net.degree, n) else 0);
    ListIsWeightInto(net.edges, n, ListOf(adjacency, n), net.us, Members(net.us, community, c));
    GainIsPull(net, community, n, c, Lookup(weightTo, c), sigma);
  }

  lemma TrackedAgrees(net: Net, community: map<NodeId, NodeId>, degrees: map<NodeId, int>, degrees': map<NodeId, int>)
    requires Tracked(net, community, degrees) && forall c :: Lookup(degrees', c) == Lookup(degrees, c)
    ensures Tracked(net, community, degrees')
  {
  }

  /** If no neighbouring community pulls harder than its own, `n` is settled. */
  lemma StayIsSettled(net: Net, adjacency: map<NodeId, Neighbours>, community: map<NodeId, NodeId>, n: NodeId,
                      weightTo: map<NodeId, int>)
    requires NetOk(net, adjacency) && n in net.us && n in community
    requires IsTally(net.us, community, ListOf(adjacency, n), weightTo)
    requires forall c :: c in weightTo ==> Pull(net, community, n, c) <= Pull(net, community, n, community[n])
    ensures IsSettled(net, community, n)
  {
    hide Pull, Modularity, NetOk, IsTally;
    forall u | Weight(net.edges, n, u) > 0
      ensures Modularity(net, community[n := CommunityOf(community, u)]) <= Modularity(net, community)
    {
      NeighbourIsCandidate(net, adjacency, community, n, u, weightTo);
      var c := CommunityOf(community, u);
      if c != community[n] {
        ListIsListed(net, adjacency, n);
        MoveChangesModularity(net, community, n, c);
      } else {
        assert community[n := c] == community;
      }
    }
  }

  class Clustering {
    var community: map<NodeId, NodeId>
    var communityDegree: map<NodeId, int>

    constructor (community: map<NodeId, NodeId>, communityDegree: map<NodeId, int>)
      ensures this.community == community && this.communityDegree == communityDegree
    {
      this.community, this.communityDegree := community, communityDegree;
    }

    /** Scans the communities of the neighbours for the strongest pull. `communityDegree` has had
        the node's own degree taken out of its community already. */
    method Best(current: NodeId, weightTo: map<NodeId, int>, nodeDegree: int, twoM: int) returns (best: NodeId)
      ensures best == current
              || (best in weightTo
                  && Gain(current, weightTo, nodeDegree, twoM) < Gain(best, weightTo, nodeDegree, twoM))
      ensures forall c :: c in weightTo ==>
                Gain(c, weightTo, nodeDegree, twoM) <= Gain(best, weightTo, nodeDegree, twoM)
    {
      hide Gain;
      best := current;
      var bestGain := Gain(current, weightTo, nodeDegree, twoM);
      var candidates := weightTo.Keys;
      while candidates != {}
        invariant candidates <= weightTo.Keys
        invariant bestGain == Gain(best, weightTo, nodeDegree, twoM)
        invariant best == current || (best in weightTo && Gain(current, weightTo, nodeDegree, twoM) < bestGain)
        invariant forall c :: c in weightTo.Keys - candidates ==> Gain(c, weightTo, nodeDegree, twoM) <= bestGain
        invariant Gain(current, weightTo, nodeDegree, twoM) <= bestGain
        decreases candidates
      {
        var candidate := Pick(candidates);
        if candidate != current {
          var gain := Gain(candidate, weightTo, nodeDegree, twoM);
          if gain > bestGain {
            bestGain := gain;
            best := candidate;
          }
        }
        candidates := candidates - {candidate};
      }
    }

    /** The gain of joining `candidate`, times `twoM`. */
    function Gain(candidate: NodeId, weightTo: map<NodeId, int>, nodeDegree: int, twoM: int): int
      reads this
    {
      twoM * Lookup(weightTo, candidate) - Lookup(communityDegree, candidate) * nodeDegree
    }

    /** Moves `node` to the neighbouring community with the strongest pull. A move raises
        modularity; without one, no neighbouring community would. */
    method MoveToBest(node: NodeId, adjacency: map<NodeId, Neighbours>, degree: map<NodeId, int>, twoM: int,
                      ghost net: Net)
      returns (moved: bool)
      requires NetOk(net, adjacency) && net.degree == degree && net.twoM == twoM
      requires node in net.us && node in community && Tracked(net, community, communityDegree)
      modifies this
      ensures Tracked(net, community, communityDegree)
      ensures moved ==> community.Keys == old(community.Keys) && community == old(community)[node := community[node]]
      ensures moved ==> Modularity(net, community) > Modularity(net, old(community))
      ensures !moved ==> community == old(community) && IsSettled(net, community, node)
    {
      hide NetOk, IsTally, Pull, Modularity, Tracked, IsSettled, IsNeighbourList;
      var nodeDegree := Lookup(degree, node);
      var current := CommunityOf(community, node);
      ListIsListed(net, adjacency, node);
      var weightTo := TallyNeighbours(node, ListOf(adjacency, node), community, net.us);
      ghost var before := communityDegree;
      communityDegree := communityDegree[current := Lookup(communityDegree, current) - nodeDegree];
      forall c ensures Gain(c, weightTo, nodeDegree, twoM) == Pull(net, community, node, c) {
        CandidateGain(net, adjacency, community, before, node, weightTo, c);
      }
      hide Gain;
      var best := Best(current, weightTo, nodeDegree, twoM);
      communityDegree := communityDegree[best := Lookup(communityDegree, best) + nodeDegree];
      if best != current {
        MoveChangesModularity(net, community, node, best);
        MoveKeepsTracked(net, community, before, node, best, communityDegree);
        community := community[node := best];
        moved := true;
      } else {
        TrackedAgrees(net, community, before, communityDegree);
        StayIsSettled(net, adjacency, community, node, weightTo);
        moved := false;
      }
    }
  }

  // ----- the network of an input -----

  ghost function Ends(edges: seq<WeightedEdge>): set<NodeId> {
    (set e | e in edges :: e.0) + (set e | e in edges :: e.1)
  }

  ghost function Universe(nodes: seq<NodeId>, edges: seq<WeightedEdge>): seq<NodeId> {
    Listed(Elems(nodes) + Ends(edges))
  }

  /** The weighted degree of every node and edge end. */
  ghost function FullDegree(edges: seq<WeightedEdge>, us: seq<NodeId>): map<NodeId, int> {
    map u | u in us :: WeightInto(edges, u, us, Elems(us))
  }

  /** The network the clustering of `nodes` and `edges` runs on: the degree of each listed node,
      and twice the total weight. */
  ghost function NetFor(nodes: seq<NodeId>, edges: seq<WeightedEdge>): Net {
    var us := Universe(nodes, edges);
    var full := FullDegree(edges, us);
    Net(edges, map n | n in nodes && n in full :: full[n], DegreeOf(full, us, Elems(us)), us)
  }

  lemma {:induction false} WeightNeedsEnd(edges: seq<WeightedEdge>, a: NodeId, b: NodeId)
    requires Weight(edges, a, b) > 0
    ensures b in Ends(edges)
  {
    var n := |edges| - 1;
    if Between(edges[n], a, b) {
      assert edges[n] in edges;
    } else {
      WeightNeedsEnd(edges[..n], a, b);
      assert forall e :: e in edges[..n] ==> e in edges;
    }
  }

  lemma NetForOk(nodes: seq<NodeId>, edges: seq<WeightedEdge>, adjacency: map<NodeId, Neighbours>)
    requires forall a :: IsNeighbourList(edges, a, ListOf(adjacency, a))
    requires NetFor(nodes, edges).twoM > 0
    ensures NetOk(NetFor(nodes, edges), adjacency)
    ensures forall n :: n in nodes ==> n in NetFor(nodes, edges).us
  {
    forall a, b | Weight(edges, a, b) > 0 ensures b in NetFor(nodes, edges).us {
      WeightNeedsEnd(edges, a, b);
    }
  }

  /** Adds up a neighbour list. */
  method SumList(list: Neighbours, ghost m: set<NodeId>) returns (total: int)
    requires forall i :: 0 <= i < |list| ==> list[i].0 in m
    ensures total == ListWeight(list, m)
  {
    total := 0;
    for i := 0 to |list|
      invariant total == ListWeight(list[..i], m)
    {
      total := total + list[i].1;
      assert list[..i + 1][..i] == list[..i];
    }
    assert list[..|list|] == list;
  }

  lemma NeighboursListed(nodes: seq<NodeId>, edges: seq<WeightedEdge>, a: NodeId, list: Neighbours)
    requires IsNeighbourList(edges, a, list)
    ensures var us := Universe(nodes, edges);
            && Distinct(us)
            && (forall i :: 0 <= i < |list| ==> list[i].0 in us && list[i].0 in Elems(us))
            && ListWeight(list, Elems(us)) == WeightInto(edges, a, us, Elems(us))
            && (list != [] ==> a in us)
            && (a in us ==> Lookup(FullDegree(edges, us), a) == ListWeight(list, Elems(us)))
  {
    var us := Universe(nodes, edges);
    forall i | 0 <= i < |list| ensures list[i].0 in us {
      WeightNeedsEnd(edges, a, list[i].0);
    }
    ListIsWeightInto(edges, a, list, us, Elems(us));
    if list != [] {
      WeightSymmetric(edges, a, list[0].0);
      WeightNeedsEnd(edges, list[0].0, a);
    }
  }

  method NodeDegrees(nodes: seq<NodeId>, edges: seq<WeightedEdge>, adjacency: map<NodeId, Neighbours>)
    returns (degree: map<NodeId, int>)
    requires forall a :: IsNeighbourList(edges, a, ListOf(adjacency, a))
    ensures degree == NetFor(nodes, edges).degree
  {
    hide IsNeighbourList, FullDegree, ListWeight, WeightInto, Universe;
    ghost var us := Universe(nodes, edges);
    ghost var full := FullDegree(edges, us);
    degree := map[];
    for i := 0 to |nodes|
      invariant forall n :: n in degree <==> n in nodes[..i]
      invariant forall n :: n in degree ==> degree[n] == Lookup(full, n)
    {
      var n := nodes[i];
      NeighboursListed(nodes, edges, n, ListOf(adjacency, n));
      NodeIsListed(nodes, edges, n);
      var d := SumList(ListOf(adjacency, n), Elems(us));
      degree := degree[n := d];
      assert nodes[..i + 1] == nodes[..i] + [n];
    }
    assert nodes[..|nodes|] == nodes;
    forall n | n in nodes ensures n in full {
      NodeIsListed(nodes, edges, n);
    }
    ghost var expected := NetFor(nodes, edges).degree;
    assert forall n :: n in expected <==> n in nodes;
    assert forall n :: n in degree <==> n in expected;
    assert forall n :: n in expected ==> expected[n] == degree[n];
    assert degree == expected;
  }

  lemma NodeIsListed(nodes: seq<NodeId>, edges: seq<WeightedEdge>, n: NodeId)
    requires n in nodes
    ensures n in Universe(nodes, edges) && n in FullDegree(edges, Universe(nodes, edges))
  {
  }

  lemma {:induction false} DegreeOfAgrees(d: map<NodeId, int>, us: seq<NodeId>, m: set<NodeId>, m': set<NodeId>)
    requires forall u :: u in us && Lookup(d, u) != 0 ==> (u in m <==> u in m')
    ensures DegreeOf(d, us, m) == DegreeOf(d, us, m')
  {
    if us != [] {
      var rest := us[..|us| - 1];
      assert us[|us| - 1] in us && forall u :: u in rest ==> u in us;
      DegreeOfAgrees(d, rest, m, m');
    }
  }

  /** One more list. */
  lemma ListAdds(nodes: seq<NodeId>, edges: seq<WeightedEdge>, done: set<NodeId>, a: NodeId, list: Neighbours)
    requires IsNeighbourList(edges, a, list) && a !in done
    ensures var us := Universe(nodes, edges); var full := FullDegree(edges, us);
            && DegreeOf(full, us, done + {a}) == DegreeOf(full, us, done) + ListWeight(list, Elems(us))
            && forall i :: 0 <= i < |list| ==> list[i].0 in Elems(us)
  {
    var us := Universe(nodes, edges);
    NeighboursListed(nodes, edges, a, list);
    EmptySum(list, Elems(us));
    hide IsNeighbourList, FullDegree, ListWeight, WeightInto, Universe, DegreeOf, Lookup, Distinct, Elems;
    DegreeOfJoin(FullDegree(edges, us), us, done, a);
  }

  /** Adds up all neighbour lists: twice the total weight. */
  method TotalWeight(nodes: seq<NodeId>, edges: seq<WeightedEdge>, adjacency: map<NodeId, Neighbours>)
    returns (twoM: int)
    requires forall a :: IsNeighbourList(edges, a, ListOf(adjacency, a))
    ensures twoM == NetFor(nodes, edges).twoM
  {
    hide IsNeighbourList, FullDegree, ListWeight, Universe, DegreeOf, NetFor, Elems;
    ghost var us := Universe(nodes, edges);
    ghost var full := FullDegree(edges, us);
    twoM := 0;
    var todo := adjacency.Keys;
    assert adjacency.Keys - todo == {};
    DegreeOfNone(full, us);
    while todo != {}
      invariant todo <= adjacency.Keys && twoM == DegreeOf(full, us, adjacency.Keys - todo)
      decreases todo
    {
      var a := Pick(todo);
      ListAdds(nodes, edges, adjacency.Keys - todo, a, ListOf(adjacency, a));
      var d := SumList(ListOf(adjacency, a), Elems(us));
      assert adjacency.Keys - (todo - {a}) == adjacency.Keys - todo + {a};
      twoM := twoM + d;
      todo := todo - {a};
    }
    assert adjacency.Keys - {} == adjacency.Keys;
    FullVolume(nodes, edges, adjacency);
  }

  lemma FullVolume(nodes: seq<NodeId>, edges: seq<WeightedEdge>, adjacency: map<NodeId, Neighbours>)
    requires forall a :: IsNeighbourList(edges, a, ListOf(adjacency, a))
    ensures var us := Universe(nodes, edges);
            DegreeOf(FullDegree(edges, us), us, adjacency.Keys) == NetFor(nodes, edges).twoM
  {
    var us := Universe(nodes, edges);
    var full := FullDegree(edges, us);
    hide IsNeighbourList, FullDegree, ListWeight, WeightInto, Universe, DegreeOf;
    forall u | u in us && Lookup(full, u) != 0 ensures u in adjacency.Keys <==> u in Elems(us) {
      NeighboursListed(nodes, edges, u, ListOf(adjacency, u));
      EmptySum(ListOf(adjacency, u), Elems(us));
    }
    DegreeOfAgrees(full, us, adjacency.Keys, Elems(us));
  }

  lemma EmptySum(list: Neighbours, m: set<NodeId>)
    ensures list == [] ==> ListWeight(list, m) == 0
  {
  }

  lemma {:induction false} DegreeOfNone(d: map<NodeId, int>, us: seq<NodeId>)
    ensures DegreeOf(d, us, {}) == 0
  {
    if us != [] {
      DegreeOfNone(d, us[..|us| - 1]);
    }
  }

  // ----- the clustering -----

  ghost function Singletons(nodes: seq<NodeId>): map<NodeId, NodeId> {
    map n | n in nodes :: n
  }

  /** The network is that of the nodes and no others, with all their degrees, so that `Modularity` is the
      usual one, scaled. */
  ghost predicate IsWhole(net: Net, nodes: seq<NodeId>, edges: seq<WeightedEdge>) {
    && net.degree == FullDegree(edges, net.us)
    && net.twoM == DegreeOf(net.degree, net.us, Elems(net.us))
    && (forall u :: u in net.us <==> u in nodes)
  }

  ghost predicate JoinsListed(nodes: seq<NodeId>, edges: seq<WeightedEdge>) {
    forall e :: e in edges ==> e.0 in nodes && e.1 in nodes
  }

  /** When every edge joins listed nodes, nothing is missing. */
  lemma DegreesComplete(nodes: seq<NodeId>, edges: seq<WeightedEdge>)
    requires JoinsListed(nodes, edges)
    ensures IsWhole(NetFor(nodes, edges), nodes, edges)
  {
    hide DegreeOf, WeightInto;
    var net := NetFor(nodes, edges);
    var full := FullDegree(edges, net.us);
    assert forall u :: u in net.us <==> u in nodes;
    assert forall u :: u in full <==> u in net.degree;
    assert net.degree == full;
  }

  lemma NetForBasics(nodes: seq<NodeId>, edges: seq<WeightedEdge>)
    ensures var net := NetFor(nodes, edges);
            Distinct(net.us) && forall c :: c in net.degree ==> c in net.us
  {
  }

  lemma SingletonsTracked(nodes: seq<NodeId>, edges: seq<WeightedEdge>)
    ensures var net := NetFor(nodes, edges); Tracked(net, Singletons(nodes), net.degree)
  {
    hide NetFor, DegreeOf;
    NetForBasics(nodes, edges);
    var net := NetFor(nodes, edges);
    forall c ensures Lookup(net.degree, c) == DegreeOf(net.degree, net.us, Members(net.us, Singletons(nodes), c)) {
      DegreeOfNone(net.degree, net.us);
      DegreeOfJoin(net.degree, net.us, {}, c);
      if c in net.us {
        assert Members(net.us, Singletons(nodes), c) == {} + {c};
      } else {
        assert Members(net.us, Singletons(nodes), c) == {};
      }
    }
  }

  ghost function Communities(nodes: seq<NodeId>, community: map<NodeId, NodeId>): set<NodeId> {
    set n | n in nodes :: CommunityOf(community, n)
  }

  /** The first node of each community, in the order of the list. */
  ghost function FirstAppearances(nodes: seq<NodeId>, community: map<NodeId, NodeId>): seq<NodeId> {
    if nodes == [] then [] else
    var before, last := nodes[..|nodes| - 1], nodes[|nodes| - 1];
    var firsts := FirstAppearances(before, community);
    if CommunityOf(community, last) in Communities(before, community) then firsts else firsts + [last]
  }

  lemma NextAppearance(done: seq<NodeId>, node: NodeId, community: map<NodeId, NodeId>)
    ensures var raw := CommunityOf(community, node); var seen := Communities(done, community);
            && Communities(done + [node], community) == seen + {raw} && Elems(done + [node]) == Elems(done) + {node}
            && FirstAppearances(done + [node], community)
               == FirstAppearances(done, community) + (if raw in seen then [] else [node])
  {
    var upTo := done + [node];
    assert upTo[..|upTo| - 1] == done;
    ElemsAppend(done, node);
  }

  /** The nodes carry the numbers of their communities, given out in the order of `firsts`. */
  ghost predicate Assigned(community: map<NodeId, NodeId>, seen: map<NodeId, int>, result: map<NodeId, int>,
                           firsts: seq<NodeId>) {
    && (forall x :: x in result ==> CommunityOf(community, x) in seen && result[x] == seen[CommunityOf(community, x)])
    && (forall c :: c in seen ==> 0 <= seen[c] < |firsts|)
    && (forall c, d :: c in seen && d in seen && seen[c] == seen[d] ==> c == d)
    && (forall k :: 0 <= k < |firsts| ==> firsts[k] in result && result[firsts[k]] == k)
  }

  /** So do the nodes of `done`. */
  ghost predicate Numbers(community: map<NodeId, NodeId>, done: seq<NodeId>, seen: map<NodeId, int>,
                          result: map<NodeId, int>, firsts: seq<NodeId>)
  {
    && result.Keys == Elems(done) && seen.Keys == Communities(done, community)
    && firsts == FirstAppearances(done, community) && InOrder(done, result)
    && Assigned(community, seen, result, firsts)
  }

  ghost predicate IsGiven(nodes: seq<NodeId>, result: map<NodeId, int>, number: int) {
    exists x :: x in nodes && Lookup(result, x) == number
  }

  /** Each node has the number of one before it, or one above all of those before. */
  ghost predicate InOrder(nodes: seq<NodeId>, result: map<NodeId, int>) {
    nodes == [] ||
    var before, number := nodes[..|nodes| - 1], Lookup(result, nodes[|nodes| - 1]);
    && InOrder(before, result)
    && (IsGiven(before, result, number) || forall x :: x in before ==> Lookup(result, x) < number)
  }

  lemma {:induction false} InOrderAgrees(nodes: seq<NodeId>, result: map<NodeId, int>, more: map<NodeId, int>)
    requires InOrder(nodes, result) && forall x :: x in nodes ==> Lookup(result, x) == Lookup(more, x)
    ensures InOrder(nodes, more)
  {
    if nodes != [] {
      var n := |nodes| - 1;
      assert nodes == nodes[..n] + [nodes[n]];
      InOrderAgrees(nodes[..n], result, more);
    }
  }

  /** The next node keeps its number, shares one, or has one above all. */
  lemma InOrderNext(done: seq<NodeId>, node: NodeId, result: map<NodeId, int>, number: int)
    requires InOrder(done, result) && (node in done ==> Lookup(result, node) == number)
    requires IsGiven(done, result, number) || forall x :: x in done ==> Lookup(result, x) < number
    ensures InOrder(done + [node], result[node := number])
  {
    var more := result[node := number];
    assert forall x :: x in done ==> Lookup(result, x) == Lookup(more, x);
    InOrderAgrees(done, result, more);
    if x :| x in done && Lookup(result, x) == number {
      assert Lookup(more, x) == number;
    }
    assert (done + [node])[..|done|] == done;
  }

  lemma OldInOrder(community: map<NodeId, NodeId>, done: seq<NodeId>, node: NodeId, seen: map<NodeId, int>,
                   result: map<NodeId, int>, firsts: seq<NodeId>)
    requires Numbers(community, done, seen, result, firsts) && CommunityOf(community, node) in seen
    ensures InOrder(done + [node], result[node := seen[CommunityOf(community, node)]])
  {
    hide InOrder, FirstAppearances;
    var x :| x in done && CommunityOf(community, x) == CommunityOf(community, node);
    assert x in Elems(done) && (node in done ==> node in Elems(done));
    assert IsGiven(done, result, seen[CommunityOf(community, node)]);
    InOrderNext(done, node, result, seen[CommunityOf(community, node)]);
  }

  lemma NewInOrder(community: map<NodeId, NodeId>, done: seq<NodeId>, node: NodeId, seen: map<NodeId, int>,
                   result: map<NodeId, int>, firsts: seq<NodeId>)
    requires Numbers(community, done, seen, result, firsts) && CommunityOf(community, node) !in seen
    ensures InOrder(done + [node], result[node := |firsts|])
  {
    hide InOrder, FirstAppearances;
    forall x | x in done ensures Lookup(result, x) < |firsts| && x != node {
      assert x in Elems(done);
    }
    InOrderNext(done, node, result, |firsts|);
  }

  lemma NothingInOrder(result: map<NodeId, int>)
    ensures InOrder([], result)
  {
  }

  lemma NumbersStart(community: map<NodeId, NodeId>)
    ensures Numbers(community, [], map[], map[], [])
  {
    assert Communities([], community) == {};
  }

  lemma AssignOld(community: map<NodeId, NodeId>, node: NodeId, seen: map<NodeId, int>, result: map<NodeId, int>,
                  firsts: seq<NodeId>)
    requires Assigned(community, seen, result, firsts) && CommunityOf(community, node) in seen
    ensures Assigned(community, seen, result[node := seen[CommunityOf(community, node)]], firsts)
  {
    hide CommunityOf;
  }

  lemma AssignNew(community: map<NodeId, NodeId>, node: NodeId, seen: map<NodeId, int>, result: map<NodeId, int>,
                  firsts: seq<NodeId>)
    requires Assigned(community, seen, result, firsts) && CommunityOf(community, node) !in seen
    ensures Assigned(community, seen[CommunityOf(community, node) := |firsts|], result[node := |firsts|],
                     firsts + [node])
  {
    hide CommunityOf;
    assert node !in result;
  }

  lemma NumbersOld(community: map<NodeId, NodeId>, done: seq<NodeId>, node: NodeId, seen: map<NodeId, int>,
                   result: map<NodeId, int>, firsts: seq<NodeId>)
    requires Numbers(community, done, seen, result, firsts) && CommunityOf(community, node) in seen
    ensures Numbers(community, done + [node], seen, result[node := seen[CommunityOf(community, node)]], firsts)
  {
    NextAppearance(done, node, community);
    AbsorbOne(seen.Keys, CommunityOf(community, node));
    AssignOld(community, node, seen, result, firsts);
    OldInOrder(community, done, node, seen, result, firsts);
    hide InOrder, Communities, FirstAppearances, Elems, CommunityOf, Assigned;
    assert firsts + [] == firsts;
  }

  lemma NumbersNew(community: map<NodeId, NodeId>, done: seq<NodeId>, node: NodeId, seen: map<NodeId, int>,
                   result: map<NodeId, int>, firsts: seq<NodeId>)
    requires Numbers(community, done, seen, result, firsts) && CommunityOf(community, node) !in seen
    ensures Numbers(community, done + [node], seen[CommunityOf(community, node) := |firsts|],
                    result[node := |firsts|], firsts + [node])
  {
    NextAppearance(done, node, community);
    AssignNew(community, node, seen, result, firsts);
    NewInOrder(community, done, node, seen, result, firsts);
    hide InOrder, Communities, FirstAppearances, Elems, CommunityOf, Assigned;
    assert result[node := |firsts|].Keys == result.Keys + {node};
    assert seen[CommunityOf(community, node) := |firsts|].Keys == seen.Keys + {CommunityOf(community, node)};
  }

  lemma AbsorbOne<T>(s: set<T>, x: T)
    requires x in s
    ensures s + {x} == s
  {
  }

  /** Replaces community keys by numbers counted from zero in the order of first appearance. */
  method Renumber(nodes: seq<NodeId>, community: map<NodeId, NodeId>)
    returns (result: map<NodeId, int>, ghost firsts: seq<NodeId>)
    ensures result.Keys == Elems(nodes)
    ensures forall x, y :: x in nodes && y in nodes ==>
              (result[x] == result[y] <==> CommunityOf(community, x) == CommunityOf(community, y))
    ensures forall x :: x in nodes ==> 0 <= result[x] < |firsts|
    ensures forall k :: 0 <= k < |firsts| ==> firsts[k] in nodes && result[firsts[k]] == k
    ensures firsts == FirstAppearances(nodes, community) && InOrder(nodes, result)
  {
    var seen: map<NodeId, int> := map[];
    var nextId := 0;
    result, firsts := map[], [];
    NumbersStart(community);
    hide InOrder;
    for i := 0 to |nodes|
      invariant Numbers(community, nodes[..i], seen, result, firsts) && nextId == |firsts|
    {
      hide Numbers, CommunityOf;
      assert nodes[..i + 1] == nodes[..i] + [nodes[i]];
      var raw := CommunityOf(community, nodes[i]);
      if raw in seen {
        NumbersOld(community, nodes[..i], nodes[i], seen, result, firsts);
      } else {
        NumbersNew(community, nodes[..i], nodes[i], seen, result, firsts);
      }
      if raw !in seen {
        seen := seen[raw := nextId];
        nextId := nextId + 1;
        firsts := firsts + [nodes[i]];
      }
      result := result[nodes[i] := seen[raw]];
    }
    assert nodes[..|nodes|] == nodes;
    NumbersMean(nodes, community, seen, result, firsts);
  }

  lemma NumbersMean(nodes: seq<NodeId>, community: map<NodeId, NodeId>, seen: map<NodeId, int>,
                    result: map<NodeId, int>, firsts: seq<NodeId>)
    requires Numbers(community, nodes, seen, result, firsts)
    ensures InOrder(nodes, result)
    ensures forall x, y :: x in nodes && y in nodes ==>
              (result[x] == result[y] <==> CommunityOf(community, x) == CommunityOf(community, y))
    ensures forall x :: x in nodes ==> 0 <= result[x] < |firsts|
    ensures forall k :: 0 <= k < |firsts| ==> firsts[k] in nodes && result[firsts[k]] == k
  {
    hide InOrder, Communities, FirstAppearances;
    assert forall x :: x in nodes <==> x in result.Keys;
  }

  /** One pass over the nodes. If any node moved, modularity rose; if none did, all are settled. */
  method Pass(nodes: seq<NodeId>, clustering: Clustering, adjacency: map<NodeId, Neighbours>, degree: map<NodeId, int>,
              twoM: int, ghost net: Net)
    returns (improved: bool)
    requires NetOk(net, adjacency) && net.degree == degree && net.twoM == twoM
    requires forall n :: n in nodes ==> n in net.us && n in clustering.community
    requires Tracked(net, clustering.community, clustering.communityDegree)
    modifies clustering
    ensures Tracked(net, clustering.community, clustering.communityDegree)
    ensures clustering.community.Keys == old(clustering.community.Keys)
    ensures improved ==> Modularity(net, clustering.community) > Modularity(net, old(clustering.community))
    ensures !improved ==> clustering.community == old(clustering.community)
                          && forall n :: n in nodes ==> IsSettled(net, clustering.community, n)
  {
    hide NetOk, Tracked, IsSettled, Modularity;
    improved := false;
    for i := 0 to |nodes|
      invariant Tracked(net, clustering.community, clustering.communityDegree)
      invariant clustering.community.Keys == old(clustering.community.Keys)
      invariant improved ==> Modularity(net, clustering.community) > Modularity(net, old(clustering.community))
      invariant !improved ==> clustering.community == old(clustering.community)
                              && forall n :: n in nodes[..i] ==> IsSettled(net, clustering.community, n)
    {
      var moved := clustering.MoveToBest(nodes[i], adjacency, degree, twoM, net);
      if moved {
        improved := true;
      }
      assert nodes[..i + 1] == nodes[..i] + [nodes[i]];
    }
    assert nodes[..|nodes|] == nodes;
  }

  /** The ids in use are those from zero up to the number of `firsts`, each of which carries its own. */
  ghost predicate IsContiguous(nodes: seq<NodeId>, result: map<NodeId, int>, firsts: seq<NodeId>)
    requires result.Keys == Elems(nodes)
  {
    && (forall x :: x in nodes ==> 0 <= result[x] < |firsts|)
    && (forall k :: 0 <= k < |firsts| ==> firsts[k] in nodes && result[firsts[k]] == k)
  }

  /** `result` numbers the communities `raw`, which are at least as good as every node on its own and
      which no node could better by joining a neighbour. */
  ghost predicate IsClustering(nodes: seq<NodeId>, edges: seq<WeightedEdge>, result: map<NodeId, int>,
                               raw: map<NodeId, NodeId>)
    requires result.Keys == Elems(nodes)
  {
    && raw.Keys == Elems(nodes)
    && (forall x, y :: x in nodes && y in nodes ==> (result[x] == result[y] <==> raw[x] == raw[y]))
    && Modularity(NetFor(nodes, edges), raw) >= Modularity(NetFor(nodes, edges), Singletons(nodes))
    && (forall n :: n in nodes ==> IsSettled(NetFor(nodes, edges), raw, n))
  }

  /** Louvain clustering. The loop ends because every pass but the last raises modularity, which
      is bounded. The communities found are at least as good as every node on its own, and no
      single node could raise modularity by joining a neighbour. */
  method LouvainCommunities(nodes: seq<NodeId>, edges: seq<WeightedEdge>)
    returns (result: map<NodeId, int>)
    ensures result.Keys == Elems(nodes) && InOrder(nodes, result)
    ensures exists firsts :: IsContiguous(nodes, result, firsts)
    ensures exists raw :: IsClustering(nodes, edges, result, raw)
    ensures JoinsListed(nodes, edges) ==> IsWhole(NetFor(nodes, edges), nodes, edges)
  {
    hide NetOk, Tracked, IsSettled, Modularity, NetFor, IsNeighbourList, IsWhole, JoinsListed, InOrder;
    if JoinsListed(nodes, edges) {
      DegreesComplete(nodes, edges);
    }
    ghost var firsts: seq<NodeId>;
    if nodes == [] {
      result := map[];
      NothingInOrder(result);
      assert IsContiguous(nodes, result, []) && IsClustering(nodes, edges, result, Singletons(nodes));
      return;
    }
    var adjacency := UndirectedAdjacency(edges);
    var twoM := TotalWeight(nodes, edges, adjacency);
    var community := map n | n in nodes :: n;
    if twoM <= 0 {
      forall n | n in nodes ensures IsSettled(NetFor(nodes, edges), community, n) {
        WeightlessIsSettled(nodes, edges, community, n);
      }
    } else {
      var degree := NodeDegrees(nodes, edges, adjacency);
      NetForOk(nodes, edges, adjacency);
      SingletonsTracked(nodes, edges);
      community := Improve(nodes, community, adjacency, degree, twoM, NetFor(nodes, edges));
    }
    result, firsts := Renumber(nodes, community);
    assert IsContiguous(nodes, result, firsts);
    assert IsClustering(nodes, edges, result, community);
  }

  /** Passes over the nodes until one of them moves nothing. */
  method Improve(nodes: seq<NodeId>, start: map<NodeId, NodeId>, adjacency: map<NodeId, Neighbours>,
                 degree: map<NodeId, int>, twoM: int, ghost net: Net)
    returns (community: map<NodeId, NodeId>)
    requires NetOk(net, adjacency) && net.degree == degree && net.twoM == twoM
    requires forall n :: n in nodes ==> n in net.us && n in start
    requires Tracked(net, start, degree)
    ensures community.Keys == start.Keys
    ensures Modularity(net, community) >= Modularity(net, start)
    ensures forall n :: n in nodes ==> IsSettled(net, community, n)
  {
    hide NetOk, Tracked, IsSettled, Modularity, Cap;
    var clustering := new Clustering(start, degree);
    var improved := true;
    ModularityCapped(net, adjacency, clustering.community);
    while improved
      invariant Tracked(net, clustering.community, clustering.communityDegree)
      invariant clustering.community.Keys == start.Keys
      invariant Modularity(net, clustering.community) >= Modularity(net, start)
      invariant !improved ==> forall n :: n in nodes ==> IsSettled(net, clustering.community, n)
      invariant Modularity(net, clustering.community) <= Cap(net, net.us)
      decreases Cap(net, net.us) - Modularity(net, clustering.community), improved
    {
      improved := Pass(nodes, clustering, adjacency, degree, twoM, net);
      ModularityCapped(net, adjacency, clustering.community);
    }
    community := clustering.community;
  }

  lemma ModularityCapped(net: Net, adjacency: map<NodeId, Neighbours>, community: map<NodeId, NodeId>)
    requires NetOk(net, adjacency)
    ensures Modularity(net, community) <= Cap(net, net.us)
  {
    BondSumCapped(net, net.us, community);
  }

  /** Without any weight there is no neighbour to join. */
  lemma WeightlessIsSettled(nodes: seq<NodeId>, edges: seq<WeightedEdge>, community: map<NodeId, NodeId>, n: NodeId)
    requires NetFor(nodes, edges).twoM <= 0
    ensures IsSettled(NetFor(nodes, edges), community, n)
  {
    var net := NetFor(nodes, edges);
    forall u ensures Weight(edges, n, u) <= 0 {
      if Weight(edges, n, u) > 0 {
        PositiveVolume(nodes, edges, n, u);
        assert false;
      }
    }
  }

  lemma PositiveDegree(edges: seq<WeightedEdge>, us: seq<NodeId>, a: NodeId, b: NodeId)
    requires Weight(edges, a, b) > 0 && Distinct(us) && b in us
    ensures WeightInto(edges, a, us, Elems(us)) > 0
  {
    var all := Elems(us);
    assert all == all - {b} + {b};
    WeightIntoJoin(edges, a, us, all - {b}, b);
  }

  lemma PositiveVolume(nodes: seq<NodeId>, edges: seq<WeightedEdge>, a: NodeId, b: NodeId)
    requires Weight(edges, a, b) > 0
    ensures NetFor(nodes, edges).twoM > 0
  {
    var us := Universe(nodes, edges);
    var full := FullDegree(edges, us);
    var all := Elems(us);
    WeightNeedsEnd(edges, a, b);
    WeightSymmetric(edges, a, b);
    WeightNeedsEnd(edges, b, a);
    PositiveDegree(edges, us, a, b);
    hide Weight, WeightInto;
    assert Lookup(full, a) > 0 && NonNegative(full) && Distinct(us);
    hide DegreeOf, FullDegree, Universe, Lookup, Distinct, NonNegative;
    assert all == all - {a} + {a};
    DegreeOfJoin(full, us, all - {a}, a);
    DegreeOfNonNegative(full, us, all - {a});
  }
}
