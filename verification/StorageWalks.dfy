/** The caller walks that read the edge table directly: the hop-bounded `inbound_within` of the
    export and the transitive `callers_text` of the query language, and their agreement with the
    compressed structure's `callers_within`. */
module StorageWalks {
  import opened Graph
  import Csr

  type Edge = (int, int)

  /** The sources of the stored edges into `id`. */
  method GetCallers(edges: seq<Edge>, id: int) returns (callers: seq<int>)
    ensures forall x :: x in callers <==> (x, id) in edges
  {
    callers := [];
    for i := 0 to |edges|
      invariant forall x :: x in callers <==> (x, id) in edges[..i]
    {
      var (source, target) := edges[i];
      assert edges[..i + 1] == edges[..i] + [(source, target)];
      if target == id {
        callers := callers + [source];
      }
    }
    assert edges[..|edges|] == edges;
  }

  /** The inbound graph: each edge leads from the called to the caller. */
  ghost function Inbound(edges: seq<Edge>): set<Edge> {
    Reversed(EdgeSet(edges))
  }

  lemma InboundEdge(edges: seq<Edge>, w: int, v: int)
    ensures (w, v) in Inbound(edges) <==> (v, w) in edges
  {
    if (v, w) in edges {
      var e := (v, w);
      assert e in EdgeSet(edges);
      assert (e.1, e.0) in Inbound(edges);
    }
  }

  // ----- the hop-bounded walk -----

  method ExpandCallers(edges: seq<Edge>, frontier: seq<int>, visited: set<int>)
    returns (next: seq<int>, visited': set<int>)
    ensures IsExpansion(Inbound(edges), visited, Elems(frontier), visited')
    ensures visited <= visited' && Elems(next) == visited' - visited
  {
    next, visited' := [], visited;
    for i := 0 to |frontier|
      invariant visited <= visited' && Elems(next) == visited' - visited
      invariant forall v ::
                  v in visited' <==> v in visited || exists w :: w in Elems(frontier[..i]) && (w, v) in Inbound(edges)
    {
      var id := frontier[i];
      var callers := GetCallers(edges, id);
      ghost var before := visited';
      for j := 0 to |callers|
        invariant before <= visited' && Elems(next) == visited' - visited
        invariant forall v :: v in visited' <==> v in before || v in callers[..j]
      {
        var caller := callers[j];
        if caller !in visited' {
          visited' := visited' + {caller};
          ElemsAppend(next, caller);
          next := next + [caller];
        }
        assert callers[..j + 1] == callers[..j] + [caller];
      }
      assert callers[..|callers|] == callers;
      assert frontier[..i + 1] == frontier[..i] + [id];
      ElemsAppend(frontier[..i], id);
      forall v ensures v in callers <==> (id, v) in Inbound(edges) {
        InboundEdge(edges, id, v);
      }
    }
    assert frontier[..|frontier|] == frontier;
  }

  /** Every node from which `root` is at most `depth` edges away, and `root` itself. */
  method InboundWithin(edges: seq<Edge>, root: int, depth: nat) returns (visited: set<int>)
    ensures IsBall(Inbound(edges), root, depth, visited)
  {
    hide IsHop, IsBall, IsClosed, IsExpansion, Inbound;
    ghost var g := Inbound(edges);
    visited := {root};
    var frontier := [root];
    FirstHop(g, root);
    assert Elems(frontier) == {root};
    for hop := 0 to depth
      invariant IsHop(g, root, hop, visited, Elems(frontier))
    {
      var next, visited' := ExpandCallers(edges, frontier, visited);
      NextHop(g, root, hop, visited, Elems(frontier), visited');
      if next == [] {
        NothingNew(visited, visited');
        LastHop(g, root, hop, visited, Elems(frontier), depth);
        return;
      }
      frontier, visited := next, visited';
    }
    HopIsBall(g, root, depth, visited, Elems(frontier));
  }

  // ----- the transitive walk -----

  /** The inbound edges whose caller has a stored node. */
  ghost function InboundFrom(edges: seq<Edge>, present: set<int>): set<Edge> {
    set e | e in Inbound(edges) && e.1 in present
  }

  /** The nodes named so far all lead to `root`, and only queued ones may have callers not yet
      visited. */
  ghost predicate Walking(edges: seq<Edge>, present: set<int>, root: int, visited: set<int>, lines: seq<int>,
                          open: set<int>) {
    && root in visited && Distinct(lines)
    && (forall x :: x in lines <==> x in visited && x in present && x != root)
    && (forall x :: x in lines ==> Reaches(InboundFrom(edges, present), root, x))
    && open <= Elems(lines) + {root}
    && (forall w, v :: (v, w) in edges && w in Elems(lines) + {root} && w !in open ==> v in visited)
  }

  lemma NameCaller(edges: seq<Edge>, present: set<int>, root: int, visited: set<int>, lines: seq<int>, open: set<int>,
                   current: int, caller: int)
    requires Walking(edges, present, root, visited, lines, open) && current in open
    requires (caller, current) in edges && caller !in visited
    ensures caller in present ==> Walking(edges, present, root, visited + {caller}, lines + [caller], open + {caller})
    ensures caller !in present ==> Walking(edges, present, root, visited + {caller}, lines, open)
  {
    var g := InboundFrom(edges, present);
    if caller in present {
      InboundEdge(edges, current, caller);
      var e := (current, caller);
      assert e in g;
      ReachesEdge(g, current, caller);
      if current == root {
        ReachesSelf(g, root);
      }
      ReachesTrans(g, root, current, caller);
      ElemsAppend(lines, caller);
    }
  }

  /** Visits the callers of one queued node. */
  method VisitCallers(edges: seq<Edge>, present: set<int>, root: int, current: int, visited: set<int>, lines: seq<int>,
                      queue: seq<int>)
    returns (visited': set<int>, lines': seq<int>, queue': seq<int>)
    requires Walking(edges, present, root, visited, lines, Elems(queue) + {current})
    requires visited <= {root} + Sources(edges)
    ensures Walking(edges, present, root, visited', lines', Elems(queue'))
    ensures visited <= visited' <= {root} + Sources(edges) && (visited' == visited ==> queue' == queue)
  {
    hide Walking, Sources;
    visited', lines', queue' := visited, lines, queue;
    var callers := GetCallers(edges, current);
    for i := 0 to |callers|
      invariant Walking(edges, present, root, visited', lines', Elems(queue') + {current})
      invariant visited <= visited' <= {root} + Sources(edges) && (visited' == visited ==> queue' == queue)
      invariant forall x :: x in callers[..i] ==> x in visited'
    {
      var caller := callers[i];
      assert callers[..i + 1] == callers[..i] + [caller];
      if caller !in visited' {
        NameCaller(edges, present, root, visited', lines', Elems(queue') + {current}, current, caller);
        SourceOfEdge(edges, caller, current);
        visited' := visited' + {caller};
        if caller in present {
          ElemsAppend(queue', caller);
          assert Elems(queue' + [caller]) + {current} == Elems(queue') + {current} + {caller};
          lines' := lines' + [caller];
          queue' := queue' + [caller];
        }
      }
    }
    assert callers[..|callers|] == callers;
    CallersDone(edges, present, root, visited', lines', Elems(queue'), current);
  }

  lemma CallersDone(edges: seq<Edge>, present: set<int>, root: int, visited: set<int>, lines: seq<int>, open: set<int>,
                    current: int)
    requires Walking(edges, present, root, visited, lines, open + {current})
    requires forall x :: (x, current) in edges ==> x in visited
    ensures Walking(edges, present, root, visited, lines, open)
  {
  }

  ghost function Sources(edges: seq<Edge>): set<int> {
    set e | e in edges :: e.0
  }

  lemma SourceOfEdge(edges: seq<Edge>, a: int, b: int)
    requires (a, b) in edges
    ensures a in Sources(edges)
  {
    var e := (a, b);
    assert e.0 in Sources(edges);
  }

  /** The transitive callers of `root` that have a stored node, `root` itself left out: exactly
      those from which a walk over stored callers leads to `root`. */
  method CallersText(edges: seq<Edge>, present: set<int>, root: int) returns (lines: seq<int>)
    ensures Distinct(lines)
    ensures forall x :: x in lines <==> x != root && x in present && Reaches(InboundFrom(edges, present), root, x)
  {
    var visited := {root};
    var queue := [root];
    lines := [];
    ghost var g := InboundFrom(edges, present);
    StartWalking(edges, present, root);
    hide Walking, Sources, InboundFrom;
    while queue != []
      invariant Walking(edges, present, root, visited, lines, Elems(queue))
      invariant visited <= {root} + Sources(edges)
      decreases {root} + Sources(edges) - visited, |queue|
    {
      var current := queue[0];
      ElemsHead(queue);
      queue := queue[1..];
      visited, lines, queue := VisitCallers(edges, present, root, current, visited, lines, queue);
    }
    forall x ensures x in lines <==> x != root && x in present && Reaches(g, root, x) {
      WalkedAll(edges, present, root, visited, lines, x);
    }
    LinesDistinct(edges, present, root, visited, lines);
  }

  lemma StartWalking(edges: seq<Edge>, present: set<int>, root: int)
    ensures Walking(edges, present, root, {root}, [], Elems([root]))
  {
    assert Elems([root]) == {root};
  }

  lemma ElemsHead(s: seq<int>)
    requires s != []
    ensures Elems(s) == Elems(s[1..]) + {s[0]}
  {
    assert s == [s[0]] + s[1..];
    assert forall x :: x in s <==> x == s[0] || x in s[1..];
  }

  lemma LinesDistinct(edges: seq<Edge>, present: set<int>, root: int, visited: set<int>, lines: seq<int>)
    requires Walking(edges, present, root, visited, lines, Elems([]))
    ensures Distinct(lines)
  {
  }

  /** With nothing left open, the named nodes cannot be left along stored callers. */
  lemma WalkedAll(edges: seq<Edge>, present: set<int>, root: int, visited: set<int>, lines: seq<int>, x: int)
    requires Walking(edges, present, root, visited, lines, Elems([]))
    ensures x in lines <==> x != root && x in present && Reaches(InboundFrom(edges, present), root, x)
  {
    var g := InboundFrom(edges, present);
    var s := Elems(lines) + {root};
    if Reaches(g, root, x) {
      forall w, v | (w, v) in g && w in s ensures v in s {
        InboundEdge(edges, w, v);
        assert w !in Elems<int>([]);
      }
      ClosedTraps(g, s, root, x);
    }
  }

  // ----- agreement with the compressed structure -----

  /** The inbound graph the compressed structure searches. */
  ghost function Indexed(nodes: seq<int>, edges: seq<Edge>): set<Edge> {
    Reversed(Csr.Known(nodes, edges))
  }

  lemma IndexedEdge(nodes: seq<int>, edges: seq<Edge>, w: int, v: int)
    ensures (w, v) in Indexed(nodes, edges) <==> (v, w) in edges && v in nodes && w in nodes
  {
    Csr.KnownEdge(nodes, edges, v, w);
    Csr.ReversedEdge(Csr.Known(nodes, edges), v, w);
  }

  lemma MonotoneWalk(g: set<Edge>, h: set<Edge>, p: seq<int>)
    requires IsWalk(g, p) && forall i, j :: 0 <= i < j < |p| && j == i + 1 && (p[i], p[j]) in g ==> (p[i], p[j]) in h
    ensures IsWalk(h, p)
  {
  }

  /** Inside the known nodes, walks over the table and over the structure are the same. */
  lemma SameWalks(nodes: seq<int>, edges: seq<Edge>, p: seq<int>)
    requires p != [] && forall i :: 0 <= i < |p| ==> p[i] in nodes
    ensures IsWalk(Inbound(edges), p) <==> IsWalk(Indexed(nodes, edges), p)
  {
    forall i, j | 0 <= i < j < |p| && j == i + 1
      ensures (p[i], p[j]) in Inbound(edges) <==> (p[i], p[j]) in Indexed(nodes, edges)
    {
      InboundEdge(edges, p[i], p[j]);
      IndexedEdge(nodes, edges, p[i], p[j]);
    }
  }

  lemma {:induction false} IndexedWalkKnown(nodes: seq<int>, edges: seq<Edge>, p: seq<int>, i: int)
    requires IsWalk(Indexed(nodes, edges), p) && p[0] in nodes && 0 <= i < |p|
    ensures p[i] in nodes
  {
    if i > 0 {
      assert (p[i - 1], p[i]) in Indexed(nodes, edges);
      IndexedEdge(nodes, edges, p[i - 1], p[i]);
    }
  }

  /** A walk over the structure is one over the table. */
  lemma IndexedWithin(nodes: seq<int>, edges: seq<Edge>, root: int, x: int, k: nat)
    requires root in nodes && Within(Indexed(nodes, edges), root, x, k)
    ensures Within(Inbound(edges), root, x, k) && x in nodes
  {
    var p :| IsWalkFromTo(Indexed(nodes, edges), p, root, x) && |p| <= k + 1;
    forall i | 0 <= i < |p| ensures p[i] in nodes {
      IndexedWalkKnown(nodes, edges, p, i);
    }
    SameWalks(nodes, edges, p);
    assert IsWalkFromTo(Inbound(edges), p, root, x);
  }

  /** A walk over the table that meets only known nodes is one over the structure. */
  lemma TableWithin(nodes: seq<int>, edges: seq<Edge>, root: int, x: int, k: nat)
    requires forall y :: Reaches(Inbound(edges), root, y) ==> y in nodes
    requires Within(Inbound(edges), root, x, k)
    ensures Within(Indexed(nodes, edges), root, x, k)
  {
    var g := Inbound(edges);
    var p :| IsWalkFromTo(g, p, root, x) && |p| <= k + 1;
    forall i | 0 <= i < |p| ensures p[i] in nodes {
      assert IsWalkFromTo(g, p[..i + 1], root, p[i]);
    }
    SameWalks(nodes, edges, p);
    assert IsWalkFromTo(Indexed(nodes, edges), p, root, x);
  }

  /** The table walk and the structure name the same callers at every depth exactly when no node
      without a row leads to `root`. */
  lemma BoundedWalksAgree(nodes: seq<int>, edges: seq<Edge>, root: int)
    requires root in nodes
    ensures (forall x, k: nat :: Within(Inbound(edges), root, x, k) <==> Within(Indexed(nodes, edges), root, x, k))
            <==> (forall y :: Reaches(Inbound(edges), root, y) ==> y in nodes)
  {
    var g, h := Inbound(edges), Indexed(nodes, edges);
    if forall y :: Reaches(g, root, y) ==> y in nodes {
      forall x, k: nat ensures Within(g, root, x, k) <==> Within(h, root, x, k) {
        if Within(g, root, x, k) { TableWithin(nodes, edges, root, x, k); }
        if Within(h, root, x, k) { IndexedWithin(nodes, edges, root, x, k); }
      }
    }
    if forall x, k: nat :: Within(g, root, x, k) <==> Within(h, root, x, k) {
      forall y | Reaches(g, root, y) ensures y in nodes {
        ReachesWithin(g, root, y);
        var k: nat :| Within(g, root, y, k);
        IndexedWithin(nodes, edges, root, y, k);
      }
    }
  }

  /** Without dangling edges no unknown node leads anywhere. */
  lemma NoDanglingIsKnown(nodes: seq<int>, edges: seq<Edge>, root: int, y: int)
    requires root in nodes && Reaches(Inbound(edges), root, y)
    requires forall a, b :: (a, b) in edges ==> a in nodes && b in nodes
    ensures y in nodes
  {
    forall w, v | (w, v) in Inbound(edges) && w in Elems(nodes) ensures v in Elems(nodes) {
      InboundEdge(edges, w, v);
    }
    ClosedTraps(Inbound(edges), Elems(nodes), root, y);
  }

  lemma StoredCallersAreIndexed(nodes: seq<int>, edges: seq<Edge>, root: int, x: int)
    requires root in nodes
    ensures Reaches(InboundFrom(edges, Elems(nodes)), root, x) <==> Reaches(Indexed(nodes, edges), root, x)
  {
    var g, h := InboundFrom(edges, Elems(nodes)), Indexed(nodes, edges);
    forall w, v | w in nodes ensures (w, v) in g <==> (w, v) in h {
      var e := (w, v);
      InboundEdge(edges, w, v);
      IndexedEdge(nodes, edges, w, v);
      assert e in g <==> e in Inbound(edges) && v in nodes;
    }
    forall w, v | (w, v) in g && w in Elems(nodes) ensures v in Elems(nodes) {
      var e := (w, v);
      assert e in g;
    }
    if Reaches(g, root, x) {
      var p :| IsWalkFromTo(g, p, root, x);
      forall i | 0 <= i < |p| ensures p[i] in nodes {
        WalkStaysInside(g, Elems(nodes), p, i);
      }
      MonotoneWalk(g, h, p);
      assert IsWalkFromTo(h, p, root, x);
    }
    if Reaches(h, root, x) {
      var p :| IsWalkFromTo(h, p, root, x);
      forall i | 0 <= i < |p| ensures p[i] in nodes {
        IndexedWalkKnown(nodes, edges, p, i);
      }
      MonotoneWalk(h, g, p);
      assert IsWalkFromTo(g, p, root, x);
    }
  }

  /** The transitive walk names exactly what the structure finds, `root` left out, for every hop
      bound of at least the node count, dangling edges or not. */
  lemma TransitiveWalkAgrees(nodes: seq<int>, edges: seq<Edge>, root: int, lines: seq<int>, found: set<int>, k: nat)
    requires root in nodes && |Elems(nodes)| <= k
    requires forall x :: x in lines <==>
               x != root && x in Elems(nodes) && Reaches(InboundFrom(edges, Elems(nodes)), root, x)
    requires IsBall(Indexed(nodes, edges), root, k, found)
    ensures Elems(lines) == found - {root}
  {
    var h := Indexed(nodes, edges);
    forall w, v | (w, v) in h && w in Elems(nodes) ensures v in Elems(nodes) {
      IndexedEdge(nodes, edges, w, v);
    }
    forall x ensures x in lines <==> x in found && x != root {
      StoredCallersAreIndexed(nodes, edges, root, x);
      ReachesBounded(h, Elems(nodes), root, x, k);
      if x in found {
        IndexedWithin(nodes, edges, root, x, k);
      }
    }
  }

  /** With no dangling edge the three walks name the same callers: the indexed search, the hop-bounded walk
      over the table, and, for a bound of at least the node count and without the root, the transitive one. */
  lemma CallersAgree(nodes: seq<int>, edges: seq<Edge>, root: int, k: nat, graph: Csr.CsrGraph, indexed: set<int>,
                     stored: set<int>, lines: seq<int>)
    requires root in nodes && forall a, b :: (a, b) in edges ==> a in nodes && b in nodes
    requires forall x :: x in Csr.IdsOf(graph, indexed) <==> Within(Csr.Known(nodes, edges), x, root, k)
    requires IsBall(Inbound(edges), root, k, stored)
    requires forall x :: x in lines <==>
               x != root && x in Elems(nodes) && Reaches(InboundFrom(edges, Elems(nodes)), root, x)
    ensures Csr.IdsOf(graph, indexed) == stored
    ensures |Elems(nodes)| <= k ==> Elems(lines) == stored - {root}
  {
    var h := Indexed(nodes, edges);
    forall y | Reaches(Inbound(edges), root, y) ensures y in nodes {
      NoDanglingIsKnown(nodes, edges, root, y);
    }
    BoundedWalksAgree(nodes, edges, root);
    forall x ensures x in stored <==> x in Csr.IdsOf(graph, indexed) {
      ReversedWithin(Csr.Known(nodes, edges), root, x, k);
      assert Within(Inbound(edges), root, x, k) <==> Within(h, root, x, k);
    }
    SameMembers(stored, Csr.IdsOf(graph, indexed));
    if |Elems(nodes)| <= k {
      TransitiveWalkAgrees(nodes, edges, root, lines, stored, k);
    }
  }

  lemma SameMembers<T(!new)>(a: set<T>, b: set<T>)
    requires forall x :: x in a <==> x in b
    ensures a == b
  {
  }
}
