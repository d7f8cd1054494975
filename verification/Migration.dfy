/** The migration order of `plan-migration`: Kahn's algorithm, and the cycle report that
    replaces the order when there is none. */
module Migration {
  import opened Graph
  import opened Wrappers
  import Federation

  ghost predicate InRange(n: int, edges: seq<(int, int)>) {
    forall i :: 0 <= i < |edges| ==> 0 <= edges[i].0 < n && 0 <= edges[i].1 < n
  }

  // ----- counting the edges that still enter a node -----

  /** How often `v` occurs in the lists of `rest`. */
  ghost function Entering(rest: seq<seq<int>>, v: int): int {
    if rest == [] then 0 else Entering(rest[..|rest| - 1], v) + multiset(rest[|rest| - 1])[v]
  }

  lemma {:induction false} EnteringUpdate(rest: seq<seq<int>>, u: int, r: seq<int>, v: int)
    requires 0 <= u < |rest|
    ensures Entering(rest[u := r], v) == Entering(rest, v) - multiset(rest[u])[v] + multiset(r)[v]
  {
    var n := |rest| - 1;
    if u < n {
      EnteringUpdate(rest[..n], u, r, v);
      assert rest[u := r][..n] == rest[..n][u := r];
    } else {
      assert rest[u := r][..n] == rest[..n];
    }
  }

  lemma {:induction false} EnteringZero(rest: seq<seq<int>>, v: int)
    ensures Entering(rest, v) >= 0
    ensures Entering(rest, v) == 0 <==> forall u :: 0 <= u < |rest| ==> v !in rest[u]
  {
    if rest != [] {
      var n := |rest| - 1;
      EnteringZero(rest[..n], v);
      assert forall u :: 0 <= u < n ==> rest[..n][u] == rest[u];
      assert v in rest[n] <==> v in multiset(rest[n]);
    }
  }

  lemma {:induction false} EnteringNone(n: nat, v: int)
    ensures Entering(seq(n, _ => []), v) == 0
  {
    EnteringZero(seq(n, _ => []), v);
  }

  // ----- the state of the loop -----

  /** The lists of nodes already ordered have been used up, except what is left of the list of
      `next`; the others are untouched. */
  ghost predicate Left(dependents: seq<seq<int>>, rest: seq<seq<int>>, order: seq<int>, next: int) {
    && |rest| == |dependents|
    && (forall u :: 0 <= u < |rest| && u in order && u != next ==> rest[u] == [])
    && (forall u :: 0 <= u < |rest| && u !in order ==> rest[u] == dependents[u])
  }

  /** A node is ordered or ready exactly when no edge enters it any more. */
  ghost predicate Settled(rest: seq<seq<int>>, order: seq<int>, ready: seq<int>) {
    && Distinct(order + ready)
    && (forall v :: v in order + ready <==> 0 <= v < |rest| && Entering(rest, v) == 0)
  }

  /** Every predecessor of a settled node is ordered, and ordered before it. */
  ghost predicate Preceded(dependents: seq<seq<int>>, order: seq<int>, ready: seq<int>) {
    && (forall u, v :: 0 <= u < |dependents| && v in dependents[u] && v in ready ==> u in order)
    && (forall u, b :: 0 <= u < |dependents| && 0 <= b < |order| && order[b] in dependents[u] ==> u in order[..b])
  }

  /** Taking the last ready node next keeps the loop's state consistent. */
  lemma TakeReady(dependents: seq<seq<int>>, rest: seq<seq<int>>, order: seq<int>, ready: seq<int>)
    requires Left(dependents, rest, order, -1) && Settled(rest, order, ready) && Preceded(dependents, order, ready)
    requires ready != []
    ensures var next := ready[|ready| - 1];
            var order', ready' := order + [next], ready[..|ready| - 1];
            && 0 <= next < |rest| && rest[next] == dependents[next]
            && Left(dependents, rest, order', next)
            && Settled(rest, order', ready') && Preceded(dependents, order', ready')
  {
    var n := |ready| - 1;
    var next := ready[n];
    var order', ready' := order + [next], ready[..n];
    var a, b := order + ready, order' + ready';
    assert ready == ready' + [next];
    assert next == a[|order| + n];
    assert next in a;
    forall x ensures x in a <==> x in b {
    }
    assert Distinct(b) by {
      forall i, j | 0 <= i < j < |b| ensures b[i] != b[j] {
        var i' := if i < |order| then i else if i == |order| then |a| - 1 else i - 1;
        var j' := if j < |order| then j else if j == |order| then |a| - 1 else j - 1;
        assert a[i'] == b[i] && a[j'] == b[j];
      }
    }
    forall i | 0 <= i < |order| ensures order[i] != next {
      assert a[i] == order[i];
    }
    forall u, v | 0 <= u < |dependents| && v in dependents[u] && v in ready' ensures u in order' {
      assert v in ready;
      assert u in order;
    }
    forall u, c | 0 <= u < |dependents| && 0 <= c < |order'| && order'[c] in dependents[u] ensures u in order'[..c] {
      assert order'[..c] == order[..c];
      if c == |order| { assert order[..c] == order; }
    }
  }

  /** Removing one dependent from the list of `next` lowers only its own count. */
  lemma ReleaseOne(rest: seq<seq<int>>, next: int, list: seq<int>, k: int, v: int)
    requires 0 <= next < |rest| && 0 <= k < |list| && rest[next] == list[k..]
    ensures Entering(rest[next := list[k + 1..]], v) == Entering(rest, v) - (if v == list[k] then 1 else 0)
  {
    EnteringUpdate(rest, next, list[k + 1..], v);
    assert list[k..] == [list[k]] + list[k + 1..];
  }

  lemma ReleaseKeeps(dependents: seq<seq<int>>, rest: seq<seq<int>>, order: seq<int>, ready: seq<int>,
                     next: int, k: int)
    requires Left(dependents, rest, order, next) && Settled(rest, order, ready) && Preceded(dependents, order, ready)
    requires 0 <= next < |rest| && next in order && 0 <= k < |dependents[next]| && rest[next] == dependents[next][k..]
    requires 0 <= dependents[next][k] < |rest|
    ensures var d := dependents[next][k];
            var rest' := rest[next := dependents[next][k + 1..]];
            var ready' := if Entering(rest', d) == 0 then ready + [d] else ready;
            && Entering(rest, d) > 0
            && Left(dependents, rest', order, next)
            && Settled(rest', order, ready') && Preceded(dependents, order, ready')
  {
    var list := dependents[next];
    var d := list[k];
    var rest' := rest[next := list[k + 1..]];
    forall v ensures Entering(rest', v) == Entering(rest, v) - (if v == d then 1 else 0) {
      ReleaseOne(rest, next, list, k, v);
    }
    EnteringZero(rest', d);
    assert d !in order + ready;
    if Entering(rest', d) == 0 {
      assert order + (ready + [d]) == (order + ready) + [d];
      forall u | 0 <= u < |dependents| && d in dependents[u] ensures u in order {
        assert d !in rest'[u];
      }
    }
  }

  // ----- the algorithm -----

  /** Tallies the edges into indegrees and lists of dependents. */
  method CountEdges(n: nat, edges: seq<(int, int)>) returns (indegree: array<int>, dependents: seq<seq<int>>)
    requires InRange(n, edges)
    ensures fresh(indegree) && indegree.Length == n == |dependents|
    ensures forall v :: 0 <= v < n ==> indegree[v] == Entering(dependents, v)
    ensures forall u, v :: 0 <= u < n ==> (v in dependents[u] <==> (u, v) in edges)
  {
    indegree := new int[n](_ => 0);
    dependents := seq(n, _ => []);
    forall v ensures Entering(dependents, v) == 0 { EnteringNone(n, v); }
    for i := 0 to |edges|
      invariant |dependents| == n
      invariant forall v :: 0 <= v < n ==> indegree[v] == Entering(dependents, v)
      invariant forall u, v :: 0 <= u < n ==> (v in dependents[u] <==> (u, v) in edges[..i])
    {
      var (from, to) := edges[i];
      indegree[to] := indegree[to] + 1;
      forall v ensures Entering(dependents[from := dependents[from] + [to]], v)
                       == Entering(dependents, v) + (if v == to then 1 else 0) {
        EnteringUpdate(dependents, from, dependents[from] + [to], v);
      }
      dependents := dependents[from := dependents[from] + [to]];
      assert edges[..i + 1] == edges[..i] + [edges[i]];
    }
    assert edges[..|edges|] == edges;
  }

  /** Lowers the indegree of every dependent of `next`; those that reach zero become ready. */
  method Release(dependents: seq<seq<int>>, next: int, order: seq<int>, ready: seq<int>, indegree: array<int>,
                 ghost rest: seq<seq<int>>)
    returns (ready': seq<int>, ghost rest': seq<seq<int>>)
    requires indegree.Length == |dependents| == |rest|
    requires forall u, v :: 0 <= u < |dependents| && v in dependents[u] ==> 0 <= v < |dependents|
    requires forall v :: 0 <= v < |rest| ==> indegree[v] == Entering(rest, v)
    requires 0 <= next < |rest| && next in order && rest[next] == dependents[next]
    requires Left(dependents, rest, order, next) && Settled(rest, order, ready) && Preceded(dependents, order, ready)
    modifies indegree
    ensures |rest'| == |rest| && forall v :: 0 <= v < |rest'| ==> indegree[v] == Entering(rest', v)
    ensures Left(dependents, rest', order, -1) && Settled(rest', order, ready') && Preceded(dependents, order, ready')
  {
    ready', rest' := ready, rest;
    var list := dependents[next];
    for k := 0 to |list|
      invariant |rest'| == |rest| && rest'[next] == list[k..]
      invariant forall v :: 0 <= v < |rest| ==> indegree[v] == Entering(rest', v)
      invariant Left(dependents, rest', order, next) && Settled(rest', order, ready')
      invariant Preceded(dependents, order, ready')
    {
      hide Left, Settled, Preceded;
      var d := list[k];
      assert d in dependents[next];
      ReleaseKeeps(dependents, rest', order, ready', next, k);
      forall v ensures Entering(rest'[next := list[k + 1..]], v)
                       == Entering(rest', v) - (if v == d then 1 else 0) {
        ReleaseOne(rest', next, list, k, v);
      }
      indegree[d] := indegree[d] - 1;
      rest' := rest'[next := list[k + 1..]];
      if indegree[d] == 0 {
        ready' := ready' + [d];
      }
    }
  }

  ghost predicate IsPermutation(n: nat, order: seq<int>) {
    |order| == n && Distinct(order) && forall v :: v in order <==> 0 <= v < n
  }

  /** Every edge leads from an earlier to a later place of `order`. */
  ghost predicate PointsForward(g: set<(int, int)>, order: seq<int>) {
    forall b, u :: 0 <= b < |order| && (u, order[b]) in g ==> u in order[..b]
  }

  /** As many distinct nodes as there are is all of them. */
  lemma OrderedAll(n: nat, order: seq<int>)
    requires Distinct(order) && forall v :: v in order ==> 0 <= v < n
    ensures |order| <= n && (|order| == n ==> IsPermutation(n, order))
    ensures |order| < n ==> exists v :: 0 <= v < n && v !in order
  {
    DistinctCount(order);
    var placed := Elems(order);
    SubsetCount(placed, Range(n));
    if |order| < n {
      if Range(n) <= placed {
        SubsetCount(Range(n), placed);
        assert false;
      }
      var v :| v in Range(n) && v !in placed;
    } else {
      assert forall v :: v in order <==> v in placed;
    }
  }

  lemma SettledOrder(rest: seq<seq<int>>, order: seq<int>, ready: seq<int>)
    requires Settled(rest, order, ready)
    ensures Distinct(order) && forall v :: v in order ==> 0 <= v < |rest|
  {
    var a := order + ready;
    assert forall i :: 0 <= i < |order| ==> a[i] == order[i];
    assert forall v :: v in order ==> v in a;
  }

  /** Places along a walk grow, so an ordered graph has no closed walk. */
  lemma {:induction false} WalkAscends(g: set<(int, int)>, order: seq<int>, p: seq<int>, b: int)
    requires Distinct(order) && PointsForward(g, order) && IsWalk(g, p)
    requires 0 <= b < |order| && p[|p| - 1] == order[b]
    ensures |p| > 1 ==> p[0] in order[..b]
  {
    var n := |p| - 1;
    if n > 0 {
      assert (p[n - 1], p[n]) in g;
      var c :| 0 <= c < b && order[c] == p[n - 1];
      WalkAscends(g, order, p[..n], c);
      assert order[..c] <= order[..b];
      if n == 1 { assert order[..b][c] == p[0]; } else { assert p[0] in order[..c]; }
    }
  }

  lemma OrderedIsAcyclic(n: nat, g: set<(int, int)>, order: seq<int>)
    requires IsPermutation(n, order) && PointsForward(g, order)
    requires forall u, v :: (u, v) in g ==> 0 <= v < n
    ensures !Cyclic(g)
  {
    if Cyclic(g) {
      var p :| IsClosedWalk(g, p);
      var m := |p| - 1;
      var x, y := p[m - 1], p[m];
      assert (x, y) in g;
      assert y in order;
      var b :| 0 <= b < |order| && order[b] == y;
      WalkAscends(g, order, p, b);
      assert false;
    }
  }

  /** When nothing is ready any more, every unordered node has an unordered predecessor. */
  lemma StuckIsCyclic(n: nat, g: set<(int, int)>, dependents: seq<seq<int>>, rest: seq<seq<int>>, order: seq<int>)
    requires |dependents| == n && forall u, v :: 0 <= u < n && v in dependents[u] ==> (u, v) in g
    requires Left(dependents, rest, order, -1) && Settled(rest, order, [])
    requires exists v :: 0 <= v < n && v !in order
    ensures Cyclic(g)
  {
    assert order + [] == order;
    var s := Range(n) - Elems(order);
    forall x | x in s ensures exists u :: u in s && (u, x) in g {
      EnteringZero(rest, x);
      var u :| 0 <= u < |rest| && x in rest[u];
      assert u !in order;
    }
    var v :| 0 <= v < n && v !in order;
    PredecessorsCycle(g, s, v);
  }

  /** Kahn's algorithm: an order of all nodes in which every edge points forward, or nothing
      exactly when the graph has a cycle. */
  method Kahn(n: nat, edges: seq<(int, int)>) returns (result: Option<seq<int>>)
    requires InRange(n, edges)
    ensures result.Some? ==> IsPermutation(n, result.value) && PointsForward(EdgeSet(edges), result.value)
    ensures result.None? <==> Cyclic(EdgeSet(edges))
  {
    ghost var g := EdgeSet(edges);
    var indegree, dependents := CountEdges(n, edges);
    ghost var rest := dependents;
    var ready: seq<int> := [];
    for v := 0 to n
      invariant Distinct(ready) && forall x :: x in ready <==> 0 <= x < v && Entering(rest, x) == 0
    {
      if indegree[v] == 0 {
        ready := ready + [v];
      }
    }
    var order: seq<int> := [];
    assert [] + ready == ready;
    forall u, v | 0 <= u < n && v in ready ensures v !in dependents[u] {
      EnteringZero(rest, v);
    }
    hide Left, Settled, Preceded;
    while ready != []
      invariant |rest| == n && forall v :: 0 <= v < n ==> indegree[v] == Entering(rest, v)
      invariant Left(dependents, rest, order, -1) && Settled(rest, order, ready) && Preceded(dependents, order, ready)
      decreases n - |order|
    {
      TakeReady(dependents, rest, order, ready);
      var next := ready[|ready| - 1];
      ready := ready[..|ready| - 1];
      order := order + [next];
      SettledOrder(rest, order, ready);
      OrderedAll(n, order);
      ready, rest := Release(dependents, next, order, ready, indegree, rest);
    }
    SettledOrder(rest, order, ready);
    OrderedAll(n, order);
    if |order| == n {
      OrderedIsAcyclic(n, g, order);
      result := Some(order);
    } else {
      StuckIsCyclic(n, g, dependents, rest, order);
      result := None;
    }
  }

  // ----- the cycle report -----

  ghost predicate NoSelfLoops<T(!new)>(g: set<(T, T)>) {
    forall u, v :: (u, v) in g ==> u != v
  }

  /** Without self-loops, a graph is cyclic exactly when the two ends of some edge are different
      and reach each other. */
  lemma CyclicHasPair<T(!new)>(g: set<(T, T)>)
    requires NoSelfLoops(g)
    ensures Cyclic(g) <==> exists u, v :: (u, v) in g && u != v && Mutual(g, u, v)
  {
    if Cyclic(g) {
      var p :| IsClosedWalk(g, p);
      ClosedWalkMutual(g, p);
      var u, v := p[0], p[1];
      assert (u, v) in g;
    }
    if u, v :| (u, v) in g && u != v && Mutual(g, u, v) {
      MutualIsCyclic(g, u, v);
    }
  }

  /** `c` lists at least two nodes, all reaching one another. */
  ghost predicate IsKnot<T(!new)>(g: set<(T, T)>, c: seq<T>) {
    |c| > 1 && Distinct(c) && forall x, y :: x in c && y in c ==> Mutual(g, x, y)
  }

  lemma DistinctPair<T(!new)>(c: seq<T>, x: T, y: T)
    requires x in c && y in c && x != y
    ensures |c| > 1
  {
  }

  /** The groups of more than one node that the cycle report names: each is a knot, and there is
      one whenever two different nodes reach each other. */
  method CyclicGroups(n: nat, edges: seq<(int, int)>) returns (cycles: seq<seq<int>>)
    requires InRange(n, edges)
    ensures forall i :: 0 <= i < |cycles| ==> IsKnot(EdgeSet(edges), cycles[i])
    ensures forall i, x :: 0 <= i < |cycles| && x in cycles[i] ==> 0 <= x < n
    ensures forall u, v :: 0 <= u < n && u != v && Mutual(EdgeSet(edges), u, v) ==>
              exists i :: 0 <= i < |cycles| && u in cycles[i] && v in cycles[i]
  {
    ghost var g := EdgeSet(edges);
    var ids := seq(n, i => i);
    var groups := Federation.TarjanScc(ids, edges);
    GroupsInRange(n, edges, ids, groups);
    cycles := [];
    for k := 0 to |groups|
      invariant forall i :: 0 <= i < |cycles| ==> cycles[i] in groups && |cycles[i]| > 1
      invariant forall i :: 0 <= i < k && |groups[i]| > 1 ==> groups[i] in cycles
    {
      if |groups[k]| > 1 {
        cycles := cycles + [groups[k]];
      }
    }
    forall i | 0 <= i < |cycles| ensures IsKnot(g, cycles[i]) {
      var j :| 0 <= j < |groups| && groups[j] == cycles[i];
      forall x, y | x in cycles[i] && y in cycles[i] ensures Mutual(g, x, y) {
        assert Federation.SameGroup(groups, x, x) && Federation.SameGroup(groups, x, y);
      }
    }
    forall u, v | 0 <= u < n && u != v && Mutual(g, u, v)
      ensures exists i :: 0 <= i < |cycles| && u in cycles[i] && v in cycles[i]
    {
      NodeHasGroup(n, g, ids, u);
      assert Federation.SameGroup(groups, u, u);
      assert Federation.SameGroup(groups, u, v);
      var j :| 0 <= j < |groups| && u in groups[j] && v in groups[j];
      DistinctPair(groups[j], u, v);
    }
  }

  lemma NodeHasGroup(n: nat, g: set<(int, int)>, ids: seq<int>, u: int)
    requires 0 <= u < n && |ids| == n && forall i :: 0 <= i < n ==> ids[i] == i
    ensures Federation.HasRoot(g, Elems(ids), u)
  {
    assert ids[u] in Elems(ids);
    ReachesSelf(g, u);
  }

  lemma GroupsInRange(n: nat, edges: seq<(int, int)>, ids: seq<int>, groups: seq<seq<int>>)
    requires InRange(n, edges) && |ids| == n && forall i :: 0 <= i < n ==> ids[i] == i
    requires forall x :: Federation.SameGroup(groups, x, x) <==> Federation.HasRoot(EdgeSet(edges), Elems(ids), x)
    ensures forall i, x :: 0 <= i < |groups| && x in groups[i] ==> 0 <= x < n
  {
    var g := EdgeSet(edges);
    forall i, x | 0 <= i < |groups| && x in groups[i] ensures 0 <= x < n {
      assert Federation.SameGroup(groups, x, x);
      assert Federation.HasRoot(g, Elems(ids), x);
      var r :| r in Elems(ids) && Reaches(g, r, x);
      ClosedTraps(g, Range(n), r, x);
    }
  }

  // ----- from repository labels to node ids and back -----

  /** The cross-repo references among the surveyed repositories. */
  ghost function LabelGraph(labels: seq<string>, refs: seq<(string, string)>): set<(string, string)> {
    set r | r in refs && r.0 in labels && r.1 in labels
  }

  /** Every edge leads from an earlier to a later place of `order`. */
  ghost predicate RunsForward(h: set<(string, string)>, order: seq<string>) {
    forall i, j :: 0 <= i < |order| && 0 <= j < |order| && (order[i], order[j]) in h ==> i < j
  }

  /** Either an order of the repositories or the knots that stand in the way of one. */
  datatype Plan = Ordered(order: seq<string>) | Refused(cycles: seq<seq<string>>)

  ghost predicate Numbering(labels: seq<string>, ids: map<string, int>) {
    && (forall x :: x in ids <==> x in labels)
    && (forall x :: x in ids ==> 0 <= ids[x] < |labels| && labels[ids[x]] == x)
  }

  method NumberLabels(labels: seq<string>) returns (ids: map<string, int>)
    ensures Numbering(labels, ids)
  {
    ids := map[];
    for i := 0 to |labels|
      invariant Numbering(labels[..i], ids)
    {
      ids := ids[labels[i] := i];
      assert labels[..i + 1] == labels[..i] + [labels[i]];
    }
    assert labels[..|labels|] == labels;
  }

  /** The references become edges between label positions. */
  method NumberRefs(labels: seq<string>, refs: seq<(string, string)>) returns (edges: seq<(int, int)>)
    requires Distinct(labels)
    ensures InRange(|labels|, edges) && Mirrors(labels, EdgeSet(edges), LabelGraph(labels, refs))
  {
    var ids := NumberLabels(labels);
    edges := [];
    for k := 0 to |refs|
      invariant forall i, j :: (i, j) in edges <==>
                  0 <= i < |labels| && 0 <= j < |labels| && (labels[i], labels[j]) in refs[..k]
    {
      var (caller, target) := refs[k];
      assert refs[..k + 1] == refs[..k] + [refs[k]];
      if caller in ids && target in ids {
        edges := edges + [(ids[caller], ids[target])];
      }
    }
    assert refs[..|refs|] == refs;
    EdgesInRange(|labels|, edges);
  }

  lemma EdgesInRange(n: nat, edges: seq<(int, int)>)
    requires forall i, j :: (i, j) in edges ==> 0 <= i < n && 0 <= j < n
    ensures InRange(n, edges)
  {
    forall k | 0 <= k < |edges| ensures 0 <= edges[k].0 < n && 0 <= edges[k].1 < n {
      var (i, j) := edges[k];
      assert (i, j) in edges;
    }
  }

  /** The order, or the refusal, for repositories with distinct labels. An order lists every
      repository once with each caller before what it calls. A refusal is given exactly when there
      is a dependency cycle. It names knots, one of them for any two repositories that depend on
      each other, so it names none exactly when every cycle is a repository's reference to itself. */
  method PlanOrder(labels: seq<string>, refs: seq<(string, string)>) returns (plan: Plan)
    requires Distinct(labels)
    ensures plan.Ordered? ==>
              && Distinct(plan.order) && Elems(plan.order) == Elems(labels)
              && RunsForward(LabelGraph(labels, refs), plan.order)
    ensures plan.Refused? <==> Cyclic(LabelGraph(labels, refs))
    ensures plan.Refused? ==> NamesKnots(LabelGraph(labels, refs), Elems(labels), plan.cycles)
    ensures plan.Refused? && NoSelfLoops(LabelGraph(labels, refs)) ==> plan.cycles != []
  {
    var n := |labels|;
    ghost var h := LabelGraph(labels, refs);
    var edges := NumberRefs(labels, refs);
    ghost var g := EdgeSet(edges);
    MirrorCyclic(labels, g, h);
    var result := Kahn(n, edges);
    if result.Some? {
      var ids := result.value;
      assert forall i :: 0 <= i < |ids| ==> ids[i] in ids;
      plan := Ordered(LabelsOf(labels, ids));
      OrderLabels(labels, g, h, ids, plan.order);
    } else {
      var cycles := CycleLabels(labels, edges, h);
      plan := Refused(cycles);
      if NoSelfLoops(h) {
        LabelledKnot(labels, h, cycles);
      }
    }
  }

  /** The reported groups are knots, and any two of `nodes` that reach each other are in one. */
  ghost predicate NamesKnots(h: set<(string, string)>, nodes: set<string>, cycles: seq<seq<string>>) {
    && (forall i :: 0 <= i < |cycles| ==> IsKnot(h, cycles[i]) && Elems(cycles[i]) <= nodes)
    && (forall x, y :: x in nodes && y in nodes && x != y && Mutual(h, x, y) ==>
          exists i :: 0 <= i < |cycles| && x in cycles[i] && y in cycles[i])
  }

  lemma LabelledKnot(labels: seq<string>, h: set<(string, string)>, cycles: seq<seq<string>>)
    requires NoSelfLoops(h) && Cyclic(h) && NamesKnots(h, Elems(labels), cycles)
    requires forall x, y :: (x, y) in h ==> x in labels && y in labels
    ensures cycles != []
  {
    CyclicHasPair(h);
    var x, y :| (x, y) in h && x != y && Mutual(h, x, y);
    assert x in Elems(labels) && y in Elems(labels);
    assert exists i :: 0 <= i < |cycles| && x in cycles[i] && y in cycles[i];
  }

  /** The groups of the cycle report, by label. */
  method CycleLabels(labels: seq<string>, edges: seq<(int, int)>, ghost h: set<(string, string)>)
      returns (cycles: seq<seq<string>>)
    requires InRange(|labels|, edges) && Mirrors(labels, EdgeSet(edges), h)
    ensures NamesKnots(h, Elems(labels), cycles)
  {
    ghost var g := EdgeSet(edges);
    var groups := CyclicGroups(|labels|, edges);
    assert forall i, j :: 0 <= i < |groups| && 0 <= j < |groups[i]| ==> groups[i][j] in groups[i];
    cycles := [];
    for k := 0 to |groups|
      invariant |cycles| == k
      invariant forall i :: 0 <= i < k ==>
                  |cycles[i]| == |groups[i]| && IsKnot(h, cycles[i]) && Elems(cycles[i]) <= Elems(labels)
      invariant forall i, j :: 0 <= i < k && 0 <= j < |groups[i]| ==> cycles[i][j] == labels[groups[i][j]]
    {
      var c := groups[k];
      assert forall i :: 0 <= i < |c| ==> c[i] in c;
      var names := LabelsOf(labels, c);
      KnotLabels(labels, g, h, c, names);
      cycles := cycles + [names];
    }
    forall x, y | x in Elems(labels) && y in Elems(labels) && x != y && Mutual(h, x, y)
      ensures exists i :: 0 <= i < |cycles| && x in cycles[i] && y in cycles[i]
    {
      PairLabelled(labels, g, h, groups, cycles, x, y);
    }
  }

  lemma PairLabelled(labels: seq<string>, g: set<(int, int)>, h: set<(string, string)>, groups: seq<seq<int>>,
                     cycles: seq<seq<string>>, x: string, y: string)
    requires Mirrors(labels, g, h) && x in labels && y in labels && x != y && Mutual(h, x, y)
    requires |cycles| == |groups| && forall i :: 0 <= i < |groups| ==> |cycles[i]| == |groups[i]|
    requires forall i, j :: 0 <= i < |groups| && 0 <= j < |groups[i]| ==>
               0 <= groups[i][j] < |labels| && cycles[i][j] == labels[groups[i][j]]
    requires forall u, v :: 0 <= u < |labels| && u != v && Mutual(g, u, v) ==>
               exists i :: 0 <= i < |groups| && u in groups[i] && v in groups[i]
    ensures exists i :: 0 <= i < |cycles| && x in cycles[i] && y in cycles[i]
  {
    var u :| 0 <= u < |labels| && labels[u] == x;
    var v :| 0 <= v < |labels| && labels[v] == y;
    MirrorReaches(labels, g, h, u, v);
    MirrorReaches(labels, g, h, v, u);
    assert u != v && Mutual(g, u, v);
    var i :| 0 <= i < |groups| && u in groups[i] && v in groups[i];
    var j :| 0 <= j < |groups[i]| && groups[i][j] == u;
    var k :| 0 <= k < |groups[i]| && groups[i][k] == v;
    assert cycles[i][j] == x && cycles[i][k] == y;
  }

  lemma KnotLabels(labels: seq<string>, g: set<(int, int)>, h: set<(string, string)>, c: seq<int>, names: seq<string>)
    requires Mirrors(labels, g, h) && IsKnot(g, c) && |names| == |c|
    requires forall i :: 0 <= i < |c| ==> 0 <= c[i] < |labels| && names[i] == labels[c[i]]
    ensures IsKnot(h, names)
  {
    forall x, y | x in names && y in names ensures Mutual(h, x, y) {
      var i :| 0 <= i < |c| && names[i] == x;
      var j :| 0 <= j < |c| && names[j] == y;
      assert c[i] in c && c[j] in c;
      MirrorReaches(labels, g, h, c[i], c[j]);
      MirrorReaches(labels, g, h, c[j], c[i]);
    }
  }

  lemma OrderLabels(labels: seq<string>, g: set<(int, int)>, h: set<(string, string)>, ids: seq<int>,
                    order: seq<string>)
    requires Mirrors(labels, g, h) && IsPermutation(|labels|, ids) && PointsForward(g, ids) && |order| == |ids|
    requires forall i :: 0 <= i < |ids| ==> 0 <= ids[i] < |labels| && order[i] == labels[ids[i]]
    ensures Distinct(order) && Elems(order) == Elems(labels)
    ensures RunsForward(h, order)
  {
    forall x | x in labels ensures x in order {
      var u :| 0 <= u < |labels| && labels[u] == x;
      assert u in ids;
      var i :| 0 <= i < |ids| && ids[i] == u;
      assert order[i] == x;
    }
    forall i, j | 0 <= i < |order| && 0 <= j < |order| && (order[i], order[j]) in h ensures i < j {
      var u := ids[i];
      assert (u, ids[j]) in g;
      assert u in ids[..j];
    }
  }
}
