/** Directed graphs as finite edge relations: walks, reachability, distance and cycles.
    Every graph algorithm of the project is specified in these terms. */
module Graph {

  ghost function EdgeSet<T(!new)>(edges: seq<(T, T)>): set<(T, T)> {
    set e | e in edges
  }

  /** `p` is a nonempty sequence of nodes, each joined to the next by an edge of `g`. */
  ghost predicate IsWalk<T(!new)>(g: set<(T, T)>, p: seq<T>) {
    |p| > 0 && forall i, j :: 0 <= i < j < |p| && j == i + 1 ==> (p[i], p[j]) in g
  }

  ghost predicate IsWalkFromTo<T(!new)>(g: set<(T, T)>, p: seq<T>, u: T, v: T) {
    IsWalk(g, p) && p[0] == u && p[|p| - 1] == v
  }

  /** Some walk, possibly of no edges at all, leads from `u` to `v`. */
  ghost predicate Reaches<T(!new)>(g: set<(T, T)>, u: T, v: T) {
    exists p :: IsWalkFromTo(g, p, u, v)
  }

  /** Some walk of at most `k` edges leads from `u` to `v`. */
  ghost predicate Within<T(!new)>(g: set<(T, T)>, u: T, v: T, k: nat) {
    exists p :: IsWalkFromTo(g, p, u, v) && |p| <= k + 1
  }

  /** A walk of at least one edge that ends where it began. */
  ghost predicate IsClosedWalk<T(!new)>(g: set<(T, T)>, p: seq<T>) {
    IsWalk(g, p) && |p| > 1 && p[0] == p[|p| - 1]
  }

  ghost predicate Cyclic<T(!new)>(g: set<(T, T)>) {
    exists p :: IsClosedWalk(g, p)
  }

  /** `s` cannot be left along an edge. */
  ghost predicate IsClosed<T(!new)>(g: set<(T, T)>, s: set<T>) {
    forall u, v :: (u, v) in g && u in s ==> v in s
  }

  ghost predicate Mutual<T(!new)>(g: set<(T, T)>, u: T, v: T) {
    Reaches(g, u, v) && Reaches(g, v, u)
  }

  ghost function Reversed<T(!new)>(g: set<(T, T)>): set<(T, T)> {
    set e | e in g :: (e.1, e.0)
  }

  lemma ReachesSelf<T(!new)>(g: set<(T, T)>, u: T)
    ensures Reaches(g, u, u)
  {
    assert IsWalkFromTo(g, [u], u, u);
  }

  lemma ReachesEdge<T(!new)>(g: set<(T, T)>, u: T, v: T)
    requires (u, v) in g
    ensures Reaches(g, u, v)
  {
    assert IsWalkFromTo(g, [u, v], u, v);
  }

  /** Two walks that meet join into one. */
  lemma JoinWalks<T(!new)>(g: set<(T, T)>, p: seq<T>, q: seq<T>, u: T, v: T, w: T)
    requires IsWalkFromTo(g, p, u, v) && IsWalkFromTo(g, q, v, w)
    ensures IsWalkFromTo(g, p + q[1..], u, w)
  {
    var r := p + q[1..];
    forall i, j | 0 <= i < j < |r| && j == i + 1
      ensures (r[i], r[j]) in g
    {
      if j >= |p| {
        assert r[j] == q[j - |p| + 1];
        assert r[i] == q[i - |p| + 1];
      }
    }
  }

  lemma ReachesTrans<T(!new)>(g: set<(T, T)>, u: T, v: T, w: T)
    requires Reaches(g, u, v) && Reaches(g, v, w)
    ensures Reaches(g, u, w)
  {
    var p :| IsWalkFromTo(g, p, u, v);
    var q :| IsWalkFromTo(g, q, v, w);
    JoinWalks(g, p, q, u, v, w);
  }

  /** A walk that starts in a closed set stays in it. */
  lemma {:induction false} WalkStaysInside<T(!new)>(g: set<(T, T)>, s: set<T>, p: seq<T>, i: nat)
    requires IsClosed(g, s) && IsWalk(g, p) && p[0] in s && i < |p|
    ensures p[i] in s
  {
    if i > 0 {
      WalkStaysInside(g, s, p, i - 1);
      assert (p[i - 1], p[i]) in g;
    }
  }

  lemma EdgeLeaving<T(!new)>(g: set<(T, T)>, s: set<T>) returns (u: T, v: T)
    requires !IsClosed(g, s)
    ensures (u, v) in g && u in s && v !in s
  {
    u, v :| (u, v) in g && u in s && v !in s;
  }

  lemma ClosedTraps<T(!new)>(g: set<(T, T)>, s: set<T>, u: T, v: T)
    requires IsClosed(g, s) && u in s && Reaches(g, u, v)
    ensures v in s
  {
    var p :| IsWalkFromTo(g, p, u, v);
    WalkStaysInside(g, s, p, |p| - 1);
  }

  // ----- sequences without repetition -----

  ghost predicate Distinct<T(!new)>(s: seq<T>) {
    forall i, j :: 0 <= i < j < |s| ==> s[i] != s[j]
  }

  ghost function Elems<T(!new)>(s: seq<T>): set<T> {
    set x | x in s
  }

  /** An arbitrary element, as iteration over a hash set yields one. */
  method Pick<T>(s: set<T>) returns (x: T)
    requires s != {}
    ensures x in s
  {
    x :| x in s;
  }

  lemma ElemsNone<T(!new)>(s: seq<T>)
    ensures Elems(s) == {} <==> s == []
  {
    if s != [] {
      assert s[0] in Elems(s);
    }
  }

  lemma ElemsAppend<T(!new)>(s: seq<T>, x: T)
    ensures Elems(s + [x]) == Elems(s) + {x}
    ensures Distinct(s + [x]) <==> Distinct(s) && x !in s
  {
    var t := s + [x];
    assert t[|s|] == x && forall i :: 0 <= i < |s| ==> t[i] == s[i];
    assert forall y :: y in t <==> y in s || y == x;
  }

  lemma {:induction false} DistinctCount<T(!new)>(s: seq<T>)
    requires Distinct(s)
    ensures |Elems(s)| == |s|
  {
    if s != [] {
      var n := |s| - 1;
      DistinctCount(s[..n]);
      assert Elems(s) == Elems(s[..n]) + {s[n]};
      assert s[n] !in s[..n];
    }
  }

  /** The elements of `s` in some order. */
  ghost function Listed<T(!new)>(s: set<T>): (us: seq<T>)
    ensures Distinct(us) && forall x :: x in us <==> x in s
  {
    if s == {} then [] else
    var x :| x in s;
    var rest := Listed(s - {x});
    rest + [x]
  }

  ghost function Range(n: nat): (r: set<int>)
    ensures |r| == n && forall v :: v in r <==> 0 <= v < n
  {
    if n == 0 then {} else Range(n - 1) + {n - 1}
  }

  lemma SubsetCount<T>(a: set<T>, b: set<T>)
    requires a <= b
    ensures |a| <= |b| && (|a| == |b| ==> a == b)
  {
    assert b == a + (b - a);
  }

  // ----- cycles -----

  /** A finite nonempty set in which every node has a predecessor contains a cycle. */
  lemma PredecessorsCycle<T(!new)>(g: set<(T, T)>, s: set<T>, v: T)
    requires v in s && forall x :: x in s ==> exists u :: u in s && (u, x) in g
    ensures Cyclic(g)
  {
    var p := [v];
    while true
      invariant IsWalk(g, p) && Elems(p) <= s
      decreases s - Elems(p)
    {
      assert p[0] in Elems(p);
      var u :| u in s && (u, p[0]) in g;
      var q := [u] + p;
      assert IsWalk(g, q) by { JoinWalks(g, [u, p[0]], p, u, p[0], p[|p| - 1]); assert [u, p[0]] + p[1..] == q; }
      if u in p {
        var i :| 0 <= i < |p| && p[i] == u;
        assert IsClosedWalk(g, q[..i + 2]);
        return;
      }
      assert Elems(q) == Elems(p) + {u};
      p := q;
    }
  }

  /** A closed walk makes its first two nodes mutually reachable. */
  lemma ClosedWalkMutual<T(!new)>(g: set<(T, T)>, p: seq<T>)
    requires IsClosedWalk(g, p)
    ensures Mutual(g, p[0], p[1])
  {
    assert (p[0], p[1]) in g;
    ReachesEdge(g, p[0], p[1]);
    assert IsWalkFromTo(g, p[1..], p[1], p[0]);
  }

  /** Two distinct mutually reachable nodes lie on a closed walk. */
  lemma MutualIsCyclic<T(!new)>(g: set<(T, T)>, u: T, v: T)
    requires Mutual(g, u, v) && u != v
    ensures Cyclic(g)
  {
    var p :| IsWalkFromTo(g, p, u, v);
    var q :| IsWalkFromTo(g, q, v, u);
    JoinWalks(g, p, q, u, v, u);
    assert IsClosedWalk(g, p + q[1..]);
  }

  // ----- distance -----

  /** `s` is the set of nodes at distance at most `k` from `u`. */
  ghost predicate IsBall<T(!new)>(g: set<(T, T)>, u: T, k: nat, s: set<T>) {
    forall v :: v in s <==> Within(g, u, v, k)
  }

  lemma WithinZero<T(!new)>(g: set<(T, T)>, u: T, v: T)
    ensures Within(g, u, v, 0) <==> u == v
  {
    assert IsWalkFromTo(g, [u], u, u);
  }

  /** A walk of at most `k + 1` edges is one of at most `k`, or one with an edge appended. */
  lemma WithinStep<T(!new)>(g: set<(T, T)>, u: T, v: T, k: nat)
    ensures Within(g, u, v, k + 1) <==> Within(g, u, v, k) || exists w :: Within(g, u, w, k) && (w, v) in g
  {
    if Within(g, u, v, k + 1) {
      var p :| IsWalkFromTo(g, p, u, v) && |p| <= k + 2;
      if |p| > 1 {
        var n := |p| - 1;
        assert IsWalkFromTo(g, p[..n], u, p[n - 1]);
        assert (p[n - 1], p[n]) in g;
      }
    }
    if w :| Within(g, u, w, k) && (w, v) in g {
      var p :| IsWalkFromTo(g, p, u, w) && |p| <= k + 1;
      JoinWalks(g, p, [w, v], u, w, v);
    }
  }

  /** The successors of a ball complete the next one. */
  lemma BallExpands<T(!new)>(g: set<(T, T)>, u: T, k: nat, s: set<T>, s': set<T>)
    requires IsBall(g, u, k, s)
    requires forall v :: v in s' <==> v in s || exists w :: w in s && (w, v) in g
    ensures IsBall(g, u, k + 1, s')
  {
    forall v ensures v in s' <==> Within(g, u, v, k + 1) {
      WithinStep(g, u, v, k);
    }
  }

  /** A ball that nothing leads out of is everything reachable, and every larger ball. */
  lemma BallClosed<T(!new)>(g: set<(T, T)>, u: T, k: nat, s: set<T>, v: T)
    requires IsBall(g, u, k, s) && IsClosed(g, s)
    ensures v in s <==> Reaches(g, u, v)
    ensures forall m: nat :: m >= k ==> (v in s <==> Within(g, u, v, m))
  {
    assert Within(g, u, u, k) by { assert IsWalkFromTo(g, [u], u, u); }
    if Reaches(g, u, v) {
      ClosedTraps(g, s, u, v);
    }
    forall m: nat | m >= k ensures v in s <==> Within(g, u, v, m) {
      if Within(g, u, v, m) {
        ClosedTraps(g, s, u, v);
      }
    }
  }

  lemma ReverseWalk<T(!new)>(g: set<(T, T)>, p: seq<T>, u: T, v: T)
    requires IsWalkFromTo(g, p, u, v)
    ensures exists q :: IsWalkFromTo(Reversed(g), q, v, u) && |q| == |p|
  {
    var q := seq(|p|, i requires 0 <= i < |p| => p[|p| - 1 - i]);
    forall i, j | 0 <= i < j < |q| && j == i + 1 ensures (q[i], q[j]) in Reversed(g) {
      var e := (p[|p| - 1 - j], p[|p| - 1 - i]);
      assert e in g;
      assert (e.1, e.0) in Reversed(g);
    }
    assert IsWalkFromTo(Reversed(g), q, v, u);
  }

  lemma ReversedTwice<T(!new)>(g: set<(T, T)>)
    ensures Reversed(Reversed(g)) == g
  {
    forall e ensures e in Reversed(Reversed(g)) <==> e in g {
      if e in g {
        var f := (e.1, e.0);
        assert f in Reversed(g);
        assert (f.1, f.0) in Reversed(Reversed(g));
      }
    }
  }

  /** Distances in the reversed graph are distances read backwards. */
  lemma ReversedWithin<T(!new)>(g: set<(T, T)>, u: T, v: T, k: nat)
    ensures Within(Reversed(g), u, v, k) <==> Within(g, v, u, k)
  {
    if Within(g, v, u, k) {
      var p :| IsWalkFromTo(g, p, v, u) && |p| <= k + 1;
      ReverseWalk(g, p, v, u);
    }
    if Within(Reversed(g), u, v, k) {
      var p :| IsWalkFromTo(Reversed(g), p, u, v) && |p| <= k + 1;
      ReverseWalk(Reversed(g), p, u, v);
      ReversedTwice(g);
    }
  }

  /** Breadth-first search after `k` hops: `s` is the ball, and only `frontier` can lead out of it. */
  ghost predicate IsHop<T(!new)>(g: set<(T, T)>, u: T, k: nat, s: set<T>, frontier: set<T>) {
    IsBall(g, u, k, s) && frontier <= s && forall w, v :: (w, v) in g && w in s && w !in frontier ==> v in s
  }

  /** `s'` is `s` with every successor of `frontier` added. */
  ghost predicate IsExpansion<T(!new)>(g: set<(T, T)>, s: set<T>, frontier: set<T>, s': set<T>) {
    forall v :: v in s' <==> v in s || exists w :: w in frontier && (w, v) in g
  }

  lemma NothingNew<T(!new)>(s: set<T>, s': set<T>)
    requires s <= s' && s' - s == Elems([])
    ensures s' == s
  {
    forall x | x in s' ensures x in s {
      assert x !in Elems([]);
    }
  }

  lemma HopIsBall<T(!new)>(g: set<(T, T)>, u: T, k: nat, s: set<T>, frontier: set<T>)
    requires IsHop(g, u, k, s, frontier)
    ensures IsBall(g, u, k, s)
  {
  }

  lemma FirstHop<T(!new)>(g: set<(T, T)>, u: T)
    ensures IsHop(g, u, 0, {u}, {u})
  {
    forall v ensures v in {u} <==> Within(g, u, v, 0) {
      WithinZero(g, u, v);
    }
  }

  /** Following the frontier's edges is one more hop; what it adds is the next frontier. */
  lemma NextHop<T(!new)>(g: set<(T, T)>, u: T, k: nat, s: set<T>, frontier: set<T>, s': set<T>)
    requires IsHop(g, u, k, s, frontier) && IsExpansion(g, s, frontier, s')
    ensures IsHop(g, u, k + 1, s', s' - s)
    ensures s' == s ==> IsClosed(g, s)
  {
    forall v ensures v in s' <==> v in s || exists w :: w in s && (w, v) in g {
    }
    BallExpands(g, u, k, s, s');
  }

  /** When a hop adds nothing, the ball is the same for every larger bound. */
  lemma LastHop<T(!new)>(g: set<(T, T)>, u: T, k: nat, s: set<T>, frontier: set<T>, m: nat)
    requires IsHop(g, u, k, s, frontier) && IsClosed(g, s) && k <= m
    ensures IsBall(g, u, m, s)
  {
    forall v ensures v in s <==> Within(g, u, v, m) {
      BallClosed(g, u, k, s, v);
    }
  }

  /** Cutting out a loop, as long as there is one, leaves a walk no longer than the node set. */
  lemma {:induction false} ShortenWalk<T(!new)>(g: set<(T, T)>, s: set<T>, p: seq<T>, u: T, v: T)
    requires IsWalkFromTo(g, p, u, v) && IsClosed(g, s) && u in s
    ensures exists q :: IsWalkFromTo(g, q, u, v) && |q| <= |s|
    decreases |p|
  {
    if Distinct(p) {
      forall i | 0 <= i < |p| ensures p[i] in s {
        WalkStaysInside(g, s, p, i);
      }
      DistinctCount(p);
      SubsetCount(Elems(p), s);
    } else {
      var i, j :| 0 <= i < j < |p| && p[i] == p[j];
      var q := p[..i + 1] + p[j + 1..];
      assert IsWalkFromTo(g, p[..i + 1], u, p[i]);
      assert IsWalkFromTo(g, p[j..], p[j], v);
      JoinWalks(g, p[..i + 1], p[j..], u, p[i], v);
      assert p[j..][1..] == p[j + 1..];
      ShortenWalk(g, s, q, u, v);
    }
  }

  /** Within a closed set, reachability is distance below its size. */
  lemma ReachesBounded<T(!new)>(g: set<(T, T)>, s: set<T>, u: T, v: T, k: nat)
    requires IsClosed(g, s) && u in s && |s| <= k
    ensures Reaches(g, u, v) <==> Within(g, u, v, k)
  {
    if Reaches(g, u, v) {
      var p :| IsWalkFromTo(g, p, u, v);
      ShortenWalk(g, s, p, u, v);
      var q :| IsWalkFromTo(g, q, u, v) && |q| <= |s|;
    }
  }

  // ----- relabelling -----

  /** `g` is the graph `h` with every node replaced by its position in `labels`. */
  ghost predicate Mirrors<T(!new)>(labels: seq<T>, g: set<(int, int)>, h: set<(T, T)>) {
    && Distinct(labels)
    && (forall i, j :: (i, j) in g ==> 0 <= i < |labels| && 0 <= j < |labels|)
    && (forall i, j :: 0 <= i < |labels| && 0 <= j < |labels| ==> ((i, j) in g <==> (labels[i], labels[j]) in h))
    && (forall a, b :: (a, b) in h ==> a in labels && b in labels)
  }

  function LabelsOf<T>(labels: seq<T>, p: seq<int>): seq<T>
    requires forall i :: 0 <= i < |p| ==> 0 <= p[i] < |labels|
  {
    seq(|p|, i requires 0 <= i < |p| => labels[p[i]])
  }

  ghost function Place<T(!new)>(labels: seq<T>, x: T): (i: int)
    requires x in labels
    ensures 0 <= i < |labels| && labels[i] == x
  {
    var i :| 0 <= i < |labels| && labels[i] == x;
    i
  }

  ghost function PlacesOf<T(!new)>(labels: seq<T>, q: seq<T>): seq<int>
    requires forall i :: 0 <= i < |q| ==> q[i] in labels
  {
    seq(|q|, i requires 0 <= i < |q| => Place(labels, q[i]))
  }

  lemma MirrorWalk<T(!new)>(labels: seq<T>, g: set<(int, int)>, h: set<(T, T)>, p: seq<int>)
    requires Mirrors(labels, g, h) && IsWalk(g, p) && 0 <= p[0] < |labels|
    ensures forall i :: 0 <= i < |p| ==> 0 <= p[i] < |labels|
    ensures IsWalk(h, LabelsOf(labels, p))
  {
    forall i | 0 <= i < |p| ensures 0 <= p[i] < |labels| {
      if i > 0 { var a, b := p[i - 1], p[i]; assert (a, b) in g; }
    }
  }

  lemma MirrorWalkBack<T(!new)>(labels: seq<T>, g: set<(int, int)>, h: set<(T, T)>, q: seq<T>)
    requires Mirrors(labels, g, h) && IsWalk(h, q) && q[0] in labels
    ensures forall i :: 0 <= i < |q| ==> q[i] in labels
    ensures IsWalk(g, PlacesOf(labels, q))
  {
    forall i | 0 <= i < |q| ensures q[i] in labels {
      if i > 0 { var a, b := q[i - 1], q[i]; assert (a, b) in h; }
    }
  }

  /** Relabelling keeps distances. */
  lemma MirrorWithin<T(!new)>(labels: seq<T>, g: set<(int, int)>, h: set<(T, T)>, i: int, j: int, k: nat)
    requires Mirrors(labels, g, h) && 0 <= i < |labels| && 0 <= j < |labels|
    ensures Within(g, i, j, k) <==> Within(h, labels[i], labels[j], k)
  {
    if Within(g, i, j, k) {
      var p :| IsWalkFromTo(g, p, i, j) && |p| <= k + 1;
      MirrorWalk(labels, g, h, p);
      assert IsWalkFromTo(h, LabelsOf(labels, p), labels[i], labels[j]);
    }
    if Within(h, labels[i], labels[j], k) {
      var q :| IsWalkFromTo(h, q, labels[i], labels[j]) && |q| <= k + 1;
      MirrorWalkBack(labels, g, h, q);
      assert IsWalkFromTo(g, PlacesOf(labels, q), i, j);
    }
  }

  lemma ReachesWithin<T(!new)>(g: set<(T, T)>, u: T, v: T)
    ensures Reaches(g, u, v) <==> exists k: nat :: Within(g, u, v, k)
  {
    if Reaches(g, u, v) {
      var p :| IsWalkFromTo(g, p, u, v);
      assert Within(g, u, v, |p|);
    }
  }

  lemma MirrorReaches<T(!new)>(labels: seq<T>, g: set<(int, int)>, h: set<(T, T)>, i: int, j: int)
    requires Mirrors(labels, g, h) && 0 <= i < |labels| && 0 <= j < |labels|
    ensures Reaches(g, i, j) <==> Reaches(h, labels[i], labels[j])
  {
    ReachesWithin(g, i, j);
    ReachesWithin(h, labels[i], labels[j]);
    if k: nat :| Within(g, i, j, k) {
      MirrorWithin(labels, g, h, i, j, k);
    }
    if k: nat :| Within(h, labels[i], labels[j], k) {
      MirrorWithin(labels, g, h, i, j, k);
    }
  }

  lemma MirrorCyclic<T(!new)>(labels: seq<T>, g: set<(int, int)>, h: set<(T, T)>)
    requires Mirrors(labels, g, h)
    ensures Cyclic(g) <==> Cyclic(h)
  {
    if p :| IsClosedWalk(g, p) {
      var a, b := p[0], p[1];
      assert (a, b) in g;
      MirrorWalk(labels, g, h, p);
      assert IsClosedWalk(h, LabelsOf(labels, p));
    }
    if q :| IsClosedWalk(h, q) {
      var a, b := q[0], q[1];
      assert (a, b) in h;
      MirrorWalkBack(labels, g, h, q);
      assert IsClosedWalk(g, PlacesOf(labels, q));
    }
  }
}
