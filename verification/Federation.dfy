/** Tarjan's strongly connected components with an explicit work stack
    (`tarjan_scc` and `TarjanState::strong_connect`). */
module Federation {
  import opened Graph

  type NodeId = int
  type Adjacency = map<NodeId, seq<NodeId>>
  type Edges = set<(NodeId, NodeId)>

  function Succ(adj: Adjacency, v: NodeId): seq<NodeId> {
    if v in adj then adj[v] else []
  }

  ghost predicate Represents(adj: Adjacency, g: Edges) {
    forall u, v :: v in Succ(adj, u) <==> (u, v) in g
  }

  function Min(a: int, b: int): int {
    if a <= b then a else b
  }

  // ----- the search, as the proof sees it -----

  /** A moment of the search. `stack` are the nodes indexed but not yet in a component, `active`
      those with a frame on the work stack, `done` those placed in a component; `seen[x]` is how
      many successors of `x` have been accounted for in the low links. */
  datatype Search = Search(index: map<NodeId, int>, low: map<NodeId, int>, seen: map<NodeId, int>,
                           stack: set<NodeId>, active: set<NodeId>, done: set<NodeId>)

  ghost predicate Shape(s: Search) {
    && s.low.Keys == s.index.Keys
    && s.seen.Keys == s.index.Keys
    && s.index.Keys == s.stack + s.done
    && s.stack !! s.done
    && s.active <= s.stack
  }

  ghost predicate Numbered(s: Search) {
    forall x, y :: x in s.index && y in s.index && s.index[x] == s.index[y] ==> x == y
  }

  /** `v` is the youngest of the nodes `a`. */
  ghost predicate IsTop(s: Search, a: set<NodeId>, v: NodeId)
    requires Shape(s) && a <= s.active
  {
    v in a && forall b :: b in a ==> s.index[b] <= s.index[v]
  }

  /** Older stack nodes reach younger ones. */
  ghost predicate Linked(g: Edges, s: Search)
    requires Shape(s)
  {
    forall x, y {:trigger Reaches(g, x, y)} ::
      x in s.stack && y in s.stack && s.index[x] <= s.index[y] ==> Reaches(g, x, y)
  }

  ghost predicate IsAnchor(g: Edges, s: Search, x: NodeId, v: NodeId)
    requires Shape(s) && x in s.stack
  {
    v in s.active && s.index[v] <= s.index[x] && Reaches(g, x, v)
  }

  ghost predicate HasAnchor(g: Edges, s: Search, x: NodeId)
    requires Shape(s) && x in s.stack
  {
    exists v :: IsAnchor(g, s, x, v)
  }

  /** Every stack node leads back to an active node that is no younger. */
  ghost predicate Anchored(g: Edges, s: Search)
    requires Shape(s)
  {
    forall x {:trigger HasAnchor(g, s, x)} :: x in s.stack ==> HasAnchor(g, s, x)
  }

  ghost predicate Scanned(adj: Adjacency, s: Search)
    requires Shape(s)
  {
    && (forall x :: x in s.index ==> 0 <= s.seen[x] <= |Succ(adj, x)|)
    && (forall x :: x in s.index && x !in s.active ==> s.seen[x] == |Succ(adj, x)|)
    && (forall x, k :: x in s.index && 0 <= k < s.seen[x] ==> Succ(adj, x)[k] in s.index)
  }

  ghost predicate IsLowTarget(g: Edges, s: Search, v: NodeId, y: NodeId)
    requires Shape(s) && v in s.active
  {
    y in s.stack && s.index[y] == s.low[v] <= s.index[v] && Reaches(g, v, y)
  }

  ghost predicate HasLowTarget(g: Edges, s: Search, v: NodeId)
    requires Shape(s) && v in s.active
  {
    exists y :: IsLowTarget(g, s, v, y)
  }

  /** The low link of an active node is the index of a stack node it reaches. */
  ghost predicate LowAttained(g: Edges, s: Search)
    requires Shape(s)
  {
    forall v {:trigger HasLowTarget(g, s, v)} :: v in s.active ==> HasLowTarget(g, s, v)
  }

  /** `v` is the youngest active node no younger than `x`. */
  ghost predicate Owns(s: Search, v: NodeId, x: NodeId)
    requires Shape(s) && x in s.stack
  {
    && v in s.active && s.index[v] <= s.index[x]
    && (forall b :: b in s.active && s.index[b] <= s.index[x] ==> s.index[b] <= s.index[v])
  }

  /** The low link of an active node is below every accounted edge leaving what it owns. */
  ghost predicate LowBounds(adj: Adjacency, s: Search)
    requires Shape(s) && Scanned(adj, s)
  {
    forall v, x, k :: x in s.stack && Owns(s, v, x) && 0 <= k < s.seen[x] && Succ(adj, x)[k] in s.stack
                      ==> s.low[v] <= s.index[Succ(adj, x)[k]]
  }

  ghost predicate Inv(adj: Adjacency, g: Edges, s: Search) {
    && Shape(s)
    && Numbered(s)
    && Linked(g, s)
    && Anchored(g, s)
    && Scanned(adj, s)
    && LowAttained(g, s)
    && LowBounds(adj, s)
    && IsClosed(g, s.done)
  }

  // ----- visiting a node for the first time -----

  ghost function Visit(s: Search, w: NodeId, counter: int): Search {
    Search(s.index[w := counter], s.low[w := counter], s.seen[w := 0],
           s.stack + {w}, s.active + {w}, s.done)
  }

  ghost predicate CanVisit(g: Edges, s: Search, w: NodeId, counter: int)
    requires Shape(s)
  {
    && w !in s.index
    && (forall x :: x in s.index ==> s.index[x] < counter)
    && (s.active == {} || exists v :: IsTop(s, s.active, v) && (v, w) in g)
  }

  lemma VisitLinked(g: Edges, s: Search, w: NodeId, counter: int, x: NodeId)
    requires Shape(s) && Linked(g, s) && Anchored(g, s) && CanVisit(g, s, w, counter) && x in s.stack
    ensures Reaches(g, x, w)
  {
    assert HasAnchor(g, s, x);
    var v :| IsAnchor(g, s, x, v);
    var top :| IsTop(s, s.active, top) && (top, w) in g;
    ReachesTrans(g, x, v, top);
    ReachesEdge(g, top, w);
    ReachesTrans(g, x, top, w);
  }

  lemma VisitShape(adj: Adjacency, g: Edges, s: Search, w: NodeId, counter: int)
    requires Shape(s) && Numbered(s) && Scanned(adj, s) && CanVisit(g, s, w, counter)
    ensures Shape(Visit(s, w, counter)) && Numbered(Visit(s, w, counter)) && Scanned(adj, Visit(s, w, counter))
  {
    assert Shape(Visit(s, w, counter));
  }

  lemma VisitReach(g: Edges, s: Search, w: NodeId, counter: int)
    requires Shape(s) && Linked(g, s) && Anchored(g, s) && CanVisit(g, s, w, counter) && Shape(Visit(s, w, counter))
    ensures Linked(g, Visit(s, w, counter))
  {
    var t := Visit(s, w, counter);
    ReachesSelf(g, w);
    forall x | x in s.stack ensures Reaches(g, x, w) {
      VisitLinked(g, s, w, counter, x);
    }
  }

  lemma VisitAnchored(g: Edges, s: Search, w: NodeId, counter: int)
    requires Shape(s) && Anchored(g, s) && w !in s.index && Shape(Visit(s, w, counter))
    ensures Anchored(g, Visit(s, w, counter))
  {
    var t := Visit(s, w, counter);
    ReachesSelf(g, w);
    hide Reaches;
    forall x | x in t.stack ensures HasAnchor(g, t, x) {
      if x == w {
        assert IsAnchor(g, t, x, w);
      } else {
        assert HasAnchor(g, s, x);
        var v :| IsAnchor(g, s, x, v);
        assert IsAnchor(g, t, x, v);
      }
    }
  }

  lemma VisitAttained(g: Edges, s: Search, w: NodeId, counter: int)
    requires Shape(s) && LowAttained(g, s) && w !in s.index && Shape(Visit(s, w, counter))
    ensures LowAttained(g, Visit(s, w, counter))
  {
    var t := Visit(s, w, counter);
    ReachesSelf(g, w);
    hide Reaches;
    forall v | v in t.active ensures HasLowTarget(g, t, v) {
      if v == w {
        assert IsLowTarget(g, t, v, w);
      } else {
        assert HasLowTarget(g, s, v);
        var y :| IsLowTarget(g, s, v, y);
        assert IsLowTarget(g, t, v, y);
      }
    }
  }

  lemma VisitBounds(adj: Adjacency, s: Search, w: NodeId, counter: int)
    requires Shape(s) && Scanned(adj, s) && LowBounds(adj, s) && w !in s.index
    requires forall x :: x in s.index ==> s.index[x] < counter
    requires Shape(Visit(s, w, counter)) && Scanned(adj, Visit(s, w, counter))
    ensures LowBounds(adj, Visit(s, w, counter))
  {
    var t := Visit(s, w, counter);
    forall v, x, k | x in t.stack && Owns(t, v, x) && 0 <= k < t.seen[x] && Succ(adj, x)[k] in t.stack
      ensures t.low[v] <= t.index[Succ(adj, x)[k]]
    {
      assert x in s.stack && Owns(s, v, x);
    }
  }

  lemma VisitKeeps(adj: Adjacency, g: Edges, s: Search, w: NodeId, counter: int)
    requires Inv(adj, g, s) && CanVisit(g, s, w, counter)
    ensures Inv(adj, g, Visit(s, w, counter))
  {
    VisitShape(adj, g, s, w, counter);
    VisitReach(g, s, w, counter);
    VisitAnchored(g, s, w, counter);
    VisitAttained(g, s, w, counter);
    VisitBounds(adj, s, w, counter);
  }

  // ----- accounting for one edge to a node already indexed -----

  ghost function Account(s: Search, v: NodeId, y: NodeId): Search
    requires Shape(s) && v in s.index && y in s.index
  {
    s.(seen := s.seen[v := s.seen[v] + 1],
       low := if y in s.stack then s.low[v := Min(s.low[v], s.index[y])] else s.low)
  }

  ghost predicate CanAccount(adj: Adjacency, s: Search, v: NodeId, y: NodeId)
    requires Shape(s) && Scanned(adj, s)
  {
    && IsTop(s, s.active, v)
    && s.seen[v] < |Succ(adj, v)| && y == Succ(adj, v)[s.seen[v]] && y in s.index
  }

  lemma AccountReach(adj: Adjacency, g: Edges, s: Search, v: NodeId, y: NodeId)
    requires Shape(s) && Scanned(adj, s) && Linked(g, s) && Anchored(g, s) && CanAccount(adj, s, v, y)
    ensures Shape(Account(s, v, y)) && Linked(g, Account(s, v, y)) && Anchored(g, Account(s, v, y))
  {
    var t := Account(s, v, y);
    assert Shape(t);
    forall x | x in t.stack ensures HasAnchor(g, t, x) {
      assert HasAnchor(g, s, x);
      var a :| IsAnchor(g, s, x, a);
      assert IsAnchor(g, t, x, a);
    }
  }

  lemma AccountAttained(adj: Adjacency, g: Edges, s: Search, v: NodeId, y: NodeId)
    requires Represents(adj, g)
    requires Shape(s) && Scanned(adj, s) && LowAttained(g, s) && CanAccount(adj, s, v, y)
    ensures Shape(Account(s, v, y)) && LowAttained(g, Account(s, v, y))
  {
    var t := Account(s, v, y);
    assert Shape(t);
    assert y in Succ(adj, v);
    ReachesEdge(g, v, y);
    forall a | a in t.active ensures HasLowTarget(g, t, a) {
      assert HasLowTarget(g, s, a);
      var z :| IsLowTarget(g, s, a, z);
      assert IsLowTarget(g, t, a, if t.low[a] == s.low[a] then z else y);
    }
  }

  lemma AccountScanned(adj: Adjacency, s: Search, v: NodeId, y: NodeId)
    requires Shape(s) && Scanned(adj, s) && CanAccount(adj, s, v, y)
    ensures Shape(Account(s, v, y)) && Scanned(adj, Account(s, v, y))
  {
    assert Shape(Account(s, v, y));
  }

  lemma AccountBounds(adj: Adjacency, s: Search, v: NodeId, y: NodeId)
    requires Shape(s) && Numbered(s) && Scanned(adj, s) && LowBounds(adj, s) && CanAccount(adj, s, v, y)
    requires Shape(Account(s, v, y)) && Scanned(adj, Account(s, v, y))
    ensures LowBounds(adj, Account(s, v, y))
  {
    var t := Account(s, v, y);
    forall a, x, k | x in t.stack && Owns(t, a, x) && 0 <= k < t.seen[x] && Succ(adj, x)[k] in t.stack
      ensures t.low[a] <= t.index[Succ(adj, x)[k]]
    {
      assert Owns(s, a, x);
      if x == v {
        assert a == v;
      }
    }
  }

  lemma AccountKeeps(adj: Adjacency, g: Edges, s: Search, v: NodeId, y: NodeId)
    requires Represents(adj, g) && Inv(adj, g, s) && CanAccount(adj, s, v, y)
    ensures Inv(adj, g, Account(s, v, y))
  {
    AccountReach(adj, g, s, v, y);
    AccountAttained(adj, g, s, v, y);
    AccountScanned(adj, s, v, y);
    AccountBounds(adj, s, v, y);
  }

  // ----- leaving a node -----

  /** The frame of the youngest active node `v` is dropped and its parent `p` accounts for it. */
  ghost function Leave(s: Search, v: NodeId, p: NodeId): Search
    requires Shape(s) && v in s.active && p in s.active
  {
    if p == v then s.(active := s.active - {v}) else
    s.(active := s.active - {v},
       seen := s.seen[p := s.seen[p] + 1],
       low := s.low[p := Min(s.low[p], s.low[v])])
  }

  /** `p` is the parent of the youngest active node `v`, or `v` itself when it has none. */
  ghost predicate CanLeave(adj: Adjacency, s: Search, v: NodeId, p: NodeId)
    requires Shape(s) && Scanned(adj, s)
  {
    && IsTop(s, s.active, v)
    && s.seen[v] == |Succ(adj, v)|
    && (if p == v then s.active == {v} else
        IsTop(s, s.active - {v}, p) && s.seen[p] < |Succ(adj, p)| && Succ(adj, p)[s.seen[p]] == v)
  }

  lemma LeaveScanned(adj: Adjacency, s: Search, v: NodeId, p: NodeId)
    requires Shape(s) && Scanned(adj, s) && CanLeave(adj, s, v, p)
    ensures Shape(Leave(s, v, p)) && Scanned(adj, Leave(s, v, p))
  {
    assert Shape(Leave(s, v, p));
  }

  /** A node anchored at `v` is also anchored at an older active node, if `v` is not a root. */
  lemma LeaveAnchor(g: Edges, s: Search, v: NodeId, x: NodeId) returns (a: NodeId)
    requires Shape(s) && Anchored(g, s) && LowAttained(g, s) && x in s.stack && v in s.active
    requires s.low[v] < s.index[v]
    ensures a != v && IsAnchor(g, s, x, a)
  {
    assert HasAnchor(g, s, x);
    a :| IsAnchor(g, s, x, a);
    if a == v {
      assert HasLowTarget(g, s, v);
      var y :| IsLowTarget(g, s, v, y);
      assert HasAnchor(g, s, y);
      a :| IsAnchor(g, s, y, a);
      ReachesTrans(g, v, y, a);
      ReachesTrans(g, x, v, a);
    }
  }

  lemma LeaveReach(adj: Adjacency, g: Edges, s: Search, v: NodeId, p: NodeId)
    requires Shape(s) && Linked(g, s) && Anchored(g, s) && LowAttained(g, s)
    requires v in s.active && p in s.active && s.low[v] < s.index[v]
    ensures Shape(Leave(s, v, p)) && Linked(g, Leave(s, v, p)) && Anchored(g, Leave(s, v, p))
  {
    var t := Leave(s, v, p);
    assert Shape(t);
    forall x | x in t.stack ensures HasAnchor(g, t, x) {
      var a := LeaveAnchor(g, s, v, x);
      assert IsAnchor(g, t, x, a);
    }
  }

  lemma LeaveAttained(adj: Adjacency, g: Edges, s: Search, v: NodeId, p: NodeId)
    requires Represents(adj, g)
    requires Shape(s) && Scanned(adj, s) && LowAttained(g, s) && CanLeave(adj, s, v, p)
    ensures Shape(Leave(s, v, p)) && LowAttained(g, Leave(s, v, p))
  {
    var t := Leave(s, v, p);
    assert Shape(t);
    assert HasLowTarget(g, s, v);
    var y :| IsLowTarget(g, s, v, y);
    if p != v {
      assert v in Succ(adj, p);
      ReachesEdge(g, p, v);
      ReachesTrans(g, p, v, y);
    }
    forall a | a in t.active ensures HasLowTarget(g, t, a) {
      assert HasLowTarget(g, s, a);
      var z :| IsLowTarget(g, s, a, z);
      assert IsLowTarget(g, t, a, if t.low[a] == s.low[a] then z else y);
    }
  }

  /** After leaving, the parent owns all that its child owned. */
  lemma LeaveBounds(adj: Adjacency, s: Search, v: NodeId, p: NodeId)
    requires Shape(s) && Numbered(s) && Scanned(adj, s) && LowBounds(adj, s) && CanLeave(adj, s, v, p)
    requires s.low[v] <= s.index[v]
    ensures Shape(Leave(s, v, p)) && Scanned(adj, Leave(s, v, p)) && LowBounds(adj, Leave(s, v, p))
  {
    LeaveScanned(adj, s, v, p);
    var t := Leave(s, v, p);
    forall a, x, k | x in t.stack && Owns(t, a, x) && 0 <= k < t.seen[x] && Succ(adj, x)[k] in t.stack
      ensures t.low[a] <= t.index[Succ(adj, x)[k]]
    {
      if s.index[v] <= s.index[x] {
        assert Owns(s, v, x);
        assert a == p;
      } else {
        assert Owns(s, a, x);
      }
    }
  }

  lemma LeaveKeeps(adj: Adjacency, g: Edges, s: Search, v: NodeId, p: NodeId)
    requires Represents(adj, g) && Inv(adj, g, s) && CanLeave(adj, s, v, p) && s.low[v] < s.index[v]
    ensures Inv(adj, g, Leave(s, v, p))
  {
    LeaveReach(adj, g, s, v, p);
    LeaveAttained(adj, g, s, v, p);
    LeaveBounds(adj, s, v, p);
  }

  // ----- closing a component -----

  /** What is on the stack and no older than `v`. */
  ghost function Upper(s: Search, v: NodeId): set<NodeId>
    requires Shape(s) && v in s.index
  {
    set x | x in s.stack && s.index[v] <= s.index[x]
  }

  /** `v` is left and everything no older than it becomes a component. */
  ghost function Close(s: Search, v: NodeId, p: NodeId): Search
    requires Shape(s) && v in s.active && p in s.active
  {
    Leave(s, v, p).(stack := s.stack - Upper(s, v), done := s.done + Upper(s, v))
  }

  ghost predicate CanClose(adj: Adjacency, s: Search, v: NodeId, p: NodeId)
    requires Shape(s) && Scanned(adj, s)
  {
    CanLeave(adj, s, v, p) && s.low[v] == s.index[v]
  }

  /** Nothing leads out of the closing component except into finished ones. */
  lemma ClosingIsClosed(adj: Adjacency, g: Edges, s: Search, v: NodeId, p: NodeId)
    requires Represents(adj, g)
    requires Shape(s) && Numbered(s) && Scanned(adj, s) && LowBounds(adj, s) && IsClosed(g, s.done)
    requires CanClose(adj, s, v, p)
    ensures IsClosed(g, s.done + Upper(s, v))
  {
    forall x, y | (x, y) in g && x in s.done + Upper(s, v)
      ensures y in s.done + Upper(s, v)
    {
      if x !in s.done {
        assert Owns(s, v, x);
        assert y in Succ(adj, x);
        var k :| 0 <= k < |Succ(adj, x)| && Succ(adj, x)[k] == y;
        assert k < s.seen[x];
      }
    }
  }

  lemma ClosingReachesRoot(adj: Adjacency, g: Edges, s: Search, v: NodeId, p: NodeId, x: NodeId)
    requires Shape(s) && Numbered(s) && Scanned(adj, s) && Linked(g, s) && Anchored(g, s)
    requires CanClose(adj, s, v, p) && x in Upper(s, v) && IsClosed(g, s.done + Upper(s, v))
    ensures Mutual(g, x, v)
  {
    assert HasAnchor(g, s, x);
    var a :| IsAnchor(g, s, x, a);
    ClosedTraps(g, s.done + Upper(s, v), x, a);
  }

  /** The closing nodes are exactly the strongly connected component of each of them. */
  lemma ClosingIsComponent(adj: Adjacency, g: Edges, s: Search, v: NodeId, p: NodeId, x: NodeId, y: NodeId)
    requires Represents(adj, g) && Inv(adj, g, s) && CanClose(adj, s, v, p) && x in Upper(s, v)
    ensures y in Upper(s, v) <==> Mutual(g, x, y)
  {
    ClosingIsClosed(adj, g, s, v, p);
    if y in Upper(s, v) {
      ClosingReachesRoot(adj, g, s, v, p, x);
      ClosingReachesRoot(adj, g, s, v, p, y);
      ReachesTrans(g, x, v, y);
      ReachesTrans(g, y, v, x);
    } else if Mutual(g, x, y) {
      ClosedTraps(g, s.done + Upper(s, v), x, y);
      ClosedTraps(g, s.done, y, x);
      assert false;
    }
  }

  lemma CloseShape(adj: Adjacency, s: Search, v: NodeId, p: NodeId)
    requires Shape(s) && Numbered(s) && Scanned(adj, s) && CanClose(adj, s, v, p)
    ensures Shape(Close(s, v, p)) && Scanned(adj, Close(s, v, p))
  {
    LeaveScanned(adj, s, v, p);
    assert forall a :: a in s.active - {v} ==> s.index[a] < s.index[v];
    assert Shape(Close(s, v, p));
  }

  lemma CloseReach(g: Edges, s: Search, v: NodeId, p: NodeId)
    requires Shape(s) && v in s.active && p in s.active && Linked(g, s) && Anchored(g, s)
    requires Shape(Close(s, v, p))
    ensures Linked(g, Close(s, v, p)) && Anchored(g, Close(s, v, p))
  {
    var t := Close(s, v, p);
    forall x | x in t.stack ensures HasAnchor(g, t, x) {
      assert HasAnchor(g, s, x);
      var a :| IsAnchor(g, s, x, a);
      assert IsAnchor(g, t, x, a);
    }
  }

  lemma CloseLow(adj: Adjacency, g: Edges, s: Search, v: NodeId, p: NodeId)
    requires Represents(adj, g)
    requires Shape(s) && Numbered(s) && Scanned(adj, s) && LowAttained(g, s) && LowBounds(adj, s)
    requires CanClose(adj, s, v, p) && Shape(Close(s, v, p)) && Scanned(adj, Close(s, v, p))
    ensures LowAttained(g, Close(s, v, p)) && LowBounds(adj, Close(s, v, p))
  {
    var t := Close(s, v, p);
    assert HasLowTarget(g, s, p);
    assert t.low == s.low;
    forall a | a in t.active ensures HasLowTarget(g, t, a) {
      assert HasLowTarget(g, s, a);
      var z :| IsLowTarget(g, s, a, z);
      assert IsLowTarget(g, t, a, z);
    }
    LeaveBounds(adj, s, v, p);
    var u := Leave(s, v, p);
    forall a, x, k | x in t.stack && Owns(t, a, x) && 0 <= k < t.seen[x] && Succ(adj, x)[k] in t.stack
      ensures t.low[a] <= t.index[Succ(adj, x)[k]]
    {
      assert Owns(u, a, x);
    }
  }

  lemma CloseKeeps(adj: Adjacency, g: Edges, s: Search, v: NodeId, p: NodeId)
    requires Represents(adj, g) && Inv(adj, g, s) && CanClose(adj, s, v, p)
    ensures Inv(adj, g, Close(s, v, p))
  {
    CloseShape(adj, s, v, p);
    CloseReach(g, s, v, p);
    CloseLow(adj, g, s, v, p);
    ClosingIsClosed(adj, g, s, v, p);
  }

  // ----- the work stack -----

  ghost predicate Below(index: map<NodeId, int>, counter: int) {
    forall x :: x in index ==> index[x] < counter
  }

  type Frame = (NodeId, int)

  ghost function Nodes(ws: seq<Frame>): set<NodeId> {
    if ws == [] then {} else Nodes(ws[..|ws| - 1]) + {ws[|ws| - 1].0}
  }

  /** Frame `f` waits for `next`, the successor just before its resume position. */
  ghost predicate WaitsFor(adj: Adjacency, s: Search, f: Frame, next: NodeId)
    requires Shape(s)
  {
    && f.0 in s.active
    && 0 <= s.seen[f.0] < |Succ(adj, f.0)|
    && f.1 == s.seen[f.0] + 1
    && Succ(adj, f.0)[s.seen[f.0]] == next
  }

  ghost predicate Older(s: Search, a: set<NodeId>, v: NodeId) {
    v in s.index && forall x :: x in a ==> x in s.index && s.index[x] < s.index[v]
  }

  /** Each frame of `ws` waits for the next one, and the last of them for `next`. */
  ghost predicate Waiting(adj: Adjacency, s: Search, ws: seq<Frame>, next: NodeId)
    requires Shape(s)
  {
    ws == [] ||
    var f := ws[|ws| - 1];
    var below := ws[..|ws| - 1];
    WaitsFor(adj, s, f, next) && Older(s, Nodes(below), f.0) && Waiting(adj, s, below, f.0)
  }

  /** The top frame is about to be entered for the first time. */
  ghost predicate Entering(adj: Adjacency, s: Search, ws: seq<Frame>, v: NodeId)
    requires Shape(s)
  {
    Waiting(adj, s, ws, v) && s.active == Nodes(ws) && v !in s.index
  }

  /** The top frame belongs to `v`, whose first `k` successors are accounted for. */
  ghost predicate Resuming(adj: Adjacency, s: Search, ws: seq<Frame>, v: NodeId, k: int)
    requires Shape(s)
  {
    && Waiting(adj, s, ws, v)
    && Older(s, Nodes(ws), v)
    && s.seen[v] == k
    && s.active == Nodes(ws) + {v}
  }

  ghost predicate Parked(adj: Adjacency, s: Search, work: seq<Frame>)
    requires Shape(s)
  {
    if work == [] then s.active == {} else
    var n := |work| - 1;
    if work[n].1 == 0 then Entering(adj, s, work[..n], work[n].0)
    else Resuming(adj, s, work[..n], work[n].0, work[n].1)
  }

  /** Waiting frames are not disturbed by changes elsewhere. */
  lemma {:induction false} WaitingFrame(adj: Adjacency, s: Search, t: Search, ws: seq<Frame>, next: NodeId)
    requires Shape(s) && Shape(t) && Waiting(adj, s, ws, next)
    requires forall x :: x in Nodes(ws) ==> x in t.active && t.seen[x] == s.seen[x] && t.index[x] == s.index[x]
    ensures Waiting(adj, t, ws, next)
  {
    if ws != [] {
      WaitingFrame(adj, s, t, ws[..|ws| - 1], ws[|ws| - 1].0);
    }
  }

  lemma EnteringCanVisit(adj: Adjacency, g: Edges, s: Search, ws: seq<Frame>, v: NodeId, counter: int)
    requires Represents(adj, g) && Shape(s) && Entering(adj, s, ws, v)
    requires forall x :: x in s.index ==> s.index[x] < counter
    ensures CanVisit(g, s, v, counter)
  {
    if ws != [] {
      var top := ws[|ws| - 1].0;
      assert v in Succ(adj, top);
      assert IsTop(s, s.active, top);
    }
  }

  lemma VisitResumes(adj: Adjacency, s: Search, ws: seq<Frame>, v: NodeId, counter: int)
    requires Shape(s) && Shape(Visit(s, v, counter)) && Entering(adj, s, ws, v)
    requires forall x :: x in s.index ==> s.index[x] < counter
    ensures Resuming(adj, Visit(s, v, counter), ws, v, 0)
  {
    WaitingFrame(adj, s, Visit(s, v, counter), ws, v);
  }

  lemma AccountResumes(adj: Adjacency, s: Search, ws: seq<Frame>, v: NodeId, y: NodeId, k: int)
    requires Shape(s) && Scanned(adj, s) && Resuming(adj, s, ws, v, k) && k < |Succ(adj, v)|
    requires y == Succ(adj, v)[k] && y in s.index
    ensures CanAccount(adj, s, v, y)
    ensures Shape(Account(s, v, y)) && Resuming(adj, Account(s, v, y), ws, v, k + 1)
  {
    var t := Account(s, v, y);
    assert Shape(t);
    WaitingFrame(adj, s, t, ws, v);
  }

  lemma Descend(adj: Adjacency, s: Search, ws: seq<Frame>, v: NodeId, w: NodeId, k: int)
    requires Shape(s) && Scanned(adj, s) && Resuming(adj, s, ws, v, k) && k < |Succ(adj, v)|
    requires w == Succ(adj, v)[k] && w !in s.index
    ensures Entering(adj, s, ws + [(v, k + 1)], w)
  {
    assert (ws + [(v, k + 1)])[..|ws|] == ws;
  }

  lemma ResumingBounds(adj: Adjacency, g: Edges, s: Search, ws: seq<Frame>, v: NodeId, k: int)
    requires Inv(adj, g, s) && Resuming(adj, s, ws, v, k)
    ensures Shape(s) && v in s.index && 0 <= k <= |Succ(adj, v)|
  {
  }

  lemma ScanStep(adj: Adjacency, g: Edges, s: Search, ws: seq<Frame>, v: NodeId, w: NodeId, k: int)
    requires Represents(adj, g) && Inv(adj, g, s) && Resuming(adj, s, ws, v, k) && k < |Succ(adj, v)|
    requires 0 <= k < |Succ(adj, v)| && w == Succ(adj, v)[k] && w in s.index
    ensures Shape(s) && v in s.index && Inv(adj, g, Account(s, v, w)) && Shape(Account(s, v, w))
    ensures v in s.low && Resuming(adj, Account(s, v, w), ws, v, k + 1)
  {
    AccountResumes(adj, s, ws, v, w, k);
    AccountKeeps(adj, g, s, v, w);
  }

  /** The parent of the top node: the node of the frame below it, or itself. */
  ghost function Parent(ws: seq<Frame>, v: NodeId): NodeId {
    if ws == [] then v else ws[|ws| - 1].0
  }

  lemma ResumingCanLeave(adj: Adjacency, s: Search, ws: seq<Frame>, v: NodeId)
    requires Shape(s) && Scanned(adj, s) && Resuming(adj, s, ws, v, |Succ(adj, v)|)
    ensures Parent(ws, v) in s.active && CanLeave(adj, s, v, Parent(ws, v))
    ensures ws != [] ==> Parent(ws, v) != v
  {
    if ws == [] {
      assert s.active == {v};
    } else {
      assert s.active - {v} == Nodes(ws);
      assert IsTop(s, s.active - {v}, Parent(ws, v));
    }
  }

  /** Once `v` is left, its parent resumes after it. */
  lemma LeaveParks(adj: Adjacency, s: Search, ws: seq<Frame>, v: NodeId, t: Search)
    requires Shape(s) && Scanned(adj, s) && Resuming(adj, s, ws, v, |Succ(adj, v)|)
    requires Parent(ws, v) in s.active && Shape(t)
    requires t.index == s.index
    requires t.active == Leave(s, v, Parent(ws, v)).active && t.seen == Leave(s, v, Parent(ws, v)).seen
    ensures Parked(adj, t, ws)
  {
    assert s.active - {v} == Nodes(ws);
    if ws != [] {
      var n := |ws| - 1;
      assert v !in Nodes(ws[..n]);
      WaitingFrame(adj, s, t, ws[..n], ws[n].0);
    }
  }

  lemma LowLeqIndex(adj: Adjacency, g: Edges, s: Search, v: NodeId)
    requires Inv(adj, g, s) && v in s.active
    ensures v in s.low && v in s.index && v in s.stack && s.low[v] <= s.index[v]
  {
    assert HasLowTarget(g, s, v);
  }

  lemma LeaveStep(adj: Adjacency, g: Edges, s: Search, ws: seq<Frame>, v: NodeId)
    requires Represents(adj, g) && Inv(adj, g, s) && Resuming(adj, s, ws, v, |Succ(adj, v)|)
    requires s.low[v] < s.index[v]
    ensures var p := Parent(ws, v);
            p in s.active && Inv(adj, g, Leave(s, v, p)) && Shape(Leave(s, v, p)) && Parked(adj, Leave(s, v, p), ws)
  {
    ResumingCanLeave(adj, s, ws, v);
    LeaveKeeps(adj, g, s, v, Parent(ws, v));
    LeaveParks(adj, s, ws, v, Leave(s, v, Parent(ws, v)));
  }

  lemma CloseStep(adj: Adjacency, g: Edges, s: Search, ws: seq<Frame>, v: NodeId)
    requires Represents(adj, g) && Inv(adj, g, s) && Resuming(adj, s, ws, v, |Succ(adj, v)|)
    requires s.low[v] == s.index[v]
    ensures var p := Parent(ws, v);
            p in s.active && Inv(adj, g, Close(s, v, p)) && Shape(Close(s, v, p)) && Parked(adj, Close(s, v, p), ws)
    ensures forall x, y {:trigger Mutual(g, x, y)} :: x in Upper(s, v) ==> (y in Upper(s, v) <==> Mutual(g, x, y))
  {
    ResumingCanLeave(adj, s, ws, v);
    CloseKeeps(adj, g, s, v, Parent(ws, v));
    LeaveParks(adj, s, ws, v, Close(s, v, Parent(ws, v)));
    forall x, y | x in Upper(s, v) ensures y in Upper(s, v) <==> Mutual(g, x, y) {
      ClosingIsComponent(adj, g, s, v, Parent(ws, v), x, y);
    }
  }

  lemma FinishFacts(adj: Adjacency, g: Edges, s: Search, ws: seq<Frame>, v: NodeId)
    requires Represents(adj, g) && Inv(adj, g, s) && Resuming(adj, s, ws, v, |Succ(adj, v)|)
    ensures Shape(s) && v in s.active && v in s.stack && v in s.index && v in s.low
    ensures s.low[v] <= s.index[v]
    ensures var p := Parent(ws, v); p in s.active && p in s.low && (ws != [] ==> p != v)
    ensures ws != [] ==> ws[|ws| - 1].1 != 0
  {
    LowLeqIndex(adj, g, s, v);
    ResumingCanLeave(adj, s, ws, v);
  }

  lemma EnterStep(adj: Adjacency, g: Edges, s: Search, work: seq<Frame>, counter: int)
    requires Represents(adj, g) && Inv(adj, g, s) && Parked(adj, s, work)
    requires work != [] && work[|work| - 1].1 == 0 && Below(s.index, counter)
    ensures var v := work[|work| - 1].0;
            var t := Visit(s, v, counter);
            && Shape(s) && v !in s.index
            && Inv(adj, g, t) && Shape(t) && Resuming(adj, t, work[..|work| - 1], v, 0)
  {
    var v, ws := work[|work| - 1].0, work[..|work| - 1];
    EnteringCanVisit(adj, g, s, ws, v, counter);
    VisitKeeps(adj, g, s, v, counter);
    VisitResumes(adj, s, ws, v, counter);
  }

  lemma ResumeStep(adj: Adjacency, s: Search, work: seq<Frame>)
    requires Shape(s) && Parked(adj, s, work) && work != [] && work[|work| - 1].1 != 0
    ensures Resuming(adj, s, work[..|work| - 1], work[|work| - 1].0, work[|work| - 1].1)
  {
  }

  lemma DescendStep(adj: Adjacency, g: Edges, s: Search, ws: seq<Frame>, v: NodeId, k: int)
    requires Inv(adj, g, s) && Resuming(adj, s, ws, v, k) && 0 <= k < |Succ(adj, v)| && Succ(adj, v)[k] !in s.index
    ensures Parked(adj, s, ws + [(v, k + 1), (Succ(adj, v)[k], 0)])
  {
    var w := Succ(adj, v)[k];
    Descend(adj, s, ws, v, w, k);
    assert (ws + [(v, k + 1), (w, 0)])[..|ws| + 1] == ws + [(v, k + 1)];
  }

  lemma StartParked(adj: Adjacency, g: Edges, s: Search, start: NodeId)
    requires Inv(adj, g, s) && Parked(adj, s, []) && start !in s.index
    ensures Shape(s) && Parked(adj, s, [(start, 0)])
  {
    assert [(start, 0)][..0] == [];
  }

  lemma AnchorIsActive(g: Edges, s: Search, x: NodeId)
    requires Shape(s) && Anchored(g, s) && x in s.stack
    ensures s.active != {}
  {
    assert HasAnchor(g, s, x);
  }

  lemma NothingActive(adj: Adjacency, g: Edges, s: Search)
    requires Inv(adj, g, s) && Parked(adj, s, [])
    ensures s.done == s.index.Keys
  {
    forall x ensures x !in s.stack {
      if x in s.stack {
        AnchorIsActive(g, s, x);
        assert false;
      }
    }
  }

  // ----- where visited nodes come from -----

  ghost predicate HasRoot(g: Edges, roots: set<NodeId>, x: NodeId) {
    exists r :: r in roots && Reaches(g, r, x)
  }

  ghost predicate Rooted(g: Edges, roots: set<NodeId>, a: set<NodeId>) {
    forall x {:trigger HasRoot(g, roots, x)} :: x in a ==> HasRoot(g, roots, x)
  }

  /** The node about to be entered is a starting node or a successor of a visited one. */
  ghost predicate Origin(adj: Adjacency, start: NodeId, s: Search, work: seq<Frame>) {
    work != [] && work[|work| - 1].1 == 0 ==>
      work[|work| - 1].0 == start || exists u :: u in s.index && work[|work| - 1].0 in Succ(adj, u)
  }

  lemma RootOfNew(adj: Adjacency, g: Edges, roots: set<NodeId>, start: NodeId, s: Search, work: seq<Frame>)
    requires Represents(adj, g) && start in roots && Rooted(g, roots, s.index.Keys) && Origin(adj, start, s, work)
    requires work != [] && work[|work| - 1].1 == 0
    ensures HasRoot(g, roots, work[|work| - 1].0)
  {
    var v := work[|work| - 1].0;
    if v == start {
      ReachesSelf(g, v);
    } else {
      var u :| u in s.index && v in Succ(adj, u);
      assert HasRoot(g, roots, u);
      var r :| r in roots && Reaches(g, r, u);
      ReachesEdge(g, u, v);
      ReachesTrans(g, r, u, v);
    }
  }

  ghost function Fresh(work: seq<Frame>): set<NodeId> {
    if work != [] && work[|work| - 1].1 == 0 then {work[|work| - 1].0} else {}
  }

  ghost predicate Descended(adj: Adjacency, visited: set<NodeId>, unseen: set<NodeId>) {
    exists v, k :: 0 <= k < |Succ(adj, v)| && unseen == {Succ(adj, v)[k]} && Succ(adj, v)[k] !in visited
  }

  ghost predicate Covers(adj: Adjacency, univ: set<NodeId>) {
    forall x, k :: 0 <= k < |Succ(adj, x)| ==> Succ(adj, x)[k] in univ
  }

  // ----- the algorithm -----

  /** `c` lists, without repetition, the strongly connected component of each of its nodes. */
  ghost predicate IsComponent(g: Edges, c: seq<NodeId>) {
    c != [] && Distinct(c) && forall x, y {:trigger Mutual(g, x, y)} :: x in c ==> (y in c <==> Mutual(g, x, y))
  }

  ghost function Members(groups: seq<seq<NodeId>>): set<NodeId> {
    if groups == [] then {} else Members(groups[..|groups| - 1]) + Elems(groups[|groups| - 1])
  }

  /** The groups are components, and no node is in two of them. */
  ghost predicate AreComponents(g: Edges, groups: seq<seq<NodeId>>) {
    groups == [] ||
    var last := groups[|groups| - 1];
    var rest := groups[..|groups| - 1];
    IsComponent(g, last) && Elems(last) !! Members(rest) && AreComponents(g, rest)
  }

  ghost predicate Ascending(index: map<NodeId, int>, t: seq<NodeId>) {
    && (forall i :: 0 <= i < |t| ==> t[i] in index)
    && (forall i, j :: 0 <= i < j < |t| ==> index[t[i]] < index[t[j]])
  }

  /** `stack` lists `a` from the oldest to the youngest, and `onStack` marks the same nodes. */
  ghost predicate Stacked(a: set<NodeId>, stack: seq<NodeId>, onStack: map<NodeId, bool>, index: map<NodeId, int>) {
    && a == Elems(stack)
    && (forall x :: x in a <==> x in onStack && onStack[x])
    && Ascending(index, stack)
  }

  lemma StackedMember(a: set<NodeId>, stack: seq<NodeId>, onStack: map<NodeId, bool>, index: map<NodeId, int>,
                      x: NodeId)
    requires Stacked(a, stack, onStack, index)
    ensures x in a <==> x in onStack && onStack[x]
  {
  }

  lemma StackPush(a: set<NodeId>, stack: seq<NodeId>, onStack: map<NodeId, bool>, index: map<NodeId, int>,
                  v: NodeId, counter: int)
    requires Stacked(a, stack, onStack, index) && Below(index, counter) && v !in index
    ensures Stacked(a + {v}, stack + [v], onStack[v := true], index[v := counter])
  {
    assert forall i :: 0 <= i < |stack| ==> stack[i] != v;
  }

  lemma AddComponent(g: Edges, groups: seq<seq<NodeId>>, c: seq<NodeId>, done: set<NodeId>, upper: set<NodeId>)
    requires AreComponents(g, groups) && Members(groups) == done && done !! upper
    requires c != [] && Distinct(c) && Elems(c) == upper
    requires forall x, y {:trigger Mutual(g, x, y)} :: x in upper ==> (y in upper <==> Mutual(g, x, y))
    ensures AreComponents(g, groups + [c]) && Members(groups + [c]) == done + upper
  {
    assert (groups + [c])[..|groups|] == groups;
    assert forall x :: x in c <==> x in upper;
  }

  /** Popping down to `v` takes off what is no older than `v`. */
  lemma PoppedElems(a: set<NodeId>, stack: seq<NodeId>, index: map<NodeId, int>, m: int, component: seq<NodeId>)
    requires a == Elems(stack) && Ascending(index, stack) && 0 <= m < |stack|
    requires |component| == |stack| - m
    requires forall i :: 0 <= i < |component| ==> component[i] == stack[|stack| - 1 - i]
    ensures forall x :: x in component <==> x in a && index[stack[m]] <= index[x]
    ensures forall x :: x in stack[..m] <==> x in a && x !in component
  {
    forall x | x in a
      ensures x in component <==> index[stack[m]] <= index[x]
      ensures x in stack[..m] <==> x !in component
    {
      var i :| 0 <= i < |stack| && stack[i] == x;
      if i >= m {
        assert component[|stack| - 1 - i] == x;
      } else {
        assert stack[..m][i] == x;
      }
    }
  }

  lemma StackPop(a: set<NodeId>, stack: seq<NodeId>, onStack: map<NodeId, bool>, index: map<NodeId, int>,
                 v: NodeId, m: int, onStack': map<NodeId, bool>, component: seq<NodeId>)
    requires Stacked(a, stack, onStack, index) && 0 <= m < |stack| && stack[m] == v
    requires |component| == |stack| - m
    requires forall i :: 0 <= i < |component| ==> component[i] == stack[|stack| - 1 - i]
    requires forall x :: x in onStack' && onStack'[x] <==> (x in onStack && onStack[x]) && x !in component
    ensures v in index && (forall x :: x in a ==> x in index)
    ensures Distinct(component) && component != []
    ensures Elems(component) == set x | x in a && index[v] <= index[x]
    ensures Stacked(a - Elems(component), stack[..m], onStack', index)
  {
    PoppedElems(a, stack, index, m, component);
    var upper := set x | x in a && index[v] <= index[x];
    assert forall x :: x in Elems(component) <==> x in upper;
  }

  lemma AscendingDistinct(index: map<NodeId, int>, t: seq<NodeId>)
    requires Ascending(index, t)
    ensures Distinct(t)
  {
  }

  class TarjanState {
    var indexCounter: int
    var index: map<NodeId, int>
    var lowlink: map<NodeId, int>
    var onStack: map<NodeId, bool>
    var stack: seq<NodeId>
    var result: seq<seq<NodeId>>

    constructor ()
      ensures index == map[] && lowlink == map[] && onStack == map[] && stack == [] && result == []
    {
      indexCounter := 0;
      index, lowlink, onStack := map[], map[], map[];
      stack, result := [], [];
    }

    /** The fields hold what the search `s` says. */
    ghost predicate Matches(s: Search)
      reads this
    {
      s.index == index && s.low == lowlink && s.done == Members(result) && Stacked(s.stack, stack, onStack, index)
    }

    method Enter(v: NodeId, ghost s: Search)
      requires Matches(s) && Below(index, indexCounter) && v !in index
      modifies this
      ensures Matches(Visit(s, v, old(indexCounter))) && Below(index, indexCounter)
      ensures result == old(result)
    {
      StackPush(s.stack, stack, onStack, index, v, indexCounter);
      hide Stacked;
      index := index[v := indexCounter];
      lowlink := lowlink[v := indexCounter];
      indexCounter := indexCounter + 1;
      stack := stack + [v];
      onStack := onStack[v := true];
    }

    /** Scans the successors of `v` from position `from` up to the first one not indexed yet. */
    method Scan(adj: Adjacency, v: NodeId, from: int, ghost g: Edges, ghost s: Search, ghost ws: seq<Frame>)
      returns (k: int, ghost t: Search)
      requires Represents(adj, g) && Inv(adj, g, s) && Matches(s) && Resuming(adj, s, ws, v, from)
      modifies this`lowlink
      ensures Shape(t) && Inv(adj, g, t) && Matches(t) && Resuming(adj, t, ws, v, k) && v in index
      ensures k == |Succ(adj, v)| || (0 <= k < |Succ(adj, v)| && Succ(adj, v)[k] !in index)
    {
      hide Inv, Shape, Resuming, Stacked, Represents;
      ResumingBounds(adj, g, s, ws, v, from);
      k, t := from, s;
      while k < |Succ(adj, v)| && Succ(adj, v)[k] in index
        invariant 0 <= k <= |Succ(adj, v)| && Shape(t)
        invariant Inv(adj, g, t) && Matches(t) && Resuming(adj, t, ws, v, k)
      {
        var w := Succ(adj, v)[k];
        ScanStep(adj, g, t, ws, v, w, k);
        StackedMember(t.stack, stack, onStack, index, w);
        if w in onStack && onStack[w] {
          lowlink := lowlink[v := Min(lowlink[v], index[w])];
        }
        t := Account(t, v, w);
        k := k + 1;
      }
    }

    /** Pops the stack down to and including `v`. */
    method PopComponent(v: NodeId, ghost m: int) returns (component: seq<NodeId>)
      requires 0 <= m < |stack| && stack[m] == v && Distinct(stack)
      modifies this`stack, this`onStack
      ensures stack == old(stack[..m])
      ensures |component| == |old(stack)| - m
      ensures forall i :: 0 <= i < |component| ==> component[i] == old(stack)[|old(stack)| - 1 - i]
      ensures forall x :: x in onStack && onStack[x] <==> old(x in onStack && onStack[x]) && x !in component
    {
      component := [];
      var more := true;
      while more && |stack| > 0
        invariant m <= |stack| && (more <==> m < |stack|)
        invariant |stack| + |component| == |old(stack)|
        invariant stack == old(stack)[..|stack|]
        invariant forall i :: 0 <= i < |component| ==> component[i] == old(stack)[|old(stack)| - 1 - i]
        invariant forall x :: x in onStack && onStack[x] <==> old(x in onStack && onStack[x]) && x !in component
        decreases |stack|
      {
        var w := stack[|stack| - 1];
        stack := stack[..|stack| - 1];
        onStack := onStack[w := false];
        component := component + [w];
        more := w != v;
      }
    }

    /** Pops and records the component rooted at `v`. */
    method CloseComponent(v: NodeId, ghost g: Edges, ghost s: Search)
      requires Shape(s) && v in s.stack && s.index == index
      requires Stacked(s.stack, stack, onStack, index) && s.done == Members(result) && AreComponents(g, result)
      requires forall x, y {:trigger Mutual(g, x, y)} :: x in Upper(s, v) ==> (y in Upper(s, v) <==> Mutual(g, x, y))
      modifies this`stack, this`onStack, this`result
      ensures Stacked(s.stack - Upper(s, v), stack, onStack, index)
      ensures Members(result) == s.done + Upper(s, v) && AreComponents(g, result)
    {
      hide AreComponents, Mutual;
      ghost var m :| 0 <= m < |stack| && stack[m] == v;
      AscendingDistinct(index, stack);
      ghost var stack0, onStack0 := stack, onStack;
      var component := PopComponent(v, m);
      StackPop(s.stack, stack0, onStack0, index, v, m, onStack, component);
      assert Elems(component) == Upper(s, v);
      AddComponent(g, result, component, s.done, Upper(s, v));
      result := result + [component];
    }

    /** All successors of `v` are accounted for: its parent takes over its low link, and if `v` is
        the root of a component, the component is popped and recorded. */
    method Finish(adj: Adjacency, v: NodeId, ws: seq<Frame>, ghost g: Edges, ghost s: Search)
      returns (ghost t: Search)
      requires Represents(adj, g) && Inv(adj, g, s) && Matches(s) && Resuming(adj, s, ws, v, |Succ(adj, v)|)
      requires AreComponents(g, result)
      modifies this`lowlink, this`stack, this`onStack, this`result
      ensures Shape(t) && Inv(adj, g, t) && Matches(t) && Parked(adj, t, ws) && t.index == s.index
      ensures Fresh(ws) == {}
      ensures AreComponents(g, result)
    {
      hide Inv, Shape, Resuming, Represents, AreComponents, Parked, Stacked, Mutual;
      FinishFacts(adj, g, s, ws, v);
      ghost var p := Parent(ws, v);
      if |ws| > 0 {
        var q := ws[|ws| - 1].0;
        lowlink := lowlink[q := Min(lowlink[q], lowlink[v])];
      }
      if lowlink[v] == index[v] {
        CloseStep(adj, g, s, ws, v);
        t := Close(s, v, p);
        CloseComponent(v, g, s);
      } else {
        LeaveStep(adj, g, s, ws, v);
        t := Leave(s, v, p);
      }
    }

    /** What holds between two iterations of the work loop. */
    ghost predicate Between(adj: Adjacency, g: Edges, roots: set<NodeId>, s: Search, work: seq<Frame>)
      reads this
    {
      && Shape(s) && Inv(adj, g, s) && Matches(s) && Parked(adj, s, work)
      && AreComponents(g, result) && Below(index, indexCounter)
      && Rooted(g, roots, index.Keys)
    }

    /** The top frame is entered if it is new, and is then the one being resumed. */
    method Open(adj: Adjacency, work: seq<Frame>, ghost g: Edges, ghost roots: set<NodeId>, ghost start: NodeId,
                ghost s: Search)
      returns (ghost t: Search)
      requires work != [] && Represents(adj, g)
      requires Between(adj, g, roots, s, work) && start in roots && Origin(adj, start, s, work)
      modifies this
      ensures Shape(t) && Inv(adj, g, t) && Matches(t)
      ensures var (v, i) := work[|work| - 1]; Resuming(adj, t, work[..|work| - 1], v, i)
      ensures AreComponents(g, result) && Below(index, indexCounter)
      ensures Rooted(g, roots, index.Keys) && index.Keys == old(index.Keys) + Fresh(work)
    {
      hide Inv, Shape, Resuming, Parked, Represents, AreComponents, Stacked, Waiting;
      t := s;
      var (v, i) := work[|work| - 1];
      if i == 0 {
        EnterStep(adj, g, t, work, indexCounter);
        RootOfNew(adj, g, roots, start, t, work);
        ghost var counter := indexCounter;
        hide Below, HasRoot;
        Enter(v, t);
        t := Visit(t, v, counter);
      } else {
        ResumeStep(adj, t, work);
      }
    }

    /** One iteration of the work loop. */
    method Iterate(adj: Adjacency, work: seq<Frame>, ghost g: Edges, ghost roots: set<NodeId>, ghost start: NodeId,
                   ghost s: Search)
      returns (work': seq<Frame>, ghost t: Search)
      requires work != [] && Represents(adj, g)
      requires Between(adj, g, roots, s, work) && start in roots && Origin(adj, start, s, work)
      modifies this
      ensures Between(adj, g, roots, t, work') && Origin(adj, start, t, work')
      ensures index.Keys == old(index.Keys) + Fresh(work)
      ensures (|work'| == |work| - 1 && Fresh(work') == {}) || Descended(adj, index.Keys, Fresh(work'))
    {
      hide Inv, Shape, Resuming, Parked, Represents, AreComponents, Stacked, Below, Rooted;
      t := Open(adj, work, g, roots, start, s);
      var (v, i) := work[|work| - 1];
      work' := work[..|work| - 1];
      var k;
      k, t := Scan(adj, v, i, g, t, work');
      if k < |Succ(adj, v)| {
        DescendStep(adj, g, t, work', v, k);
        assert v in t.index && Succ(adj, v)[k] in Succ(adj, v);
        work' := work' + [(v, k + 1), (Succ(adj, v)[k], 0)];
      } else {
        t := Finish(adj, v, work', g, t);
      }
    }

    /** Completes every component reachable from `start`. */
    method StrongConnect(start: NodeId, adj: Adjacency, ghost g: Edges, ghost roots: set<NodeId>,
                         ghost univ: set<NodeId>, ghost s: Search)
      returns (ghost t: Search)
      requires Represents(adj, g) && Between(adj, g, roots, s, [])
      requires start in roots && start !in index && start in univ && Covers(adj, univ)
      modifies this
      ensures Between(adj, g, roots, t, [])
      ensures old(index.Keys) + {start} <= index.Keys
    {
      var work: seq<Frame> := [(start, 0)];
      t := s;
      StartParked(adj, g, s, start);
      hide Inv, Shape, Parked, Represents, AreComponents, Stacked, Below, Rooted;
      while work != []
        invariant Between(adj, g, roots, t, work) && Origin(adj, start, t, work)
        invariant old(index.Keys) <= index.Keys && start in index.Keys + Fresh(work)
        invariant Fresh(work) <= univ
        decreases univ - index.Keys - Fresh(work), |work|
      {
        hide *;
        ghost var known, entered := index.Keys, Fresh(work);
        work, t := Iterate(adj, work, g, roots, start, t);
        WorkShrinks(adj, univ, known, entered, Fresh(work));
      }
    }
  }

  /** A new node is taken up, or the nodes to be entered stay the same. */
  lemma WorkShrinks(adj: Adjacency, univ: set<NodeId>, known: set<NodeId>, entered: set<NodeId>, next: set<NodeId>)
    requires Covers(adj, univ) && (next == {} || Descended(adj, known + entered, next))
    ensures next <= univ
    ensures next != {} ==> univ - (known + entered) - next < univ - known - entered
    ensures next == {} ==> univ - (known + entered) - next == univ - known - entered
  {
  }

  // ----- the result -----

  ghost predicate SameGroup(groups: seq<seq<NodeId>>, x: NodeId, y: NodeId) {
    exists i :: 0 <= i < |groups| && x in groups[i] && y in groups[i]
  }

  /** No group is empty, no group repeats a node, and no node is in two groups. */
  ghost predicate AreDisjoint(groups: seq<seq<NodeId>>) {
    && (forall i :: 0 <= i < |groups| ==> groups[i] != [] && Distinct(groups[i]))
    && (forall i, j, x :: 0 <= i < j < |groups| && x in groups[i] ==> x !in groups[j])
  }

  lemma {:induction false} MembersOf(groups: seq<seq<NodeId>>, x: NodeId)
    ensures x in Members(groups) <==> SameGroup(groups, x, x)
  {
    if groups != [] {
      var n := |groups| - 1;
      MembersOf(groups[..n], x);
      if SameGroup(groups[..n], x, x) {
        var i :| 0 <= i < n && x in groups[..n][i];
        assert x in groups[i];
      }
      if SameGroup(groups, x, x) {
        var i :| 0 <= i < |groups| && x in groups[i];
        if i < n { assert x in groups[..n][i]; }
      }
    }
  }

  lemma {:induction false} ComponentsAreDisjoint(g: Edges, groups: seq<seq<NodeId>>)
    requires AreComponents(g, groups)
    ensures AreDisjoint(groups) && forall i :: 0 <= i < |groups| ==> IsComponent(g, groups[i])
  {
    if groups != [] {
      var n := |groups| - 1;
      ComponentsAreDisjoint(g, groups[..n]);
      assert forall i :: 0 <= i < n ==> groups[i] == groups[..n][i];
      forall i, x | 0 <= i < n && x in groups[i] ensures x !in groups[n] {
        assert SameGroup(groups[..n], x, x);
        MembersOf(groups[..n], x);
      }
    }
  }

  /** Two nodes share a group exactly when each reaches the other. */
  lemma GroupsAreMutual(g: Edges, groups: seq<seq<NodeId>>, x: NodeId, y: NodeId)
    requires AreComponents(g, groups) && x in Members(groups)
    ensures SameGroup(groups, x, y) <==> Mutual(g, x, y)
  {
    ComponentsAreDisjoint(g, groups);
    MembersOf(groups, x);
    var i :| 0 <= i < |groups| && x in groups[i];
    assert IsComponent(g, groups[i]);
  }

  /** The components found are those of every node reachable from the given ones. */
  lemma ReachedIsVisited(g: Edges, roots: set<NodeId>, done: set<NodeId>, x: NodeId)
    requires IsClosed(g, done) && roots <= done && HasRoot(g, roots, x)
    ensures x in done
  {
    var r :| r in roots && Reaches(g, r, x);
    ClosedTraps(g, done, r, x);
  }

  method BuildAdjacency(edges: seq<(NodeId, NodeId)>) returns (adj: Adjacency)
    ensures Represents(adj, EdgeSet(edges))
  {
    adj := map[];
    for i := 0 to |edges|
      invariant forall u, v :: v in Succ(adj, u) <==> (u, v) in edges[..i]
    {
      var (u, v) := edges[i];
      adj := adj[u := Succ(adj, u) + [v]];
      assert edges[..i + 1] == edges[..i] + [edges[i]];
    }
    assert edges[..|edges|] == edges;
  }

  lemma ElemsNext(s: seq<NodeId>, i: int)
    requires 0 <= i < |s|
    ensures Elems(s[..i + 1]) == Elems(s[..i]) + {s[i]} && s[i] in Elems(s)
  {
    assert s[..i + 1] == s[..i] + [s[i]];
  }

  ghost function Universe(nodeIds: seq<NodeId>, g: Edges): set<NodeId> {
    Elems(nodeIds) + set e | e in g :: e.1
  }

  lemma UniverseCovers(adj: Adjacency, g: Edges, nodeIds: seq<NodeId>)
    requires Represents(adj, g)
    ensures Covers(adj, Universe(nodeIds, g))
  {
    forall x, k | 0 <= k < |Succ(adj, x)| ensures Succ(adj, x)[k] in Universe(nodeIds, g) {
      var y := Succ(adj, x)[k];
      assert y in Succ(adj, x);
      assert (x, y) in g;
    }
  }

  /** Tarjan's algorithm groups the nodes reachable from `nodeIds` by mutual reachability. */
  method TarjanScc(nodeIds: seq<NodeId>, edges: seq<(NodeId, NodeId)>) returns (groups: seq<seq<NodeId>>)
    ensures AreDisjoint(groups)
    ensures forall x :: SameGroup(groups, x, x) <==> HasRoot(EdgeSet(edges), Elems(nodeIds), x)
    ensures forall x, y :: SameGroup(groups, x, x) ==>
              (SameGroup(groups, x, y) <==> Mutual(EdgeSet(edges), x, y))
  {
    var adj := BuildAdjacency(edges);
    ghost var g := EdgeSet(edges);
    ghost var roots := Elems(nodeIds);
    ghost var univ := Universe(nodeIds, g);
    UniverseCovers(adj, g, nodeIds);
    var state := new TarjanState();
    ghost var s := Search(map[], map[], map[], {}, {}, {});
    assert state.Between(adj, g, roots, s, []);
    hide Represents, Covers, HasRoot, SameGroup, Mutual, Elems;
    for i := 0 to |nodeIds|
      invariant fresh(state)
      invariant state.Between(adj, g, roots, s, [])
      invariant Elems(nodeIds[..i]) <= state.index.Keys
    {
      var id := nodeIds[i];
      if id !in state.index {
        s := state.StrongConnect(id, adj, g, roots, univ, s);
      }
      ElemsNext(nodeIds, i);
    }
    assert nodeIds[..|nodeIds|] == nodeIds;
    groups := state.result;
    NothingActive(adj, g, s);
    ComponentsAreDisjoint(g, groups);
    forall x ensures SameGroup(groups, x, x) <==> HasRoot(g, roots, x) {
      MembersOf(groups, x);
      if HasRoot(g, roots, x) {
        ReachedIsVisited(g, roots, s.done, x);
      }
    }
    forall x, y | SameGroup(groups, x, x) ensures SameGroup(groups, x, y) <==> Mutual(g, x, y) {
      MembersOf(groups, x);
      GroupsAreMutual(g, groups, x, y);
    }
  }

  /** The groups cover the given ids and nothing else exactly when no edge leaves them. */
  lemma CoversOnlyTheIds(g: Edges, ids: set<NodeId>)
    ensures (forall x :: HasRoot(g, ids, x) <==> x in ids) <==> IsClosed(g, ids)
  {
    forall x | x in ids ensures HasRoot(g, ids, x) {
      ReachesSelf(g, x);
    }
    if IsClosed(g, ids) {
      forall x | HasRoot(g, ids, x) ensures x in ids {
        ReachedIsVisited(g, ids, ids, x);
      }
    } else {
      var u, v := EdgeLeaving(g, ids);
      ReachesEdge(g, u, v);
      assert HasRoot(g, ids, v);
    }
  }
}
