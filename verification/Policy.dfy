/** File-level dependency cycles: the three-colour depth-first search `dfs_cycle`, its driver
    `find_cycles`, and the canonical rotation of what it records. */
module Policy {
  import opened Graph
  import opened Sorting
  import opened Strings

  type File = string
  /** The successors of each file that has any, in ascending order. */
  type FileGraph = map<File, seq<File>>

  datatype Node = Node(id: int, path: File)
  datatype Edge = Edge(sourceId: int, targetId: int)

  // ----- the cross-file dependency graph -----

  /** The path of a node id; a later node with the same id wins. */
  ghost function FileOf(nodes: seq<Node>): map<int, File> {
    if nodes == [] then map[] else
    FileOf(nodes[..|nodes| - 1])[nodes[|nodes| - 1].id := nodes[|nodes| - 1].path]
  }

  ghost predicate Joins(fileOf: map<int, File>, e: Edge, a: File, b: File) {
    e.sourceId in fileOf && e.targetId in fileOf && fileOf[e.sourceId] == a && fileOf[e.targetId] == b
  }

  /** `a` depends on `b`: some edge joins a symbol of `a` to a symbol of another file `b`. */
  ghost predicate Depends(nodes: seq<Node>, edges: seq<Edge>, a: File, b: File) {
    a != b && exists e :: e in edges && Joins(FileOf(nodes), e, a, b)
  }

  ghost function Files(nodes: seq<Node>): set<File> {
    set n | n in nodes :: n.path
  }

  /** The dependencies between different files. */
  ghost function Dependencies(nodes: seq<Node>, edges: seq<Edge>): set<(File, File)> {
    set a, b | a in Files(nodes) && b in Files(nodes) && Depends(nodes, edges, a, b) :: (a, b)
  }

  ghost predicate Represents(adj: FileGraph, g: set<(File, File)>) {
    forall a, b :: (a, b) in g <==> a in adj && b in adj[a]
  }

  lemma {:induction false} FileOfIsFile(nodes: seq<Node>, id: int)
    requires id in FileOf(nodes)
    ensures FileOf(nodes)[id] in Files(nodes)
  {
    var k := |nodes| - 1;
    if id == nodes[k].id {
      assert nodes[k] in nodes;
    } else {
      FileOfIsFile(nodes[..k], id);
      var n :| n in nodes[..k] && n.path == FileOf(nodes)[id];
      assert n in nodes;
    }
  }

  /** The file of an id is that of the last node that has it. */
  lemma {:induction false} FileOfIsLast(nodes: seq<Node>, id: int, file: File)
    ensures id in FileOf(nodes) && FileOf(nodes)[id] == file <==>
              exists i :: 0 <= i < |nodes| && nodes[i] == Node(id, file)
                          && forall k :: i < k < |nodes| ==> nodes[k].id != id
  {
    if nodes != [] {
      var n := |nodes| - 1;
      FileOfIsLast(nodes[..n], id, file);
      if nodes[n].id != id {
        if i :| 0 <= i < n && nodes[..n][i] == Node(id, file) && forall k :: i < k < n ==> nodes[..n][k].id != id {
          assert nodes[i] == Node(id, file) && forall k :: i < k < |nodes| ==> nodes[k].id != id;
        }
        if i :| 0 <= i < |nodes| && nodes[i] == Node(id, file) && forall k :: i < k < |nodes| ==> nodes[k].id != id {
          assert nodes[..n][i] == Node(id, file) && forall k :: i < k < n ==> nodes[..n][k].id != id;
        }
      }
    }
  }

  /** A dependency needs no mention of the file set: its ends are always files. */
  lemma DependsIsEdge(nodes: seq<Node>, edges: seq<Edge>, a: File, b: File)
    ensures (a, b) in Dependencies(nodes, edges) <==> Depends(nodes, edges, a, b)
  {
    if Depends(nodes, edges, a, b) {
      var e :| e in edges && Joins(FileOf(nodes), e, a, b);
      FileOfIsFile(nodes, e.sourceId);
      FileOfIsFile(nodes, e.targetId);
    }
  }

  lemma DependsNext(nodes: seq<Node>, edges: seq<Edge>, i: int, a: File, b: File)
    requires 0 <= i < |edges|
    ensures Depends(nodes, edges[..i + 1], a, b)
            <==> Depends(nodes, edges[..i], a, b) || (a != b && Joins(FileOf(nodes), edges[i], a, b))
  {
    assert edges[..i + 1] == edges[..i] + [edges[i]];
  }

  lemma NothingDepends(nodes: seq<Node>, a: File, b: File)
    ensures !Depends(nodes, [], a, b)
  {
  }

  lemma PathsAreOrdered()
    ensures IsStrictOrder(Less)
  {
    forall a, b, c | Less(a, b) && Less(b, c) ensures Less(a, c) {
      LessTransitive(a, b, c);
    }
    forall a ensures !Less(a, a) {
      LessIrreflexive(a);
    }
    forall a, b | a != b ensures Less(a, b) || Less(b, a) {
      LessTotal(a, b);
    }
  }

  /** Successor lists and the list of files that have one, all ascending and without duplicates. */
  ghost predicate IsOrdered(adj: FileGraph, keys: seq<File>) {
    && Increasing(Less, keys) && (forall a :: a in keys <==> a in adj)
    && (forall a :: a in adj ==> adj[a] != [] && Increasing(Less, adj[a]))
  }

  /** An edge more. */
  function AddEdge(adj: FileGraph, a: File, b: File): FileGraph {
    adj[a := Insert(Less, b, if a in adj then adj[a] else [])]
  }

  lemma AddEdgeOrdered(adj: FileGraph, keys: seq<File>, a: File, b: File)
    requires IsOrdered(adj, keys)
    ensures IsOrdered(AddEdge(adj, a, b), Insert(Less, a, keys))
    ensures forall x, y ::
              x in AddEdge(adj, a, b) && y in AddEdge(adj, a, b)[x] <==> (x in adj && y in adj[x]) || (x == a && y == b)
  {
    var list := if a in adj then adj[a] else [];
    assert Increasing(Less, keys) && Increasing(Less, list);
    InsertPath(a, keys);
    InsertPath(b, list);
    ListOrdered(adj, keys, Insert(Less, a, keys), a, Insert(Less, b, list));
    ListPairs(adj, a, b, list, Insert(Less, b, list));
  }

  lemma ListOrdered(adj: FileGraph, keys: seq<File>, keys': seq<File>, a: File, list: seq<File>)
    requires IsOrdered(adj, keys) && Increasing(Less, keys') && (forall x :: x in keys' <==> x == a || x in keys)
    requires list != [] && Increasing(Less, list)
    ensures IsOrdered(adj[a := list], keys')
  {
    hide Increasing;
  }

  lemma ListPairs(adj: FileGraph, a: File, b: File, list: seq<File>, list': seq<File>)
    requires list == (if a in adj then adj[a] else []) && forall y :: y in list' <==> y == b || y in list
    ensures forall x, y ::
              x in adj[a := list'] && y in adj[a := list'][x] <==> (x in adj && y in adj[x]) || (x == a && y == b)
  {
  }

  lemma InsertPath(x: File, paths: seq<File>)
    requires Increasing(Less, paths)
    ensures Increasing(Less, Insert(Less, x, paths))
    ensures forall y :: y in Insert(Less, x, paths) <==> y == x || y in paths
    ensures x in Insert(Less, x, paths)
  {
    PathsAreOrdered();
    hide IsStrictOrder, Less, Increasing, Insert;
    InsertSorts(Less, x, paths);
  }

  method BuildFileGraph(nodes: seq<Node>, edges: seq<Edge>) returns (adj: FileGraph, keys: seq<File>)
    ensures Represents(adj, Dependencies(nodes, edges)) && IsOrdered(adj, keys)
  {
    var fileOf: map<int, File> := map[];
    for i := 0 to |nodes|
      invariant fileOf == FileOf(nodes[..i])
    {
      fileOf := fileOf[nodes[i].id := nodes[i].path];
      assert nodes[..i + 1][..i] == nodes[..i];
    }
    assert nodes[..|nodes|] == nodes;
    adj, keys := map[], [];
    hide FileOf, Depends, AddEdge, IsOrdered, Insert;
    NothingOrdered();
    forall a, b ensures !Depends(nodes, edges[..0], a, b) { NothingDepends(nodes, a, b); }
    for i := 0 to |edges|
      invariant IsOrdered(adj, keys)
      invariant forall a, b :: a in adj && b in adj[a] <==> Depends(nodes, edges[..i], a, b)
    {
      var e := edges[i];
      ghost var was, upTo := adj, edges[..i + 1];
      if e.sourceId in fileOf && e.targetId in fileOf && fileOf[e.sourceId] != fileOf[e.targetId] {
        var a, b := fileOf[e.sourceId], fileOf[e.targetId];
        AddEdgeOrdered(adj, keys, a, b);
        adj, keys := AddEdge(adj, a, b), Insert(Less, a, keys);
      }
      forall a, b ensures a in adj && b in adj[a] <==> Depends(nodes, upTo, a, b) {
        DependsNext(nodes, edges, i, a, b);
        assert a in was && b in was[a] <==> Depends(nodes, edges[..i], a, b);
      }
    }
    assert edges[..|edges|] == edges;
    forall a, b ensures (a, b) in Dependencies(nodes, edges) <==> a in adj && b in adj[a] {
      DependsIsEdge(nodes, edges, a, b);
    }
  }

  lemma NothingOrdered()
    ensures IsOrdered(map[], [])
  {
  }

  /** The ordered lists are determined by the dependencies. */
  lemma OrderedIsUnique(adj: FileGraph, keys: seq<File>, adj': FileGraph, keys': seq<File>, g: set<(File, File)>)
    requires Represents(adj, g) && IsOrdered(adj, keys) && Represents(adj', g) && IsOrdered(adj', keys')
    ensures adj == adj' && keys == keys'
  {
    PathsAreOrdered();
    hide IsStrictOrder, Less, Increasing;
    forall a ensures a in adj <==> a in adj' {
      if a in adj { var b := AnyOf(adj[a]); assert (a, b) in g; }
      if a in adj' { var b := AnyOf(adj'[a]); assert (a, b) in g; }
    }
    forall a | a in adj ensures adj[a] == adj'[a] {
      forall b ensures b in adj[a] <==> b in adj'[a] {
        assert (a, b) in g <==> b in adj[a];
      }
      IncreasingIsUnique(Less, adj[a], adj'[a]);
    }
    IncreasingIsUnique(Less, keys, keys');
  }

  // ----- the search, as the proof sees it -----

  /** A file without a colour is unvisited. */
  datatype Color = OnStack | Done

  ghost function Coloured(color: map<File, Color>, k: Color): set<File> {
    set f | f in color && color[f] == k
  }

  /** The stack is a walk without repetition through exactly the files on it. */
  ghost predicate StackOk(g: set<(File, File)>, color: map<File, Color>, stack: seq<File>) {
    && Distinct(stack)
    && Elems(stack) == Coloured(color, OnStack)
    && (stack != [] ==> IsWalk(g, stack))
  }

  /** A closed walk that visits no file twice before it closes. */
  ghost predicate IsSimpleCycle(g: set<(File, File)>, c: seq<File>) {
    IsClosedWalk(g, c) && Distinct(c[..|c| - 1])
  }

  ghost predicate AllCycles(g: set<(File, File)>, found: set<seq<File>>) {
    forall c :: c in found ==> IsSimpleCycle(g, c)
  }

  /** No closed walk starts in `s`. */
  ghost predicate NoneFrom(g: set<(File, File)>, s: set<File>) {
    forall p :: IsClosedWalk(g, p) ==> p[0] !in s
  }

  /** But for the back edges, the finished files lead only to one another and to no cycle. */
  ghost predicate FinishedClean(g: set<(File, File)>, color: map<File, Color>, back: set<(File, File)>) {
    IsClosed(g - back, Coloured(color, Done)) && NoneFrom(g - back, Coloured(color, Done))
  }

  lemma FewerEdgesClean(g: set<(File, File)>, color: map<File, Color>, back: set<(File, File)>, more: set<(File, File)>)
    requires FinishedClean(g, color, back) && back <= more
    ensures FinishedClean(g, color, more)
  {
    forall p | IsClosedWalk(g - more, p) ensures IsClosedWalk(g - back, p) {
    }
  }

  /** Finishing a file whose successors are all finished keeps the finished files clean. */
  lemma FinishKeepsClean(g: set<(File, File)>, s: set<File>, f: File)
    requires IsClosed(g, s) && NoneFrom(g, s) && f !in s
    requires forall b :: (f, b) in g ==> b in s
    ensures IsClosed(g, s + {f}) && NoneFrom(g, s + {f})
  {
    forall p | IsClosedWalk(g, p) ensures p[0] !in s + {f} {
      if p[0] == f {
        var b := p[1];
        assert (f, b) in g;
        WalkStaysInside(g, s, p[1..], |p| - 2);
        assert false;
      }
    }
  }

  /** The stack from the first occurrence of `f`, closed with `f` again. */
  lemma BackEdgeCycle(g: set<(File, File)>, stack: seq<File>, start: int, f: File)
    requires IsWalk(g, stack) && Distinct(stack) && 0 <= start < |stack| && stack[start] == f
    requires (stack[|stack| - 1], f) in g
    ensures IsSimpleCycle(g, stack[start..] + [f])
  {
    var c := stack[start..] + [f];
    assert c[..|c| - 1] == stack[start..];
    assert IsWalkFromTo(g, stack[start..], f, stack[|stack| - 1]);
    JoinWalks(g, stack[start..], [stack[|stack| - 1], f], f, stack[|stack| - 1], f);
    assert [stack[|stack| - 1], f][1..] == [f];
  }

  lemma PushKeepsStack(g: set<(File, File)>, color: map<File, Color>, stack: seq<File>, f: File)
    requires StackOk(g, color, stack) && f !in color && (stack == [] || (stack[|stack| - 1], f) in g)
    ensures StackOk(g, color[f := OnStack], stack + [f])
    ensures Coloured(color[f := OnStack], Done) == Coloured(color, Done)
  {
    assert f !in Elems(stack);
    ElemsAppend(stack, f);
    if stack != [] {
      JoinWalks(g, stack, [stack[|stack| - 1], f], stack[0], stack[|stack| - 1], f);
      assert [stack[|stack| - 1], f][1..] == [f];
    }
  }

  lemma PopKeepsStack(g: set<(File, File)>, color: map<File, Color>, stack: seq<File>, f: File)
    requires StackOk(g, color, stack + [f])
    ensures StackOk(g, color[f := Done], stack)
    ensures Coloured(color[f := Done], Done) == Coloured(color, Done) + {f} && f !in Coloured(color, Done)
  {
    var s := stack + [f];
    ElemsAppend(stack, f);
    assert f in Elems(s);
    assert forall i :: 0 <= i < |stack| ==> s[i] == stack[i];
  }

  predicate IsClosing(c: seq<File>) {
    |c| >= 2
  }

  function LastEdge(c: seq<File>): (File, File)
    requires IsClosing(c)
  {
    (c[|c| - 2], c[|c| - 1])
  }

  /** The edges that close the cycles found. */
  ghost function Closings(found: set<seq<File>>): set<(File, File)> {
    set c | c in found && IsClosing(c) :: LastEdge(c)
  }

  // ----- the search -----

  /** A moment of the search. `tree` and `back` are the edges along which it entered a file and those
      along which it met one on the stack. */
  datatype Walk = Walk(color: map<File, Color>, stack: seq<File>, found: set<seq<File>>, tree: set<(File, File)>,
                       back: set<(File, File)>)

  function Successors(adj: FileGraph, file: File): seq<File> {
    if file in adj then adj[file] else []
  }

  /** The first place of `file` on the stack, or the bottom. */
  function Position(stack: seq<File>, file: File): (p: nat)
    ensures p <= |stack| && (file in stack ==> p < |stack| && stack[p] == file)
  {
    if stack == [] || stack[0] == file || file !in stack[1..] then 0 else 1 + Position(stack[1..], file)
  }

  function Closing(stack: seq<File>, file: File): seq<File> {
    stack[Position(stack, file)..] + [file]
  }

  /** The edge the search came along. */
  function Along(stack: seq<File>, file: File): set<(File, File)> {
    if stack == [] then {} else {(stack[|stack| - 1], file)}
  }

  function Enter(w: Walk, file: File): Walk {
    w.(color := w.color[file := OnStack], stack := w.stack + [file], tree := w.tree + Along(w.stack, file))
  }

  function Leave(w: Walk, file: File): Walk {
    w.(color := w.color[file := Done], stack := if w.stack == [] then [] else w.stack[..|w.stack| - 1])
  }

  function Meet(w: Walk, file: File): Walk {
    w.(found := w.found + {Closing(w.stack, file)}, back := w.back + Along(w.stack, file))
  }

  /** Every file of the graph. */
  ghost function Universe(adj: FileGraph): set<File> {
    adj.Keys + set a, b | a in adj && b in adj[a] :: b
  }

  lemma SuccessorsInUniverse(adj: FileGraph, file: File)
    ensures forall f :: f in Successors(adj, file) ==> f in Universe(adj)
  {
  }

  /** What `dfs_cycle` makes of a moment of the search. */
  ghost function Visit(adj: FileGraph, file: File, w: Walk): (r: Walk)
    requires file in Universe(adj)
    ensures w.color.Keys <= r.color.Keys
    decreases Universe(adj) - w.color.Keys, 0
  {
    if file in w.color then (if w.color[file] == OnStack then Meet(w, file) else w)
    else
      SuccessorsInUniverse(adj, file);
      assert file in Universe(adj) - w.color.Keys && file !in Universe(adj) - Enter(w, file).color.Keys;
      Leave(VisitAll(adj, Successors(adj, file), Enter(w, file)), file)
  }

  /** The files of a list in turn. */
  ghost function VisitAll(adj: FileGraph, files: seq<File>, w: Walk): (r: Walk)
    requires forall f :: f in files ==> f in Universe(adj)
    ensures w.color.Keys <= r.color.Keys
    decreases Universe(adj) - w.color.Keys, |files| + 1
  {
    if files == [] then w else VisitAll(adj, files[1..], Visit(adj, files[0], w))
  }

  class CycleFinder {
    var color: map<File, Color>
    var stack: seq<File>
    var found: set<seq<File>>
    ghost var tree: set<(File, File)>
    ghost var back: set<(File, File)>

    constructor ()
      ensures View() == Walk(map[], [], {}, {}, {})
    {
      color, stack, found, tree, back := map[], [], {}, {}, {};
    }

    ghost function View(): Walk
      reads this
    {
      Walk(color, stack, found, tree, back)
    }

    /** Visits `file` and everything below it, in ascending order. */
    method Dfs(file: File, adj: FileGraph)
      requires file in Universe(adj)
      modifies this
      ensures View() == Visit(adj, file, old(View()))
      decreases Universe(adj) - color.Keys
    {
      hide Universe;
      if file in color && color[file] == OnStack {
        found := found + {stack[Position(stack, file)..] + [file]};
        back := back + Along(stack, file);
        return;
      }
      if file in color && color[file] == Done {
        return;
      }
      tree := tree + Along(stack, file);
      color := color[file := OnStack];
      stack := stack + [file];
      var next := Successors(adj, file);
      SuccessorsInUniverse(adj, file);
      ghost var entered := View();
      var k := 0;
      assert next[0..] == next;
      while k < |next|
        invariant 0 <= k <= |next| && old(color.Keys) + {file} <= color.Keys
        invariant VisitAll(adj, next[k..], View()) == VisitAll(adj, next, entered)
      {
        assert next[k..][0] == next[k] && next[k..][1..] == next[k + 1..];
        Dfs(next[k], adj);
        k := k + 1;
      }
      stack := if stack == [] then [] else stack[..|stack| - 1];
      color := color[file := Done];
    }
  }

  // ----- what the search finds -----

  ghost predicate Sound(g: set<(File, File)>, w: Walk) {
    && StackOk(g, w.color, w.stack) && AllCycles(g, w.found) && FinishedClean(g, w.color, w.back)
    && w.back == Closings(w.found)
  }

  /** `file` continues the stack along an edge. */
  ghost predicate Continues(g: set<(File, File)>, stack: seq<File>, file: File) {
    stack == [] || (stack[|stack| - 1], file) in g
  }

  /** The search goes on from `w` to `r`. */
  ghost predicate GoesOn(w: Walk, r: Walk) {
    && r.stack == w.stack && w.found <= r.found && w.back <= r.back && w.color.Keys <= r.color.Keys
    && Coloured(w.color, Done) <= Coloured(r.color, Done)
  }

  /** `file` was visited from the top of the stack: it is finished, or the edge to it is a back edge. */
  ghost predicate Settled(r: Walk, stack: seq<File>, file: File) {
    file in Coloured(r.color, Done) || (stack != [] && (stack[|stack| - 1], file) in r.back)
  }

  lemma MeetSound(g: set<(File, File)>, w: Walk, file: File)
    requires Sound(g, w) && Continues(g, w.stack, file) && file in w.color && w.color[file] == OnStack
    ensures Sound(g, Meet(w, file)) && Settled(Meet(w, file), w.stack, file)
  {
    assert file in Elems(w.stack);
    BackEdgeCycle(g, w.stack, Position(w.stack, file), file);
    hide IsWalk, Distinct, Position;
    var c := Closing(w.stack, file);
    ClosingEdge(w.stack, file);
    assert Closings(w.found + {c}) == Closings(w.found) + {LastEdge(c)};
    FewerEdgesClean(g, w.color, w.back, Meet(w, file).back);
  }

  lemma ClosingEdge(stack: seq<File>, file: File)
    requires file in stack
    ensures IsClosing(Closing(stack, file)) && LastEdge(Closing(stack, file)) == (stack[|stack| - 1], file)
    ensures Along(stack, file) == {LastEdge(Closing(stack, file))}
  {
  }

  lemma LeaveSound(adj: FileGraph, g: set<(File, File)>, w: Walk, file: File, r: Walk)
    requires Represents(adj, g) && Sound(g, r) && r.stack == w.stack + [file]
    requires forall f :: f in Successors(adj, file) ==> Settled(r, w.stack + [file], f)
    ensures Sound(g, Leave(r, file)) && Leave(r, file).stack == w.stack
    ensures Coloured(Leave(r, file).color, Done) == Coloured(r.color, Done) + {file}
  {
    hide IsClosed, NoneFrom, IsWalk, Distinct;
    PopKeepsStack(g, r.color, w.stack, file);
    assert (w.stack + [file])[..|w.stack|] == w.stack;
    assert forall b :: (file, b) in g ==> b in Successors(adj, file);
    FinishKeepsClean(g - r.back, Coloured(r.color, Done), file);
  }

  lemma {:induction false} VisitSound(adj: FileGraph, g: set<(File, File)>, file: File, w: Walk)
    requires Represents(adj, g) && file in Universe(adj) && Sound(g, w) && Continues(g, w.stack, file)
    ensures var r := Visit(adj, file, w);
            Sound(g, r) && GoesOn(w, r) && Settled(r, w.stack, file)
    decreases Universe(adj) - w.color.Keys, 0
  {
    hide Universe, Sound, Represents;
    if file in w.color {
      if w.color[file] == OnStack {
        MeetSound(g, w, file);
      }
    } else {
      EnterSound(g, w, file);
      SuccessorsInUniverse(adj, file);
      SuccessorsContinue(adj, g, w.stack, file);
      var entered := Enter(w, file);
      assert file in Universe(adj) - w.color.Keys && file !in Universe(adj) - entered.color.Keys;
      VisitAllSound(adj, g, Successors(adj, file), entered);
      LeaveSound(adj, g, w, file, VisitAll(adj, Successors(adj, file), entered));
    }
  }

  lemma EnterSound(g: set<(File, File)>, w: Walk, file: File)
    requires Sound(g, w) && Continues(g, w.stack, file) && file !in w.color
    ensures Sound(g, Enter(w, file)) && Coloured(Enter(w, file).color, Done) == Coloured(w.color, Done)
  {
    hide IsClosed, NoneFrom;
    PushKeepsStack(g, w.color, w.stack, file);
  }

  lemma SuccessorsContinue(adj: FileGraph, g: set<(File, File)>, stack: seq<File>, file: File)
    requires Represents(adj, g)
    ensures forall f :: f in Successors(adj, file) ==> Continues(g, stack + [file], f)
  {
  }

  lemma {:induction false} VisitAllSound(adj: FileGraph, g: set<(File, File)>, files: seq<File>, w: Walk)
    requires Represents(adj, g) && Sound(g, w)
    requires forall f :: f in files ==> f in Universe(adj) && Continues(g, w.stack, f)
    ensures var r := VisitAll(adj, files, w);
            Sound(g, r) && GoesOn(w, r) && forall f :: f in files ==> Settled(r, w.stack, f)
    decreases Universe(adj) - w.color.Keys, |files| + 1
  {
    hide Universe, Sound, Represents, Coloured;
    if files != [] {
      var next := Visit(adj, files[0], w);
      assert files == [files[0]] + files[1..];
      VisitSound(adj, g, files[0], w);
      VisitAllSound(adj, g, files[1..], next);
    }
  }

  // ----- the canonical rotation -----

  /** The first position of the smallest of the first `k` files. */
  function MinPosition(c: seq<File>, k: nat): (m: nat)
    requires 0 < k <= |c|
    ensures m < k
  {
    if k == 1 then 0 else
    var m := MinPosition(c, k - 1);
    if Less(c[k - 1], c[m]) then k - 1 else m
  }

  function RotateCanonical(c: seq<File>): seq<File> {
    if c == [] then c else
    var m := MinPosition(c, |c|);
    c[m..] + c[..m]
  }

  lemma {:induction false} MinBelowFirst(c: seq<File>, k: nat)
    requires 0 < k <= |c|
    ensures var m := MinPosition(c, k); m == 0 || Less(c[m], c[0])
  {
    if k > 1 {
      MinBelowFirst(c, k - 1);
      var m := MinPosition(c, k - 1);
      if Less(c[k - 1], c[m]) && m != 0 {
        LessTransitive(c[k - 1], c[m], c[0]);
      }
    }
  }

  /** The smallest file of a closed list is not found at its repeated end. */
  lemma MinNotLast(c: seq<File>)
    requires |c| > 1 && c[0] == c[|c| - 1]
    ensures MinPosition(c, |c|) < |c| - 1
  {
    MinBelowFirst(c, |c|);
    LessIrreflexive(c[0]);
  }

  lemma RotatedEndsDiffer(c: seq<File>, m: nat)
    requires 0 < m < |c| - 1 && Distinct(c[..|c| - 1])
    ensures var r := c[m..] + c[..m]; |r| == |c| && r[0] != r[|c| - 1]
  {
    var d := c[..|c| - 1];
    assert c[m] == d[m] && c[m - 1] == d[m - 1];
  }

  /** A recorded cycle repeats its first file at the end, so rotating it to start at its smallest
      file leaves a closed walk exactly when that file was already first. */
  lemma RotationClosedIff(g: set<(File, File)>, c: seq<File>)
    requires IsSimpleCycle(g, c)
    ensures IsClosedWalk(g, RotateCanonical(c)) <==> MinPosition(c, |c|) == 0
  {
    hide MinPosition, IsWalk, Distinct;
    var m := MinPosition(c, |c|);
    if m == 0 {
      assert c[0..] + c[..0] == c;
    } else {
      MinNotLast(c);
      RotatedEndsDiffer(c, m);
    }
  }

  lemma {:induction false} MinIsSmallest(c: seq<File>, k: nat, i: nat)
    requires 0 < k <= |c| && i < k
    ensures c[i] == c[MinPosition(c, k)] || Less(c[MinPosition(c, k)], c[i])
  {
    hide Less;
    if k > 1 {
      var m := MinPosition(c, k - 1);
      LessTotal(c[k - 1], c[m]);
      if i < k - 1 {
        MinIsSmallest(c, k - 1, i);
        if Less(c[k - 1], c[m]) && Less(c[m], c[i]) {
          LessTransitive(c[k - 1], c[m], c[i]);
        }
      }
    }
  }

  /** The rotation starts with a file before which no other of them comes, and then goes around. */
  lemma RotationStartsSmallest(c: seq<File>)
    requires c != []
    ensures var r := RotateCanonical(c);
            && |r| == |c| && (exists m :: 0 <= m < |c| && r == c[m..] + c[..m])
            && forall i :: 0 <= i < |c| ==> c[i] == r[0] || ComesBefore(r[0], c[i])
  {
    var m := MinPosition(c, |c|);
    assert RotateCanonical(c) == c[m..] + c[..m];
    forall i | 0 <= i < |c| ensures c[i] == c[m] || ComesBefore(c[m], c[i]) {
      MinIsSmallest(c, |c|, i);
      LessIsFirstDifference(c[m], c[i]);
    }
  }

  /** The same list of files is reported, whichever rotation: nothing is lost or added. */
  lemma RotationKeepsFiles(c: seq<File>)
    ensures multiset(RotateCanonical(c)) == multiset(c)
  {
    if c != [] {
      var m := MinPosition(c, |c|);
      assert c == c[..m] + c[m..];
    }
  }

  /** Two files that depend on each other, entered from the larger one, are reported with the
      larger one twice in a row and the smaller one not repeated. */
  lemma RotationExample()
    ensures RotateCanonical(["b", "a", "b"]) == ["a", "b", "b"]
  {
    var c: seq<File> := ["b", "a", "b"];
    assert Less("a", "b");
    assert MinPosition(c, 1) == 0 && MinPosition(c, 2) == 1;
    assert !Less("b", "a");
    assert MinPosition(c, 3) == 1;
    assert c[1..] + c[..1] == ["a", "b", "b"];
  }

  // ----- each ring once -----

  /** A recorded cycle runs along tree edges and closes with a back edge. */
  ghost predicate IsRing(c: seq<File>, tree: set<(File, File)>, back: set<(File, File)>) {
    && IsClosing(c) && LastEdge(c) in back
    && (forall i, j :: 0 <= i < j < |c| - 1 && j == i + 1 ==> (c[i], c[j]) in tree)
  }

  ghost predicate EdgesMarked(w: Walk) {
    w.tree !! w.back && forall e :: e in w.tree || e in w.back ==> e.0 in w.color
  }

  ghost predicate StackMarked(w: Walk) {
    forall i, j :: 0 <= i < j < |w.stack| && j == i + 1 ==> (w.stack[i], w.stack[j]) in w.tree
  }

  ghost predicate RingsMarked(w: Walk) {
    && (forall c :: c in w.found ==> IsRing(c, w.tree, w.back))
    && (forall c, d :: c in w.found && d in w.found && LastEdge(c) == LastEdge(d) ==> c == d)
  }

  ghost predicate Marked(w: Walk) {
    EdgesMarked(w) && StackMarked(w) && RingsMarked(w)
  }

  /** No edge from the top of the stack to one of `files` was taken yet. */
  ghost predicate Untaken(w: Walk, files: seq<File>) {
    forall f, e :: f in files && e in Along(w.stack, f) ==> e !in w.tree && e !in w.back
  }

  /** The edges taken since lead from the top of the stack to `files`, or from files newly visited. */
  ghost predicate TakenSince(w: Walk, files: seq<File>, r: Walk) {
    forall e :: (e in r.tree || e in r.back) && e !in w.tree && e !in w.back ==>
      e.0 !in w.color || exists f :: f in files && e in Along(w.stack, f)
  }

  lemma MeetMarked(g: set<(File, File)>, w: Walk, file: File)
    requires Sound(g, w) && Marked(w) && Untaken(w, [file]) && w.stack != [] && file in w.color
    requires w.color[file] == OnStack
    ensures Marked(Meet(w, file)) && TakenSince(w, [file], Meet(w, file))
  {
    var top := w.stack[|w.stack| - 1];
    var e := (top, file);
    assert e in Along(w.stack, file) && file in [file];
    assert top in Elems(w.stack) && file in Elems(w.stack);
    var c := Closing(w.stack, file);
    ClosingEdge(w.stack, file);
    ClosingIsRing(w, file);
    hide Closing, Sound, Elems, StackMarked;
    forall d | d in w.found ensures IsRing(d, w.tree, w.back + {e}) && LastEdge(d) != e {
      assert IsRing(d, w.tree, w.back);
    }
  }

  lemma ClosingIsRing(w: Walk, file: File)
    requires StackMarked(w) && file in w.stack
    ensures var c := Closing(w.stack, file); IsRing(c, w.tree, w.back + {LastEdge(c)})
  {
    var c, p := Closing(w.stack, file), Position(w.stack, file);
    forall i, j | 0 <= i < j < |c| - 1 && j == i + 1 ensures (c[i], c[j]) in w.tree {
      assert c[i] == w.stack[p + i] && c[j] == w.stack[p + j];
    }
  }

  lemma EnterMarked(g: set<(File, File)>, w: Walk, file: File)
    requires Sound(g, w) && Marked(w) && Untaken(w, [file]) && file !in w.color
    ensures Marked(Enter(w, file)) && TakenSince(w, [file], Enter(w, file))
    ensures forall f, e :: e in Along(w.stack + [file], f) ==> e !in Enter(w, file).tree && e !in Enter(w, file).back
  {
    if w.stack != [] {
      var top := w.stack[|w.stack| - 1];
      assert top in Elems(w.stack) && top in w.color;
      assert (top, file) in Along(w.stack, file) && file in [file];
    }
  }

  lemma LeaveMarked(w: Walk, file: File, left: Walk)
    requires Marked(left) && left.stack == w.stack + [file] && file in left.color
    ensures Marked(Leave(left, file))
  {
    assert left.stack[..|w.stack|] == w.stack;
    forall i | 0 <= i < |w.stack| ensures left.stack[i] == w.stack[i] {
    }
  }

  lemma TakenInside(w: Walk, file: File, files: seq<File>, left: Walk)
    requires file !in w.color && TakenSince(w, [file], Enter(w, file)) && TakenSince(Enter(w, file), files, left)
    ensures TakenSince(w, [file], Leave(left, file))
  {
  }

  ghost predicate ListsOnce(adj: FileGraph) {
    forall a :: a in adj ==> Distinct(adj[a])
  }

  lemma {:induction false} VisitMarked(adj: FileGraph, g: set<(File, File)>, file: File, w: Walk)
    requires Represents(adj, g) && ListsOnce(adj) && file in Universe(adj) && Sound(g, w) && Continues(g, w.stack, file)
    requires Marked(w) && Untaken(w, [file])
    ensures var r := Visit(adj, file, w); Marked(r) && TakenSince(w, [file], r)
    decreases Universe(adj) - w.color.Keys, 0
  {
    hide Universe, Sound, Represents, Marked, Untaken, TakenSince;
    if file in w.color {
      if w.color[file] == OnStack {
        OnStackIsThere(g, w, file);
        MeetMarked(g, w, file);
      } else {
        NothingTaken(w, [file]);
      }
    } else {
      EnterSound(g, w, file);
      EnterMarked(g, w, file);
      SuccessorsInUniverse(adj, file);
      SuccessorsContinue(adj, g, w.stack, file);
      var next, entered := Successors(adj, file), Enter(w, file);
      EnteredUntaken(w, file, next);
      VisitAllSound(adj, g, next, entered);
      assert file in Universe(adj) - w.color.Keys && file !in Universe(adj) - entered.color.Keys;
      VisitAllMarked(adj, g, next, entered);
      var left := VisitAll(adj, next, entered);
      LeaveMarked(w, file, left);
      TakenInside(w, file, next, left);
    }
  }

  lemma OnStackIsThere(g: set<(File, File)>, w: Walk, file: File)
    requires Sound(g, w) && file in w.color && w.color[file] == OnStack
    ensures w.stack != []
  {
    assert file in Elems(w.stack);
  }

  lemma NothingTaken(w: Walk, files: seq<File>)
    ensures TakenSince(w, files, w)
  {
  }

  lemma EnteredUntaken(w: Walk, file: File, files: seq<File>)
    requires forall f, e :: e in Along(w.stack + [file], f) ==> e !in Enter(w, file).tree && e !in Enter(w, file).back
    ensures Untaken(Enter(w, file), files)
  {
  }

  lemma RestUntaken(g: set<(File, File)>, w: Walk, files: seq<File>, next: Walk)
    requires Sound(g, w) && files != [] && Distinct(files) && Untaken(w, files) && TakenSince(w, [files[0]], next)
    requires next.stack == w.stack
    ensures Untaken(next, files[1..])
  {
    forall f, e | f in files[1..] && e in Along(next.stack, f) ensures e !in next.tree && e !in next.back {
      assert f in files && f != files[0];
      assert e.0 in Elems(w.stack);
    }
  }

  lemma TakenOn(w: Walk, files: seq<File>, next: Walk, r: Walk)
    requires files != [] && TakenSince(w, [files[0]], next) && TakenSince(next, files[1..], r)
    requires next.stack == w.stack && w.color.Keys <= next.color.Keys
    ensures TakenSince(w, files, r)
  {
    forall e | (e in r.tree || e in r.back) && e !in w.tree && e !in w.back && e.0 in w.color
      ensures exists f :: f in files && e in Along(w.stack, f)
    {
      if e in next.tree || e in next.back {
        assert files[0] in files && e in Along(w.stack, files[0]);
      } else {
        var f :| f in files[1..] && e in Along(next.stack, f);
        assert f in files;
      }
    }
  }

  lemma {:induction false} VisitAllMarked(adj: FileGraph, g: set<(File, File)>, files: seq<File>, w: Walk)
    requires Represents(adj, g) && ListsOnce(adj) && Sound(g, w) && Distinct(files)
    requires forall f :: f in files ==> f in Universe(adj) && Continues(g, w.stack, f)
    requires Marked(w) && Untaken(w, files)
    ensures var r := VisitAll(adj, files, w); Marked(r) && TakenSince(w, files, r)
    decreases Universe(adj) - w.color.Keys, |files| + 1
  {
    if files == [] {
      NothingTaken(w, files);
    } else {
      assert files == [files[0]] + files[1..];
      assert Untaken(w, [files[0]]);
      hide Universe, Sound, Represents, Marked, Untaken, TakenSince, Coloured;
      var next := Visit(adj, files[0], w);
      VisitSound(adj, g, files[0], w);
      VisitMarked(adj, g, files[0], w);
      RestUntaken(g, w, files, next);
      VisitAllMarked(adj, g, files[1..], next);
      TakenOn(w, files, next, VisitAll(adj, files[1..], next));
    }
  }

  /** The same ring entered at another file. */
  ghost predicate IsRotation(c: seq<File>, d: seq<File>) {
    && IsClosing(c) && |d| == |c|
    && exists k: nat :: k < |c| - 1 && d == Turned(c, k)
  }

  /** A closed list entered at its `k`-th file. */
  function Turned(c: seq<File>, k: nat): seq<File>
    requires k < |c| - 1
  {
    c[k..|c| - 1] + c[..k] + [c[k]]
  }

  /** No two recorded cycles are the same ring: a ring contains one back edge, and each back edge is met once. */
  lemma RingsDiffer(w: Walk, c: seq<File>, d: seq<File>)
    requires Marked(w) && c in w.found && d in w.found && IsRotation(c, d) && c[0] == c[|c| - 1]
    ensures c == d
  {
    var k: nat :| k < |c| - 1 && d == Turned(c, k);
    if k > 0 {
      TurnedLast(c, k);
      assert false;
    }
    assert d == c[..|c| - 1] + [c[0]];
  }

  lemma TurnedLast(c: seq<File>, k: nat)
    requires 0 < k < |c| - 1
    ensures LastEdge(Turned(c, k)) == (c[k - 1], c[k])
  {
  }

  // ----- the report -----

  lemma ClosedWalkStarts(adj: FileGraph, g: set<(File, File)>, h: set<(File, File)>, p: seq<File>)
    requires Represents(adj, g) && h <= g && IsClosedWalk(h, p)
    ensures p[0] in adj
  {
    var a, b := p[0], p[1];
    assert (a, b) in h;
  }

  /** Every file that starts an edge is finished, so what is left of the graph has no cycle. */
  lemma AllFinishedIsAcyclic(adj: FileGraph, g: set<(File, File)>, h: set<(File, File)>, s: set<File>)
    requires Represents(adj, g) && h <= g && adj.Keys <= s && NoneFrom(h, s)
    ensures !Cyclic(h)
  {
    if p :| IsClosedWalk(h, p) {
      ClosedWalkStarts(adj, g, h, p);
      assert false;
    }
  }

  /** Lists of files are ordered file by file. */
  predicate ListLess(a: seq<File>, b: seq<File>) {
    b != [] && (a == [] || Less(a[0], b[0]) || (a[0] == b[0] && ListLess(a[1..], b[1..])))
  }

  /** The first list comes before the second: it is a proper prefix, or its file comes before the other's at
      the first place where they differ. */
  ghost predicate ListBefore(a: seq<File>, b: seq<File>) {
    a < b || exists k :: 0 <= k < |a| && k < |b| && a[..k] == b[..k] && ComesBefore(a[k], b[k])
  }

  lemma {:induction false} ListLessIsFirstDifference(a: seq<File>, b: seq<File>)
    requires ListLess(a, b)
    ensures ListBefore(a, b)
  {
    hide Less;
    if a != [] {
      LessIsFirstDifference(a[0], b[0]);
      hide ComesBefore;
      if Less(a[0], b[0]) {
        assert a[..0] == b[..0];
      } else {
        ListLessIsFirstDifference(a[1..], b[1..]);
        assert a == [a[0]] + a[1..] && b == [b[0]] + b[1..];
        if k :| 0 <= k < |a[1..]| && k < |b[1..]| && a[1..][..k] == b[1..][..k] && ComesBefore(a[1..][k], b[1..][k]) {
          assert a[..k + 1] == [a[0]] + a[1..][..k] && b[..k + 1] == [b[0]] + b[1..][..k];
          assert ComesBefore(a[k + 1], b[k + 1]);
        }
      }
    }
  }

  lemma {:induction false} ListLessTransitive(a: seq<File>, b: seq<File>, c: seq<File>)
    requires ListLess(a, b) && ListLess(b, c)
    ensures ListLess(a, c)
  {
    hide Less;
    if a != [] {
      if a[0] == b[0] == c[0] {
        LessIrreflexive(a[0]);
        ListLessTransitive(a[1..], b[1..], c[1..]);
      } else if a[0] != b[0] && b[0] != c[0] {
        LessTransitive(a[0], b[0], c[0]);
      }
    }
  }

  lemma {:induction false} ListLessTotal(a: seq<File>, b: seq<File>)
    ensures !ListLess(a, a) && (ListLess(a, b) || ListLess(b, a) || a == b)
    decreases |a| + |b|
  {
    hide Less;
    if a != [] {
      LessIrreflexive(a[0]);
      ListLessTotal(a[1..], []);
      if b != [] {
        LessTotal(a[0], b[0]);
        ListLessTotal(a[1..], b[1..]);
        assert a == [a[0]] + a[1..] && b == [b[0]] + b[1..];
      }
    }
  }

  lemma ListsAreOrdered()
    ensures IsStrictOrder(ListLess)
  {
    forall a, b, c | ListLess(a, b) && ListLess(b, c) ensures ListLess(a, c) {
      ListLessTransitive(a, b, c);
    }
    forall a, b ensures !ListLess(a, a) && (ListLess(a, b) || ListLess(b, a) || a == b) {
      ListLessTotal(a, b);
    }
  }

  /** The recorded cycles in ascending order, each in canonical rotation. */
  method Report(found: set<seq<File>>) returns (cycles: seq<seq<File>>, ghost recorded: seq<seq<File>>)
    ensures Elems(recorded) == found && Increasing(ListLess, recorded) && |cycles| == |recorded|
    ensures forall i :: 0 <= i < |cycles| ==> cycles[i] == RotateCanonical(recorded[i])
  {
    var sorted := Ascending(found);
    recorded := sorted;
    cycles := seq(|sorted|, i requires 0 <= i < |sorted| => RotateCanonical(sorted[i]));
  }

  method Ascending(found: set<seq<File>>) returns (sorted: seq<seq<File>>)
    ensures Elems(sorted) == found && Increasing(ListLess, sorted)
  {
    ListsAreOrdered();
    hide IsStrictOrder, ListLess, Insert;
    sorted := [];
    var rest := found;
    while rest != {}
      invariant rest <= found && Elems(sorted) == found - rest && Increasing(ListLess, sorted)
      decreases rest
    {
      var c := Pick(rest);
      InsertSorts(ListLess, c, sorted);
      ghost var before := Elems(sorted);
      sorted := Insert(ListLess, c, sorted);
      assert Elems(sorted) == before + {c};
      rest := rest - {c};
    }
  }

  ghost function Unvisited(): Walk {
    Walk(map[], [], {}, {}, {})
  }

  /** What the search over all files, in ascending order, records. */
  ghost function Recorded(adj: FileGraph, keys: seq<File>): set<seq<File>>
    requires forall a :: a in keys ==> a in adj
  {
    VisitAll(adj, keys, Unvisited()).found
  }

  lemma NothingVisited(g: set<(File, File)>, files: seq<File>)
    ensures Sound(g, Unvisited()) && Marked(Unvisited()) && Untaken(Unvisited(), files)
    ensures forall f :: f in files ==> Continues(g, Unvisited().stack, f)
  {
  }

  lemma OrderedListsOnce(adj: FileGraph, keys: seq<File>)
    requires IsOrdered(adj, keys)
    ensures ListsOnce(adj) && Distinct(keys)
  {
    PathsAreOrdered();
    hide IsStrictOrder, Less, Increasing;
    IncreasingIsDistinct(Less, keys);
    forall a | a in adj ensures Distinct(adj[a]) {
      IncreasingIsDistinct(Less, adj[a]);
    }
  }

  /** What is recorded are simple cycles, none exactly when there is none, and each ring once; every cycle
      of the graph contains the closing edge of a recorded one. */
  lemma RecordedAreRings(adj: FileGraph, keys: seq<File>, g: set<(File, File)>)
    requires Represents(adj, g) && IsOrdered(adj, keys)
    ensures var found := Recorded(adj, keys);
            && (forall c :: c in found ==> IsSimpleCycle(g, c)) && (found == {} <==> !Cyclic(g))
            && (forall c, d :: c in found && d in found && IsRotation(c, d) ==> c == d)
            && !Cyclic(g - Closings(found))
  {
    OrderedListsOnce(adj, keys);
    NothingVisited(g, keys);
    var w := VisitAll(adj, keys, Unvisited());
    VisitAllSound(adj, g, keys, Unvisited());
    VisitAllMarked(adj, g, keys, Unvisited());
    hide VisitAll, Marked, StackOk, IsRotation;
    AllFinishedIsAcyclic(adj, g, g - w.back, Coloured(w.color, Done));
    if w.found == {} {
      assert g - {} == g;
    } else {
      var c :| c in w.found;
      assert IsClosedWalk(g, c);
    }
    forall c, d | c in w.found && d in w.found && IsRotation(c, d) ensures c == d {
      RingsDiffer(w, c, d);
    }
  }

  /** The cycles of the file dependency graph: none exactly when it is acyclic, each one the rotation of a
      recorded simple cycle, no ring recorded twice, and every cycle through the closing edge of a recorded
      one. What is recorded is what the search in ascending order finds, whatever way the ordered graph is
      written down. */
  method FindCycles(nodes: seq<Node>, edges: seq<Edge>)
    returns (cycles: seq<seq<File>>, ghost recorded: seq<seq<File>>)
    ensures cycles == [] <==> !Cyclic(Dependencies(nodes, edges))
    ensures |cycles| == |recorded| && Increasing(ListLess, recorded)
    ensures forall i :: 0 <= i < |cycles| ==> IsSimpleCycle(Dependencies(nodes, edges), recorded[i])
                                              && cycles[i] == RotateCanonical(recorded[i])
    ensures forall i, j :: 0 <= i < j < |recorded| ==> !IsRotation(recorded[i], recorded[j])
    ensures !Cyclic(Dependencies(nodes, edges) - Closings(Elems(recorded)))
    ensures forall adj, keys :: Represents(adj, Dependencies(nodes, edges)) && IsOrdered(adj, keys) ==>
              Elems(recorded) == Recorded(adj, keys)
  {
    ghost var g := Dependencies(nodes, edges);
    var adj, keys := BuildFileGraph(nodes, edges);
    hide *;
    KeysInGraph(adj, keys);
    var found := Search(adj, keys);
    RecordedAreRings(adj, keys, g);
    cycles, recorded := Report(found);
    ElemsNone(recorded);
    EachRingOnce(g, recorded);
    SameRecorded(adj, keys, g);
  }

  lemma KeysInGraph(adj: FileGraph, keys: seq<File>)
    requires IsOrdered(adj, keys)
    ensures forall a :: a in keys ==> a in adj
  {
  }

  /** The search from every file in turn. */
  method Search(adj: FileGraph, keys: seq<File>) returns (found: set<seq<File>>)
    requires forall a :: a in keys ==> a in adj
    ensures found == Recorded(adj, keys)
  {
    var finder := new CycleFinder();
    var k := 0;
    assert keys[0..] == keys;
    while k < |keys|
      invariant 0 <= k <= |keys| && fresh(finder)
      invariant VisitAll(adj, keys[k..], finder.View()) == VisitAll(adj, keys, Unvisited())
    {
      hide Visit;
      assert keys[k..][0] == keys[k] && keys[k..][1..] == keys[k + 1..];
      finder.Dfs(keys[k], adj);
      k := k + 1;
    }
    found := finder.found;
  }

  lemma EachRingOnce(g: set<(File, File)>, recorded: seq<seq<File>>)
    requires Increasing(ListLess, recorded)
    requires forall c :: c in Elems(recorded) ==> IsSimpleCycle(g, c)
    requires forall c, d :: c in Elems(recorded) && d in Elems(recorded) && IsRotation(c, d) ==> c == d
    ensures forall i :: 0 <= i < |recorded| ==> IsSimpleCycle(g, recorded[i])
    ensures forall i, j :: 0 <= i < j < |recorded| ==> !IsRotation(recorded[i], recorded[j])
  {
    hide IsRotation, IsSimpleCycle, ListLess;
    AscendingDiffers(recorded);
    assert forall i :: 0 <= i < |recorded| ==> recorded[i] in Elems(recorded);
  }

  lemma SameRecorded(adj: FileGraph, keys: seq<File>, g: set<(File, File)>)
    requires Represents(adj, g) && IsOrdered(adj, keys)
    ensures forall adj', keys' :: Represents(adj', g) && IsOrdered(adj', keys') ==>
              Recorded(adj', keys') == Recorded(adj, keys)
  {
    forall adj', keys' | Represents(adj', g) && IsOrdered(adj', keys')
      ensures Recorded(adj', keys') == Recorded(adj, keys)
    {
      OrderedIsUnique(adj, keys, adj', keys', g);
    }
  }

  lemma AscendingDiffers(recorded: seq<seq<File>>)
    requires Increasing(ListLess, recorded)
    ensures forall i, j :: 0 <= i < j < |recorded| ==> recorded[i] != recorded[j]
  {
    ListsAreOrdered();
    IncreasingIsDistinct(ListLess, recorded);
  }

  // ----- a report that is not a cycle -----

  const EXAMPLE_NODES := [Node(0, "0"), Node(1, "b"), Node(2, "a")]
  const EXAMPLE_EDGES := [Edge(0, 1), Edge(1, 2), Edge(2, 1)]
  const EXAMPLE_GRAPH: FileGraph := map["0" := ["b"], "a" := ["b"], "b" := ["a"]]
  const EXAMPLE_KEYS := ["0", "a", "b"]

  /** "0" depends on "b", and "b" and "a" on each other. */
  lemma ExampleDependencies()
    ensures Dependencies(EXAMPLE_NODES, EXAMPLE_EDGES) == {("0", "b"), ("b", "a"), ("a", "b")}
  {
    ExampleFiles();
    var f := FileOf(EXAMPLE_NODES);
    forall a, b
      ensures Depends(EXAMPLE_NODES, EXAMPLE_EDGES, a, b) <==> (a, b) in {("0", "b"), ("b", "a"), ("a", "b")}
    {
      assert EXAMPLE_EDGES[0] in EXAMPLE_EDGES && EXAMPLE_EDGES[1] in EXAMPLE_EDGES
        && EXAMPLE_EDGES[2] in EXAMPLE_EDGES;
      assert Joins(f, EXAMPLE_EDGES[0], "0", "b") && Joins(f, EXAMPLE_EDGES[1], "b", "a")
        && Joins(f, EXAMPLE_EDGES[2], "a", "b");
    }
    hide Depends, FileOf;
    forall e ensures e in Dependencies(EXAMPLE_NODES, EXAMPLE_EDGES) <==> e in {("0", "b"), ("b", "a"), ("a", "b")} {
      DependsIsEdge(EXAMPLE_NODES, EXAMPLE_EDGES, e.0, e.1);
    }
  }

  lemma ExampleFiles()
    ensures FileOf(EXAMPLE_NODES) == map[0 := "0", 1 := "b", 2 := "a"]
  {
    assert EXAMPLE_NODES[..2] == [Node(0, "0"), Node(1, "b")];
    assert EXAMPLE_NODES[..2][..1] == [Node(0, "0")];
    assert [Node(0, "0")][..0] == [];
  }

  lemma ExampleRepresented()
    ensures Represents(EXAMPLE_GRAPH, {("0", "b"), ("b", "a"), ("a", "b")})
  {
  }

  lemma ExampleOrdered()
    ensures IsOrdered(EXAMPLE_GRAPH, EXAMPLE_KEYS)
  {
    assert Less("0", "a") && Less("a", "b") && Less("0", "b");
  }

  /** The search at its deepest, one file short of that, and at the first. */
  function Deepest(): Walk {
    Walk(map["0" := OnStack, "b" := OnStack, "a" := OnStack], ["0", "b", "a"], {}, {("0", "b"), ("b", "a")}, {})
  }

  function Deeper(): Walk {
    Walk(map["0" := OnStack, "b" := OnStack], ["0", "b"], {}, {("0", "b")}, {})
  }

  function Deep(): Walk {
    Walk(map["0" := OnStack], ["0"], {}, {}, {})
  }

  /** What is known on the way back. */
  function Back(color: map<File, Color>, stack: seq<File>): Walk {
    Walk(color, stack, {["b", "a", "b"]}, {("0", "b"), ("b", "a")}, {("a", "b")})
  }

  lemma MeetsAgain()
    ensures "b" in Universe(EXAMPLE_GRAPH)
    ensures VisitAll(EXAMPLE_GRAPH, ["b"], Deepest()) == Back(Deepest().color, ["0", "b", "a"])
  {
    assert "b" in Universe(EXAMPLE_GRAPH);
    OneSuccessor(EXAMPLE_GRAPH, "b", Deepest());
    var stack := Deepest().stack;
    assert stack[0] == "0" && stack[1..] == ["b", "a"];
    assert Position(["b", "a"], "b") == 0;
    assert Position(stack, "b") == 1;
    assert Closing(stack, "b") == ["b", "a", "b"];
    hide VisitAll;
  }

  lemma VisitOpens(adj: FileGraph, file: File, w: Walk)
    requires file in Universe(adj) && file !in w.color
    ensures (forall f :: f in Successors(adj, file) ==> f in Universe(adj))
    ensures Visit(adj, file, w) == Leave(VisitAll(adj, Successors(adj, file), Enter(w, file)), file)
  {
    SuccessorsInUniverse(adj, file);
    hide VisitAll, Universe;
  }

  lemma Turns()
    ensures Enter(Deeper(), "a") == Deepest() && Enter(Deep(), "b") == Deeper() && Enter(Unvisited(), "0") == Deep()
    ensures Leave(Back(Deepest().color, ["0", "b", "a"]), "a")
            == Back(map["0" := OnStack, "b" := OnStack, "a" := Done], ["0", "b"])
  {
  }

  lemma TurnsBack()
    ensures Leave(Back(map["0" := OnStack, "b" := OnStack, "a" := Done], ["0", "b"]), "b")
         == Back(map["0" := OnStack, "b" := Done, "a" := Done], ["0"])
    ensures Leave(Back(map["0" := OnStack, "b" := Done, "a" := Done], ["0"]), "0")
            == Back(map["0" := Done, "b" := Done, "a" := Done], [])
  {
  }

  lemma BackFromA()
    ensures "a" in Universe(EXAMPLE_GRAPH)
    ensures VisitAll(EXAMPLE_GRAPH, ["a"], Deeper())
            == Back(map["0" := OnStack, "b" := OnStack, "a" := Done], ["0", "b"])
  {
    assert "a" in Universe(EXAMPLE_GRAPH) && Successors(EXAMPLE_GRAPH, "a") == ["b"];
    hide VisitAll, Universe, Visit, Leave, Enter, Back;
    OneSuccessor(EXAMPLE_GRAPH, "a", Deeper());
    VisitOpens(EXAMPLE_GRAPH, "a", Deeper());
    MeetsAgain();
    Turns();
  }

  lemma BackFromB()
    ensures "b" in Universe(EXAMPLE_GRAPH)
    ensures VisitAll(EXAMPLE_GRAPH, ["b"], Deep()) == Back(map["0" := OnStack, "b" := Done, "a" := Done], ["0"])
  {
    assert Successors(EXAMPLE_GRAPH, "b") == ["a"];
    hide VisitAll, Universe, Visit, Leave, Enter, Back;
    MeetsAgain();
    OneSuccessor(EXAMPLE_GRAPH, "b", Deep());
    VisitOpens(EXAMPLE_GRAPH, "b", Deep());
    BackFromA();
    Turns();
    TurnsBack();
  }

  lemma BackFromAll()
    ensures "0" in Universe(EXAMPLE_GRAPH)
    ensures Visit(EXAMPLE_GRAPH, "0", Unvisited()) == Back(map["0" := Done, "b" := Done, "a" := Done], [])
  {
    assert "0" in Universe(EXAMPLE_GRAPH) && Successors(EXAMPLE_GRAPH, "0") == ["b"];
    hide VisitAll, Universe, Visit, Leave, Enter, Back;
    VisitOpens(EXAMPLE_GRAPH, "0", Unvisited());
    BackFromB();
    Turns();
    TurnsBack();
  }

  lemma {:induction false} AllDone(adj: FileGraph, files: seq<File>, w: Walk)
    requires forall f :: f in files ==> f in Universe(adj) && f in w.color && w.color[f] == Done
    ensures VisitAll(adj, files, w) == w
  {
    hide Universe;
    if files != [] {
      AllDone(adj, files[1..], w);
    }
  }

  /** A search that has seen everything after its first file records what it found there. */
  lemma RecordedFirst(adj: FileGraph, file: File, rest: seq<File>, w: Walk)
    requires file in adj && (forall f :: f in rest ==> f in adj) && file in Universe(adj)
    requires Visit(adj, file, Unvisited()) == w
    requires forall f :: f in rest ==> f in w.color && w.color[f] == Done
    ensures Recorded(adj, [file] + rest) == w.found
  {
    hide Visit;
    assert ([file] + rest)[1..] == rest;
    AllDone(adj, rest, w);
  }

  lemma KeysHaveLists()
    ensures "0" in EXAMPLE_GRAPH && "a" in EXAMPLE_GRAPH && "b" in EXAMPLE_GRAPH && EXAMPLE_KEYS == ["0"] + ["a", "b"]
  {
  }

  lemma EndOfSearch()
    ensures var w := Back(map["0" := Done, "b" := Done, "a" := Done], []);
            && w.found == {["b", "a", "b"]} && forall f :: f in ["a", "b"] ==> f in w.color && w.color[f] == Done
  {
  }

  /** The search enters "b" before "a", because "0" comes first, and records the ring from there. */
  lemma ExampleRecorded()
    ensures (forall a :: a in EXAMPLE_KEYS ==> a in EXAMPLE_GRAPH)
    ensures Recorded(EXAMPLE_GRAPH, EXAMPLE_KEYS) == {["b", "a", "b"]}
  {
    hide Visit, VisitAll, Universe, Back, Recorded;
    KeysHaveLists();
    EndOfSearch();
    BackFromAll();
    RecordedFirst(EXAMPLE_GRAPH, "0", ["a", "b"], Back(map["0" := Done, "b" := Done, "a" := Done], []));
  }

  lemma OneSuccessor(adj: FileGraph, file: File, w: Walk)
    requires file in Universe(adj)
    ensures VisitAll(adj, [file], w) == Visit(adj, file, w)
  {
    hide Visit;
    assert [file][1..] == [];
  }

  /** On these three files the report is one list, and the list is no closed walk. */
  method ReportExample() returns (cycles: seq<seq<File>>)
    ensures cycles == [["a", "b", "b"]] && !IsClosedWalk(Dependencies(EXAMPLE_NODES, EXAMPLE_EDGES), cycles[0])
  {
    ghost var recorded;
    cycles, recorded := FindCycles(EXAMPLE_NODES, EXAMPLE_EDGES);
    ExampleDependencies();
    ExampleRepresented();
    ExampleOrdered();
    ExampleRecorded();
    RotationExample();
    assert Elems(recorded) == {["b", "a", "b"]};
    OneElement(recorded, ["b", "a", "b"]);
  }

  lemma OneElement(s: seq<seq<File>>, x: seq<File>)
    requires Elems(s) == {x} && Increasing(ListLess, s)
    ensures s == [x]
  {
    ListsAreOrdered();
    hide IsStrictOrder, ListLess;
    forall y ensures y in s <==> y in [x] {
      assert y in s <==> y in Elems(s);
    }
    IncreasingIsUnique(ListLess, s, [x]);
  }
}
