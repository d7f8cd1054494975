/** The targeted update of the symbol graph: purge what the changed files touch, insert their new
    symbols, resolve again the files that may be affected. */
module Reindex {
  import opened Graph
  import opened Wrappers

  datatype Symbol = Symbol(name: string, kind: string, line: int, signature: string)

  datatype Row = Row(path: string, symbol: Symbol)

  type Nodes = map<int, Row>

  /** The unique key of a stored edge; its other columns are the value it maps to. */
  datatype Edge = Edge(source: int, target: int, kind: string)

  type Edges = map<Edge, string>

  datatype Moniker = Moniker(path: string, name: string)

  /** An edge the resolver found: from a symbol of the parsed file to a moniker of the project. */
  datatype Link = Link(from: string, to: Moniker, kind: string, detail: string)

  datatype Reference = Reference(from: string, name: string, kind: string)

  datatype Parsed = Parsed(symbols: seq<Symbol>, references: seq<Reference>)

  datatype Resolution = Resolution(links: seq<Link>, unresolved: set<string>)

  /** What a file's references mean against a node table. */
  type Resolver = (string, Parsed, Nodes) -> Resolution

  /** Every stored edge joins two stored nodes. */
  ghost predicate Joined(nodes: Nodes, edges: Edges) {
    forall e :: e in edges ==> e.source in nodes && e.target in nodes
  }

  predicate Touches(nodes: Nodes, e: Edge, path: string) {
    || (e.source in nodes && nodes[e.source].path == path)
    || (e.target in nodes && nodes[e.target].path == path)
  }

  predicate SameKey(row: Row, path: string, s: Symbol) {
    row.path == path && row.symbol.name == s.name && row.symbol.kind == s.kind
  }

  predicate MatchesAt(nodes: Nodes, id: int, path: string, s: Symbol) {
    && id in nodes && SameKey(nodes[id], path, s)
    && (nodes[id].symbol.signature == s.signature || nodes[id].symbol.line == s.line)
  }

  predicate SignedAt(nodes: Nodes, id: int, path: string, s: Symbol) {
    id in nodes && SameKey(nodes[id], path, s) && nodes[id].symbol.signature == s.signature
  }

  /** The part of a qualified symbol after its last "::". */
  function ShortName(name: string): string {
    ShortFrom(name, |name|)
  }

  function ShortFrom(name: string, end: nat): string
    requires end <= |name|
  {
    if end < 2 then name
    else if name[end - 2..end] == "::" then name[end..]
    else ShortFrom(name, end - 1)
  }

  /** A double colon ends at `k`. */
  predicate EndsColons(name: string, k: nat) {
    2 <= k <= |name| && name[k - 2..k] == "::"
  }

  /** `short` is what follows the last double colon of `name`, or all of it if there is none. */
  ghost predicate IsShortName(short: string, name: string) {
    exists k: nat :: IsShortFrom(short, name, k)
  }

  ghost predicate IsShortFrom(short: string, name: string, k: nat) {
    && k <= |name| && short == name[k..] && (k == 0 || EndsColons(name, k))
    && forall j: nat :: EndsColons(name, j) ==> j <= k
  }

  lemma ShortNameIsLast(short: string, name: string)
    ensures IsShortName(short, name) <==> short == ShortName(name)
  {
    var k := ShortFromIsLast(name, |name|);
    if j: nat :| IsShortFrom(short, name, j) {
      assert j == k;
    }
  }

  lemma {:induction false} ShortFromIsLast(name: string, end: nat) returns (k: nat)
    requires end <= |name| && forall j: nat :: EndsColons(name, j) ==> j <= end
    ensures IsShortFrom(ShortFrom(name, end), name, k)
  {
    if end < 2 {
      k := 0;
      assert name[0..] == name;
    } else if name[end - 2..end] == "::" {
      k := end;
      assert EndsColons(name, end);
    } else {
      k := ShortFromIsLast(name, end - 1);
    }
  }

  // ----- the moniker index -----

  /** Each moniker of the table is found, at one of the nodes that carry it. */
  ghost predicate IsIndex(nodes: Nodes, index: map<Moniker, int>) {
    && (forall m :: m in index ==>
          index[m] in nodes && nodes[index[m]].path == m.path && nodes[index[m]].symbol.name == m.name)
    && (forall id :: id in nodes ==> Moniker(nodes[id].path, nodes[id].symbol.name) in index)
  }

  method BuildIndex(nodes: Nodes) returns (index: map<Moniker, int>)
    ensures IsIndex(nodes, index)
  {
    index := map[];
    var todo := nodes.Keys;
    while todo != {}
      invariant todo <= nodes.Keys
      invariant forall m :: m in index ==>
        index[m] in nodes && nodes[index[m]].path == m.path && nodes[index[m]].symbol.name == m.name
      invariant forall id :: id in nodes && id !in todo ==> Moniker(nodes[id].path, nodes[id].symbol.name) in index
      decreases todo
    {
      var id := Pick(todo);
      index := index[Moniker(nodes[id].path, nodes[id].symbol.name) := id];
      todo := todo - {id};
    }
  }

  // ----- stored edges of resolved links -----

  predicate IsStored(index: map<Moniker, int>, path: string, l: Link) {
    Moniker(path, l.from) in index && l.to in index
  }

  function EdgeOf(index: map<Moniker, int>, path: string, l: Link): Edge
    requires IsStored(index, path, l)
  {
    Edge(index[Moniker(path, l.from)], index[l.to], l.kind)
  }

  /** The edges that the links of one file become; of equal keys the last wins. */
  function Resolved(index: map<Moniker, int>, path: string, links: seq<Link>): Edges {
    if links == [] then map[] else
    var rest := Resolved(index, path, links[..|links| - 1]);
    var l := links[|links| - 1];
    if IsStored(index, path, l) then rest[EdgeOf(index, path, l) := l.detail] else rest
  }

  /** They leave nodes of the file and end at stored nodes. */
  lemma {:induction false} ResolvedJoins(nodes: Nodes, index: map<Moniker, int>, path: string, links: seq<Link>)
    requires IsIndex(nodes, index)
    ensures var r := Resolved(index, path, links);
            Joined(nodes, r) && forall e :: e in r ==> nodes[e.source].path == path
  {
    if links != [] {
      ResolvedJoins(nodes, index, path, links[..|links| - 1]);
    }
  }

  /** Link `i` is stored as edge `e`: the nodes of both its ends are known, and `e` joins them. */
  ghost predicate IsLinkAt(index: map<Moniker, int>, path: string, links: seq<Link>, i: nat, e: Edge) {
    && i < |links| && Moniker(path, links[i].from) in index && links[i].to in index
    && e == Edge(index[Moniker(path, links[i].from)], index[links[i].to], links[i].kind)
  }

  /** An edge is stored exactly when a link stands for it, with what the last such link says. */
  lemma {:induction false} ResolvedHolds(index: map<Moniker, int>, path: string, links: seq<Link>, e: Edge)
    ensures e in Resolved(index, path, links) <==> exists i: nat :: IsLinkAt(index, path, links, i, e)
    ensures e in Resolved(index, path, links) ==>
              exists i: nat :: IsLinkAt(index, path, links, i, e) && Resolved(index, path, links)[e] == links[i].detail
                               && forall j: nat :: IsLinkAt(index, path, links, j, e) ==> j <= i
  {
    if links != [] {
      var n := |links| - 1;
      var rest := links[..n];
      ResolvedHolds(index, path, rest, e);
      forall i: nat ensures IsLinkAt(index, path, rest, i, e) <==> i < n && IsLinkAt(index, path, links, i, e) {
      }
      if IsLinkAt(index, path, links, n, e) {
        assert forall j: nat :: IsLinkAt(index, path, links, j, e) ==> j <= n;
      } else if e in Resolved(index, path, rest) {
        var i: nat :| IsLinkAt(index, path, rest, i, e) && Resolved(index, path, rest)[e] == rest[i].detail
                      && forall j: nat :: IsLinkAt(index, path, rest, j, e) ==> j <= i;
        assert IsLinkAt(index, path, links, i, e) && links[i] == rest[i];
      }
    }
  }

  // ----- what the insertion of symbols keeps -----

  /** Rows keep their key; only rows of `paths` are new or changed. */
  ghost predicate KeepsRows(before: Nodes, after: Nodes, paths: set<string>) {
    && (forall id :: id in before ==> id in after && SameKey(after[id], before[id].path, before[id].symbol))
    && (forall id :: id in before && before[id].path !in paths ==> after[id] == before[id])
    && (forall id :: id in after && id !in before ==> after[id].path in paths)
  }

  /** Only rows of `path` are new or changed, and those are as one of the symbols. */
  ghost predicate Writes(before: Nodes, after: Nodes, path: string, symbols: seq<Symbol>) {
    forall id :: id in after ==> (id in before && after[id] == before[id]) || HasSymbol(after[id], path, symbols)
  }

  ghost predicate HasSymbol(row: Row, path: string, symbols: seq<Symbol>) {
    row.path == path && row.symbol in symbols
  }

  predicate RowAt(nodes: Nodes, ids: set<int>, id: int, path: string, s: Symbol) {
    id in ids && id in nodes && SameKey(nodes[id], path, s)
  }

  ghost predicate HasRow(nodes: Nodes, ids: set<int>, path: string, s: Symbol) {
    exists id :: RowAt(nodes, ids, id, path, s)
  }

  /** `ids` are rows of `path`, each as one of the symbols, and each symbol has one of its key. */
  ghost predicate Covers(nodes: Nodes, ids: set<int>, path: string, symbols: seq<Symbol>) {
    && (forall id :: id in ids ==> id in nodes && HasSymbol(nodes[id], path, symbols))
    && (forall k :: 0 <= k < |symbols| ==> HasRow(nodes, ids, path, symbols[k]))
  }

  lemma KeepsTrans(a: Nodes, b: Nodes, c: Nodes, paths: set<string>)
    requires KeepsRows(a, b, paths) && KeepsRows(b, c, paths)
    ensures KeepsRows(a, c, paths)
  {
  }

  lemma RowStays(before: Nodes, after: Nodes, paths: set<string>, ids: set<int>, more: set<int>, path: string,
                 s: Symbol)
    requires KeepsRows(before, after, paths) && ids <= more && HasRow(before, ids, path, s)
    ensures HasRow(after, more, path, s)
  {
    var id :| RowAt(before, ids, id, path, s);
    assert RowAt(after, more, id, path, s);
  }

  /** Writing the symbols of a file keeps what is known of the rows of any file. */
  lemma CoversStays(before: Nodes, after: Nodes, paths: set<string>, ids: set<int>, path: string, symbols: seq<Symbol>,
                    at: string, written: seq<Symbol>)
    requires KeepsRows(before, after, paths) && Covers(before, ids, path, symbols)
    requires Writes(before, after, at, written) && (at == path ==> written == symbols)
    ensures Covers(after, ids, path, symbols)
  {
    hide HasRow;
    forall k | 0 <= k < |symbols| ensures HasRow(after, ids, path, symbols[k]) {
      RowStays(before, after, paths, ids, ids, path, symbols[k]);
    }
  }

  /** Inserting the next symbol of a file. */
  lemma CoversNext(before: Nodes, after: Nodes, ids: set<int>, path: string, symbols: seq<Symbol>, s: Symbol, id: int)
    requires Covers(before, ids, path, symbols) && after == before[id := Row(path, s)]
    requires id in before ==> MatchesAt(before, id, path, s)
    ensures KeepsRows(before, after, {path}) && Covers(after, ids + {id}, path, symbols + [s])
  {
    hide HasRow;
    var all := symbols + [s];
    forall k | 0 <= k < |all| ensures HasRow(after, ids + {id}, path, all[k]) {
      if k < |symbols| {
        RowStays(before, after, {path}, ids, ids + {id}, path, symbols[k]);
      } else {
        RowIsThere(after, ids + {id}, id, path, s);
      }
    }
  }

  lemma WritesNext(first: Nodes, before: Nodes, path: string, symbols: seq<Symbol>, s: Symbol, id: int)
    requires Writes(first, before, path, symbols)
    ensures Writes(first, before[id := Row(path, s)], path, symbols + [s])
  {
  }

  lemma RowIsThere(nodes: Nodes, ids: set<int>, id: int, path: string, s: Symbol)
    requires RowAt(nodes, ids, id, path, s)
    ensures HasRow(nodes, ids, path, s)
  {
  }

  lemma KeepsWider(before: Nodes, after: Nodes, path: string, paths: set<string>)
    requires KeepsRows(before, after, {path}) && path in paths
    ensures KeepsRows(before, after, paths)
  {
  }

  lemma CoversUnion(nodes: Nodes, a: set<int>, b: set<int>, path: string, symbols: seq<Symbol>)
    requires Covers(nodes, a, path, symbols) && Covers(nodes, b, path, symbols)
    ensures Covers(nodes, a + b, path, symbols)
  {
    hide HasSymbol;
    forall k | 0 <= k < |symbols| ensures HasRow(nodes, a + b, path, symbols[k]) {
      RowStays(nodes, nodes, {}, a, a + b, path, symbols[k]);
    }
  }

  // ----- the affected files -----

  /** Old and new short names of the changed files. */
  function Names(nodes: Nodes, changed: set<string>, present: map<string, Parsed>): set<string> {
    (set id | id in nodes && nodes[id].path in changed :: ShortName(nodes[id].symbol.name))
    + (set p, k | p in present && p in changed && 0 <= k < |present[p].symbols| ::
         ShortName(present[p].symbols[k].name))
  }

  /** The changed files, those with an edge into one of them, and those with a reference that was left
      unresolved and that one of their names, old or new, could answer. */
  function Affected(nodes: Nodes, edges: Edges, unresolved: set<(string, string)>, changed: set<string>,
                    present: map<string, Parsed>)
    : set<string>
  {
    changed
    + (set e | e in edges && e.source in nodes && e.target in nodes && nodes[e.target].path in changed ::
         nodes[e.source].path)
    + (set u | u in unresolved && u.1 in Names(nodes, changed, present) :: u.0)
  }

  /** A changed file had or has a symbol with this short name. */
  ghost predicate Answers(nodes: Nodes, changed: set<string>, present: map<string, Parsed>, name: string) {
    || (exists id :: id in nodes && nodes[id].path in changed && IsShortName(name, nodes[id].symbol.name))
    || (exists p, k :: p in changed && p in present && 0 <= k < |present[p].symbols|
                       && IsShortName(name, present[p].symbols[k].name))
  }

  /** What the references of `p` mean may have changed: it is one of the changed files, has an edge into
      one, or left a name unresolved that one of them had or has. */
  ghost predicate MayChange(nodes: Nodes, edges: Edges, refs: set<(string, string)>, changed: set<string>,
                            present: map<string, Parsed>, p: string)
  {
    || p in changed
    || (exists e :: e in edges && e.source in nodes && e.target in nodes
                    && nodes[e.source].path == p && nodes[e.target].path in changed)
    || (exists name :: (p, name) in refs && Answers(nodes, changed, present, name))
  }

  lemma NamesAnswer(nodes: Nodes, changed: set<string>, present: map<string, Parsed>, name: string)
    ensures name in Names(nodes, changed, present) <==> Answers(nodes, changed, present, name)
  {
    forall full: string ensures IsShortName(name, full) <==> name == ShortName(full) {
      ShortNameIsLast(name, full);
    }
    hide IsShortName, ShortName;
  }

  lemma AffectedMayChange(nodes: Nodes, edges: Edges, refs: set<(string, string)>, changed: set<string>,
                          present: map<string, Parsed>, p: string)
    ensures p in Affected(nodes, edges, refs, changed, present) <==> MayChange(nodes, edges, refs, changed, present, p)
  {
    forall name ensures name in Names(nodes, changed, present) <==> Answers(nodes, changed, present, name) {
      NamesAnswer(nodes, changed, present, name);
    }
    hide Names, Answers;
    if p in Affected(nodes, edges, refs, changed, present) && p !in changed {
      if u :| u in refs && u.1 in Names(nodes, changed, present) && u.0 == p {
        assert (p, u.1) in refs;
      }
    }
  }

  // ----- purging -----

  predicate TouchesAny(nodes: Nodes, e: Edge, paths: set<string>) {
    || (e.source in nodes && nodes[e.source].path in paths)
    || (e.target in nodes && nodes[e.target].path in paths)
  }

  function PurgedEdges(nodes: Nodes, edges: Edges, paths: set<string>): Edges {
    map e | e in edges && !TouchesAny(nodes, e, paths) :: edges[e]
  }

  lemma PurgedOneByOne(nodes: Nodes, edges: Edges, paths: set<string>, path: string)
    ensures PurgedEdges(nodes, PurgedEdges(nodes, edges, paths), {path}) == PurgedEdges(nodes, edges, paths + {path})
  {
  }

  function PurgedNodes(nodes: Nodes, paths: set<string>, retained: map<string, set<int>>): Nodes {
    map id | id in nodes && (nodes[id].path !in paths || (nodes[id].path in retained && id in retained[nodes[id].path]))
      :: nodes[id]
  }

  /** Stale nodes can go once the edges of their files have gone. */
  lemma PurgeKeepsJoined(before: Nodes, edges: Edges, after: Nodes, paths: set<string>, retained: map<string, set<int>>)
    requires Joined(before, edges) && KeepsRows(before, after, paths)
    ensures Joined(PurgedNodes(after, paths, retained), PurgedEdges(before, edges, paths))
  {
  }

  /** Without a file's edges a joined table is exactly the edges that join rows of other files. */
  lemma PurgeLeavesOthers(nodes: Nodes, edges: Edges, path: string)
    ensures Joined(nodes, edges) ==>
              var rest, left := PurgedNodes(nodes, {path}, map[]), PurgedEdges(nodes, edges, {path});
              Joined(rest, left) && forall e :: e in edges && e !in left ==> e.source !in rest || e.target !in rest
  {
    if Joined(nodes, edges) {
      PurgeKeepsJoined(nodes, edges, nodes, {path}, map[]);
    }
  }

  /** The node table after the update: other files are as they were; a changed file that is still there
      has a row for each of its symbols, as parsed, and no other; one that is gone has none. */
  ghost predicate NodesCurrent(before: Nodes, after: Nodes, changed: set<string>, present: map<string, Parsed>) {
    && (forall id :: id in before && before[id].path !in changed ==> id in after && after[id] == before[id])
    && (forall id :: id in after && after[id].path !in changed ==> id in before && before[id] == after[id])
    && (forall id :: id in after && after[id].path in changed ==>
          after[id].path in present && HasSymbol(after[id], after[id].path, present[after[id].path].symbols))
    && (forall p, k :: p in changed && p in present && 0 <= k < |present[p].symbols| ==>
          HasRow(after, after.Keys, p, present[p].symbols[k]))
  }

  ghost predicate Retains(nodes: Nodes, retained: map<string, set<int>>, present: map<string, Parsed>) {
    forall p :: p in retained ==> p in present && Covers(nodes, retained[p], p, present[p].symbols)
  }

  lemma PurgedIsCurrent(before: Nodes, nodes: Nodes, changed: set<string>, retained: map<string, set<int>>,
                        present: map<string, Parsed>)
    requires KeepsRows(before, nodes, changed) && Retains(nodes, retained, present)
    requires forall p :: p in retained <==> p in changed && p in present
    ensures NodesCurrent(before, PurgedNodes(nodes, changed, retained), changed, present)
  {
    hide HasSymbol, HasRow;
    var after := PurgedNodes(nodes, changed, retained);
    forall p, k | p in changed && p in present && 0 <= k < |present[p].symbols|
      ensures HasRow(after, after.Keys, p, present[p].symbols[k])
    {
      RetainedRow(nodes, after, changed, retained, p, present[p].symbols[k]);
    }
  }

  lemma RetainedRow(nodes: Nodes, after: Nodes, changed: set<string>, retained: map<string, set<int>>, path: string,
                    s: Symbol)
    requires after == PurgedNodes(nodes, changed, retained) && path in retained
    requires HasRow(nodes, retained[path], path, s)
    ensures HasRow(after, after.Keys, path, s)
  {
    var id :| RowAt(nodes, retained[path], id, path, s);
    assert RowAt(after, after.Keys, id, path, s);
  }

  // ----- the edges after the update -----

  function EdgesFrom(nodes: Nodes, edges: Edges, path: string): Edges {
    map e | e in edges && e.source in nodes && nodes[e.source].path == path :: edges[e]
  }

  /** The edges a present file stands for, against the new table. */
  function EdgesFor(nodes: Nodes, index: map<Moniker, int>, present: map<string, Parsed>, resolver: Resolver,
                    path: string): Edges
    requires path in present
  {
    Resolved(index, path, resolver(path, present[path], nodes).links)
  }

  /** `done` are the files resolved so far, starting from `base`: the edges leaving each file are those that
      were there, and on top of them what the file stands for if it is done. */
  ghost predicate EdgesMerged(nodes: Nodes, base: Edges, edges: Edges, index: map<Moniker, int>,
                              present: map<string, Parsed>, resolver: Resolver, done: set<string>)
  {
    && Joined(nodes, edges)
    && forall p ::
         EdgesFrom(nodes, edges, p)
         == EdgesFrom(nodes, base, p)
            + (if p in done && p in present then EdgesFor(nodes, index, present, resolver, p) else map[])
  }

  lemma EdgesStart(nodes: Nodes, base: Edges, index: map<Moniker, int>, present: map<string, Parsed>,
                   resolver: Resolver)
    requires Joined(nodes, base)
    ensures EdgesMerged(nodes, base, base, index, present, resolver, {})
  {
  }

  lemma MergedFrom(nodes: Nodes, edges: Edges, more: Edges, path: string, p: string)
    requires Joined(nodes, more) && forall e :: e in more ==> nodes[e.source].path == path
    ensures EdgesFrom(nodes, edges + more, p) == EdgesFrom(nodes, edges, p) + (if p == path then more else map[])
  {
  }

  lemma MergedNext(nodes: Nodes, base: Edges, edges: Edges, index: map<Moniker, int>,
                   present: map<string, Parsed>, resolver: Resolver, done: set<string>, path: string)
    requires EdgesMerged(nodes, base, edges, index, present, resolver, done) && IsIndex(nodes, index) && path in present
    ensures EdgesMerged(nodes, base, edges + EdgesFor(nodes, index, present, resolver, path), index, present,
                        resolver, done + {path})
  {
    hide Resolved, IsIndex;
    var more := EdgesFor(nodes, index, present, resolver, path);
    ResolvedJoins(nodes, index, path, resolver(path, present[path], nodes).links);
    assert Joined(nodes, edges + more);
    hide EdgesFor, EdgesFrom, Joined;
    forall p
      ensures EdgesFrom(nodes, edges + more, p)
              == EdgesFrom(nodes, base, p)
                 + (if p in done + {path} && p in present then EdgesFor(nodes, index, present, resolver, p) else map[])
    {
      var was := if p in done && p in present then EdgesFor(nodes, index, present, resolver, p) else map[];
      assert EdgesFrom(nodes, edges, p) == EdgesFrom(nodes, base, p) + was;
      hide EdgesMerged;
      MergedFrom(nodes, edges, more, path, p);
      MergeTwice(EdgesFrom(nodes, base, p), was);
      MergeTwice(EdgesFrom(nodes, base, p), more);
    }
  }

  lemma MergeTwice(a: Edges, b: Edges)
    ensures a + b + b == a + b && a + map[] == a && a + map[] + b == a + b && a + b + map[] == a + b
  {
  }

  // ----- references left unresolved -----

  type Refs = set<(string, string)>

  function RefsFor(nodes: Nodes, present: map<string, Parsed>, resolver: Resolver, path: string): set<string>
    requires path in present
  {
    resolver(path, present[path], nodes).unresolved
  }

  ghost predicate RefsCurrent(nodes: Nodes, base: Refs, refs: Refs, present: map<string, Parsed>, resolver: Resolver,
                              done: set<string>) {
    forall p, name ::
      (p, name) in refs
      <==> if p in done && p in present then name in RefsFor(nodes, present, resolver, p) else (p, name) in base
  }

  function RefsOutside(refs: Refs, changed: set<string>): Refs {
    set u | u in refs && u.0 !in changed
  }

  /** The references of one file replaced by new ones. */
  function ReplaceRefs(refs: Refs, path: string, names: set<string>): Refs {
    (set u | u in refs && u.0 != path) + (set name | name in names :: (path, name))
  }

  lemma RefsNext(nodes: Nodes, base: Refs, refs: Refs, present: map<string, Parsed>, resolver: Resolver,
                 done: set<string>, path: string)
    requires RefsCurrent(nodes, base, refs, present, resolver, done) && path in present
    ensures RefsCurrent(nodes, base, ReplaceRefs(refs, path, RefsFor(nodes, present, resolver, path)), present,
                        resolver, done + {path})
  {
    hide RefsFor;
  }

  // ----- the tables -----

  class Storage {
    var nodes: Nodes
    var edges: Edges
    var unresolved: set<(string, string)>

    /** Drops the edges at the file's rows and no others. All its rows can then go: of a table whose
        edges join stored rows, exactly the edges that join rows of other files are left. */
    method PurgeFileEdges(path: string)
      modifies this`edges
      ensures edges == PurgedEdges(nodes, old(edges), {path})
      ensures Joined(nodes, old(edges)) ==>
                var rest := PurgedNodes(nodes, {path}, map[]);
                Joined(rest, edges) && forall e :: e in old(edges) && e !in edges ==>
                  e.source !in rest || e.target !in rest
    {
      hide Joined, PurgedNodes;
      edges := map e | e in edges && !Touches(nodes, e, path) :: edges[e];
      PurgeLeavesOthers(nodes, old(edges), path);
    }

    method PurgeFileUnresolvedRefs(path: string)
      modifies this`unresolved
      ensures unresolved == set u | u in old(unresolved) && u.0 != path
    {
      unresolved := set u | u in unresolved && u.0 != path;
    }

    /** The row that a symbol keeps: the same key with the same signature, or else on the same line. */
    method FindRow(path: string, s: Symbol) returns (found: Option<int>)
      ensures found.Some? <==> exists id :: MatchesAt(nodes, id, path, s)
      ensures found.Some? ==> MatchesAt(nodes, found.value, path, s)
      ensures (exists id :: SignedAt(nodes, id, path, s)) ==> found.Some? && SignedAt(nodes, found.value, path, s)
    {
      var bySignature, byLine: Option<int> := None, None;
      var todo := nodes.Keys;
      while todo != {}
        invariant todo <= nodes.Keys
        invariant bySignature.Some? ==> bySignature.value in nodes && SameKey(nodes[bySignature.value], path, s)
                                        && nodes[bySignature.value].symbol.signature == s.signature
        invariant byLine.Some? ==> byLine.value in nodes && SameKey(nodes[byLine.value], path, s)
                                   && nodes[byLine.value].symbol.line == s.line
        invariant bySignature.None? ==> forall id :: id in nodes && id !in todo && SameKey(nodes[id], path, s) ==>
                    nodes[id].symbol.signature != s.signature
        invariant byLine.None? ==> forall id :: id in nodes && id !in todo && SameKey(nodes[id], path, s) ==>
                    nodes[id].symbol.line != s.line
        decreases todo
      {
        var id := Pick(todo);
        if SameKey(nodes[id], path, s) {
          if nodes[id].symbol.signature == s.signature {
            bySignature := Some(id);
          }
          if nodes[id].symbol.line == s.line {
            byLine := Some(id);
          }
        }
        todo := todo - {id};
      }
      found := if bySignature.Some? then bySignature else byLine;
      assert found.Some? ==> MatchesAt(nodes, found.value, path, s);
    }

    method NextId() returns (id: int)
      ensures id !in nodes
    {
      id := 1;
      var todo := nodes.Keys;
      while todo != {}
        invariant todo <= nodes.Keys && forall k :: k in nodes && k !in todo ==> k < id
        decreases todo
      {
        var k := Pick(todo);
        if k >= id {
          id := k + 1;
        }
        todo := todo - {k};
      }
    }

    /** A symbol that matches a stored row updates it in place, so its id survives, and a row with the
        same signature comes before one on the same line. Any other symbol is new. */
    method UpsertNode(path: string, s: Symbol) returns (id: int)
      modifies this`nodes
      ensures nodes == old(nodes)[id := Row(path, s)]
      ensures id in old(nodes) <==> exists k :: MatchesAt(old(nodes), k, path, s)
      ensures id in old(nodes) ==> MatchesAt(old(nodes), id, path, s)
      ensures (exists k :: SignedAt(old(nodes), k, path, s)) ==> SignedAt(old(nodes), id, path, s)
      ensures id in old(nodes) ==>
                var was := old(nodes)[id];
                && was.path == path && was.symbol.name == s.name && was.symbol.kind == s.kind
                && (was.symbol.signature == s.signature || was.symbol.line == s.line)
      ensures id !in old(nodes) ==> forall k :: k in old(nodes) ==>
                var row := old(nodes)[k];
                || row.path != path || row.symbol.name != s.name || row.symbol.kind != s.kind
                || (row.symbol.signature != s.signature && row.symbol.line != s.line)
    {
      var found := FindRow(path, s);
      if found.Some? {
        id := found.value;
      } else {
        assert forall k :: k in nodes ==> !MatchesAt(nodes, k, path, s);
        id := NextId();
      }
      nodes := nodes[id := Row(path, s)];
    }

    method PurgeFileNodesExcept(path: string, retained: set<int>)
      modifies this`nodes
      ensures nodes == map id | id in old(nodes) && (old(nodes)[id].path != path || id in retained) :: old(nodes)[id]
    {
      var stale := set id | id in nodes && nodes[id].path == path && id !in retained;
      nodes := map id | id in nodes && id !in stale :: nodes[id];
    }

    method UpsertNodes(path: string, symbols: seq<Symbol>) returns (ids: set<int>)
      modifies this`nodes
      ensures KeepsRows(old(nodes), nodes, {path}) && Covers(nodes, ids, path, symbols)
      ensures Writes(old(nodes), nodes, path, symbols)
    {
      hide KeepsRows, Covers, Writes;
      ids := {};
      NothingInserted(nodes, path);
      for k := 0 to |symbols|
        invariant KeepsRows(old(nodes), nodes, {path}) && Covers(nodes, ids, path, symbols[..k])
        invariant Writes(old(nodes), nodes, path, symbols[..k])
      {
        ghost var before := nodes;
        var id := UpsertNode(path, symbols[k]);
        CoversNext(before, nodes, ids, path, symbols[..k], symbols[k], id);
        WritesNext(old(nodes), before, path, symbols[..k], symbols[k], id);
        KeepsTrans(old(nodes), before, nodes, {path});
        ids := ids + {id};
        assert symbols[..k + 1] == symbols[..k] + [symbols[k]];
      }
      assert symbols[..|symbols|] == symbols;
    }

    /** Drops the edges and unresolved references of the changed files. */
    method PurgeChanged(changed: seq<string>)
      modifies this`edges, this`unresolved
      ensures edges == PurgedEdges(nodes, old(edges), Elems(changed))
      ensures unresolved == RefsOutside(old(unresolved), Elems(changed))
    {
      for k := 0 to |changed|
        invariant edges == PurgedEdges(nodes, old(edges), Elems(changed[..k]))
        invariant unresolved == RefsOutside(old(unresolved), Elems(changed[..k]))
      {
        hide PurgedEdges, PurgedNodes, Joined;
        PurgeFileEdges(changed[k]);
        PurgeFileUnresolvedRefs(changed[k]);
        NextChanged(changed, k);
        PurgedOneByOne(nodes, old(edges), Elems(changed[..k]), changed[k]);
      }
      assert changed[..|changed|] == changed;
    }

    /** Inserts the symbols of the changed files that are present; tells which rows each now has. */
    method InsertChanged(changed: seq<string>, files: seq<string>, parsed: map<string, Parsed>)
      returns (retained: map<string, set<int>>)
      modifies this`nodes
      ensures KeepsRows(old(nodes), nodes, Elems(changed)) && Retains(nodes, retained, parsed)
      ensures forall p :: p in retained <==> p in changed && p in files && p in parsed
    {
      hide KeepsRows, Covers, Writes;
      retained := map[];
      NothingKept(nodes, Elems(changed));
      for k := 0 to |files|
        invariant KeepsRows(old(nodes), nodes, Elems(changed)) && Retains(nodes, retained, parsed)
        invariant forall p :: p in retained <==> p in changed && p in files[..k] && p in parsed
      {
        var path := files[k];
        assert files[..k + 1] == files[..k] + [path];
        if path in changed && path in parsed {
          ghost var before := nodes;
          var ids := UpsertNodes(path, parsed[path].symbols);
          KeepsWider(before, nodes, path, Elems(changed));
          KeepsTrans(old(nodes), before, nodes, Elems(changed));
          RetainsNext(before, nodes, Elems(changed), retained, parsed, path, ids);
          retained := retained[path := ids + (if path in retained then retained[path] else {})];
        }
      }
      assert files[..|files|] == files;
    }

    method PurgeStale(changed: seq<string>, retained: map<string, set<int>>)
      modifies this`nodes
      ensures nodes == PurgedNodes(old(nodes), Elems(changed), retained)
    {
      for k := 0 to |changed|
        invariant nodes == PurgedNodes(old(nodes), Elems(changed[..k]), retained)
      {
        PurgeFileNodesExcept(changed[k], if changed[k] in retained then retained[changed[k]] else {});
        NextChanged(changed, k);
      }
      assert changed[..|changed|] == changed;
    }

    /** Resolves the affected files again and stores what they yield. */
    method ResolveAffected(affected: set<string>, files: seq<string>, parsed: map<string, Parsed>,
                           index: map<Moniker, int>, resolver: Resolver)
      requires Joined(nodes, edges) && IsIndex(nodes, index)
      modifies this`edges, this`unresolved
      ensures var done := set p | p in affected && p in files && p in parsed;
              && EdgesMerged(nodes, old(edges), edges, index, parsed, resolver, done)
              && RefsCurrent(nodes, old(unresolved), unresolved, parsed, resolver, done)
    {
      hide IsIndex, EdgesMerged, Resolved, RefsCurrent;
      ghost var done: set<string> := {};
      EdgesStart(nodes, edges, index, parsed, resolver);
      RefsStart(nodes, unresolved, parsed, resolver);
      for k := 0 to |files|
        invariant done == set p | p in affected && p in files[..k] && p in parsed
        invariant EdgesMerged(nodes, old(edges), edges, index, parsed, resolver, done)
        invariant RefsCurrent(nodes, old(unresolved), unresolved, parsed, resolver, done)
      {
        var path := files[k];
        assert files[..k + 1] == files[..k] + [path];
        if path in affected && path in parsed {
          MergedNext(nodes, old(edges), edges, index, parsed, resolver, done, path);
          RefsNext(nodes, old(unresolved), unresolved, parsed, resolver, done, path);
          var resolution := resolver(path, parsed[path], nodes);
          edges := edges + Resolved(index, path, resolution.links);
          unresolved := ReplaceRefs(unresolved, path, resolution.unresolved);
          done := done + {path};
        }
      }
      assert files[..|files|] == files;
    }

    /** The targeted update. Afterwards every stored edge joins two stored nodes and the node table is
        current. Of the old edges exactly those between unchanged files stay, and a file whose references
        may mean something else now, and only such a file, has been resolved again. */
    method IncrementalReindex(changed: seq<string>, files: seq<string>, parsed: map<string, Parsed>, resolver: Resolver)
      returns (ghost index: map<Moniker, int>)
      requires Joined(nodes, edges)
      modifies this
      ensures IsReindexed(Tables(old(nodes), old(edges), old(unresolved)), Tables(nodes, edges, unresolved), index,
                          Elems(changed), map p | p in parsed && p in files :: parsed[p], resolver)
    {
      hide NodesCurrent, IsIndex, EdgesMerged, RefsCurrent, KeepsRows, Retains, Affected, PurgedNodes, PurgedEdges;
      hide IsReindexed, RefsOutside;
      var present := map p | p in parsed && p in files :: parsed[p];
      if changed == [] {
        var unused := BuildIndex(nodes);
        index := unused;
        assert Elems(changed) == {};
        NothingChanged(Tables(nodes, edges, unresolved), index, present, resolver);
        return;
      }
      var affected := Affected(nodes, edges, unresolved, (set c | c in changed), present);
      PurgeChanged(changed);
      var retained := InsertChanged(changed, files, present);
      ghost var inserted := nodes;
      PurgeStale(changed, retained);
      var lookup := BuildIndex(nodes);
      index := lookup;
      BeforeResolving(old(nodes), old(edges), inserted, Elems(changed), retained, present);
      ResolveAffected(affected, files, present, lookup, resolver);
      assert (set p | p in affected && p in files && p in present) == set p | p in affected && p in present;
      ResolvedIsReindexed(Tables(old(nodes), old(edges), old(unresolved)), Tables(nodes, edges, unresolved), index,
                          Elems(changed), present, resolver);
    }
  }

  datatype Tables = Tables(nodes: Nodes, edges: Edges, refs: Refs)

  lemma NothingAffected(nodes: Nodes, edges: Edges, refs: Refs, present: map<string, Parsed>)
    ensures Affected(nodes, edges, refs, {}, present) == {} && PurgedEdges(nodes, edges, {}) == edges
    ensures RefsOutside(refs, {}) == refs
  {
    assert Names(nodes, {}, present) == {};
    hide Names, ShortName;
    assert PurgedEdges(nodes, edges, {}) == edges;
  }

  lemma NothingChanged(t: Tables, index: map<Moniker, int>, present: map<string, Parsed>, resolver: Resolver)
    requires Joined(t.nodes, t.edges) && IsIndex(t.nodes, index)
    ensures IsReindexed(t, t, index, {}, present, resolver)
  {
    NothingAffected(t.nodes, t.edges, t.refs, present);
    EdgesStart(t.nodes, t.edges, index, present, resolver);
    RefsStart(t.nodes, t.refs, present, resolver);
    assert NodesCurrent(t.nodes, t.nodes, {}, present);
    hide Affected, EdgesMerged, RefsCurrent, PurgedEdges, RefsOutside, IsReindexed, NodesCurrent, IsIndex;
    assert (set p | p in Affected(t.nodes, t.edges, t.refs, {}, present) && p in present) == {};
    ResolvedIsReindexed(t, t, index, {}, present, resolver);
  }

  lemma ResolvedIsReindexed(t: Tables, t': Tables, index: map<Moniker, int>, changed: set<string>,
                            present: map<string, Parsed>, resolver: Resolver)
    requires Joined(t.nodes, t.edges) && NodesCurrent(t.nodes, t'.nodes, changed, present) && IsIndex(t'.nodes, index)
    requires var done := set p | p in Affected(t.nodes, t.edges, t.refs, changed, present) && p in present;
             && EdgesMerged(t'.nodes, PurgedEdges(t.nodes, t.edges, changed), t'.edges, index, present, resolver, done)
             && RefsCurrent(t'.nodes, RefsOutside(t.refs, changed), t'.refs, present, resolver, done)
    ensures IsReindexed(t, t', index, changed, present, resolver)
  {
    forall p
      ensures p in Affected(t.nodes, t.edges, t.refs, changed, present)
              <==> MayChange(t.nodes, t.edges, t.refs, changed, present, p)
    {
      AffectedMayChange(t.nodes, t.edges, t.refs, changed, present, p);
    }
    hide Affected, MayChange, NodesCurrent, IsIndex, EdgesFor, EdgesFrom, PurgedEdges, RefsFor;
  }

  lemma NextChanged(changed: seq<string>, k: nat)
    requires k < |changed|
    ensures changed[..k + 1] == changed[..k] + [changed[k]]
    ensures Elems(changed[..k + 1]) == Elems(changed[..k]) + {changed[k]}
  {
    assert changed[..k + 1] == changed[..k] + [changed[k]];
  }

  lemma NothingKept(nodes: Nodes, paths: set<string>)
    ensures KeepsRows(nodes, nodes, paths)
  {
  }

  lemma RetainsNext(before: Nodes, after: Nodes, paths: set<string>, retained: map<string, set<int>>,
                    parsed: map<string, Parsed>, path: string, ids: set<int>)
    requires KeepsRows(before, after, paths) && Retains(before, retained, parsed)
    requires path in parsed && Writes(before, after, path, parsed[path].symbols)
    requires Covers(after, ids, path, parsed[path].symbols)
    ensures Retains(after, retained[path := ids + (if path in retained then retained[path] else {})], parsed)
  {
    hide Covers, KeepsRows, Writes;
    forall p | p in retained ensures Covers(after, retained[p], p, parsed[p].symbols) {
      CoversStays(before, after, paths, retained[p], p, parsed[p].symbols, path, parsed[path].symbols);
    }
    if path in retained {
      CoversUnion(after, ids, retained[path], path, parsed[path].symbols);
    } else {
      assert ids + {} == ids;
    }
  }

  lemma RefsStart(nodes: Nodes, refs: Refs, present: map<string, Parsed>, resolver: Resolver)
    ensures RefsCurrent(nodes, refs, refs, present, resolver, {})
  {
  }

  /** Before the files are resolved again the table is current and the edges left touch no changed file. */
  lemma BeforeResolving(before: Nodes, edges: Edges, inserted: Nodes, changed: set<string>,
                        retained: map<string, set<int>>, present: map<string, Parsed>)
    requires Joined(before, edges) && KeepsRows(before, inserted, changed) && Retains(inserted, retained, present)
    requires forall p :: p in retained <==> p in changed && p in present
    ensures var nodes, kept := PurgedNodes(inserted, changed, retained), PurgedEdges(before, edges, changed);
            && Joined(nodes, kept) && (forall e :: e in kept ==> !TouchesAny(nodes, e, changed))
            && NodesCurrent(before, nodes, changed, present)
  {
    PurgeKeepsJoined(before, edges, inserted, changed, retained);
    PurgedIsCurrent(before, inserted, changed, retained, present);
    hide Retains, NodesCurrent, Joined;
  }

  lemma NothingInserted(nodes: Nodes, path: string)
    ensures KeepsRows(nodes, nodes, {path}) && Covers(nodes, {}, path, []) && Writes(nodes, nodes, path, [])
  {
  }

  // ----- what the update means -----

  /** The rows of a changed file that is still there are its symbols as parsed, and each of its symbols has
      one of its name and kind; a file that is gone has none, and rows of other files stay as they are. */
  lemma RowsAreCurrent(before: Nodes, after: Nodes, changed: set<string>, present: map<string, Parsed>)
    requires NodesCurrent(before, after, changed, present)
    ensures forall id :: id in after && after[id].path in changed ==>
              after[id].path in present && after[id].symbol in present[after[id].path].symbols
    ensures forall p, s :: p in changed && p in present && s in present[p].symbols ==>
              exists id :: id in after && after[id].path == p
                           && after[id].symbol.name == s.name && after[id].symbol.kind == s.kind
    ensures forall id :: id in before && before[id].path !in changed ==> id in after && after[id] == before[id]
    ensures forall id :: id in after && after[id].path !in changed ==> id in before && before[id] == after[id]
  {
    forall p, s | p in changed && p in present && s in present[p].symbols
      ensures exists id :: id in after && after[id].path == p
                           && after[id].symbol.name == s.name && after[id].symbol.kind == s.kind
    {
      var k :| 0 <= k < |present[p].symbols| && present[p].symbols[k] == s;
      assert HasRow(after, after.Keys, p, present[p].symbols[k]);
      var id :| RowAt(after, after.Keys, id, p, s);
    }
  }

  /** The tables before and after, and what the update was told. */
  ghost predicate IsReindexed(t: Tables, t': Tables, index: map<Moniker, int>, changed: set<string>,
                              present: map<string, Parsed>, resolver: Resolver)
  {
    && Joined(t.nodes, t.edges) && Joined(t'.nodes, t'.edges) && IsIndex(t'.nodes, index)
    && NodesCurrent(t.nodes, t'.nodes, changed, present)
    && (forall p ::
          EdgesFrom(t'.nodes, t'.edges, p)
          == EdgesFrom(t'.nodes, PurgedEdges(t.nodes, t.edges, changed), p)
             + (if p in present && MayChange(t.nodes, t.edges, t.refs, changed, present, p)
                then EdgesFor(t'.nodes, index, present, resolver, p) else map[]))
    && (forall p, name ::
          (p, name) in t'.refs
          <==> if p in present && MayChange(t.nodes, t.edges, t.refs, changed, present, p)
               then name in RefsFor(t'.nodes, present, resolver, p) else (p, name) in t.refs && p !in changed)
  }

  /** A deleted file leaves no node, no edge and no reference behind. */
  lemma DeletedIsGone(t: Tables, t': Tables, index: map<Moniker, int>, changed: set<string>,
                      present: map<string, Parsed>, resolver: Resolver, path: string)
    requires IsReindexed(t, t', index, changed, present, resolver) && path in changed && path !in present
    ensures forall id :: id in t'.nodes ==> t'.nodes[id].path != path
    ensures forall e :: e in t'.edges ==> !Touches(t'.nodes, e, path)
    ensures forall name :: (path, name) !in t'.refs
  {
    hide EdgesFor, HasSymbol, HasRow, MayChange, PurgedEdges;
  }

  /** The edges leaving a changed file that is still there are exactly what the resolver yields for it, and
      its unresolved references what the resolver leaves. */
  lemma ChangedIsExact(t: Tables, t': Tables, index: map<Moniker, int>, changed: set<string>,
                       present: map<string, Parsed>, resolver: Resolver, path: string)
    requires IsReindexed(t, t', index, changed, present, resolver) && path in changed && path in present
    ensures EdgesFrom(t'.nodes, t'.edges, path) == EdgesFor(t'.nodes, index, present, resolver, path)
    ensures forall name :: (path, name) in t'.refs <==> name in RefsFor(t'.nodes, present, resolver, path)
  {
    assert MayChange(t.nodes, t.edges, t.refs, changed, present, path);
    hide EdgesFor, EdgesFrom, NodesCurrent, MayChange, PurgedEdges, IsIndex, RefsFor;
    NoneKeptFrom(t, t'.nodes, changed, present, path);
    NothingUnder(EdgesFor(t'.nodes, index, present, resolver, path));
  }

  lemma NothingUnder(a: Edges)
    ensures map[] + a == a
  {
  }

  lemma NoneKeptFrom(t: Tables, nodes: Nodes, changed: set<string>, present: map<string, Parsed>, path: string)
    requires Joined(t.nodes, t.edges) && NodesCurrent(t.nodes, nodes, changed, present) && path in changed
    ensures EdgesFrom(nodes, PurgedEdges(t.nodes, t.edges, changed), path) == map[]
  {
    hide HasSymbol, HasRow;
  }

  /** Resolved again: everything the resolver yields for the file is stored, and the references it leaves
      are the file's. */
  ghost predicate IsResolvedAgain(t: Tables, index: map<Moniker, int>, present: map<string, Parsed>, resolver: Resolver,
                                  path: string)
    requires path in present
  {
    && (forall e :: e in EdgesFor(t.nodes, index, present, resolver, path) ==>
          e in t.edges && t.edges[e] == EdgesFor(t.nodes, index, present, resolver, path)[e])
    && (forall name :: (path, name) in t.refs <==> name in RefsFor(t.nodes, present, resolver, path))
  }

  lemma MayChangeIsResolved(t: Tables, t': Tables, index: map<Moniker, int>, changed: set<string>,
                            present: map<string, Parsed>, resolver: Resolver, path: string)
    requires IsReindexed(t, t', index, changed, present, resolver) && path in present
    requires MayChange(t.nodes, t.edges, t.refs, changed, present, path)
    ensures IsResolvedAgain(t', index, present, resolver, path)
  {
    hide EdgesFor, NodesCurrent, MayChange, PurgedEdges, IsIndex, RefsFor;
    var all := EdgesFrom(t'.nodes, t'.edges, path);
    forall e | e in EdgesFor(t'.nodes, index, present, resolver, path)
      ensures e in t'.edges && t'.edges[e] == EdgesFor(t'.nodes, index, present, resolver, path)[e]
    {
      assert e in all;
    }
  }

  /** A reference left unresolved is looked at again when a changed file had or has a symbol of that short
      name. */
  lemma UnresolvedAreRevisited(t: Tables, t': Tables, index: map<Moniker, int>, changed: set<string>,
                               present: map<string, Parsed>, resolver: Resolver, path: string, name: string)
    requires IsReindexed(t, t', index, changed, present, resolver) && path in present && (path, name) in t.refs
    requires || (exists id :: id in t.nodes && t.nodes[id].path in changed
                              && IsShortName(name, t.nodes[id].symbol.name))
             || (exists p, k :: p in changed && p in present && 0 <= k < |present[p].symbols|
                                && IsShortName(name, present[p].symbols[k].name))
    ensures IsResolvedAgain(t', index, present, resolver, path)
  {
    assert Answers(t.nodes, changed, present, name);
    hide IsReindexed, IsResolvedAgain, IsShortName;
    assert MayChange(t.nodes, t.edges, t.refs, changed, present, path);
    MayChangeIsResolved(t, t', index, changed, present, resolver, path);
  }

  /** An edge between unchanged files stays. The file of one into a changed file is resolved again, if it is
      still there. */
  lemma OthersKeepTheirEdges(t: Tables, t': Tables, index: map<Moniker, int>, changed: set<string>,
                             present: map<string, Parsed>, resolver: Resolver, e: Edge)
    requires IsReindexed(t, t', index, changed, present, resolver) && e in t.edges
    ensures var (source, target) := (t.nodes[e.source].path, t.nodes[e.target].path);
            && (source !in changed && target !in changed ==> e in t'.edges)
            && (target in changed && source in present ==> IsResolvedAgain(t', index, present, resolver, source))
  {
    var (source, target) := (t.nodes[e.source].path, t.nodes[e.target].path);
    if target in changed && source in present {
      assert MayChange(t.nodes, t.edges, t.refs, changed, present, source);
      MayChangeIsResolved(t, t', index, changed, present, resolver, source);
    }
    hide EdgesFor, MayChange, IsResolvedAgain, HasSymbol, HasRow, IsIndex;
    if source !in changed && target !in changed {
      assert e in PurgedEdges(t.nodes, t.edges, changed);
      assert e in EdgesFrom(t'.nodes, PurgedEdges(t.nodes, t.edges, changed), source);
      assert e in EdgesFrom(t'.nodes, t'.edges, source);
    }
  }

  /** A file that is not changed, has no edge into a changed file and left no name unresolved that one of
      those had or has keeps its edges and references as they are. */
  lemma OthersAreLeftAlone(t: Tables, t': Tables, index: map<Moniker, int>, changed: set<string>,
                           present: map<string, Parsed>, resolver: Resolver, path: string)
    requires IsReindexed(t, t', index, changed, present, resolver)
    requires !MayChange(t.nodes, t.edges, t.refs, changed, present, path)
    ensures EdgesFrom(t'.nodes, t'.edges, path) == EdgesFrom(t.nodes, t.edges, path)
    ensures forall name :: (path, name) in t'.refs <==> (path, name) in t.refs
  {
    AllKeptFrom(t, t'.nodes, changed, present, path);
    assert path !in changed;
    hide EdgesFor, EdgesFrom, NodesCurrent, MayChange, PurgedEdges, IsIndex, RefsFor;
    MergeTwice(EdgesFrom(t.nodes, t.edges, path), map[]);
  }

  lemma AllKeptFrom(t: Tables, nodes: Nodes, changed: set<string>, present: map<string, Parsed>, path: string)
    requires Joined(t.nodes, t.edges) && NodesCurrent(t.nodes, nodes, changed, present)
    requires !MayChange(t.nodes, t.edges, t.refs, changed, present, path)
    ensures EdgesFrom(nodes, PurgedEdges(t.nodes, t.edges, changed), path) == EdgesFrom(t.nodes, t.edges, path)
  {
    hide HasSymbol, HasRow, Answers;
  }
}
