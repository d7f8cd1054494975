/** The compressed sparse row structure (`CompactCsr`, `CsrGraph`): construction from sorted
    edges, the counting-sort transpose, hop-bounded reachability and shortest paths. */
module Csr {
  import opened Graph
  import opened Sorting
  import opened Wrappers

  // ----- rows -----

  /** The columns between two consecutive offsets. */
  function RowAt(offsets: seq<int>, columns: seq<int>, u: int): seq<int> {
    if 0 <= u < |offsets| - 1 && 0 <= offsets[u] <= offsets[u + 1] <= |columns|
    then columns[offsets[u]..offsets[u + 1]] else []
  }

  datatype CompactCsr = CompactCsr(rowOffsets: seq<int>, columns: seq<int>) {

    function NodeCount(): int {
      if |rowOffsets| == 0 then 0 else |rowOffsets| - 1
    }

    /** Offsets start at zero, never fall, end at the column count, and columns are nodes. */
    ghost predicate Valid() {
      && |rowOffsets| > 0 && rowOffsets[0] == 0
      && (forall i, j :: 0 <= i <= j < |rowOffsets| ==> rowOffsets[i] <= rowOffsets[j])
      && rowOffsets[|rowOffsets| - 1] == |columns|
      && (forall k :: 0 <= k < |columns| ==> 0 <= columns[k] < |rowOffsets| - 1)
    }

    /** The neighbours of `u`; none for a node out of range. */
    function Row(u: int): (row: seq<int>)
      requires Valid()
      ensures row == RowAt(rowOffsets, columns, u)
    {
      if u < 0 || u + 1 >= |rowOffsets| then [] else columns[rowOffsets[u]..rowOffsets[u + 1]]
    }

    ghost function Edges(): set<(int, int)>
      requires Valid()
    {
      set u, k | 0 <= u < NodeCount() && 0 <= k < |Row(u)| :: (u, Row(u)[k])
    }
  }

  /** Membership in a row is an edge, and edges stay among the nodes. */
  lemma RowIsEdges(c: CompactCsr, u: int, v: int)
    requires c.Valid()
    ensures v in c.Row(u) <==> (u, v) in c.Edges()
    ensures v in c.Row(u) ==> 0 <= u < c.NodeCount() && 0 <= v < c.NodeCount()
  {
    if v in c.Row(u) {
      var k :| 0 <= k < |c.Row(u)| && c.Row(u)[k] == v;
      assert c.columns[c.rowOffsets[u] + k] == v;
    }
  }

  // ----- construction from sorted edges -----

  ghost predicate SortedBySource(edges: seq<(int, int)>) {
    forall i, j :: 0 <= i < j < |edges| ==> edges[i].0 <= edges[j].0
  }

  /** The targets of the edges of `u`, in order, leaving out ends that are not below `n`. */
  ghost function TargetsOf(edges: seq<(int, int)>, n: int, u: int): seq<int> {
    if edges == [] then [] else
    var (a, b) := edges[|edges| - 1];
    TargetsOf(edges[..|edges| - 1], n, u) + (if a == u && a < n && b < n then [b] else [])
  }

  lemma TargetsNext(edges: seq<(int, int)>, i: int, n: int, u: int)
    requires 0 <= i < |edges|
    ensures TargetsOf(edges[..i + 1], n, u)
            == TargetsOf(edges[..i], n, u)
               + (if edges[i].0 == u && edges[i].0 < n && edges[i].1 < n then [edges[i].1] else [])
  {
    assert edges[..i + 1][..i] == edges[..i];
  }

  /** The rows up to `current` hold the targets seen so far; later rows are still empty. */
  ghost predicate RowsBuilt(edges: seq<(int, int)>, n: int, offsets: seq<int>, columns: seq<int>, current: int) {
    && |offsets| == n + 1 && 0 <= current <= n && offsets[0] == 0
    && (forall i, j :: 0 <= i <= j <= current ==> offsets[i] <= offsets[j] <= |columns|)
    && (forall k :: 0 <= k < |columns| ==> 0 <= columns[k] < n)
    && (forall u :: 0 <= u < current ==> RowAt(offsets, columns, u) == TargetsOf(edges, n, u))
    && columns[offsets[current]..] == TargetsOf(edges, n, current)
    && (forall u :: current < u ==> TargetsOf(edges, n, u) == [])
  }

  lemma {:induction false} NoTargets(edges: seq<(int, int)>, n: int, u: int)
    requires forall i :: 0 <= i < |edges| ==> edges[i].0 != u
    ensures TargetsOf(edges, n, u) == []
  {
    if edges != [] {
      NoTargets(edges[..|edges| - 1], n, u);
    }
  }

  lemma RowAtAppend(offsets: seq<int>, columns: seq<int>, u: int, b: int)
    requires 0 <= u < |offsets| - 1 && 0 <= offsets[u] <= offsets[u + 1] <= |columns|
    ensures RowAt(offsets, columns + [b], u) == RowAt(offsets, columns, u)
  {
    assert (columns + [b])[offsets[u]..offsets[u + 1]] == columns[offsets[u]..offsets[u + 1]];
  }

  /** Starting the next row. */
  lemma NextRow(edges: seq<(int, int)>, n: int, offsets: seq<int>, columns: seq<int>, current: int)
    requires RowsBuilt(edges, n, offsets, columns, current) && current < n
    ensures RowsBuilt(edges, n, offsets[current + 1 := |columns|], columns, current + 1)
  {
    var o := offsets[current + 1 := |columns|];
    assert columns[|columns|..] == [];
    assert RowAt(o, columns, current) == columns[offsets[current]..];
    forall u | 0 <= u < current ensures RowAt(o, columns, u) == RowAt(offsets, columns, u) {
    }
    hide TargetsOf, RowAt;
    assert forall u :: 0 <= u < current ==> RowAt(o, columns, u) == TargetsOf(edges, n, u);
  }

  /** Appending the target of an edge of the current row, or skipping one out of range. */
  lemma NextEdge(edges: seq<(int, int)>, i: int, n: int, offsets: seq<int>, columns: seq<int>, current: int)
    requires 0 <= i < |edges| && 0 <= edges[i].1
    requires RowsBuilt(edges[..i], n, offsets, columns, current)
    requires var (u, v) := edges[i]; u >= n || v >= n || u == current
    ensures var (u, v) := edges[i];
            RowsBuilt(edges[..i + 1], n, offsets, if u >= n || v >= n then columns else columns + [v], current)
  {
    var (a, b) := edges[i];
    var columns' := if a >= n || b >= n then columns else columns + [b];
    var upTo := edges[..i + 1];
    forall u ensures TargetsOf(upTo, n, u)
                     == TargetsOf(edges[..i], n, u) + (if a == u && a < n && b < n then [b] else []) {
      TargetsNext(edges, i, n, u);
    }
    forall u | 0 <= u < current ensures RowAt(offsets, columns', u) == RowAt(offsets, columns, u) {
      RowAtAppend(offsets, columns, u, b);
    }
    if a < n && b < n {
      assert columns'[offsets[current]..] == columns[offsets[current]..] + [b];
    }
    assert RowsBuilt(upTo, n, offsets, columns', current);
  }

  /** Builds the rows of edges sorted by source. Every row lists the in-range targets of its node
      in edge order. */
  method FromSortedEdges(edges: seq<(int, int)>, n: nat) returns (c: CompactCsr)
    requires SortedBySource(edges) && forall i :: 0 <= i < |edges| ==> 0 <= edges[i].0 && 0 <= edges[i].1
    ensures c.Valid() && c.NodeCount() == n
    ensures forall u :: 0 <= u < n ==> c.Row(u) == TargetsOf(edges, n, u)
  {
    var rowOffsets := new int[n + 1](_ => 0);
    var columns: seq<int> := [];
    var current := 0;
    assert RowsBuilt([], n, rowOffsets[..], columns, current);
    hide RowsBuilt;
    for i := 0 to |edges|
      invariant RowsBuilt(edges[..i], n, rowOffsets[..], columns, current)
      invariant 0 <= current <= n && (current > 0 ==> i > 0 && current <= edges[i - 1].0)
    {
      var (u, v) := edges[i];
      if u >= n || v >= n {
        NextEdge(edges, i, n, rowOffsets[..], columns, current);
        continue;
      }
      current := AdvanceTo(u, current, rowOffsets, columns, edges[..i], n);
      NextEdge(edges, i, n, rowOffsets[..], columns, current);
      columns := columns + [v];
    }
    assert edges[..|edges|] == edges;
    current := AdvanceTo(n, current, rowOffsets, columns, edges, n);
    BuiltIsValid(edges, n, rowOffsets[..], columns);
    c := CompactCsr(rowOffsets[..], columns);
  }

  /** Starts every row from after `current` up to `target` at the current column. */
  method AdvanceTo(target: int, current: int, rowOffsets: array<int>, columns: seq<int>, ghost edges: seq<(int, int)>,
                   ghost n: int)
    returns (next: int)
    requires current <= target <= n && rowOffsets.Length == n + 1
    requires RowsBuilt(edges, n, rowOffsets[..], columns, current)
    modifies rowOffsets
    ensures next == target && RowsBuilt(edges, n, rowOffsets[..], columns, target)
  {
    next := current;
    assert 0 <= next;
    hide RowsBuilt;
    while next < target
      invariant 0 <= next <= target && RowsBuilt(edges, n, rowOffsets[..], columns, next)
    {
      NextRow(edges, n, rowOffsets[..], columns, next);
      ghost var before := rowOffsets[..];
      next := next + 1;
      rowOffsets[next] := |columns|;
      assert rowOffsets[..] == before[next := |columns|];
    }
  }

  lemma {:induction false} NoTargetsBeyond(edges: seq<(int, int)>, n: int, u: int)
    requires u >= n
    ensures TargetsOf(edges, n, u) == []
  {
    if edges != [] {
      NoTargetsBeyond(edges[..|edges| - 1], n, u);
    }
  }

  lemma BuiltIsValid(edges: seq<(int, int)>, n: int, offsets: seq<int>, columns: seq<int>)
    requires RowsBuilt(edges, n, offsets, columns, n)
    ensures CompactCsr(offsets, columns).Valid() && CompactCsr(offsets, columns).NodeCount() == n
    ensures forall u :: 0 <= u < n ==> CompactCsr(offsets, columns).Row(u) == TargetsOf(edges, n, u)
  {
    NoTargetsBeyond(edges, n, n);
    assert columns[offsets[n]..] == [];
  }

  // ----- the transpose -----

  ghost predicate NonDecreasing(s: seq<int>) {
    forall i, j :: 0 <= i < j < |s| ==> s[i] <= s[j]
  }

  /** `r` has the edges of `c` turned around, with multiplicity, and its rows in order. */
  ghost predicate IsTranspose(c: CompactCsr, r: CompactCsr) {
    && c.Valid() && r.Valid() && r.NodeCount() == c.NodeCount()
    && (forall u, v :: 0 <= u < c.NodeCount() && 0 <= v < c.NodeCount() ==>
          multiset(r.Row(v))[u] == multiset(c.Row(u))[v])
    && (forall v :: 0 <= v < c.NodeCount() ==> NonDecreasing(r.Row(v)))
  }

  /** How many columns are below `i`: where row `i` of the transpose begins. */
  ghost function CountBelow(columns: seq<int>, i: int): int {
    if columns == [] then 0 else
    CountBelow(columns[..|columns| - 1], i) + (if columns[|columns| - 1] < i then 1 else 0)
  }

  lemma {:induction false} CountBelowNext(columns: seq<int>, i: int)
    ensures CountBelow(columns, i + 1) == CountBelow(columns, i) + multiset(columns)[i]
  {
    if columns != [] {
      var k := |columns| - 1;
      CountBelowNext(columns[..k], i);
      assert columns == columns[..k] + [columns[k]];
    }
  }

  lemma {:induction false} CountBelowOrder(columns: seq<int>, i: int, j: int)
    requires i <= j
    ensures 0 <= CountBelow(columns, i) <= CountBelow(columns, j) <= |columns|
  {
    if columns != [] {
      CountBelowOrder(columns[..|columns| - 1], i, j);
    }
  }

  lemma {:induction false} CountBelowAll(columns: seq<int>, n: int)
    requires forall k :: 0 <= k < |columns| ==> 0 <= columns[k] < n
    ensures CountBelow(columns, n) == |columns| && CountBelow(columns, 0) == 0
  {
    if columns != [] {
      CountBelowAll(columns[..|columns| - 1], n);
    }
  }

  /** The first `pos` columns have been distributed: row `v` holds `filled[v]` from its start. */
  ghost predicate Distributed(columns: seq<int>, n: int, starts: seq<int>, next: seq<int>, out: seq<int>,
                              filled: seq<seq<int>>, pos: int) {
    && |starts| == |next| == n + 1 && |filled| == n && |out| == |columns| && 0 <= pos <= |columns|
    && (forall k :: 0 <= k < |columns| ==> 0 <= columns[k] < n)
    && (forall k :: 0 <= k < |out| ==> 0 <= out[k] < n)
    && (forall v :: 0 <= v <= n ==> starts[v] == CountBelow(columns, v))
    && (forall v :: 0 <= v < n ==> 0 <= starts[v] <= next[v] <= |out|)
    && (forall v :: 0 <= v < n ==> next[v] == starts[v] + Seen(columns, pos, v))
    && (forall v :: 0 <= v < n ==> Span(starts, next, out, v) == filled[v])
  }

  /** How often `v` is among the first `pos` columns. */
  ghost function Seen(columns: seq<int>, pos: int, v: int): nat
    requires 0 <= pos <= |columns|
  {
    multiset(columns[..pos])[v]
  }

  ghost function Span(starts: seq<int>, next: seq<int>, out: seq<int>, v: int): seq<int> {
    if 0 <= v < |starts| && v < |next| && 0 <= starts[v] <= next[v] <= |out| then out[starts[v]..next[v]] else []
  }

  /** The slot for the next column is inside its row and outside what the others hold. */
  lemma SlotIsFree(columns: seq<int>, n: int, starts: seq<int>, next: seq<int>, out: seq<int>,
                   filled: seq<seq<int>>, pos: int)
    requires Distributed(columns, n, starts, next, out, filled, pos) && pos < |columns|
    ensures var v := columns[pos];
            && 0 <= next[v] < |out|
            && forall w :: 0 <= w < n && w != v ==> next[w] <= next[v] || next[v] < starts[w]
  {
    var v := columns[pos];
    PrefixCount(columns, pos, v);
    CountBelowNext(columns, v);
    CountBelowOrder(columns, v, v + 1);
    CountBelowOrder(columns, v + 1, n);
    forall w | 0 <= w < n && w != v ensures next[w] <= next[v] || next[v] < starts[w] {
      PrefixBelow(columns, pos, w);
      CountBelowNext(columns, w);
      if w < v {
        CountBelowOrder(columns, w + 1, v);
      } else {
        CountBelowOrder(columns, v + 1, w);
      }
    }
  }

  lemma PrefixBelow(columns: seq<int>, pos: int, w: int)
    requires 0 <= pos <= |columns|
    ensures Seen(columns, pos, w) <= multiset(columns)[w]
  {
    assert columns == columns[..pos] + columns[pos..];
  }

  lemma PrefixCount(columns: seq<int>, pos: int, w: int)
    requires 0 <= pos < |columns|
    ensures Seen(columns, pos + 1, w) == Seen(columns, pos, w) + (if columns[pos] == w then 1 else 0)
    ensures Seen(columns, pos, columns[pos]) < multiset(columns)[columns[pos]]
  {
    assert columns[..pos + 1] == columns[..pos] + [columns[pos]];
    PrefixBelow(columns, pos + 1, columns[pos]);
  }

  lemma DistributeOne(columns: seq<int>, n: int, starts: seq<int>, next: seq<int>, out: seq<int>,
                      filled: seq<seq<int>>, pos: int, u: int)
    requires Distributed(columns, n, starts, next, out, filled, pos) && pos < |columns| && 0 <= u < n
    ensures var v := columns[pos];
            && 0 <= v < n && 0 <= next[v] < |out|
            && Distributed(columns, n, starts, next[v := next[v] + 1], out[next[v] := u],
                           filled[v := filled[v] + [u]], pos + 1)
  {
    var v := columns[pos];
    SlotIsFree(columns, n, starts, next, out, filled, pos);
    var next', out' := next[v := next[v] + 1], out[next[v] := u];
    hide CountBelow, Seen;
    forall w ensures Seen(columns, pos + 1, w) == Seen(columns, pos, w) + (if v == w then 1 else 0) {
      PrefixCount(columns, pos, w);
    }
    forall w | 0 <= w < n ensures Span(starts, next', out', w) == filled[v := filled[v] + [u]][w] {
      assert Span(starts, next, out, w) == filled[w];
      SpanStep(starts, next, out, v, u, w);
    }
    hide Span;
    assert Distributed(columns, n, starts, next', out', filled[v := filled[v] + [u]], pos + 1);
  }

  /** Writing the next slot of row `v` extends its span and leaves the others. */
  lemma SpanStep(starts: seq<int>, next: seq<int>, out: seq<int>, v: int, u: int, w: int)
    requires 0 <= v < |starts| == |next| && 0 <= starts[v] <= next[v] < |out|
    requires 0 <= w < |starts| && 0 <= starts[w] <= next[w] <= |out|
    requires w != v ==> next[w] <= next[v] || next[v] < starts[w]
    ensures Span(starts, next[v := next[v] + 1], out[next[v] := u], w)
            == Span(starts, next, out, w) + (if w == v then [u] else [])
  {
    var out' := out[next[v] := u];
    if w == v {
      assert out'[starts[v]..next[v] + 1] == out[starts[v]..next[v]] + [u];
    } else {
      assert out'[starts[w]..next[w]] == out[starts[w]..next[w]];
    }
  }

  /** How often the transpose lists `w` in row `v` once the rows before `u` and the first `j`
      columns of row `u` have been turned around. */
  ghost function TurnedCount(c: CompactCsr, u: int, j: int, v: int, w: int): int
    requires c.Valid() && 0 <= u && 0 <= j <= |c.Row(u)| && 0 <= w
  {
    if w < u then multiset(c.Row(w))[v] else if w == u then multiset(c.Row(u)[..j])[v] else 0
  }

  ghost predicate Turned(c: CompactCsr, filled: seq<seq<int>>, u: int, j: int) {
    && c.Valid() && 0 <= u && 0 <= j <= |c.Row(u)| && |filled| == c.NodeCount()
    && (forall v :: 0 <= v < |filled| ==>
          NonDecreasing(filled[v]) && forall i :: 0 <= i < |filled[v]| ==> filled[v][i] <= u)
    && (forall v, w :: 0 <= v < |filled| && 0 <= w < |filled| ==>
          multiset(filled[v])[w] == TurnedCount(c, u, j, v, w))
  }

  lemma TurnOne(c: CompactCsr, filled: seq<seq<int>>, u: int, j: int)
    requires Turned(c, filled, u, j) && j < |c.Row(u)| && 0 <= c.Row(u)[j] < |filled|
    ensures var v := c.Row(u)[j]; Turned(c, filled[v := filled[v] + [u]], u, j + 1)
  {
    var row := c.Row(u);
    var x := row[j];
    var filled' := filled[x := filled[x] + [u]];
    forall v, w | 0 <= v < |filled| && 0 <= w < |filled|
      ensures multiset(filled'[v])[w] == TurnedCount(c, u, j + 1, v, w)
    {
      assert multiset(filled[v])[w] == TurnedCount(c, u, j, v, w);
      PrefixStep(row, j, v);
    }
    forall v | 0 <= v < |filled|
      ensures NonDecreasing(filled'[v]) && forall i :: 0 <= i < |filled'[v]| ==> filled'[v][i] <= u
    {
      assert NonDecreasing(filled[v]);
    }
  }

  lemma PrefixStep(row: seq<int>, j: int, v: int)
    requires 0 <= j < |row|
    ensures multiset(row[..j + 1])[v] == multiset(row[..j])[v] + (if row[j] == v then 1 else 0)
  {
    assert row[..j + 1] == row[..j] + [row[j]];
  }

  lemma TurnNext(c: CompactCsr, filled: seq<seq<int>>, u: int)
    requires c.Valid() && 0 <= u && Turned(c, filled, u, |c.Row(u)|)
    ensures Turned(c, filled, u + 1, 0)
  {
    assert c.Row(u)[..|c.Row(u)|] == c.Row(u);
    assert c.Row(u + 1)[..0] == [];
  }

  /** Tallies how often each node is a target. */
  method CountTargets(columns: seq<int>, n: nat) returns (inDegrees: array<int>)
    requires forall k :: 0 <= k < |columns| ==> 0 <= columns[k] < n
    ensures fresh(inDegrees) && inDegrees.Length == n
    ensures forall v :: 0 <= v < n ==> inDegrees[v] == multiset(columns)[v]
  {
    inDegrees := new int[n](_ => 0);
    for k := 0 to |columns|
      invariant forall v :: 0 <= v < n ==> inDegrees[v] == multiset(columns[..k])[v]
    {
      inDegrees[columns[k]] := inDegrees[columns[k]] + 1;
      assert columns[..k + 1] == columns[..k] + [columns[k]];
    }
    assert columns[..|columns|] == columns;
  }

  /** The running sums of the indegrees. */
  method SumOffsets(columns: seq<int>, n: nat, inDegrees: array<int>) returns (rowOffsets: array<int>)
    requires inDegrees.Length == n && forall v :: 0 <= v < n ==> inDegrees[v] == multiset(columns)[v]
    requires forall k :: 0 <= k < |columns| ==> 0 <= columns[k] < n
    ensures fresh(rowOffsets) && rowOffsets.Length == n + 1
    ensures forall v :: 0 <= v <= n ==> rowOffsets[v] == CountBelow(columns, v)
  {
    rowOffsets := new int[n + 1](_ => 0);
    var sum := 0;
    CountBelowAll(columns, n);
    for i := 0 to n
      invariant sum == CountBelow(columns, i)
      invariant forall v :: 0 <= v < i ==> rowOffsets[v] == CountBelow(columns, v)
    {
      rowOffsets[i] := sum;
      CountBelowNext(columns, i);
      sum := sum + inDegrees[i];
    }
    rowOffsets[n] := sum;
  }

  lemma NothingDistributed(columns: seq<int>, n: nat, starts: seq<int>, out: seq<int>)
    requires |starts| == n + 1 && |out| == |columns| && forall k :: 0 <= k < |out| ==> out[k] == 0
    requires forall k :: 0 <= k < |columns| ==> 0 <= columns[k] < n
    requires forall v :: 0 <= v <= n ==> starts[v] == CountBelow(columns, v)
    ensures Distributed(columns, n, starts, starts, out, seq(n, _ => []), 0)
  {
    forall v | 0 <= v < n ensures 0 <= starts[v] <= |out| {
      CountBelowOrder(columns, v, v);
    }
    forall k | 0 <= k < |out| ensures 0 <= out[k] < n {
      assert 0 <= columns[k] < n;
    }
  }

  lemma NothingTurned(c: CompactCsr)
    requires c.Valid()
    ensures Turned(c, seq(c.NodeCount(), _ => []), 0, 0)
  {
    assert c.Row(0)[..0] == [];
  }

  /** Once every column is distributed, the arrays are the transpose. */
  lemma DistributedIsTranspose(c: CompactCsr, starts: seq<int>, next: seq<int>, out: seq<int>, filled: seq<seq<int>>)
    requires c.Valid() && Distributed(c.columns, c.NodeCount(), starts, next, out, filled, |c.columns|)
    requires Turned(c, filled, c.NodeCount(), 0)
    ensures IsTranspose(c, CompactCsr(starts, out))
  {
    var n := c.NodeCount();
    var r := CompactCsr(starts, out);
    assert c.columns[..|c.columns|] == c.columns;
    CountBelowAll(c.columns, n);
    forall i, j | 0 <= i <= j < |starts| ensures starts[i] <= starts[j] {
      CountBelowOrder(c.columns, i, j);
    }
    forall v | 0 <= v < n ensures r.Row(v) == filled[v] {
      CountBelowNext(c.columns, v);
      assert Span(starts, next, out, v) == filled[v];
    }
  }

  /** The counting-sort transpose. */
  method BuildReverse(c: CompactCsr) returns (r: CompactCsr)
    requires c.Valid()
    ensures IsTranspose(c, r)
  {
    var n := c.NodeCount();
    var inDegrees := CountTargets(c.columns, n);
    var rowOffsets := SumOffsets(c.columns, n, inDegrees);
    var current := new int[n + 1](i requires 0 <= i <= n reads rowOffsets => rowOffsets[i]);
    var columns := new int[|c.columns|](_ => 0);
    ghost var filled: seq<seq<int>> := seq(n, _ => []);
    assert current[..] == rowOffsets[..];
    NothingDistributed(c.columns, n, rowOffsets[..], columns[..]);
    NothingTurned(c);
    ghost var starts := rowOffsets[..];
    hide Distributed, Turned, IsTranspose, CountBelow;
    for u := 0 to n
      invariant rowOffsets[..] == starts
      invariant Distributed(c.columns, n, starts, current[..], columns[..], filled, c.rowOffsets[u])
      invariant Turned(c, filled, u, 0)
    {
      filled := TurnRow(c, u, current, columns, starts, filled);
    }
    DistributedIsTranspose(c, starts, current[..], columns[..], filled);
    r := CompactCsr(rowOffsets[..], columns[..]);
  }

  /** Turns the edges of row `u` around. */
  method TurnRow(c: CompactCsr, u: int, current: array<int>, columns: array<int>, ghost starts: seq<int>,
                 ghost filled: seq<seq<int>>)
    returns (ghost filled': seq<seq<int>>)
    requires c.Valid() && 0 <= u < c.NodeCount() && current != columns
    requires Distributed(c.columns, c.NodeCount(), starts, current[..], columns[..], filled, c.rowOffsets[u])
    requires Turned(c, filled, u, 0)
    modifies current, columns
    ensures Distributed(c.columns, c.NodeCount(), starts, current[..], columns[..], filled', c.rowOffsets[u + 1])
    ensures Turned(c, filled', u + 1, 0)
  {
    hide Distributed, Turned, IsTranspose;
    var row := c.Row(u);
    filled' := filled;
    for j := 0 to |row|
      invariant Distributed(c.columns, c.NodeCount(), starts, current[..], columns[..], filled', c.rowOffsets[u] + j)
      invariant Turned(c, filled', u, j)
    {
      var v := row[j];
      ghost var pos := c.rowOffsets[u] + j;
      assert c.columns[pos] == v;
      DistributeOne(c.columns, c.NodeCount(), starts, current[..], columns[..], filled', pos, u);
      FilledCount(c, filled', u, j);
      TurnOne(c, filled', u, j);
      DistributedLengths(c.columns, c.NodeCount(), starts, current[..], columns[..], filled', pos);
      ghost var current0, columns0 := current[..], columns[..];
      columns[current[v]] := u;
      current[v] := current[v] + 1;
      assert columns[..] == columns0[current0[v] := u];
      assert current[..] == current0[v := current0[v] + 1];
      filled' := filled'[v := filled'[v] + [u]];
    }
    TurnNext(c, filled', u);
  }

  lemma DistributedLengths(columns: seq<int>, n: int, starts: seq<int>, next: seq<int>, out: seq<int>,
                           filled: seq<seq<int>>, pos: int)
    requires Distributed(columns, n, starts, next, out, filled, pos)
    ensures |next| == n + 1 && |out| == |columns|
  {
  }

  lemma FilledCount(c: CompactCsr, filled: seq<seq<int>>, u: int, j: int)
    requires Turned(c, filled, u, j)
    ensures |filled| == c.NodeCount()
  {
  }

  /** The transpose has exactly the reversed edges. */
  lemma TransposeEdges(c: CompactCsr, r: CompactCsr)
    requires IsTranspose(c, r)
    ensures r.Edges() == Reversed(c.Edges())
  {
    forall u, v ensures (v, u) in r.Edges() <==> (v, u) in Reversed(c.Edges()) {
      if 0 <= u < c.NodeCount() && 0 <= v < c.NodeCount() {
        RowIsEdges(c, u, v);
        RowIsEdges(r, v, u);
        assert u in r.Row(v) <==> multiset(r.Row(v))[u] > 0;
        assert v in c.Row(u) <==> multiset(c.Row(u))[v] > 0;
      }
      EdgesInRange(c, u, v);
      EdgesInRange(r, v, u);
      ReversedEdge(c.Edges(), u, v);
    }
  }

  lemma ReversedEdge(g: set<(int, int)>, u: int, v: int)
    ensures (v, u) in Reversed(g) <==> (u, v) in g
  {
    if (u, v) in g {
      var e := (u, v);
      assert (e.1, e.0) in Reversed(g);
    }
  }

  lemma EdgesInRange(c: CompactCsr, u: int, v: int)
    requires c.Valid()
    ensures (u, v) in c.Edges() ==> 0 <= u < c.NodeCount() && 0 <= v < c.NodeCount()
  {
    RowIsEdges(c, u, v);
  }

  /** Two sequences in order with the same elements are the same. */
  lemma {:induction false} SortedUnique(a: seq<int>, b: seq<int>)
    requires NonDecreasing(a) && NonDecreasing(b) && multiset(a) == multiset(b)
    ensures a == b
  {
    hide NonDecreasing;
    SameSize(a, b);
    if a != [] {
      var k := |a| - 1;
      SameLast(a, b);
      SplitLast(a);
      SplitLast(b);
      SortedUnique(a[..k], b[..k]);
    }
  }

  lemma SameSize(a: seq<int>, b: seq<int>)
    requires multiset(a) == multiset(b)
    ensures |a| == |b|
  {
    assert |multiset(a)| == |a| && |multiset(b)| == |b|;
  }

  lemma SameLast(a: seq<int>, b: seq<int>)
    requires NonDecreasing(a) && NonDecreasing(b) && multiset(a) == multiset(b) && |a| == |b| > 0
    ensures a[|a| - 1] == b[|b| - 1]
    ensures multiset(a[..|a| - 1]) == multiset(b[..|b| - 1])
    ensures NonDecreasing(a[..|a| - 1]) && NonDecreasing(b[..|b| - 1])
  {
    FrontInOrder(a);
    FrontInOrder(b);
    hide NonDecreasing;
    var k := |a| - 1;
    SameElements(a, b, a[k]);
    SameElements(b, a, b[k]);
    LastIsLargest(a, b[k]);
    LastIsLargest(b, a[k]);
    SameFronts(a, b);
  }

  lemma FrontInOrder(a: seq<int>)
    requires a != [] && NonDecreasing(a)
    ensures NonDecreasing(a[..|a| - 1])
  {
  }

  lemma SameElements<T>(a: seq<T>, b: seq<T>, x: T)
    requires multiset(a) == multiset(b) && x in a
    ensures x in b
  {
    assert x in multiset(a);
  }

  lemma SameFronts<T>(a: seq<T>, b: seq<T>)
    requires multiset(a) == multiset(b) && |a| == |b| > 0 && a[|a| - 1] == b[|b| - 1]
    ensures multiset(a[..|a| - 1]) == multiset(b[..|b| - 1])
  {
    var k := |a| - 1;
    assert a == a[..k] + [a[k]] && b == b[..k] + [b[k]];
    assert multiset(a[..k]) == multiset(a) - multiset{a[k]};
  }

  lemma LastIsLargest(a: seq<int>, x: int)
    requires NonDecreasing(a) && x in a
    ensures x <= a[|a| - 1]
  {
  }

  lemma SplitLast(a: seq<int>)
    requires a != []
    ensures a == a[..|a| - 1] + [a[|a| - 1]] && multiset(a) == multiset(a[..|a| - 1]) + multiset{a[|a| - 1]}
  {
    assert a == a[..|a| - 1] + [a[|a| - 1]];
  }

  lemma {:induction false} SameRowsUpTo(c: CompactCsr, b: CompactCsr, u: int)
    requires c.Valid() && b.Valid() && b.NodeCount() == c.NodeCount() && 0 <= u <= c.NodeCount()
    requires forall w :: 0 <= w < c.NodeCount() ==> b.Row(w) == c.Row(w)
    ensures b.rowOffsets[..u + 1] == c.rowOffsets[..u + 1]
    ensures b.columns[..b.rowOffsets[u]] == c.columns[..c.rowOffsets[u]]
  {
    if u > 0 {
      SameRowsUpTo(c, b, u - 1);
      assert b.Row(u - 1) == c.Row(u - 1);
      var i, j := c.rowOffsets[u - 1], c.rowOffsets[u];
      assert b.rowOffsets[u - 1] == b.rowOffsets[..u][u - 1] == c.rowOffsets[..u][u - 1] == i;
      assert b.rowOffsets[u] == j;
      assert c.columns[..j] == c.columns[..i] + c.columns[i..j];
      assert b.columns[..j] == b.columns[..i] + b.columns[i..j];
      assert b.rowOffsets[..u + 1] == b.rowOffsets[..u] + [j];
      assert c.rowOffsets[..u + 1] == c.rowOffsets[..u] + [j];
    }
  }

  /** The rows determine the structure. */
  lemma SameRows(c: CompactCsr, b: CompactCsr)
    requires c.Valid() && b.Valid() && b.NodeCount() == c.NodeCount()
    requires forall w :: 0 <= w < c.NodeCount() ==> b.Row(w) == c.Row(w)
    ensures b == c
  {
    var n := c.NodeCount();
    SameRowsUpTo(c, b, n);
    assert b.rowOffsets[..n + 1] == b.rowOffsets && c.rowOffsets[..n + 1] == c.rowOffsets;
    assert b.columns[..|b.columns|] == b.columns && c.columns[..|c.columns|] == c.columns;
  }

  lemma RowsHaveSameElements(c: CompactCsr, r: CompactCsr, b: CompactCsr, u: int)
    requires IsTranspose(c, r) && IsTranspose(r, b) && 0 <= u < c.NodeCount()
    ensures multiset(b.Row(u)) == multiset(c.Row(u))
  {
    forall v ensures multiset(b.Row(u))[v] == multiset(c.Row(u))[v] {
      if 0 <= v < c.NodeCount() {
        assert multiset(r.Row(v))[u] == multiset(c.Row(u))[v];
        assert multiset(b.Row(u))[v] == multiset(r.Row(v))[u];
      } else {
        RowIsEdges(c, u, v);
        RowIsEdges(b, u, v);
        assert v !in c.Row(u) && v !in b.Row(u);
      }
    }
  }

  /** Transposing twice gives the structure back exactly when its rows are in order. */
  lemma TransposeTwice(c: CompactCsr, r: CompactCsr, b: CompactCsr)
    requires IsTranspose(c, r) && IsTranspose(r, b)
    ensures b == c <==> forall u :: 0 <= u < c.NodeCount() ==> NonDecreasing(c.Row(u))
  {
    if forall u :: 0 <= u < c.NodeCount() ==> NonDecreasing(c.Row(u)) {
      forall u | 0 <= u < c.NodeCount() ensures b.Row(u) == c.Row(u) {
        RowsHaveSameElements(c, r, b, u);
        SortedUnique(b.Row(u), c.Row(u));
      }
      SameRows(c, b);
    }
  }

  // ----- hop-bounded reachability -----

  /** Adds the nodes of a row to what is reached; those that are new join the next frontier. */
  method AddRow(row: seq<int>, reached: set<int>, next: seq<int>) returns (reached': set<int>, next': seq<int>)
    ensures reached' == reached + Elems(row) && Elems(next') == Elems(next) + (reached' - reached)
  {
    reached', next' := reached, next;
    for j := 0 to |row|
      invariant reached' == reached + Elems(row[..j]) && Elems(next') == Elems(next) + (reached' - reached)
    {
      assert row[..j + 1] == row[..j] + [row[j]];
      ElemsAppend(row[..j], row[j]);
      if row[j] !in reached' {
        ElemsAppend(next', row[j]);
        reached', next' := reached' + {row[j]}, next' + [row[j]];
      }
    }
    assert row[..|row|] == row;
  }

  lemma ExpansionStart<T(!new)>(g: set<(T, T)>, reached: set<T>)
    ensures IsExpansion(g, reached, {}, reached)
  {
  }

  lemma ExpansionNext<T(!new)>(g: set<(T, T)>, reached: set<T>, done: set<T>, reached': set<T>, node: T, row: set<T>)
    requires IsExpansion(g, reached, done, reached') && forall v :: v in row <==> (node, v) in g
    ensures IsExpansion(g, reached, done + {node}, reached' + row)
  {
  }

  /** Adds every neighbour of the frontier to `reached`; those that are new form the next frontier. */
  method Expand(c: CompactCsr, frontier: seq<int>, reached: set<int>) returns (next: seq<int>, reached': set<int>)
    requires c.Valid()
    ensures IsExpansion(c.Edges(), reached, Elems(frontier), reached')
    ensures reached <= reached' && Elems(next) == reached' - reached
  {
    hide IsExpansion, CompactCsr.Edges;
    ExpansionStart(c.Edges(), reached);
    next, reached' := [], reached;
    assert Elems(frontier[..0]) == {};
    for i := 0 to |frontier|
      invariant reached <= reached' && Elems(next) == reached' - reached
      invariant IsExpansion(c.Edges(), reached, Elems(frontier[..i]), reached')
    {
      var node := frontier[i];
      var row := c.Row(node);
      forall v ensures v in Elems(row) <==> (node, v) in c.Edges() {
        RowIsEdges(c, node, v);
      }
      ExpansionNext(c.Edges(), reached, Elems(frontier[..i]), reached', node, Elems(row));
      reached', next := AddRow(row, reached', next);
      assert frontier[..i + 1] == frontier[..i] + [node];
      ElemsAppend(frontier[..i], node);
    }
    assert frontier[..|frontier|] == frontier;
  }

  /** The nodes at distance at most `maxHops` from `from`. */
  method BfsWithin(c: CompactCsr, from: int, maxHops: nat) returns (reached: set<int>)
    requires c.Valid() && 0 <= from < c.NodeCount()
    ensures IsBall(c.Edges(), from, maxHops, reached)
  {
    hide IsHop, IsBall, IsClosed, IsExpansion, CompactCsr.Edges;
    ghost var g := c.Edges();
    reached := {from};
    var frontier := [from];
    FirstHop(g, from);
    assert Elems(frontier) == {from};
    for hop := 0 to maxHops
      invariant IsHop(g, from, hop, reached, Elems(frontier))
    {
      var next, reached' := Expand(c, frontier, reached);
      NextHop(g, from, hop, reached, Elems(frontier), reached');
      if next == [] {
        NothingNew(reached, reached');
        LastHop(g, from, hop, reached, Elems(frontier), maxHops);
        return;
      }
      frontier, reached := next, reached';
    }
    HopIsBall(g, from, maxHops, reached, Elems(frontier));
  }

  // ----- shortest paths -----

  /** `level` is the distance of every visited node, and `pred` a predecessor one level below. */
  ghost predicate Levels(g: set<(int, int)>, from: int, level: map<int, int>, pred: map<int, int>) {
    && from in level && level[from] == 0
    && (forall v :: v in level ==> 0 <= level[v] && (v == from || level[v] > 0))
    && (forall v :: v in level && v != from ==>
          v in pred && pred[v] in level && (pred[v], v) in g && level[v] == level[pred[v]] + 1)
    && (forall v, k: nat :: v in level && Within(g, from, v, k) ==> level[v] <= k)
  }

  /** Only open nodes may lead to a node not yet visited. */
  ghost predicate OnlyOpen(g: set<(int, int)>, level: map<int, int>, open: set<int>) {
    forall w, v :: (w, v) in g && w in level && w !in open ==> v in level
  }

  /** The queue is in order of level and spans at most two levels, starting at `d`. */
  ghost predicate Queued(level: map<int, int>, queue: seq<int>, d: int) {
    && (forall i :: 0 <= i < |queue| ==> queue[i] in level && d <= level[queue[i]] <= d + 1)
    && (forall i, j :: 0 <= i < j < |queue| ==> level[queue[i]] <= level[queue[j]])
  }

  /** Somewhere along a walk to an unvisited node, the visited part ends. */
  lemma {:induction false} FirstUnvisited(g: set<(int, int)>, level: map<int, int>, p: seq<int>, n: int)
    returns (i: int)
    requires IsWalk(g, p) && p[0] in level && 0 < n < |p| && p[n] !in level
    ensures 0 < i <= n && p[i - 1] in level && p[i] !in level
  {
    if p[n - 1] in level {
      i := n;
    } else {
      i := FirstUnvisited(g, level, p, n - 1);
    }
  }

  /** An unvisited neighbour of a node whose level is the lowest open one is no closer than one
      level further out. */
  lemma UnvisitedIsFar(g: set<(int, int)>, from: int, level: map<int, int>, pred: map<int, int>, open: set<int>,
                       d: int, x: int, k: nat)
    requires Levels(g, from, level, pred) && OnlyOpen(g, level, open)
    requires forall w :: w in open ==> w in level && d <= level[w]
    requires x !in level && Within(g, from, x, k)
    ensures d + 1 <= k
  {
    var p :| IsWalkFromTo(g, p, from, x) && |p| <= k + 1;
    var i := FirstUnvisited(g, level, p, |p| - 1);
    var w, v := p[i - 1], p[i];
    assert (w, v) in g;
    assert w in open;
    assert IsWalkFromTo(g, p[..i], from, w);
    assert Within(g, from, w, i - 1);
  }

  lemma AddLevel(g: set<(int, int)>, from: int, level: map<int, int>, pred: map<int, int>, open: set<int>,
                 current: int, x: int)
    requires Levels(g, from, level, pred) && OnlyOpen(g, level, open) && current in open && current in level
    requires forall w :: w in open ==> w in level && level[current] <= level[w]
    requires x !in level && (current, x) in g
    ensures Levels(g, from, level[x := level[current] + 1], pred[x := current])
    ensures OnlyOpen(g, level[x := level[current] + 1], open + {x})
  {
    var level', pred' := level[x := level[current] + 1], pred[x := current];
    forall v, k: nat | v in level' && Within(g, from, v, k) ensures level'[v] <= k {
      if v == x {
        UnvisitedIsFar(g, from, level, pred, open, level[current], x, k);
      }
    }
  }

  /** The search between two scanned edges: `current` is being scanned, the queue waits. */
  ghost predicate Searching(g: set<(int, int)>, from: int, level: map<int, int>, pred: map<int, int>,
                            current: int, queue: seq<int>) {
    && Levels(g, from, level, pred) && current in level
    && Queued(level, queue, level[current]) && OnlyOpen(g, level, Elems(queue) + {current})
  }

  lemma SearchingFacts(g: set<(int, int)>, from: int, level: map<int, int>, pred: map<int, int>,
                       current: int, queue: seq<int>)
    requires Searching(g, from, level, pred, current, queue)
    ensures Levels(g, from, level, pred) && current in level && OnlyOpen(g, level, Elems(queue) + {current})
  {
  }

  lemma VisitNeighbour(g: set<(int, int)>, from: int, level: map<int, int>, pred: map<int, int>,
                       current: int, queue: seq<int>, x: int)
    requires Searching(g, from, level, pred, current, queue) && x !in level && (current, x) in g
    ensures Searching(g, from, level[x := level[current] + 1], pred[x := current], current, queue + [x])
  {
    AddLevel(g, from, level, pred, Elems(queue) + {current}, current, x);
    ElemsAppend(queue, x);
    assert Elems(queue + [x]) + {current} == Elems(queue) + {current} + {x};
  }

  /** Follows the predecessors of `to` back to `from`. */
  method Trace(from: int, current: int, to: int, pred: map<int, int>, ghost g: set<(int, int)>,
               ghost level: map<int, int>)
    returns (path: seq<int>)
    requires Levels(g, from, level, pred) && current in level && (current, to) in g
    ensures IsWalkFromTo(g, path, from, to) && |path| == level[current] + 2
  {
    path := [to];
    var cur := current;
    ghost var walk := [to];
    while cur != from
      invariant cur in level && path == Backwards(walk) && IsWalk(g, walk) && walk[|walk| - 1] == to
      invariant (cur, walk[0]) in g && |walk| == level[current] - level[cur] + 1
      decreases level[cur]
    {
      PrependWalk(g, cur, walk);
      walk := [cur] + walk;
      path := path + [cur];
      cur := pred[cur];
    }
    PrependWalk(g, from, walk);
    walk := [from] + walk;
    path := path + [from];
    path := Backwards(path);
    BackwardsTwice(walk);
  }

  function Backwards(s: seq<int>): (r: seq<int>)
    ensures |r| == |s|
  {
    seq(|s|, i requires 0 <= i < |s| => s[|s| - 1 - i])
  }

  lemma BackwardsTwice(s: seq<int>)
    ensures Backwards(Backwards(s)) == s
  {
  }

  lemma PrependWalk(g: set<(int, int)>, x: int, walk: seq<int>)
    requires IsWalk(g, walk) && (x, walk[0]) in g
    ensures IsWalk(g, [x] + walk) && Backwards([x] + walk) == Backwards(walk) + [x]
  {
    JoinWalks(g, [x, walk[0]], walk, x, walk[0], walk[|walk| - 1]);
    assert [x, walk[0]] + walk[1..] == [x] + walk;
  }

  ghost predicate IsShortest(g: set<(int, int)>, from: int, to: int, p: seq<int>) {
    IsWalkFromTo(g, p, from, to) && forall q :: IsWalkFromTo(g, q, from, to) ==> |p| <= |q|
  }

  /** A target met for the first time is met over a shortest path. */
  lemma FoundIsShortest(g: set<(int, int)>, from: int, level: map<int, int>, pred: map<int, int>,
                        current: int, queue: seq<int>, to: int, p: seq<int>)
    requires Searching(g, from, level, pred, current, queue) && to !in level
    requires IsWalkFromTo(g, p, from, to) && |p| == level[current] + 2
    ensures IsShortest(g, from, to, p)
  {
    forall q | IsWalkFromTo(g, q, from, to) ensures |p| <= |q| {
      assert Within(g, from, to, |q| - 1);
      UnvisitedIsFar(g, from, level, pred, Elems(queue) + {current}, level[current], to, |q| - 1);
    }
  }

  /** Once its whole row is visited, `current` is no longer open. */
  lemma RowDone(c: CompactCsr, level: map<int, int>, queue: seq<int>, current: int)
    requires c.Valid() && OnlyOpen(c.Edges(), level, Elems(queue) + {current})
    requires forall v :: v in c.Row(current) ==> v in level
    ensures OnlyOpen(c.Edges(), level, Elems(queue))
  {
    forall w, v | (w, v) in c.Edges() && w in level && w !in Elems(queue) ensures v in level {
      if w == current {
        RowIsEdges(c, w, v);
      }
    }
  }

  lemma RowVisited(c: CompactCsr, current: int, v: int)
    requires c.Valid() && v in c.Row(current)
    ensures (current, v) in c.Edges() && v in Range(c.NodeCount())
  {
    RowIsEdges(c, current, v);
  }

  /** Scans the row of `current`. Stops at `to` with the path that leads there. */
  method ScanRow(c: CompactCsr, from: int, to: int, current: int, visited: set<int>, pred: map<int, int>,
                 queue: seq<int>, ghost level: map<int, int>)
    returns (path: Option<seq<int>>, visited': set<int>, pred': map<int, int>, queue': seq<int>,
             ghost level': map<int, int>)
    requires c.Valid() && visited == level.Keys && Searching(c.Edges(), from, level, pred, current, queue)
    requires to !in visited && visited <= Range(c.NodeCount())
    ensures path.Some? ==> IsShortest(c.Edges(), from, to, path.value)
    ensures path.None? ==>
              && visited' == level'.Keys && visited <= visited' <= Range(c.NodeCount()) && to !in visited'
              && Searching(c.Edges(), from, level', pred', current, queue')
              && OnlyOpen(c.Edges(), level', Elems(queue'))
              && (visited' == visited ==> queue' == queue)
  {
    hide Searching, IsShortest, Levels, OnlyOpen, IsWalk, Range, CompactCsr.Edges, CompactCsr.Valid;
    ghost var g := c.Edges();
    path, visited', pred', queue', level' := None, visited, pred, queue, level;
    var row := c.Row(current);
    for j := 0 to |row|
      invariant visited' == level'.Keys && visited <= visited' <= Range(c.NodeCount()) && to !in visited'
      invariant Searching(g, from, level', pred', current, queue')
      invariant forall v :: v in row[..j] ==> v in level'
      invariant visited' == visited ==> queue' == queue
    {
      var neighbour := row[j];
      RowVisited(c, current, neighbour);
      assert row[..j + 1] == row[..j] + [neighbour];
      SearchingFacts(g, from, level', pred', current, queue');
      if neighbour !in visited' {
        if neighbour == to {
          var p := Trace(from, current, to, pred', g, level');
          FoundIsShortest(g, from, level', pred', current, queue', to, p);
          path := Some(p);
          return;
        }
        VisitNeighbour(g, from, level', pred', current, queue', neighbour);
        visited' := visited' + {neighbour};
        level' := level'[neighbour := level'[current] + 1];
        pred' := pred'[neighbour := current];
        queue' := queue' + [neighbour];
      }
    }
    assert row[..|row|] == row;
    SearchingFacts(g, from, level', pred', current, queue');
    RowDone(c, level', queue', current);
  }

  lemma PopCurrent(g: set<(int, int)>, from: int, level: map<int, int>, pred: map<int, int>, queue: seq<int>)
    requires Levels(g, from, level, pred) && OnlyOpen(g, level, Elems(queue))
    requires queue != [] && queue[0] in level && Queued(level, queue, level[queue[0]])
    ensures Searching(g, from, level, pred, queue[0], queue[1..])
  {
    assert queue == [queue[0]] + queue[1..];
    assert forall x :: x in queue <==> x == queue[0] || x in queue[1..];
    assert Elems(queue) == Elems(queue[1..]) + {queue[0]};
  }

  /** The queue is in order from its first node on. */
  ghost predicate InOrder(level: map<int, int>, queue: seq<int>) {
    queue == [] || (queue[0] in level && Queued(level, queue, level[queue[0]]))
  }

  lemma StillInOrder(g: set<(int, int)>, from: int, level: map<int, int>, pred: map<int, int>, current: int,
                     queue: seq<int>)
    requires Searching(g, from, level, pred, current, queue)
    ensures Levels(g, from, level, pred) && InOrder(level, queue)
  {
  }

  lemma ExhaustedIsUnreachable(g: set<(int, int)>, from: int, level: map<int, int>, pred: map<int, int>, to: int)
    requires Levels(g, from, level, pred) && OnlyOpen(g, level, Elems([])) && to !in level
    ensures !Reaches(g, from, to)
  {
    if Reaches(g, from, to) {
      assert IsClosed(g, level.Keys) by {
        forall w, v | (w, v) in g && w in level.Keys ensures v in level.Keys {
          assert w !in Elems<int>([]);
        }
      }
      ClosedTraps(g, level.Keys, from, to);
      assert false;
    }
  }

  lemma StartLevels(g: set<(int, int)>, from: int)
    ensures Levels(g, from, map[from := 0], map[]) && OnlyOpen(g, map[from := 0], Elems([from]))
    ensures InOrder(map[from := 0], [from])
  {
    assert from in Elems([from]);
  }

  lemma TrivialPath(g: set<(int, int)>, from: int)
    ensures IsShortest(g, from, from, [from]) && Reaches(g, from, from)
  {
    ReachesSelf(g, from);
  }

  lemma ShortestReaches(g: set<(int, int)>, from: int, to: int, p: seq<int>)
    requires IsShortest(g, from, to, p)
    ensures Reaches(g, from, to)
  {
  }

  /** Breadth-first search for a shortest path between two nodes. */
  method ShortestPath(c: CompactCsr, from: int, to: int) returns (path: Option<seq<int>>)
    requires c.Valid() && 0 <= from < c.NodeCount()
    ensures path.Some? ==> IsShortest(c.Edges(), from, to, path.value)
    ensures path.None? <==> !Reaches(c.Edges(), from, to)
  {
    hide Searching, IsShortest, Levels, OnlyOpen, Reaches, CompactCsr.Edges, CompactCsr.Valid, Queued;
    ghost var g := c.Edges();
    if from == to {
      TrivialPath(g, from);
      return Some([from]);
    }
    var visited := {from};
    var pred: map<int, int> := map[];
    var queue := [from];
    ghost var level := map[from := 0];
    StartLevels(g, from);
    while queue != []
      invariant visited == level.Keys && visited <= Range(c.NodeCount()) && to !in visited
      invariant Levels(g, from, level, pred) && OnlyOpen(g, level, Elems(queue)) && InOrder(level, queue)
      decreases Range(c.NodeCount()) - visited, |queue|
    {
      PopCurrent(g, from, level, pred, queue);
      var current := queue[0];
      queue := queue[1..];
      path, visited, pred, queue, level := ScanRow(c, from, to, current, visited, pred, queue, level);
      if path.Some? {
        ShortestReaches(g, from, to, path.value);
        return;
      }
      StillInOrder(g, from, level, pred, current, queue);
    }
    ExhaustedIsUnreachable(g, from, level, pred, to);
    path := None;
  }

  // ----- from storage ids to dense indices -----

  predicate IntLess(a: int, b: int) {
    a < b
  }

  predicate PairLess(a: (int, int), b: (int, int)) {
    a.0 < b.0 || (a.0 == b.0 && a.1 < b.1)
  }

  /** The edges both of whose ends are known nodes. */
  ghost function Known(nodes: seq<int>, edges: seq<(int, int)>): set<(int, int)> {
    set e | e in edges && e.0 in nodes && e.1 in nodes
  }

  datatype CsrGraph = CsrGraph(csr: CompactCsr, indexToId: seq<int>)

  /** The structure indexes exactly the known edges among `nodes`, with rows in order. */
  ghost predicate Indexes(graph: CsrGraph, nodes: seq<int>, edges: seq<(int, int)>) {
    && graph.csr.Valid() && graph.csr.NodeCount() == |graph.indexToId|
    && (forall x :: x in graph.indexToId <==> x in nodes)
    && (forall i, j :: 0 <= i < j < |graph.indexToId| ==> graph.indexToId[i] < graph.indexToId[j])
    && Mirrors(graph.indexToId, graph.csr.Edges(), Known(nodes, edges))
    && (forall u :: 0 <= u < graph.csr.NodeCount() ==> NonDecreasing(graph.csr.Row(u)))
  }

  lemma {:induction false} TargetsMember(edges: seq<(int, int)>, n: int, u: int, v: int)
    ensures v in TargetsOf(edges, n, u) <==> (u, v) in edges && u < n && v < n
  {
    if edges != [] {
      var k := |edges| - 1;
      TargetsMember(edges[..k], n, u, v);
      var (a, b) := edges[k];
      assert edges == edges[..k] + [(a, b)];
      assert (u, v) in edges <==> (u, v) in edges[..k] || (u, v) == (a, b);
    }
  }

  lemma {:induction false} TargetsInOrder(edges: seq<(int, int)>, n: int, u: int)
    requires Increasing(PairLess, edges)
    ensures NonDecreasing(TargetsOf(edges, n, u))
  {
    if edges != [] {
      var k := |edges| - 1;
      TargetsInOrder(edges[..k], n, u);
      if edges[k].0 == u {
        forall i | 0 <= i < |TargetsOf(edges[..k], n, u)| ensures TargetsOf(edges[..k], n, u)[i] <= edges[k].1 {
          var v := TargetsOf(edges[..k], n, u)[i];
          TargetsMember(edges[..k], n, u, v);
          var j :| 0 <= j < k && edges[..k][j] == (u, v);
          assert PairLess(edges[j], edges[k]);
        }
      }
    }
  }

  /** Translates the edges between known ids into index pairs. */
  method CompactEdges(ids: seq<int>, edges: seq<(int, int)>) returns (compact: seq<(int, int)>)
    requires Increasing(IntLess, ids)
    ensures forall i, j :: (i, j) in compact <==>
              0 <= i < |ids| && 0 <= j < |ids| && (ids[i], ids[j]) in edges
  {
    OrdersAreStrict();
    IncreasingIsDistinct(IntLess, ids);
    hide IsStrictOrder, Increasing;
    compact := [];
    for k := 0 to |edges|
      invariant forall i, j :: (i, j) in compact <==>
                  0 <= i < |ids| && 0 <= j < |ids| && (ids[i], ids[j]) in edges[..k]
    {
      var (source, target) := edges[k];
      assert edges[..k + 1] == edges[..k] + [edges[k]];
      var u := BinarySearch(IntLess, ids, source);
      var v := BinarySearch(IntLess, ids, target);
      if u.Some? && v.Some? {
        compact := compact + [(u.value, v.value)];
      }
    }
    assert edges[..|edges|] == edges;
  }

  lemma OrdersAreStrict()
    ensures IsStrictOrder(IntLess) && IsStrictOrder(PairLess)
  {
  }

  lemma IncreasingBySource(edges: seq<(int, int)>)
    requires Increasing(PairLess, edges)
    ensures SortedBySource(edges)
  {
    forall i, j | 0 <= i < j < |edges| ensures edges[i].0 <= edges[j].0 {
      assert PairLess(edges[i], edges[j]);
    }
  }

  lemma CompactIndexes(nodes: seq<int>, edges: seq<(int, int)>, ids: seq<int>, sorted: seq<(int, int)>, c: CompactCsr)
    requires Increasing(IntLess, ids) && Distinct(ids) && forall x :: x in ids <==> x in nodes
    requires forall i, j :: (i, j) in sorted <==> 0 <= i < |ids| && 0 <= j < |ids| && (ids[i], ids[j]) in edges
    requires Increasing(PairLess, sorted)
    requires c.Valid() && c.NodeCount() == |ids|
    requires forall u :: 0 <= u < |ids| ==> c.Row(u) == TargetsOf(sorted, |ids|, u)
    ensures Indexes(CsrGraph(c, ids), nodes, edges)
  {
    var n := |ids|;
    forall u | 0 <= u < n ensures NonDecreasing(c.Row(u)) {
      TargetsInOrder(sorted, n, u);
    }
    forall i, j ensures (i, j) in c.Edges() <==> (i, j) in sorted {
      RowIsEdges(c, i, j);
      TargetsMember(sorted, n, i, j);
      if 0 <= i < n { assert c.Row(i) == TargetsOf(sorted, n, i); }
    }
    hide TargetsOf, CompactCsr.Edges;
    forall i, j | 0 <= i < n && 0 <= j < n
      ensures (i, j) in c.Edges() <==> (ids[i], ids[j]) in Known(nodes, edges)
    {
      assert ids[i] in ids && ids[j] in ids;
      KnownEdge(nodes, edges, ids[i], ids[j]);
      assert (i, j) in sorted <==> (ids[i], ids[j]) in edges;
    }
    forall a, b | (a, b) in Known(nodes, edges) ensures a in ids && b in ids {
      KnownEdge(nodes, edges, a, b);
    }
  }

  lemma KnownEdge(nodes: seq<int>, edges: seq<(int, int)>, a: int, b: int)
    ensures (a, b) in Known(nodes, edges) <==> (a, b) in edges && a in nodes && b in nodes
  {
  }

  method FromNodesAndEdges(nodes: seq<int>, edges: seq<(int, int)>) returns (graph: CsrGraph)
    ensures Indexes(graph, nodes, edges)
  {
    OrdersAreStrict();
    hide IsStrictOrder;
    var ids := SortDedup(IntLess, nodes);
    SortDedupSorts(IntLess, nodes);
    IncreasingIsDistinct(IntLess, ids);
    var compact := CompactEdges(ids, edges);
    var sorted := SortDedup(PairLess, compact);
    SortDedupSorts(PairLess, compact);
    IncreasingBySource(sorted);
    InRangePairs(|ids|, sorted);
    hide Increasing, SortDedup, Indexes, SortedBySource;
    var csr := FromSortedEdges(sorted, |ids|);
    CompactIndexes(nodes, edges, ids, sorted, csr);
    graph := CsrGraph(csr, ids);
  }

  lemma InRangePairs(n: int, edges: seq<(int, int)>)
    requires forall i, j :: (i, j) in edges ==> 0 <= i < n && 0 <= j < n
    ensures forall k :: 0 <= k < |edges| ==> 0 <= edges[k].0 && 0 <= edges[k].1
  {
    forall k | 0 <= k < |edges| ensures 0 <= edges[k].0 && 0 <= edges[k].1 {
      var (i, j) := edges[k];
      assert (i, j) in edges;
    }
  }

  // ----- queries -----

  ghost function IdsOf(graph: CsrGraph, indices: set<int>): set<int> {
    set i | i in indices && 0 <= i < |graph.indexToId| :: graph.indexToId[i]
  }

  /** The ids of a ball of indices are the ball of ids. */
  lemma BallOfIds(graph: CsrGraph, g: set<(int, int)>, h: set<(int, int)>, from: int, k: nat, reached: set<int>)
    requires Mirrors(graph.indexToId, g, h) && 0 <= from < |graph.indexToId| && IsBall(g, from, k, reached)
    ensures IsBall(h, graph.indexToId[from], k, IdsOf(graph, reached))
  {
    var ids := graph.indexToId;
    forall x ensures x in IdsOf(graph, reached) <==> Within(h, ids[from], x, k) {
      if x in ids {
        var j := Place(ids, x);
        MirrorWithin(ids, g, h, from, j, k);
        if x in IdsOf(graph, reached) {
          var i :| i in reached && 0 <= i < |ids| && ids[i] == x;
          assert i == j;
        }
      } else if Within(h, ids[from], x, k) {
        var p :| IsWalkFromTo(h, p, ids[from], x) && |p| <= k + 1;
        MirrorWalkBack(ids, g, h, p);
        assert false;
      }
    }
  }

  /** The nodes at distance at most `maxHops` from `from`, as indices; none for an unknown id. */
  method ReachableWithin(graph: CsrGraph, from: int, maxHops: nat, ghost nodes: seq<int>, ghost edges: seq<(int, int)>)
    returns (reached: set<int>)
    requires Indexes(graph, nodes, edges)
    ensures from in nodes ==> IsBall(Known(nodes, edges), from, maxHops, IdsOf(graph, reached))
    ensures from !in nodes ==> reached == {}
  {
    OrdersAreStrict();
    assert Increasing(IntLess, graph.indexToId);
    hide IsStrictOrder, Increasing;
    var index := BinarySearch(IntLess, graph.indexToId, from);
    if index.None? {
      return {};
    }
    reached := BfsWithin(graph.csr, index.value, maxHops);
    BallOfIds(graph, graph.csr.Edges(), Known(nodes, edges), index.value, maxHops, reached);
  }

  lemma MirrorReversed(labels: seq<int>, g: set<(int, int)>, h: set<(int, int)>)
    requires Mirrors(labels, g, h)
    ensures Mirrors(labels, Reversed(g), Reversed(h))
  {
    forall i, j ensures (i, j) in Reversed(g) <==> (j, i) in g {
      ReversedEdge(g, j, i);
    }
    forall a, b ensures (a, b) in Reversed(h) <==> (b, a) in h {
      ReversedEdge(h, b, a);
    }
  }

  /** The nodes from which `from` is at distance at most `maxHops`: a search over the transpose. */
  method CallersWithin(graph: CsrGraph, from: int, maxHops: nat, ghost nodes: seq<int>, ghost edges: seq<(int, int)>)
    returns (reached: set<int>)
    requires Indexes(graph, nodes, edges)
    ensures from in nodes ==> forall x :: x in IdsOf(graph, reached) <==> Within(Known(nodes, edges), x, from, maxHops)
    ensures from !in nodes ==> reached == {}
  {
    OrdersAreStrict();
    assert Increasing(IntLess, graph.indexToId);
    hide IsStrictOrder, Increasing;
    var index := BinarySearch(IntLess, graph.indexToId, from);
    if index.None? {
      return {};
    }
    var reverse := BuildReverse(graph.csr);
    TransposeEdges(graph.csr, reverse);
    MirrorReversed(graph.indexToId, graph.csr.Edges(), Known(nodes, edges));
    reached := BfsWithin(reverse, index.value, maxHops);
    BallOfIds(graph, reverse.Edges(), Reversed(Known(nodes, edges)), index.value, maxHops, reached);
    forall x ensures x in IdsOf(graph, reached) <==> Within(Known(nodes, edges), x, from, maxHops) {
      ReversedWithin(Known(nodes, edges), from, x, maxHops);
    }
  }

  /** A shortest walk along known edges, or nothing when an id is unknown or there is no walk. */
  method QueryPath(graph: CsrGraph, from: int, to: int, ghost nodes: seq<int>, ghost edges: seq<(int, int)>)
    returns (path: Option<seq<int>>)
    requires Indexes(graph, nodes, edges)
    ensures path.Some? ==> IsShortest(Known(nodes, edges), from, to, path.value)
    ensures path.None? <==> from !in nodes || to !in nodes || !Reaches(Known(nodes, edges), from, to)
  {
    var ids := graph.indexToId;
    OrdersAreStrict();
    assert Increasing(IntLess, ids);
    hide IsStrictOrder, Increasing;
    var fromIndex := BinarySearch(IntLess, ids, from);
    var toIndex := BinarySearch(IntLess, ids, to);
    if fromIndex.None? || toIndex.None? {
      return None;
    }
    var found := ShortestPath(graph.csr, fromIndex.value, toIndex.value);
    MirrorReaches(ids, graph.csr.Edges(), Known(nodes, edges), fromIndex.value, toIndex.value);
    if found.None? {
      return None;
    }
    MirrorShortest(ids, graph.csr.Edges(), Known(nodes, edges), fromIndex.value, toIndex.value, found.value);
    path := Some(LabelsOf(ids, found.value));
  }

  lemma MirrorShortest(ids: seq<int>, g: set<(int, int)>, h: set<(int, int)>, from: int, to: int, p: seq<int>)
    requires Mirrors(ids, g, h) && 0 <= from < |ids| && 0 <= to < |ids| && IsShortest(g, from, to, p)
    ensures forall i :: 0 <= i < |p| ==> 0 <= p[i] < |ids|
    ensures IsShortest(h, ids[from], ids[to], LabelsOf(ids, p)) && Reaches(g, from, to)
  {
    MirrorWalk(ids, g, h, p);
    var named := LabelsOf(ids, p);
    assert IsWalkFromTo(h, named, ids[from], ids[to]);
    forall q | IsWalkFromTo(h, q, ids[from], ids[to]) ensures |named| <= |q| {
      MirrorWalkBack(ids, g, h, q);
      assert IsWalkFromTo(g, PlacesOf(ids, q), from, to);
    }
  }
}
