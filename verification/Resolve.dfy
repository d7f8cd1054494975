/** Edit distance as `levenshtein` computes it, with two rows and a shortcut on equal bytes, and
    the ranking of suggestions in `resolve_symbol`. */
module Resolve {
  import opened Graph
  import opened Wrappers

  type Bytes = seq<int>

  // ----- single-byte edits -----

  datatype Edit = Insert(at: nat, b: int) | Delete(at: nat) | Substitute(at: nat, b: int)

  predicate Applies(e: Edit, s: Bytes) {
    if e.Insert? then e.at <= |s| else e.at < |s|
  }

  function Apply(e: Edit, s: Bytes): Bytes
    requires Applies(e, s)
  {
    match e
    case Insert(at, b) => s[..at] + [b] + s[at..]
    case Delete(at) => s[..at] + s[at + 1..]
    case Substitute(at, b) => s[at := b]
  }

  /** Every edit of `es` applies in turn, from `a` on, and the last leaves `b`. */
  ghost predicate Turns(a: Bytes, es: seq<Edit>, b: Bytes)
    decreases |es|
  {
    if es == [] then a == b else Applies(es[0], a) && Turns(Apply(es[0], a), es[1..], b)
  }

  // ----- the recurrence -----

  function Min(a: nat, b: nat): nat {
    if a <= b then a else b
  }

  /** The textbook recurrence: the cheapest of deleting, inserting and keeping or substituting the
      last byte. */
  function Distance(a: Bytes, b: Bytes): nat
    decreases |a| + |b|
  {
    if a == [] then |b| else if b == [] then |a| else
    var a', b' := a[..|a| - 1], b[..|b| - 1];
    Min(Distance(a', b) + 1,
        Min(Distance(a, b') + 1, Distance(a', b') + (if a[|a| - 1] == b[|b| - 1] then 0 else 1)))
  }

  /** Deleting the last byte of the target costs at most one. */
  lemma {:induction false} DropLast(a: Bytes, b: Bytes)
    requires b != []
    ensures Distance(a, b[..|b| - 1]) <= Distance(a, b) + 1
    decreases |a| + |b|
  {
    if a != [] {
      DropLast(a[..|a| - 1], b);
    }
  }

  lemma {:induction false} Symmetric(a: Bytes, b: Bytes)
    ensures Distance(a, b) == Distance(b, a)
    decreases |a| + |b|
  {
    if a != [] && b != [] {
      var a', b' := a[..|a| - 1], b[..|b| - 1];
      Symmetric(a', b);
      Symmetric(a, b');
      Symmetric(a', b');
    }
  }

  /** On equal last bytes the diagonal is already the minimum. */
  lemma MatchTakesDiagonal(a: Bytes, b: Bytes)
    requires a != [] && b != [] && a[|a| - 1] == b[|b| - 1]
    ensures Distance(a, b) == Distance(a[..|a| - 1], b[..|b| - 1])
  {
    var a', b' := a[..|a| - 1], b[..|b| - 1];
    DropLast(a', b);
    DropLast(b', a);
    Symmetric(a, b');
    Symmetric(a', b');
  }

  /** Changing the last byte of the target costs at most one. */
  lemma {:induction false} ChangeLast(a: Bytes, b: Bytes, x: int)
    requires b != []
    ensures Distance(a, b[|b| - 1 := x]) <= Distance(a, b) + 1
    decreases |a|
  {
    var c := b[|b| - 1 := x];
    assert c[..|b| - 1] == b[..|b| - 1];
    if a != [] {
      ChangeLast(a[..|a| - 1], b, x);
    }
  }

  /** The edit `e`, which is not at the last byte of `s + [x]`, acts on `s` alone. */
  lemma EditBeforeLast(e: Edit, s: Bytes, x: int)
    requires Applies(e, s)
    ensures Applies(e, s + [x]) && Apply(e, s + [x]) == Apply(e, s) + [x]
  {
  }

  /** One edit of the target changes the distance by at most one. */
  lemma {:induction false} EditCostsOne(a: Bytes, b: Bytes, e: Edit)
    requires Applies(e, b)
    ensures Distance(a, Apply(e, b)) <= Distance(a, b) + 1
    decreases |a| + |b|
  {
    hide Distance;
    var c := Apply(e, b);
    if e.Insert? && e.at == |b| {
      assert c[..|c| - 1] == b;
      AppendCostsOne(a, c);
    } else if e.Delete? && e.at == |b| - 1 {
      assert c == b[..|b| - 1];
      DropLast(a, b);
    } else if e.Substitute? && e.at == |b| - 1 {
      ChangeLast(a, b, e.b);
    } else {
      var n := |b| - 1;
      var b', x := b[..n], b[n];
      assert b == b' + [x];
      EditBeforeLast(e, b', x);
      var c' := Apply(e, b');
      assert c == c' + [x];
      EditCostsOne(a, b', e);
      if a != [] {
        EditCostsOne(a[..|a| - 1], b, e);
        EditCostsOne(a[..|a| - 1], b', e);
      }
      LongerByOne(a, b', c', x);
    }
  }

  lemma LongerByOne(a: Bytes, b: Bytes, c: Bytes, x: int)
    requires Distance(a, c) <= Distance(a, b) + 1
    requires a != [] ==> var a' := a[..|a| - 1];
                         Distance(a', c + [x]) <= Distance(a', b + [x]) + 1 && Distance(a', c) <= Distance(a', b) + 1
    ensures Distance(a, c + [x]) <= Distance(a, b + [x]) + 1
  {
    assert (b + [x])[..|b|] == b && (c + [x])[..|c|] == c;
  }

  lemma AppendCostsOne(a: Bytes, c: Bytes)
    requires c != []
    ensures Distance(a, c) <= Distance(a, c[..|c| - 1]) + 1
  {
  }

  lemma {:induction false} SelfDistance(a: Bytes)
    ensures Distance(a, a) == 0
  {
    if a != [] {
      SelfDistance(a[..|a| - 1]);
    }
  }

  lemma {:induction false} EditsCostOneEach(o: Bytes, a: Bytes, es: seq<Edit>, b: Bytes)
    requires Turns(a, es, b)
    ensures Distance(o, b) <= Distance(o, a) + |es|
    decreases |es|
  {
    if es != [] {
      EditCostsOne(o, a, es[0]);
      EditsCostOneEach(o, Apply(es[0], a), es[1..], b);
    }
  }

  lemma {:induction false} TurnsThen(a: Bytes, es: seq<Edit>, b: Bytes, e: Edit)
    requires Turns(a, es, b) && Applies(e, b)
    ensures Turns(a, es + [e], Apply(e, b))
    decreases |es|
  {
    if es == [] {
      assert Turns(Apply(e, a), [e][1..], Apply(e, b));
    } else {
      TurnsThen(Apply(es[0], a), es[1..], b, e);
      assert (es + [e])[1..] == es[1..] + [e];
    }
  }

  /** Edits of a prefix leave what follows it alone. */
  lemma {:induction false} TurnsBeforeLast(a: Bytes, es: seq<Edit>, b: Bytes, x: int)
    requires Turns(a, es, b)
    ensures Turns(a + [x], es, b + [x])
    decreases |es|
  {
    if es != [] {
      EditBeforeLast(es[0], a, x);
      TurnsBeforeLast(Apply(es[0], a), es[1..], b, x);
    }
  }

  lemma TurnsAfter(e: Edit, a: Bytes, es: seq<Edit>, b: Bytes)
    requires Applies(e, a) && Turns(Apply(e, a), es, b)
    ensures Turns(a, [e] + es, b)
  {
    assert ([e] + es)[1..] == es;
  }

  /** As many edits as the distance says do turn `a` into `b`. */
  lemma DeleteFirst(a: Bytes, es: seq<Edit>, b: Bytes) returns (more: seq<Edit>)
    requires a != [] && Turns(a[..|a| - 1], es, b)
    ensures Turns(a, more, b) && |more| == |es| + 1
  {
    hide Turns;
    var n := |a| - 1;
    assert Apply(Delete(n), a) == a[..n];
    TurnsAfter(Delete(n), a, es, b);
    more := [Delete(n)] + es;
  }

  lemma InsertLast(a: Bytes, es: seq<Edit>, b: Bytes) returns (more: seq<Edit>)
    requires b != [] && Turns(a, es, b[..|b| - 1])
    ensures Turns(a, more, b) && |more| == |es| + 1
  {
    hide Turns;
    var m := |b| - 1;
    var e := Insert(m, b[m]);
    assert Apply(e, b[..m]) == b;
    TurnsThen(a, es, b[..m], e);
    more := es + [e];
  }

  lemma DistanceCases(a: Bytes, b: Bytes)
    ensures a == [] ==> Distance(a, b) == |b|
    ensures b == [] ==> Distance(a, b) == |a|
    ensures a != [] && b != [] ==>
              var a', b' := a[..|a| - 1], b[..|b| - 1];
              || Distance(a, b) == Distance(a', b) + 1
              || Distance(a, b) == Distance(a, b') + 1
              || Distance(a, b) == Distance(a', b') + (if a[|a| - 1] == b[|b| - 1] then 0 else 1)
    ensures a != [] && b == [] ==> Distance(a, b) == Distance(a[..|a| - 1], b) + 1
    ensures b != [] && a == [] ==> Distance(a, b) == Distance(a, b[..|b| - 1]) + 1
  {
  }

  lemma {:induction false} BestEdits(a: Bytes, b: Bytes) returns (es: seq<Edit>)
    ensures Turns(a, es, b) && |es| == Distance(a, b)
    decreases |a| + |b|
  {
    if a == [] && b == [] {
      es := [];
      assert Turns(a, es, b);
      return;
    }
    DistanceCases(a, b);
    hide Turns, Distance;
    if a != [] && (b == [] || Distance(a, b) == Distance(a[..|a| - 1], b) + 1) {
      es := BestEdits(a[..|a| - 1], b);
      es := DeleteFirst(a, es, b);
    } else if b != [] && (a == [] || Distance(a, b) == Distance(a, b[..|b| - 1]) + 1) {
      es := BestEdits(a, b[..|b| - 1]);
      es := InsertLast(a, es, b);
    } else {
      es := KeepOrSubstitute(a, b);
    }
  }

  lemma {:induction false} KeepOrSubstitute(a: Bytes, b: Bytes) returns (es: seq<Edit>)
    requires a != [] && b != []
    requires Distance(a, b) == Distance(a[..|a| - 1], b[..|b| - 1]) + (if a[|a| - 1] == b[|b| - 1] then 0 else 1)
    ensures Turns(a, es, b) && |es| == Distance(a, b)
    decreases |a| + |b|, 0
  {
    hide Turns, Distance;
    var n, m := |a| - 1, |b| - 1;
    var a', b', y := a[..n], b[..m], b[m];
    es := BestEdits(a', b');
    TurnsBeforeLast(a', es, b', y);
    assert b == b' + [y];
    if a[n] == y {
      assert a == a' + [y];
    } else {
      var e := Substitute(n, y);
      assert Apply(e, a) == a' + [y];
      TurnsAfter(e, a, es, b);
      es := [e] + es;
    }
  }

  /** `k` is the least number of single-byte edits that turn `a` into `b`. */
  ghost predicate IsEditDistance(a: Bytes, b: Bytes, k: nat) {
    && (exists es :: Turns(a, es, b) && |es| == k)
    && (forall es :: Turns(a, es, b) ==> k <= |es|)
  }

  lemma DistanceIsEditDistance(a: Bytes, b: Bytes)
    ensures IsEditDistance(a, b, Distance(a, b))
  {
    var best := BestEdits(a, b);
    forall es | Turns(a, es, b) ensures Distance(a, b) <= |es| {
      SelfDistance(a);
      EditsCostOneEach(a, a, es, b);
    }
  }

  // ----- the two-row table -----

  /** The distance of two prefixes. */
  ghost function Cell(a: Bytes, b: Bytes, i: nat, j: nat): nat
    requires i <= |a| && j <= |b|
  {
    Distance(a[..i], b[..j])
  }

  lemma CellStep(a: Bytes, b: Bytes, i: nat, j: nat)
    requires i < |a| && j < |b|
    ensures Cell(a, b, i + 1, j + 1)
            == if a[i] == b[j] then Cell(a, b, i, j)
               else 1 + Min(Min(Cell(a, b, i, j), Cell(a, b, i, j + 1)), Cell(a, b, i + 1, j))
  {
    var p, q := a[..i + 1], b[..j + 1];
    assert p[..i] == a[..i] && q[..j] == b[..j];
    if a[i] == b[j] {
      MatchTakesDiagonal(p, q);
    }
  }

  lemma FirstCells(a: Bytes, b: Bytes, i: nat, j: nat)
    requires i <= |a| && j <= |b|
    ensures Cell(a, b, i, 0) == i && Cell(a, b, 0, j) == j && Cell(a, b, |a|, |b|) == Distance(a, b)
  {
    assert a[..|a|] == a && b[..|b|] == b;
  }

  /** Fills the row of `a[..i + 1]` from the row of `a[..i]`. */
  method FillRow(a: Bytes, b: Bytes, i: nat, prev: array<nat>, curr: array<nat>)
    requires i < |a| && prev != curr && prev.Length == curr.Length == |b| + 1
    requires forall j :: 0 <= j <= |b| ==> prev[j] == Cell(a, b, i, j)
    modifies curr
    ensures forall j :: 0 <= j <= |b| ==> curr[j] == Cell(a, b, i + 1, j)
  {
    FirstCells(a, b, i + 1, 0);
    hide Cell;
    curr[0] := i + 1;
    for j := 0 to |b|
      invariant forall k :: 0 <= k <= |b| ==> prev[k] == Cell(a, b, i, k)
      invariant forall k :: 0 <= k <= j ==> curr[k] == Cell(a, b, i + 1, k)
    {
      CellStep(a, b, i, j);
      curr[j + 1] := if a[i] == b[j] then prev[j] else 1 + Min(Min(prev[j], prev[j + 1]), curr[j]);
    }
  }

  /** The least number of single-byte inserts, deletes and substitutions that turn `a` into `b`. */
  method Levenshtein(a: Bytes, b: Bytes) returns (distance: nat)
    ensures IsEditDistance(a, b, distance)
    ensures distance == Distance(a, b)
  {
    var prev := new nat[|b| + 1](i => i);
    var curr := new nat[|b| + 1](_ => 0);
    forall j | 0 <= j <= |b| ensures prev[j] == Cell(a, b, 0, j) {
      FirstCells(a, b, 0, j);
    }
    hide Cell;
    for i := 0 to |a|
      invariant fresh(prev) && fresh(curr) && prev != curr && prev.Length == curr.Length == |b| + 1
      invariant forall j :: 0 <= j <= |b| ==> prev[j] == Cell(a, b, i, j)
    {
      FillRow(a, b, i, prev, curr);
      prev, curr := curr, prev;
    }
    FirstCells(a, b, 0, 0);
    DistanceIsEditDistance(a, b);
    distance := prev[|b|];
  }

  // ----- resolving a symbol name -----

  datatype Node = Node(id: int, symbol: Bytes)

  datatype Resolution = Found(id: int) | Suggestions(names: seq<Bytes>)

  const MAX_SUGGESTIONS := 5

  function Lower(s: Bytes): Bytes {
    seq(|s|, i requires 0 <= i < |s| => if 65 <= s[i] <= 90 then s[i] + 32 else s[i])
  }

  /** `symbol` is `name`, or ends in it after a double colon. */
  predicate HasShortName(symbol: Bytes, name: Bytes) {
    var suffix := [58, 58] + name;
    symbol == name || (|suffix| <= |symbol| && symbol[|symbol| - |suffix|..] == suffix)
  }

  /** The first node that is called `symbol`, up to case if `folded`. */
  function FirstMatch(nodes: seq<Node>, symbol: Bytes, folded: bool): (r: Option<Node>)
    ensures r.Some? ==> r.value in nodes && Same(r.value.symbol, symbol, folded)
    ensures r.None? <==> forall n :: n in nodes ==> !Same(n.symbol, symbol, folded)
  {
    if nodes == [] then None
    else if Same(nodes[0].symbol, symbol, folded) then Some(nodes[0])
    else FirstMatch(nodes[1..], symbol, folded)
  }

  predicate Same(a: Bytes, b: Bytes, folded: bool) {
    if folded then Lower(a) == Lower(b) else a == b
  }

  function ShortNameMatches(nodes: seq<Node>, name: Bytes): (r: seq<Node>)
    ensures forall n :: n in r <==> n in nodes && HasShortName(n.symbol, name)
  {
    if nodes == [] then [] else
    var rest := ShortNameMatches(nodes[..|nodes| - 1], name);
    if HasShortName(nodes[|nodes| - 1].symbol, name) then rest + [nodes[|nodes| - 1]] else rest
  }

  // ----- what the matches are -----

  /** The same byte, or the two cases of one ASCII letter. */
  predicate SameLetter(x: int, y: int) {
    x == y || (65 <= x <= 90 && y == x + 32) || (65 <= y <= 90 && x == y + 32)
  }

  ghost predicate SameUpToCase(a: Bytes, b: Bytes) {
    |a| == |b| && forall i :: 0 <= i < |a| ==> SameLetter(a[i], b[i])
  }

  lemma LowerFoldsCase(a: Bytes, b: Bytes)
    ensures Lower(a) == Lower(b) <==> SameUpToCase(a, b)
  {
    if Lower(a) == Lower(b) {
      forall i | 0 <= i < |a| ensures SameLetter(a[i], b[i]) {
        assert Lower(a)[i] == Lower(b)[i];
      }
    }
  }

  /** `symbol` is the name, or some qualifier, a double colon and the name. */
  ghost predicate IsCalled(symbol: Bytes, name: Bytes) {
    symbol == name || exists qualifier: Bytes :: symbol == qualifier + [58, 58] + name
  }

  lemma ShortNameIsCalled(symbol: Bytes, name: Bytes)
    ensures HasShortName(symbol, name) <==> IsCalled(symbol, name)
  {
    var suffix := [58, 58] + name;
    if symbol != name && HasShortName(symbol, name) {
      var qualifier := symbol[..|symbol| - |suffix|];
      assert symbol == qualifier + suffix;
      assert qualifier + suffix == qualifier + [58, 58] + name;
    }
    if qualifier: Bytes :| symbol == qualifier + [58, 58] + name {
      assert symbol == qualifier + suffix;
      assert symbol[|symbol| - |suffix|..] == suffix;
    }
  }

  /** Node `i` is the first one whose symbol satisfies `fits`. */
  ghost predicate IsFirst(nodes: seq<Node>, fits: Bytes -> bool, i: nat) {
    i < |nodes| && fits(nodes[i].symbol) && forall j :: 0 <= j < i ==> !fits(nodes[j].symbol)
  }

  ghost predicate HasAny(nodes: seq<Node>, fits: Bytes -> bool) {
    exists i :: 0 <= i < |nodes| && fits(nodes[i].symbol)
  }

  /** `at` are the places of all nodes whose symbol satisfies `fits`, in order. */
  ghost predicate AreAll(nodes: seq<Node>, fits: Bytes -> bool, at: seq<nat>) {
    && (forall k :: 0 <= k < |at| ==> at[k] < |nodes| && fits(nodes[at[k]].symbol))
    && (forall k, l :: 0 <= k < l < |at| ==> at[k] < at[l])
    && (forall i :: 0 <= i < |nodes| && fits(nodes[i].symbol) ==> i in at)
  }

  lemma {:induction false} FirstMatchIsFirst(nodes: seq<Node>, symbol: Bytes, folded: bool, fits: Bytes -> bool)
    requires forall s :: fits(s) <==> Same(s, symbol, folded)
    ensures var r := FirstMatch(nodes, symbol, folded);
            && (r.Some? <==> HasAny(nodes, fits))
            && (r.Some? ==> exists i: nat :: IsFirst(nodes, fits, i) && r == Some(nodes[i]))
  {
    hide Same;
    if nodes != [] {
      if fits(nodes[0].symbol) {
        assert IsFirst(nodes, fits, 0);
      } else {
        var rest := nodes[1..];
        FirstMatchIsFirst(rest, symbol, folded, fits);
        var r := FirstMatch(rest, symbol, folded);
        if r.Some? {
          var i: nat :| IsFirst(rest, fits, i) && r == Some(rest[i]);
          assert IsFirst(nodes, fits, i + 1) && nodes[i + 1] == rest[i];
        } else {
          assert forall i :: 0 < i < |nodes| ==> nodes[i] == rest[i - 1];
        }
      }
    }
  }

  lemma NoneAtAll(fits: Bytes -> bool)
    ensures AreAll([], fits, [])
  {
  }

  lemma AllNext(nodes: seq<Node>, fits: Bytes -> bool, at: seq<nat>)
    requires nodes != [] && AreAll(nodes[..|nodes| - 1], fits, at)
    ensures AreAll(nodes, fits, if fits(nodes[|nodes| - 1].symbol) then at + [|nodes| - 1] else at)
  {
    var n := |nodes| - 1;
    var more := if fits(nodes[n].symbol) then at + [n] else at;
    forall k | 0 <= k < |more| ensures more[k] < |nodes| && fits(nodes[more[k]].symbol) {
      if k < |at| {
        assert nodes[..n][at[k]] == nodes[at[k]];
      }
    }
    forall i | 0 <= i < |nodes| && fits(nodes[i].symbol) ensures i in more {
      if i < n {
        assert nodes[..n][i] == nodes[i];
        assert i in at;
      } else {
        assert more[|at|] == n;
      }
    }
  }

  lemma {:induction false} MatchesAreAll(nodes: seq<Node>, name: Bytes, fits: Bytes -> bool) returns (at: seq<nat>)
    requires forall s :: fits(s) <==> HasShortName(s, name)
    ensures var r := ShortNameMatches(nodes, name);
            AreAll(nodes, fits, at) && |at| == |r|
            && forall k :: 0 <= k < |at| ==> at[k] < |nodes| && r[k] == nodes[at[k]]
  {
    hide HasShortName, AreAll;
    at := [];
    if nodes == [] {
      NoneAtAll(fits);
    } else {
      var n := |nodes| - 1;
      at := MatchesAreAll(nodes[..n], name, fits);
      AllNext(nodes, fits, at);
      if fits(nodes[n].symbol) {
        at := at + [n];
      }
    }
  }

  // ----- the ranking -----

  /** Byte by byte, the first difference decides; a prefix comes first. */
  ghost predicate ComesFirst(a: Bytes, b: Bytes) {
    a <= b || exists k :: 0 <= k < |a| && k < |b| && a[..k] == b[..k] && a[k] < b[k]
  }

  lemma {:induction false} LexIsByteOrder(a: Bytes, b: Bytes)
    requires LexLeq(a, b)
    ensures ComesFirst(a, b)
  {
    if a != [] && a[0] == b[0] {
      LexIsByteOrder(a[1..], b[1..]);
      assert a == [a[0]] + a[1..] && b == [b[0]] + b[1..];
      if k :| 0 <= k < |a[1..]| && k < |b[1..]| && a[1..][..k] == b[1..][..k] && a[1..][k] < b[1..][k] {
        assert a[..k + 1] == [a[0]] + a[1..][..k] && b[..k + 1] == [b[0]] + b[1..][..k];
        assert a[k + 1] < b[k + 1];
      }
    } else if a != [] {
      assert a[..0] == b[..0];
    }
  }

  predicate LexLeq(a: Bytes, b: Bytes) {
    a == [] || (b != [] && (a[0] < b[0] || (a[0] == b[0] && LexLeq(a[1..], b[1..]))))
  }

  type Ranked = (Node, nat)

  /** By distance, then by name. */
  predicate RankLeq(x: Ranked, y: Ranked) {
    x.1 < y.1 || (x.1 == y.1 && LexLeq(x.0.symbol, y.0.symbol))
  }

  lemma {:induction false} LexTransitive(a: Bytes, b: Bytes, c: Bytes)
    requires LexLeq(a, b) && LexLeq(b, c)
    ensures LexLeq(a, c)
  {
    if a != [] && a[0] == b[0] == c[0] {
      LexTransitive(a[1..], b[1..], c[1..]);
    }
  }

  lemma {:induction false} LexTotal(a: Bytes, b: Bytes)
    ensures LexLeq(a, b) || LexLeq(b, a)
  {
    if a != [] && b != [] && a[0] == b[0] {
      LexTotal(a[1..], b[1..]);
    }
  }

  ghost predicate InRankOrder(s: seq<Ranked>) {
    forall i, j :: 0 <= i < j < |s| ==> RankLeq(s[i], s[j])
  }

  function InsertRanked(x: Ranked, s: seq<Ranked>): seq<Ranked> {
    if s == [] then [x] else
    var last := s[|s| - 1];
    if RankLeq(last, x) then s + [x] else InsertRanked(x, s[..|s| - 1]) + [last]
  }

  lemma RankTransitive(x: Ranked, y: Ranked, z: Ranked)
    requires RankLeq(x, y) && RankLeq(y, z)
    ensures RankLeq(x, z)
  {
    if x.1 == y.1 == z.1 {
      LexTransitive(x.0.symbol, y.0.symbol, z.0.symbol);
    }
  }

  lemma RankTotal(x: Ranked, y: Ranked)
    ensures RankLeq(x, y) || RankLeq(y, x)
  {
    LexTotal(x.0.symbol, y.0.symbol);
  }

  lemma AppendInOrder(s: seq<Ranked>, x: Ranked)
    requires InRankOrder(s) && forall y :: y in s ==> RankLeq(y, x)
    ensures InRankOrder(s + [x])
  {
    hide RankLeq;
  }

  lemma {:induction false} InsertRankedSorts(x: Ranked, s: seq<Ranked>)
    requires InRankOrder(s)
    ensures InRankOrder(InsertRanked(x, s))
    ensures multiset(InsertRanked(x, s)) == multiset(s) + multiset{x}
  {
    hide RankLeq;
    if s != [] {
      var last, rest := s[|s| - 1], s[..|s| - 1];
      assert s == rest + [last];
      RankTotal(last, x);
      if RankLeq(last, x) {
        forall y | y in s ensures RankLeq(y, x) {
          if y != last {
            RankTransitive(y, last, x);
          }
        }
        AppendInOrder(s, x);
      } else {
        InsertRankedSorts(x, rest);
        var r := InsertRanked(x, rest);
        forall y | y in r ensures RankLeq(y, last) {
          assert y in multiset(r);
        }
        AppendInOrder(r, last);
      }
    }
  }

  /** Ranks all nodes by edit distance to the name, case folded. */
  method Rank(nodes: seq<Node>, symbol: Bytes) returns (ranked: seq<Ranked>)
    ensures InRankOrder(ranked)
    ensures multiset(ranked) == multiset(Distances(nodes, symbol))
  {
    ranked := [];
    for i := 0 to |nodes|
      invariant InRankOrder(ranked) && multiset(ranked) == multiset(Distances(nodes[..i], symbol))
    {
      hide InRankOrder, Distance, IsEditDistance, InsertRanked, Lower;
      var distance := Levenshtein(Lower(nodes[i].symbol), Lower(symbol));
      InsertRankedSorts((nodes[i], distance), ranked);
      ranked := InsertRanked((nodes[i], distance), ranked);
      assert nodes[..i + 1][..i] == nodes[..i];
    }
    assert nodes[..|nodes|] == nodes;
  }

  /** Every node with its edit distance to the name. */
  ghost function Distances(nodes: seq<Node>, symbol: Bytes): seq<Ranked> {
    if nodes == [] then [] else
    var n := nodes[|nodes| - 1];
    Distances(nodes[..|nodes| - 1], symbol) + [(n, Distance(Lower(n.symbol), Lower(symbol)))]
  }

  /** The suggestions are the names of the first five nodes of a ranking of all nodes. */
  ghost predicate AreClosest(nodes: seq<Node>, symbol: Bytes, names: seq<Bytes>, ranked: seq<Ranked>) {
    && InRankOrder(ranked) && multiset(ranked) == multiset(Distances(nodes, symbol))
    && |ranked| == |nodes| && |names| == Min(5, |nodes|)
    && forall i :: 0 <= i < |names| ==> names[i] == ranked[i].0.symbol
  }

  /** What resolving a name promises: the first node of that name, or else the first up to case, or else the
      only node whose short name it is. Several of those are all suggested in the order of the nodes, and
      failing everything the closest names are. Suggestions stay within five exactly when at most five
      short names match. */
  ghost predicate IsResolved(nodes: seq<Node>, symbol: Bytes, r: Resolution) {
    if HasAny(nodes, s => s == symbol) then
      exists i: nat :: IsFirst(nodes, s => s == symbol, i) && r == Found(nodes[i].id)
    else if HasAny(nodes, s => SameUpToCase(s, symbol)) then
      exists i: nat :: IsFirst(nodes, s => SameUpToCase(s, symbol), i) && r == Found(nodes[i].id)
    else
      exists at :: AreAll(nodes, s => IsCalled(s, symbol), at) && IsFannedOut(nodes, symbol, at, r)
  }

  ghost predicate IsFannedOut(nodes: seq<Node>, symbol: Bytes, at: seq<nat>, r: Resolution)
    requires forall k :: 0 <= k < |at| ==> at[k] < |nodes|
  {
    && (r.Suggestions? ==> (|r.names| <= 5 <==> |at| <= 5))
    && if |at| == 1 then r == Found(nodes[at[0]].id)
       else if at == [] then r.Suggestions? && exists ranked :: AreClosest(nodes, symbol, r.names, ranked)
       else
         && r.Suggestions? && |r.names| == |at|
         && forall k :: 0 <= k < |at| ==> r.names[k] == nodes[at[k]].symbol
  }

  /** An exact match wins, then the first match up to case, then a single short-name match. */
  method ResolveSymbol(nodes: seq<Node>, symbol: Bytes) returns (r: Resolution)
    ensures IsResolved(nodes, symbol, r)
  {
    ghost var isExact, isFolded, isCalled := s => s == symbol, s => SameUpToCase(s, symbol), s => IsCalled(s, symbol);
    forall s: Bytes ensures isFolded(s) <==> Same(s, symbol, true) {
      LowerFoldsCase(s, symbol);
    }
    FirstMatchIsFirst(nodes, symbol, false, isExact);
    FirstMatchIsFirst(nodes, symbol, true, isFolded);
    hide FirstMatch, ShortNameMatches, AreAll, IsFirst, HasAny, IsFannedOut, SameUpToCase, IsCalled;
    var exact := FirstMatch(nodes, symbol, false);
    if exact.Some? {
      return Found(exact.value.id);
    }
    var folded := FirstMatch(nodes, symbol, true);
    if folded.Some? {
      return Found(folded.value.id);
    }
    forall s: Bytes ensures isCalled(s) <==> HasShortName(s, symbol) {
      ShortNameIsCalled(s, symbol);
    }
    ghost var at := MatchesAreAll(nodes, symbol, isCalled);
    r := FanOut(nodes, symbol, at);
  }

  method FanOut(nodes: seq<Node>, symbol: Bytes, ghost at: seq<nat>) returns (r: Resolution)
    requires var short := ShortNameMatches(nodes, symbol);
             |at| == |short| && forall k :: 0 <= k < |at| ==> at[k] < |nodes| && short[k] == nodes[at[k]]
    ensures IsFannedOut(nodes, symbol, at, r)
  {
    hide ShortNameMatches;
    var short := ShortNameMatches(nodes, symbol);
    if |short| == 1 {
      return Found(short[0].id);
    }
    if |short| > 1 {
      return Suggestions(seq(|short|, i requires 0 <= i < |short| => short[i].symbol));
    }
    var order := Rank(nodes, symbol);
    DistancesCount(nodes, symbol);
    assert |multiset(order)| == |multiset(Distances(nodes, symbol))|;
    r := Suggestions(seq(Min(MAX_SUGGESTIONS, |order|), i requires 0 <= i < |order| => order[i].0.symbol));
    assert AreClosest(nodes, symbol, r.names, order);
  }

  lemma {:induction false} AllMatch(nodes: seq<Node>, name: Bytes)
    requires forall i :: 0 <= i < |nodes| ==> HasShortName(nodes[i].symbol, name)
    ensures |ShortNameMatches(nodes, name)| == |nodes|
  {
    hide HasShortName;
    if nodes != [] {
      AllMatch(nodes[..|nodes| - 1], name);
    }
  }

  /** Asked for "f", six symbols from "a::f" to "f::f" are all suggested. */
  method ResolveExample() returns (r: Resolution)
    ensures r.Suggestions? && |r.names| == 6 > MAX_SUGGESTIONS
  {
    var f, nodes := [102], seq(6, i => Node(i, [97 + i, 58, 58, 102]));
    forall i | 0 <= i < 6 ensures HasShortName(nodes[i].symbol, f) && |nodes[i].symbol| == 4 {
      assert nodes[i].symbol[1..] == [58, 58] + f;
    }
    AllMatch(nodes, f);
    assert !HasAny(nodes, s => s == f) && !HasAny(nodes, s => SameUpToCase(s, f));
    ghost var isCalled := s => IsCalled(s, f);
    forall s: Bytes ensures isCalled(s) <==> HasShortName(s, f) {
      ShortNameIsCalled(s, f);
    }
    ghost var at := MatchesAreAll(nodes, f, isCalled);
    r := ResolveSymbol(nodes, f);
    ghost var at' :| AreAll(nodes, s => IsCalled(s, f), at') && IsFannedOut(nodes, f, at', r);
    hide HasShortName, IsCalled, SameUpToCase;
    AllOnce(nodes, isCalled, at, at');
  }

  /** The places are determined. */
  lemma AllOnce(nodes: seq<Node>, fits: Bytes -> bool, a: seq<nat>, b: seq<nat>)
    requires AreAll(nodes, fits, a) && AreAll(nodes, fits, b)
    ensures |a| == |b|
  {
    DistinctCount(a);
    DistinctCount(b);
    assert Elems(a) == Elems(b);
  }

  /** What is suggested comes in the order of the distance to the name asked for, up to case, and then of
      the bytes; so no name left out is closer than one suggested. */
  lemma SuggestionsAreClosest(nodes: seq<Node>, symbol: Bytes, names: seq<Bytes>, ranked: seq<Ranked>, i: nat, j: nat)
    requires AreClosest(nodes, symbol, names, ranked) && i < |names| && i < j < |ranked|
    ensures ranked[j] in Distances(nodes, symbol)
    ensures var d := Distance(Lower(names[i]), Lower(symbol));
            var e := Distance(Lower(ranked[j].0.symbol), Lower(symbol));
            d < e || (d == e && ComesFirst(names[i], ranked[j].0.symbol))
  {
    assert ranked[i] in multiset(ranked) && ranked[j] in multiset(ranked);
    RankIsDistance(nodes, symbol, ranked[i]);
    RankIsDistance(nodes, symbol, ranked[j]);
    assert RankLeq(ranked[i], ranked[j]);
    if ranked[i].1 == ranked[j].1 {
      LexIsByteOrder(ranked[i].0.symbol, ranked[j].0.symbol);
    }
  }

  lemma {:induction false} RankIsDistance(nodes: seq<Node>, symbol: Bytes, x: Ranked)
    requires x in Distances(nodes, symbol)
    ensures x.0 in nodes && x.1 == Distance(Lower(x.0.symbol), Lower(symbol))
  {
    var k := |nodes| - 1;
    if x in Distances(nodes[..k], symbol) {
      RankIsDistance(nodes[..k], symbol, x);
    }
  }

  /** Every node is ranked. */
  lemma {:induction false} DistancesCount(nodes: seq<Node>, symbol: Bytes)
    ensures |Distances(nodes, symbol)| == |nodes|
    ensures forall i :: 0 <= i < |nodes| ==> Distances(nodes, symbol)[i].0 == nodes[i]
  {
    if nodes != [] {
      DistancesCount(nodes[..|nodes| - 1], symbol);
    }
  }
}
