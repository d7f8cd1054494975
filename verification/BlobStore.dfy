/** The committed snapshots of one repository: `<sha>.tar.zst` blobs with their modification times and
    the `HEAD` file (`commit_job`, `prune_retention`, `read_persisted_head` and `pull`). */
module BlobStore {
  import opened Graph
  import opened Strings
  import opened Wrappers

  type Bytes = seq<bv8>

  datatype Blob = Blob(time: int, content: Bytes)

  type Blobs = map<string, Blob>

  const SUFFIX := ".tar.zst"

  /** Strings that may become part of a path. */
  predicate IsSafe(s: string) {
    && s != "" && |s| <= 128 && s != "." && s != ".."
    && forall i :: 0 <= i < |s| ==> IsSafeChar(s[i])
  }

  predicate IsSafeChar(c: char) {
    'a' <= c <= 'z' || 'A' <= c <= 'Z' || '0' <= c <= '9' || c == '-' || c == '_' || c == '.'
  }

  /** A safe name stays inside its directory, and the names of commits are safe. */
  lemma SafeNames(s: string)
    ensures IsSafe(s) ==> 1 <= |s| <= 128 && s !in {".", ".."} && '/' !in s && '\\' !in s && ':' !in s && '\0' !in s
    ensures 1 <= |s| <= 128 && (forall i :: 0 <= i < |s| ==> '0' <= s[i] <= '9' || 'a' <= s[i] <= 'f') ==> IsSafe(s)
  {
    if IsSafe(s) {
      forall c | c in s ensures IsSafeChar(c) {
        var i :| 0 <= i < |s| && s[i] == c;
      }
    }
    assert s == "." || s == ".." ==> s[0] == '.';
  }

  // ----- retention -----

  /** Oldest first; equal times are ordered by file name. */
  predicate Older(blobs: Blobs, a: string, b: string)
    requires a in blobs && b in blobs
  {
    || blobs[a].time < blobs[b].time
    || (blobs[a].time == blobs[b].time && Less(a + SUFFIX, b + SUFFIX))
  }

  lemma OlderTransitive(blobs: Blobs, a: string, b: string, c: string)
    requires a in blobs && b in blobs && c in blobs
    requires Older(blobs, a, b) && Older(blobs, b, c)
    ensures Older(blobs, a, c)
  {
    if blobs[a].time == blobs[b].time == blobs[c].time {
      LessTransitive(a + SUFFIX, b + SUFFIX, c + SUFFIX);
    }
  }

  lemma OlderTotal(blobs: Blobs, a: string, b: string)
    requires a in blobs && b in blobs && a != b
    ensures Older(blobs, a, b) || Older(blobs, b, a)
  {
    LessTotal(a + SUFFIX, b + SUFFIX);
    assert (a + SUFFIX)[..|a + SUFFIX| - |SUFFIX|] == a && (b + SUFFIX)[..|b + SUFFIX| - |SUFFIX|] == b;
  }

  /** `after` is `before` less its oldest blobs, so that at most `retention` are left. */
  ghost predicate IsPruned(before: Blobs, retention: nat, after: Blobs) {
    && after.Keys <= before.Keys
    && (forall a :: a in after ==> after[a] == before[a])
    && |after| == (if |before| <= retention then |before| else retention)
    && (forall a, b :: a in before && a !in after && b in after ==> Older(before, a, b))
  }

  /** The newest blob survives a pruning exactly when anything may. */
  lemma NewestSurvives(before: Blobs, retention: nat, after: Blobs, newest: string)
    requires IsPruned(before, retention, after) && newest in before
    requires forall a :: a in before && a != newest ==> before[a].time < before[newest].time
    ensures newest in after <==> retention >= 1
  {
    if newest !in after && retention >= 1 {
      assert |before| >= 1 by { assert newest in before.Keys; }
      var b := AnyKey(after);
      assert false;
    }
  }

  /** What goes is older than what stays, or as old with a file name that comes before. */
  lemma OldestGo(before: Blobs, retention: nat, after: Blobs, a: string, b: string)
    requires IsPruned(before, retention, after) && a in before && a !in after && b in after
    ensures || before[a].time < before[b].time
            || (before[a].time == before[b].time && ComesBefore(a + ".tar.zst", b + ".tar.zst"))
  {
    assert Older(before, a, b);
    LessIsFirstDifference(a + SUFFIX, b + SUFFIX);
    hide Less, ComesBefore;
  }

  lemma AnyKey(m: Blobs) returns (k: string)
    requires |m| > 0
    ensures k in m
  {
    assert m.Keys != {};
    k :| k in m.Keys;
  }

  // ----- the HEAD file -----

  function ReadHead(file: Option<string>): Option<string> {
    if file.Some? && Trim(file.value) != "" then Some(Trim(file.value)) else None
  }

  /** The head is the text of the file between blanks, if there is any. */
  lemma HeadIsTrimmed(file: string, sha: string)
    ensures ReadHead(Some(file)) == Some(sha) <==> IsTrimmed(file, sha)
  {
    var front, back := TrimCutsBlanks(file);
    if IsTrimmed(file, sha) {
      var f, b :| IsBetween(file, f, sha, b);
      TrimFinds(f, sha, b);
    }
    if sha != "" && sha == Trim(file) {
      assert IsBetween(file, front, sha, back);
    }
  }

  ghost predicate IsBetween(file: string, front: string, sha: string, back: string) {
    file == front + sha + back && IsBlank(front) && IsBlank(back)
  }

  ghost predicate IsTrimmed(file: string, sha: string) {
    && sha != "" && !IsSpace(sha[0]) && !IsSpace(sha[|sha| - 1])
    && exists front, back :: IsBetween(file, front, sha, back)
  }

  lemma SafeHead(sha: string)
    requires IsSafe(sha)
    ensures ReadHead(Some(sha)) == Some(sha)
  {
    assert IsSafeChar(sha[0]) && IsSafeChar(sha[|sha| - 1]);
  }

  datatype Store = Store(blobs: Blobs, head: Option<string>)

  /** The content that `pull` finds for a commit or for "latest". */
  function Pull(store: Store, commit: string): Option<Bytes> {
    if commit != "latest" && !IsSafe(commit) then None else
    var sha := if commit == "latest" then ReadHead(store.head) else Some(commit);
    if sha.Some? && sha.value in store.blobs then Some(store.blobs[sha.value].content) else None
  }

  /** What committing a snapshot of `sha` does to the store. */
  ghost predicate Commits(before: Store, sha: string, retention: nat, content: Bytes, now: int, after: Store) {
    && after.head == Some(sha)
    && IsPruned(before.blobs[sha := Blob(now, content)], retention, after.blobs)
  }

  /** After a commit later than every blob, "latest" is what was committed, unless that commit asked for
      a retention of zero; then nothing is left to pull. */
  lemma LatestAfterCommit(before: Store, sha: string, retention: nat, content: Bytes, now: int, after: Store)
    requires IsSafe(sha) && Commits(before, sha, retention, content, now, after)
    requires forall a :: a in before.blobs ==> before.blobs[a].time < now
    ensures Pull(after, "latest") == if retention >= 1 then Some(content) else None
  {
    SafeHead(sha);
    NewestSurvives(before.blobs[sha := Blob(now, content)], retention, after.blobs, sha);
  }

  /** A commit by its name is found exactly if its name is safe and it is stored, and then with its content. */
  lemma PullByName(store: Store, commit: string, content: Bytes)
    requires commit != "latest"
    ensures Pull(store, commit) == Some(content) <==>
              IsSafe(commit) && commit in store.blobs && store.blobs[commit].content == content
  {
    hide IsSafe;
  }

  /** What a commit does to pulls by name: of its own snapshots the new content replaces the old; another one
      is as it was, or gone if as many that are not older are kept as were asked for. */
  lemma NamedAfterCommit(before: Store, sha: string, retention: nat, content: Bytes, now: int, after: Store,
                         commit: string)
    requires Commits(before, sha, retention, content, now, after) && commit != "latest" && IsSafe(commit)
    ensures var was := if commit == sha then Some(content) else Pull(before, commit);
            || Pull(after, commit) == was
            || (&& Pull(after, commit) == None && |after.blobs| == retention
                && var all := before.blobs[sha := Blob(now, content)];
                   forall b :: b in after.blobs ==> all[commit].time <= after.blobs[b].time)
    ensures retention > |before.blobs| ==>
              Pull(after, commit) == if commit == sha then Some(content) else Pull(before, commit)
  {
    hide IsSafe;
    var all := before.blobs[sha := Blob(now, content)];
    assert all.Keys == before.blobs.Keys + {sha};
    if retention > |before.blobs| && commit in all && commit !in after.blobs {
      SubsetCount(after.blobs.Keys, all.Keys - {commit});
      assert false;
    }
  }

  // ----- the methods -----

  ghost predicate OldestFirst(blobs: Blobs, names: seq<string>) {
    && (forall i :: 0 <= i < |names| ==> names[i] in blobs)
    && (forall i, j :: 0 <= i < j < |names| ==> Older(blobs, names[i], names[j]))
  }

  function InsertByAge(blobs: Blobs, a: string, names: seq<string>): seq<string>
    requires a in blobs && forall i :: 0 <= i < |names| ==> names[i] in blobs
  {
    if names == [] then [a]
    else if Older(blobs, a, names[0]) then [a] + names
    else [names[0]] + InsertByAge(blobs, a, names[1..])
  }

  lemma {:induction false} InsertByAgeSorts(blobs: Blobs, a: string, names: seq<string>)
    requires a in blobs && a !in names && OldestFirst(blobs, names)
    ensures OldestFirst(blobs, InsertByAge(blobs, a, names))
    ensures Elems(InsertByAge(blobs, a, names)) == Elems(names) + {a}
    ensures |InsertByAge(blobs, a, names)| == |names| + 1
  {
    if names != [] {
      var first, rest := names[0], names[1..];
      assert names == [first] + rest;
      if Older(blobs, a, first) {
        AheadOfAll(blobs, a, names);
      } else {
        OlderTotal(blobs, a, first);
        InsertByAgeSorts(blobs, a, rest);
        HeadStaysFirst(blobs, first, a, rest, InsertByAge(blobs, a, rest));
      }
    }
  }

  lemma AheadOfAll(blobs: Blobs, a: string, names: seq<string>)
    requires a in blobs && names != [] && OldestFirst(blobs, names) && Older(blobs, a, names[0])
    ensures OldestFirst(blobs, [a] + names)
  {
    hide Older;
    forall j | 0 < j < |names| ensures Older(blobs, a, names[j]) {
      OlderTransitive(blobs, a, names[0], names[j]);
    }
  }

  lemma HeadStaysFirst(blobs: Blobs, first: string, a: string, rest: seq<string>, tail: seq<string>)
    requires first in blobs && a in blobs && OldestFirst(blobs, [first] + rest) && OldestFirst(blobs, tail)
    requires Older(blobs, first, a) && Elems(tail) == Elems(rest) + {a}
    ensures OldestFirst(blobs, [first] + tail)
  {
    hide Older;
    forall j | 0 <= j < |tail| ensures Older(blobs, first, tail[j]) {
      assert tail[j] in Elems(tail);
      if tail[j] != a {
        var k :| 0 <= k < |rest| && rest[k] == tail[j];
        var all := [first] + rest;
        assert all[0] == first && all[k + 1] == tail[j];
      }
    }
  }

  lemma CountKeys(blobs: Blobs, names: seq<string>)
    requires Distinct(names) && Elems(names) == blobs.Keys
    ensures |names| == |blobs|
  {
    DistinctCount(names);
  }

  lemma AgedIsDistinct(blobs: Blobs, names: seq<string>)
    requires OldestFirst(blobs, names)
    ensures Distinct(names)
  {
    forall i, j | 0 <= i < j < |names| ensures names[i] != names[j] {
      assert Older(blobs, names[i], names[j]);
      LessIrreflexive(names[i] + SUFFIX);
    }
  }

  class RepoStore {
    var blobs: Blobs
    var head: Option<string>

    ghost function View(): Store
      reads this
    {
      Store(blobs, head)
    }

    method ByAge() returns (names: seq<string>)
      ensures OldestFirst(blobs, names) && Elems(names) == blobs.Keys && |names| == |blobs|
    {
      hide Older, InsertByAge;
      names := [];
      var todo := blobs.Keys;
      while todo != {}
        invariant todo <= blobs.Keys
        invariant OldestFirst(blobs, names) && Elems(names) == blobs.Keys - todo
        decreases todo
      {
        var a := Pick(todo);
        assert a !in Elems(names);
        InsertByAgeSorts(blobs, a, names);
        names := InsertByAge(blobs, a, names);
        todo := todo - {a};
      }
      AgedIsDistinct(blobs, names);
      CountKeys(blobs, names);
    }

    method Prune(retention: nat)
      modifies this`blobs
      ensures IsPruned(old(blobs), retention, blobs)
    {
      hide Older;
      var names := ByAge();
      ghost var before := blobs;
      if |names| > retention {
        var i := 0;
        while i < |names| - retention
          invariant 0 <= i <= |names| - retention
          invariant Left(before, names, i, blobs)
        {
          LeaveNext(before, names, i, blobs);
          blobs := blobs - {names[i]};
          i := i + 1;
        }
        LeftIsPruned(before, names, retention, blobs);
      }
    }

    method Commit(sha: string, retention: nat, content: Bytes, now: int)
      modifies this
      ensures Commits(old(View()), sha, retention, content, now, View())
    {
      blobs := blobs[sha := Blob(now, content)];
      head := Some(sha);
      Prune(retention);
    }
  }

  /** All but the first `i` names are left. */
  ghost predicate Left(before: Blobs, names: seq<string>, i: nat, after: Blobs) {
    && i <= |names| && OldestFirst(before, names) && Elems(names) == before.Keys
    && after.Keys == Elems(names[i..])
    && (forall a :: a in after ==> a in before && after[a] == before[a])
  }

  lemma LeaveNext(before: Blobs, names: seq<string>, i: nat, after: Blobs)
    requires i < |names| && Left(before, names, i, after)
    ensures Left(before, names, i + 1, after - {names[i]})
  {
    hide Older;
    AgedIsDistinct(before, names);
    DropFirst(names, i);
  }

  lemma DropFirst(names: seq<string>, i: nat)
    requires i < |names| && Distinct(names)
    ensures Elems(names[i + 1..]) == Elems(names[i..]) - {names[i]}
  {
    assert names[i..] == [names[i]] + names[i + 1..];
  }

  lemma LeftIsPruned(before: Blobs, names: seq<string>, retention: nat, after: Blobs)
    requires |names| == |before| > retention && Left(before, names, |names| - retention, after)
    ensures IsPruned(before, retention, after)
  {
    hide Older, OldestFirst;
    var i := |names| - retention;
    AgedIsDistinct(before, names);
    CountKeys(after, names[i..]);
    hide Elems, Distinct;
    forall a, b | a in before && a !in after && b in after ensures Older(before, a, b) {
      LeftIsYounger(before, names, i, a, b);
    }
  }

  lemma LeftIsYounger(before: Blobs, names: seq<string>, i: nat, a: string, b: string)
    requires i <= |names| && OldestFirst(before, names)
    requires a in Elems(names) && a !in Elems(names[i..]) && b in Elems(names[i..])
    ensures Older(before, a, b)
  {
    hide Older;
    var j := PositionBefore(names, i, a);
    var k :| 0 <= k < |names[i..]| && names[i..][k] == b;
    assert names[i + k] == b;
  }

  lemma PositionBefore(names: seq<string>, i: nat, a: string) returns (j: nat)
    requires i <= |names| && a in Elems(names) && a !in Elems(names[i..])
    ensures j < i && names[j] == a
  {
    j :| 0 <= j < |names| && names[j] == a;
  }
}
