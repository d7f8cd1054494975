/** What holds in every interleaving of the registry's steps, from a repository just opened. */
module RegistryRuns {
  import opened BlobStore
  import opened Registry
  import opened Spool
  import opened Wrappers

  // ----- steps of an upload -----

  predicate IsUploadStep(step: Step) {
    step.TakeToken? || step.Reserve? || step.Release? || step.Expire? || step.Write? || step.Discard?
  }

  /** Nothing differs but the reservations, the rate and the partial uploads. */
  ghost predicate OnlyUploads(r: Repo, s: Repo) {
    s == r.(head := r.head.(reservations := s.head.reservations), rate := s.rate, partials := s.partials)
  }

  lemma UploadStep(config: Config, r: Repo, step: Step)
    requires Enabled(r, step) && IsUploadStep(step)
    ensures OnlyUploads(r, Apply(config, r, step))
  {
    hide IsSafe, RateLimiter.Take, ExpiredUploads;
  }

  // ----- sequence numbers -----

  /** Accepted pushes are numbered one after the other from `first`. */
  ghost predicate Numbered(r: Repo, first: int) {
    && 0 <= first && r.head.nextSeq == first + |r.accepted|
    && (forall i :: 0 <= i < |r.accepted| ==> r.accepted[i].job.number == first + i)
    && (forall j :: j in r.arrived || j in r.renaming || j in r.lost ==> 0 <= j.number < r.head.nextSeq)
  }

  /** No two jobs of the registry share a number. */
  ghost predicate Separate(r: Repo) {
    && DistinctNumbers(r.arrived.Keys + r.renaming + r.lost)
    && r.renaming !! r.arrived.Keys && r.renaming !! r.lost && r.lost !! r.arrived.Keys
  }

  lemma AcceptNumbered(config: Config, r: Repo, sha: string, base: Option<string>, retention: nat, first: int)
    requires Numbered(r, first)
    ensures Numbered(ApplyAccept(config, r, sha, base, retention), first)
  {
  }

  lemma AcceptSeparate(config: Config, r: Repo, sha: string, base: Option<string>, retention: nat, first: int)
    requires Numbered(r, first) && Separate(r)
    ensures Separate(ApplyAccept(config, r, sha, base, retention))
  {
  }

  lemma NumberedKeeps(config: Config, r: Repo, step: Step, first: int)
    requires Numbered(r, first) && Enabled(r, step)
    requires !IsUploadStep(step)
    ensures Numbered(Apply(config, r, step), first)
  {
    hide IsListing, Commits, IsSafe, ApplyAccept;
    match step
    case Accept(sha, base, retention) => AcceptNumbered(config, r, sha, base, retention, first);
    case _ =>
  }

  lemma SeparateKeeps(config: Config, r: Repo, step: Step, first: int)
    requires Numbered(r, first) && Separate(r) && Enabled(r, step)
    requires !IsUploadStep(step)
    ensures Separate(Apply(config, r, step))
  {
    hide IsListing, Commits, IsSafe, ApplyAccept, Numbered;
    match step
    case Accept(sha, base, retention) => AcceptSeparate(config, r, sha, base, retention, first);
    case _ =>
  }

  // ----- where the jobs are -----

  ghost predicate Queued(r: Repo) {
    forall j :: j in r.spool ==> j in r.arrived && r.arrived[j] == r.spool[j]
  }

  lemma QueuedKeeps(config: Config, r: Repo, step: Step)
    requires Queued(r) && Enabled(r, step)
    requires !IsUploadStep(step)
    ensures Queued(Apply(config, r, step))
  {
    hide IsListing, Commits, IsSafe;
  }

  /** The rest of the worker's listing is still queued, in sequence order; only the job it is counting
      down has been removed. */
  ghost predicate Batched(r: Repo) {
    && (r.batch == [] ==> r.phase == Committing)
    && (forall i, k :: 0 <= i < k < |r.batch| ==> r.batch[i].number < r.batch[k].number)
    && (forall i :: 0 <= i < |r.batch| ==> (r.batch[i] in r.spool <==> i > 0 || r.phase != Counting))
    && (forall i :: 0 <= i < |r.batch| ==> r.batch[i] in r.arrived)
  }

  lemma BatchedKeeps(config: Config, r: Repo, step: Step)
    requires Batched(r) && Queued(r) && Separate(r) && Enabled(r, step)
    requires !IsUploadStep(step)
    ensures Batched(Apply(config, r, step))
  {
    hide Commits, IsSafe;
  }

  /** `pending` counts the queued jobs, those on their way into and out of the queue, and those lost. */
  ghost predicate Counted(r: Repo) {
    r.head.pending == |r.spool| + |r.renaming| + |r.lost| + (if r.phase == Counting then 1 else 0)
  }

  lemma AcceptCounted(config: Config, r: Repo, sha: string, base: Option<string>, retention: nat, first: int)
    requires Counted(r) && Numbered(r, first)
    ensures Counted(ApplyAccept(config, r, sha, base, retention))
  {
    assert Job(r.head.nextSeq, sha, retention) !in r.renaming;
  }

  lemma OneMore(s: set<Job>, job: Job)
    requires job !in s
    ensures |s + {job}| == |s| + 1
  {
  }

  lemma OneLess(s: set<Job>, job: Job)
    requires job in s
    ensures |s - {job}| == |s| - 1
  {
  }

  lemma OneMoreFile(spool: map<Job, Bytes>, job: Job, content: Bytes)
    requires job !in spool
    ensures |spool[job := content]| == |spool| + 1
  {
    assert spool[job := content].Keys == spool.Keys + {job};
  }

  lemma RenameCounted(r: Repo, job: Job)
    requires Counted(r) && Separate(r) && Queued(r) && job in r.renaming
    ensures Counted(ApplyRename(r, job))
  {
    hide DistinctNumbers;
    OneLess(r.renaming, job);
    if job.sha in r.partials {
      OneMoreFile(r.spool, job, r.partials[job.sha]);
    } else {
      OneMore(r.lost, job);
    }
  }

  lemma RemoveCounted(r: Repo)
    requires Counted(r) && Batched(r) && r.batch != [] && r.phase == Removing
    ensures Counted(r.(spool := r.spool - {r.batch[0]}, phase := Counting))
  {
    assert (r.spool - {r.batch[0]}).Keys == r.spool.Keys - {r.batch[0]};
  }

  lemma CountedKeeps(config: Config, r: Repo, step: Step, first: int)
    requires Counted(r) && Numbered(r, first) && Separate(r) && Queued(r) && Batched(r) && Enabled(r, step)
    requires !IsUploadStep(step)
    ensures Counted(Apply(config, r, step))
  {
    hide IsListing, Commits, IsSafe, Separate, Queued, Numbered, DistinctNumbers, ApplyAccept, ApplyRename;
    match step
    case Accept(sha, base, retention) => AcceptCounted(config, r, sha, base, retention, first);
    case Rename(job) => RenameCounted(r, job);
    case Remove => RemoveCounted(r);
    case _ =>
  }

  // ----- limits -----

  /** The queue depth limits what is pending, beyond what was left in the spool at the start, and what is
      being uploaded. */
  ghost predicate Bounded(config: Config, r: Repo, leftover: nat) {
    && r.head.pending <= (if leftover <= config.maxDepth then config.maxDepth else leftover)
    && |r.head.reservations| <= config.maxDepth
  }

  lemma FewerKeys(m: map<string, int>, gone: set<string>)
    ensures |m - gone| <= |m|
  {
    assert (m - gone).Keys <= m.Keys;
    Graph.SubsetCount((m - gone).Keys, m.Keys);
  }

  lemma OneMoreKey(m: map<string, int>, sha: string, now: int)
    ensures |m[sha := now]| <= |m| + 1
  {
    assert m[sha := now].Keys == m.Keys + {sha};
  }

  lemma DepthKeeps(config: Config, r: Repo, step: Step, leftover: nat)
    requires Bounded(config, r, leftover) && Enabled(r, step) && !IsUploadStep(step)
    ensures Bounded(config, Apply(config, r, step), leftover)
  {
    hide IsListing, Commits, IsSafe;
  }

  lemma ReservationsKeep(config: Config, r: Repo, step: Step, leftover: nat)
    requires Bounded(config, r, leftover) && Counted(r) && Enabled(r, step) && IsUploadStep(step)
    ensures Bounded(config, Apply(config, r, step), leftover)
  {
    hide IsSafe, ExpiredUploads, RateLimiter.Take;
    match step
    case Reserve(sha, base, now) => OneMoreKey(r.head.reservations, sha, now);
    case Release(sha) => FewerKeys(r.head.reservations, {sha});
    case Expire(now) => FewerKeys(r.head.reservations, ExpiredUploads(r.head.reservations, now));
    case _ =>
  }

  // ----- conservation over whole runs -----

  ghost predicate Kept(config: Config, r: Repo, first: int, leftover: nat) {
    Numbered(r, first) && Separate(r) && Queued(r) && Batched(r) && Counted(r) && Bounded(config, r, leftover)
  }

  lemma StepKeeps(config: Config, r: Repo, step: Step, first: int, leftover: nat)
    requires Enabled(r, step)
    ensures Kept(config, r, first, leftover) ==> Kept(config, Apply(config, r, step), first, leftover)
  {
    hide Numbered, Separate, Queued, Batched, Counted, Bounded, Enabled, Apply, OnlyUploads;
    if Kept(config, r, first, leftover) {
      if IsUploadStep(step) {
        ReservationsKeep(config, r, step, leftover);
        UploadStep(config, r, step);
        UploadsKeep(r, Apply(config, r, step), first);
      } else {
        DepthKeeps(config, r, step, leftover);
        OthersKeep(config, r, step, first);
      }
    }
  }

  lemma UploadsKeep(r: Repo, s: Repo, first: int)
    requires OnlyUploads(r, s)
    ensures Numbered(r, first) ==> Numbered(s, first)
    ensures Separate(r) ==> Separate(s)
    ensures Queued(r) ==> Queued(s)
    ensures Batched(r) ==> Batched(s)
    ensures Counted(r) ==> Counted(s)
  {
  }

  lemma OthersKeep(config: Config, r: Repo, step: Step, first: int)
    requires Numbered(r, first) && Separate(r) && Queued(r) && Batched(r) && Counted(r)
    requires Enabled(r, step) && !IsUploadStep(step)
    ensures var s := Apply(config, r, step); Numbered(s, first) && Separate(s) && Queued(s) && Batched(s) && Counted(s)
  {
    hide Numbered, Separate, Queued, Batched, Counted, Enabled, Apply;
    NumberedKeeps(config, r, step, first);
    SeparateKeeps(config, r, step, first);
    QueuedKeeps(config, r, step);
    BatchedKeeps(config, r, step);
    CountedKeeps(config, r, step, first);
  }

  lemma {:induction false} RunKeeps(config: Config, r: Repo, steps: seq<Step>, first: int, leftover: nat)
    requires IsRun(config, r, steps)
    ensures Kept(config, r, first, leftover) ==> Kept(config, After(config, r, steps), first, leftover)
    decreases |steps|
  {
    hide Kept, Enabled, Apply;
    if steps != [] {
      StepKeeps(config, r, steps[0], first, leftover);
      RunKeeps(config, Apply(config, r, steps[0]), steps[1..], first, leftover);
    }
  }

  lemma OpenedIsKept(config: Config, r: Repo)
    requires IsOpened(r)
    ensures Kept(config, r, r.head.nextSeq, |r.spool|)
  {
  }

  /** In every interleaving, `pending` is the number of jobs queued, on their way in, on their way out or
      lost. So it is at least one whenever the worker counts down, it stays within the configured depth,
      and the accepted pushes carry the numbers from the first free one up to `nextSeq`. */
  lemma PendingIsConserved(config: Config, r: Repo, steps: seq<Step>)
    requires IsOpened(r) && IsRun(config, r, steps)
    ensures var s := After(config, r, steps);
            && s.head.pending == |s.spool| + |s.renaming| + |s.lost| + (if s.phase == Counting then 1 else 0)
            && s.head.pending <= (if |r.spool| <= config.maxDepth then config.maxDepth else |r.spool|)
            && |s.head.reservations| <= config.maxDepth
            && s.head.nextSeq == r.head.nextSeq + |s.accepted|
            && (forall i :: 0 <= i < |s.accepted| ==> s.accepted[i].job.number == r.head.nextSeq + i)
            && DistinctNumbers(s.arrived.Keys + s.renaming + s.lost)
  {
    hide Enabled, Apply, IsRun, After, Queued, Batched;
    OpenedIsKept(config, r);
    RunKeeps(config, r, steps, r.head.nextSeq, |r.spool|);
    hide IsOpened;
  }

  /** Every rename of the run found the upload it was to queue. */
  ghost predicate FilesFound(config: Config, r: Repo, steps: seq<Step>)
    requires IsRun(config, r, steps)
    decreases |steps|
  {
    steps != [] ==>
      && (steps[0].Rename? ==> steps[0].job.sha in r.partials)
      && FilesFound(config, Apply(config, r, steps[0]), steps[1..])
  }

  lemma {:induction false} LostIffMissing(config: Config, r: Repo, steps: seq<Step>)
    requires IsRun(config, r, steps)
    ensures After(config, r, steps).lost == {} <==> r.lost == {} && FilesFound(config, r, steps)
    ensures r.lost <= After(config, r, steps).lost
    decreases |steps|
  {
    hide IsListing, Commits, IsSafe;
    if steps != [] {
      LostIffMissing(config, Apply(config, r, steps[0]), steps[1..]);
    }
  }

  /** `pending` is the jobs queued, on their way in or on their way out exactly when every rename of the
      run found its file; a job lost once is counted for ever. */
  lemma PendingIsExact(config: Config, r: Repo, steps: seq<Step>)
    requires IsOpened(r) && IsRun(config, r, steps)
    ensures var s := After(config, r, steps);
            s.head.pending == |s.spool| + |s.renaming| + (if s.phase == Counting then 1 else 0)
            <==> FilesFound(config, r, steps)
  {
    hide Enabled, Apply;
    PendingIsConserved(config, r, steps);
    LostIffMissing(config, r, steps);
  }

  /** An empty repository, and the same one with an upload of "a" accepted twice. */
  function Empty(): Repo {
    Repo(Head(None, 0, 0, map[]), RateLimiter.RateWindow(0, 0), map[], {}, map[], [], Committing, Store(map[], None),
         [], map[], {}, [])
  }

  function TwiceAccepted(): Repo {
    var one, two := Job(0, "a", 1), Job(1, "a", 1);
    Empty().(head := Head(Some("a"), 2, 2, map[]), partials := map["a" := []], renaming := {one, two},
             accepted := [Push(one, None), Push(two, None)])
  }

  lemma EmptyIsOpened()
    ensures IsOpened(Empty())
  {
  }

  lemma AcceptTwice(config: Config)
    requires config.maxDepth >= 2
    ensures var steps := [Write("a", []), Accept("a", None, 1), Accept("a", None, 1)];
            IsRun(config, Empty(), steps) && After(config, Empty(), steps) == TwiceAccepted()
  {
    assert IsSafe("a");
    hide IsSafe;
    var push := Accept("a", None, 1);
    var r := Apply(config, Empty(), Write("a", []));
    var s := ApplyAccept(config, r, "a", None, 1);
    assert ApplyAccept(config, s, "a", None, 1) == TwiceAccepted();
    FollowTwo(config, r, push, push);
    assert [Write("a", []), push, push][1..] == [push, push];
  }

  lemma RenameTwice(config: Config)
    ensures var steps := [Rename(Job(0, "a", 1)), Rename(Job(1, "a", 1))];
            && IsRun(config, TwiceAccepted(), steps) && After(config, TwiceAccepted(), steps).lost != {}
            && After(config, TwiceAccepted(), steps).spool == map[Job(0, "a", 1) := []]
            && After(config, TwiceAccepted(), steps).head.pending == 2
  {
    FollowTwo(config, TwiceAccepted(), Rename(Job(0, "a", 1)), Rename(Job(1, "a", 1)));
  }

  /** A run that ends with two jobs counted and one queued. */
  ghost predicate Loses(config: Config, steps: seq<Step>) {
    && IsRun(config, Empty(), steps) && !FilesFound(config, Empty(), steps)
    && var s := After(config, Empty(), steps); s.head.pending == 2 && |s.spool| == 1
  }

  /** Two uploads of one commit that finish together: both are accepted, and the second finds its file
      renamed away. */
  lemma LostExample(config: Config)
    requires config.maxDepth >= 2
    ensures IsOpened(Empty()) && exists steps :: Loses(config, steps)
  {
    hide Enabled, Apply, Empty, TwiceAccepted, IsRun, After, FilesFound, IsOpened;
    EmptyIsOpened();
    var first := [Write("a", []), Accept("a", None, 1), Accept("a", None, 1)];
    var second := [Rename(Job(0, "a", 1)), Rename(Job(1, "a", 1))];
    AcceptTwice(config);
    RenameTwice(config);
    Joined(config, Empty(), first, second);
    LostIffMissing(config, Empty(), first + second);
    assert Loses(config, first + second);
  }

  lemma FollowTwo(config: Config, r: Repo, a: Step, b: Step)
    requires Enabled(r, a) && Enabled(Apply(config, r, a), b)
    ensures IsRun(config, r, [a, b]) && After(config, r, [a, b]) == Apply(config, Apply(config, r, a), b)
  {
    hide Enabled, Apply;
    assert [a, b][1..] == [b] && [b][1..] == [];
    assert IsRun(config, Apply(config, r, a), [b]);
    assert After(config, Apply(config, r, a), [b]) == Apply(config, Apply(config, r, a), b);
  }

  /** Runs compose. */
  lemma {:induction false} Joined(config: Config, r: Repo, a: seq<Step>, b: seq<Step>)
    requires IsRun(config, r, a) && IsRun(config, After(config, r, a), b)
    ensures IsRun(config, r, a + b) && After(config, r, a + b) == After(config, After(config, r, a), b)
    decreases |a|
  {
    hide Enabled, Apply;
    if a == [] {
      assert a + b == b;
    } else {
      Joined(config, Apply(config, r, a[0]), a[1..], b);
      assert (a + b)[1..] == a[1..] + b;
    }
  }

  // ----- the head -----

  /** The head an accepted push was compared with. */
  function HeadBefore(accepted: seq<Push>, i: nat, initial: Option<string>): Option<string>
    requires i <= |accepted|
  {
    if i == 0 then initial else Some(accepted[i - 1].job.sha)
  }

  ghost predicate Chained(r: Repo, initial: Option<string>) {
    r.head.sha == HeadBefore(r.accepted, |r.accepted|, initial) && IsChain(r.accepted, initial)
  }

  /** The base of each push against the head before it. */
  ghost predicate IsChain(pushes: seq<Push>, initial: Option<string>) {
    forall i :: 0 <= i < |pushes| && pushes[i].base.Some? && HeadBefore(pushes, i, initial).Some?
      ==> pushes[i].base == HeadBefore(pushes, i, initial)
  }

  lemma ChainGrows(pushes: seq<Push>, initial: Option<string>, push: Push)
    requires IsChain(pushes, initial)
    requires push.base.Some? && HeadBefore(pushes, |pushes|, initial).Some? ==>
               push.base == HeadBefore(pushes, |pushes|, initial)
    ensures IsChain(pushes + [push], initial)
    ensures HeadBefore(pushes + [push], |pushes| + 1, initial) == Some(push.job.sha)
  {
    var longer := pushes + [push];
    forall i | 0 <= i <= |pushes| ensures HeadBefore(longer, i, initial) == HeadBefore(pushes, i, initial) {
    }
    hide HeadBefore;
  }

  lemma AcceptChains(config: Config, r: Repo, sha: string, base: Option<string>, retention: nat,
                     initial: Option<string>)
    requires Chained(r, initial)
    ensures Chained(ApplyAccept(config, r, sha, base, retention), initial)
  {
    hide HeadBefore, IsChain;
    if AcceptPush(r.head, config.maxDepth, sha, base).1 == Accepted {
      ChainGrows(r.accepted, initial, Push(Job(r.head.nextSeq, sha, retention), base));
    }
  }

  lemma ChainedKeeps(config: Config, r: Repo, step: Step, initial: Option<string>)
    requires Chained(r, initial) && Enabled(r, step)
    requires !IsUploadStep(step)
    ensures Chained(Apply(config, r, step), initial)
  {
    hide IsListing, Commits, IsSafe, ApplyAccept, HeadBefore;
    match step
    case Accept(sha, base, retention) => AcceptChains(config, r, sha, base, retention, initial);
    case _ =>
  }

  lemma UploadsChain(r: Repo, s: Repo, initial: Option<string>)
    requires OnlyUploads(r, s) && Chained(r, initial)
    ensures Chained(s, initial)
  {
    hide HeadBefore;
  }

  lemma {:induction false} RunChains(config: Config, r: Repo, steps: seq<Step>, initial: Option<string>)
    requires Chained(r, initial) && IsRun(config, r, steps)
    ensures Chained(After(config, r, steps), initial)
    decreases |steps|
  {
    hide Chained, Enabled, Apply;
    if steps != [] {
      if IsUploadStep(steps[0]) {
        UploadStep(config, r, steps[0]);
        UploadsChain(r, Apply(config, r, steps[0]), initial);
      } else {
        ChainedKeeps(config, r, steps[0], initial);
      }
      RunChains(config, Apply(config, r, steps[0]), steps[1..], initial);
    }
  }

  /** Every accepted push that names a base named the target of the push accepted before it; the first,
      the persisted head. A repository without a head takes any base. */
  lemma BaseIsPreviousTarget(config: Config, r: Repo, steps: seq<Step>, i: nat)
    requires IsOpened(r) && IsRun(config, r, steps) && i < |After(config, r, steps).accepted|
    ensures var pushes := After(config, r, steps).accepted;
            pushes[i].base.Some? ==>
              if i > 0 then pushes[i].base == Some(pushes[i - 1].job.sha)
              else ReadHead(r.store.head) in {None, pushes[i].base}
  {
    hide Enabled, Apply;
    RunChains(config, r, steps, r.head.sha);
  }
}
