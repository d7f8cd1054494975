/** What `pull` of "latest" returns once the registry's queue has drained. */
module RegistryLatest {
  import opened BlobStore
  import opened Registry
  import opened RegistryRuns
  import opened Spool
  import opened Wrappers

  // ----- every accepted job is somewhere -----

  ghost predicate Wholesome(r: Repo) {
    forall j :: j in r.arrived || j in r.renaming ==> IsSafe(j.sha) && j.retention >= 0
  }

  lemma WholesomeKeeps(config: Config, r: Repo, step: Step)
    requires Wholesome(r) && Enabled(r, step)
    requires !IsUploadStep(step)
    ensures Wholesome(Apply(config, r, step))
  {
    hide IsListing, Commits, IsSafe;
  }

  ghost predicate Accounted(r: Repo) {
    && (forall i :: 0 <= i < |r.accepted| ==>
          var j := r.accepted[i].job; j in r.arrived || j in r.renaming || j in r.lost)
    && (forall j :: j in r.arrived ==> j in r.spool || j in r.processed)
    && (forall p :: p in r.processed ==> p in r.arrived)
  }

  /** The job being removed is the one committed last. */
  ghost predicate AtWork(r: Repo) {
    r.phase != Committing ==> r.batch != [] && r.processed != [] && r.processed[|r.processed| - 1] == r.batch[0]
  }

  lemma AtWorkKeeps(config: Config, r: Repo, step: Step)
    requires AtWork(r) && Enabled(r, step)
    requires !IsUploadStep(step)
    ensures AtWork(Apply(config, r, step))
  {
    hide IsListing, Commits, IsSafe;
  }

  lemma AccountedKeeps(config: Config, r: Repo, step: Step)
    requires Accounted(r) && AtWork(r) && Queued(r) && Enabled(r, step)
    requires !IsUploadStep(step)
    ensures Accounted(Apply(config, r, step))
  {
    hide IsListing, Commits, IsSafe;
  }

  // ----- what the store serves -----

  /** Each commit is later than every blob in the store. */
  ghost predicate Later(r: Repo, step: Step) {
    step.Commit? ==> forall a :: a in r.store.blobs ==> r.store.blobs[a].time < step.now
  }

  /** "latest" is the content of the job committed last, unless that job kept nothing. */
  ghost predicate Served(r: Repo) {
    r.processed != [] ==>
      var last := r.processed[|r.processed| - 1];
      && last in r.arrived
      && ReadHead(r.store.head) == Some(last.sha)
      && Pull(r.store, "latest") == if last.retention >= 1 then Some(r.arrived[last]) else None
  }

  lemma CommitServes(r: Repo, now: int, after: Store)
    requires Wholesome(r) && Queued(r) && Enabled(r, Commit(now, after)) && Later(r, Commit(now, after))
    ensures Served(r.(store := after, phase := Removing, processed := r.processed + [r.batch[0]]))
  {
    var job := r.batch[0];
    SafeHead(job.sha);
    LatestAfterCommit(r.store, job.sha, job.retention, r.spool[job], now, after);
  }

  lemma ServedKeeps(config: Config, r: Repo, step: Step)
    requires Served(r) && Wholesome(r) && Queued(r) && Separate(r) && Enabled(r, step) && Later(r, step)
    requires !IsUploadStep(step)
    ensures Served(Apply(config, r, step))
  {
    if step.Commit? {
      CommitServes(r, step.now, step.after);
    } else {
      hide IsListing, Commits, IsSafe, Pull, Later, ReadHead, DistinctNumbers;
    }
  }

  // ----- the order of the queue -----

  /** A rename queues the accepted job with the least number. */
  ghost predicate InTurn(r: Repo, step: Step) {
    step.Rename? ==> forall j :: j in r.renaming ==> step.job.number <= j.number
  }

  /** Queued and not yet committed. */
  ghost predicate Waits(r: Repo, j: Job) {
    j in r.spool && (r.phase == Removing && r.batch != [] ==> j != r.batch[0])
  }

  ghost predicate Ascends(jobs: seq<Job>) {
    forall i, k :: 0 <= i < k < |jobs| ==> jobs[i].number < jobs[k].number
  }

  ghost predicate BehindProcessed(r: Repo) {
    && Ascends(r.processed)
    && (forall p, j :: p in r.processed && (Waits(r, j) || j in r.renaming) ==> p.number < j.number)
  }

  ghost predicate BehindQueue(r: Repo) {
    forall j, k :: j in r.spool && k in r.renaming ==> j.number < k.number
  }

  ghost predicate BehindBatch(r: Repo) {
    forall b, j :: b in r.batch && Waits(r, j) && j !in r.batch ==> b.number < j.number
  }

  lemma QueueKeeps(config: Config, r: Repo, step: Step, first: int)
    requires BehindQueue(r) && Numbered(r, first) && Separate(r) && Queued(r) && Enabled(r, step) && InTurn(r, step)
    requires !IsUploadStep(step)
    ensures BehindQueue(Apply(config, r, step))
  {
    hide IsListing, Commits, IsSafe;
  }

  lemma BatchKeeps(config: Config, r: Repo, step: Step)
    requires BehindBatch(r) && BehindQueue(r) && BehindProcessed(r) && Batched(r) && AtWork(r)
    requires Enabled(r, step) && InTurn(r, step)
    requires !IsUploadStep(step)
    ensures BehindBatch(Apply(config, r, step))
  {
    hide Commits, IsSafe;
  }

  lemma CommitInTurn(r: Repo, now: int, after: Store)
    requires BehindProcessed(r) && BehindBatch(r) && BehindQueue(r) && Batched(r) && Enabled(r, Commit(now, after))
    ensures BehindProcessed(r.(store := after, phase := Removing, processed := r.processed + [r.batch[0]]))
  {
    hide Commits;
    var job := r.batch[0];
    assert job in r.spool && Waits(r, job);
    var r' := r.(store := after, phase := Removing, processed := r.processed + [job]);
    forall j | Waits(r', j) || j in r.renaming ensures job.number < j.number {
      if Waits(r', j) {
        assert Waits(r, j);
      }
    }
  }

  lemma AcceptInTurn(config: Config, r: Repo, sha: string, base: Option<string>, retention: nat, first: int)
    requires BehindProcessed(r) && Accounted(r) && Numbered(r, first)
    ensures BehindProcessed(ApplyAccept(config, r, sha, base, retention))
  {
  }

  lemma RenameInTurn(r: Repo, job: Job)
    requires BehindProcessed(r) && job in r.renaming
    ensures BehindProcessed(ApplyRename(r, job))
  {
    hide Ascends;
  }

  lemma ProcessedKeeps(config: Config, r: Repo, step: Step, first: int)
    requires BehindProcessed(r) && BehindBatch(r) && BehindQueue(r) && Batched(r) && Accounted(r) && Numbered(r, first)
    requires Enabled(r, step)
    requires !IsUploadStep(step)
    ensures BehindProcessed(Apply(config, r, step))
  {
    match step
    case Commit(now, after) => CommitInTurn(r, now, after);
    case Accept(sha, base, retention) => AcceptInTurn(config, r, sha, base, retention, first);
    case Rename(job) => RenameInTurn(r, job);
    case _ => hide ApplyRename, ApplyAccept, Batched, RateLimiter.Take, DistinctNumbers;
      hide IsListing, Commits, IsSafe, Accounted, Numbered, BehindBatch, BehindQueue, Ascends;
  }

  // ----- whole runs -----

  ghost predicate Traced(config: Config, r: Repo, first: int, leftover: nat) {
    Kept(config, r, first, leftover) && Wholesome(r) && Accounted(r) && AtWork(r)
  }

  ghost predicate Ordered(r: Repo) {
    BehindProcessed(r) && BehindQueue(r) && BehindBatch(r)
  }

  lemma UploadsTrace(r: Repo, s: Repo)
    requires OnlyUploads(r, s)
    ensures Wholesome(r) ==> Wholesome(s)
    ensures Accounted(r) ==> Accounted(s)
    ensures AtWork(r) ==> AtWork(s)
    ensures Served(r) ==> Served(s)
  {
    hide IsSafe, Pull, ReadHead;
  }

  lemma UploadsOrder(r: Repo, s: Repo)
    requires OnlyUploads(r, s) && Ordered(r)
    ensures Ordered(s)
  {
    hide Ascends;
  }

  lemma StepTraces(config: Config, r: Repo, step: Step, first: int, leftover: nat)
    requires Enabled(r, step)
    ensures Traced(config, r, first, leftover) ==> Traced(config, Apply(config, r, step), first, leftover)
  {
    hide Apply, Enabled, Wholesome, Accounted, AtWork, Queued, Numbered, Separate, Batched, Counted, Bounded;
    StepKeeps(config, r, step, first, leftover);
    if Traced(config, r, first, leftover) {
      if IsUploadStep(step) {
        UploadStep(config, r, step);
        UploadsTrace(r, Apply(config, r, step));
      } else {
        WholesomeKeeps(config, r, step);
        AccountedKeeps(config, r, step);
        AtWorkKeeps(config, r, step);
      }
    }
  }

  lemma StepOrders(config: Config, r: Repo, step: Step, first: int, leftover: nat)
    requires Enabled(r, step) && InTurn(r, step)
    ensures Traced(config, r, first, leftover) && Ordered(r) ==> Ordered(Apply(config, r, step))
  {
    hide Apply, Enabled, InTurn, Wholesome, Accounted, AtWork, Queued, Numbered, Separate, Batched, Counted, Bounded;
    hide BehindProcessed, BehindQueue, BehindBatch, OnlyUploads;
    if Traced(config, r, first, leftover) && Ordered(r) {
      if IsUploadStep(step) {
        UploadStep(config, r, step);
        UploadsOrder(r, Apply(config, r, step));
      } else {
        QueueKeeps(config, r, step, first);
        BatchKeeps(config, r, step);
        ProcessedKeeps(config, r, step, first);
      }
    }
  }

  /** Commit times strictly increase. */
  ghost predicate ClockAdvances(config: Config, r: Repo, steps: seq<Step>)
    requires IsRun(config, r, steps)
    decreases |steps|
  {
    steps != [] ==> Later(r, steps[0]) && ClockAdvances(config, Apply(config, r, steps[0]), steps[1..])
  }

  /** Jobs reach the spool in the order of their numbers. */
  ghost predicate QueuedInOrder(config: Config, r: Repo, steps: seq<Step>)
    requires IsRun(config, r, steps)
    decreases |steps|
  {
    steps != [] ==> InTurn(r, steps[0]) && QueuedInOrder(config, Apply(config, r, steps[0]), steps[1..])
  }

  lemma {:induction false} RunTraces(config: Config, r: Repo, steps: seq<Step>, first: int, leftover: nat)
    requires IsRun(config, r, steps)
    ensures var s := After(config, r, steps);
            Traced(config, r, first, leftover) ==>
              && Traced(config, s, first, leftover)
              && (Served(r) && ClockAdvances(config, r, steps) ==> Served(s))
              && (Ordered(r) && QueuedInOrder(config, r, steps) ==> Ordered(s))
    decreases |steps|
  {
    hide Apply, Enabled, Traced, Served, Ordered, InTurn, Later;
    if steps != [] {
      var step := steps[0];
      StepTraces(config, r, step, first, leftover);
      RunTraces(config, Apply(config, r, step), steps[1..], first, leftover);
      if Later(r, step) {
        StepServes(config, r, step, first, leftover);
      }
      if InTurn(r, step) {
        StepOrders(config, r, step, first, leftover);
      }
    }
  }

  lemma StepServes(config: Config, r: Repo, step: Step, first: int, leftover: nat)
    requires Enabled(r, step) && Later(r, step)
    ensures Traced(config, r, first, leftover) && Served(r) ==> Served(Apply(config, r, step))
  {
    hide Apply, Enabled, Served, Later, Wholesome, Queued, Separate;
    if Traced(config, r, first, leftover) && Served(r) {
      if IsUploadStep(step) {
        UploadStep(config, r, step);
        UploadsTrace(r, Apply(config, r, step));
      } else {
        ServedKeeps(config, r, step);
      }
    }
  }

  lemma OpenedIsTraced(config: Config, r: Repo)
    requires IsOpened(r)
    ensures Traced(config, r, r.head.nextSeq, |r.spool|) && Ordered(r) && Served(r)
  {
    OpenedIsKept(config, r);
  }

  /** At any point of any run, "latest" is what the worker committed last. */
  lemma LatestIsLastCommitted(config: Config, r: Repo, steps: seq<Step>)
    requires IsOpened(r) && IsRun(config, r, steps) && ClockAdvances(config, r, steps)
    requires After(config, r, steps).processed != []
    ensures var s := After(config, r, steps); var last := s.processed[|s.processed| - 1];
            && last in s.arrived && ReadHead(s.store.head) == Some(last.sha)
            && Pull(s.store, "latest") == if last.retention >= 1 then Some(s.arrived[last]) else None
  {
    hide Apply, Enabled, IsOpened, Traced, Ordered;
    OpenedIsTraced(config, r);
    RunTraces(config, r, steps, r.head.nextSeq, |r.spool|);
  }

  ghost predicate Drained(r: Repo) {
    r.spool == map[] && r.renaming == {} && r.batch == []
  }

  // ----- which job is committed last -----

  /** A committed job is not committed again. */
  ghost predicate Once(r: Repo) {
    forall p :: p in r.processed ==> !Waits(r, p)
  }

  lemma OnceKeeps(config: Config, r: Repo, step: Step)
    requires Once(r) && Accounted(r) && Separate(r) && Enabled(r, step)
    ensures Once(Apply(config, r, step))
  {
    if IsUploadStep(step) {
      UploadStep(config, r, step);
    } else {
      hide IsListing, Commits, IsSafe, DistinctNumbers;
    }
  }

  ghost predicate Queues(r: Repo, step: Step) {
    step.Rename? && step.job.sha in r.partials
  }

  /** No rename of the run queues a job. */
  ghost predicate NoneQueued(config: Config, r: Repo, steps: seq<Step>)
    requires IsRun(config, r, steps)
    decreases |steps|
  {
    steps != [] ==> !Queues(r, steps[0]) && NoneQueued(config, Apply(config, r, steps[0]), steps[1..])
  }

  /** Once the worker has listed `job`, no rename queues another. */
  ghost predicate NoneQueuedAfterListing(config: Config, r: Repo, steps: seq<Step>, job: Job)
    requires IsRun(config, r, steps)
    decreases |steps|
  {
    steps != [] ==>
      var s := Apply(config, r, steps[0]);
      && (steps[0].List? && job in steps[0].jobs ==> NoneQueued(config, s, steps[1..]))
      && NoneQueuedAfterListing(config, s, steps[1..], job)
  }

  ghost predicate IsListed(r: Repo, job: Job) {
    job in r.batch || job in r.processed
  }

  ghost predicate IsLast(jobs: seq<Job>, job: Job) {
    jobs != [] && jobs[|jobs| - 1] == job
  }

  /** All that waits is listed, with `job` at the end; or `job` was committed last and nothing waits. */
  ghost predicate Closing(r: Repo, job: Job) {
    && (forall j :: Waits(r, j) ==> j in r.batch)
    && ((Waits(r, job) && IsLast(r.batch, job)) || (IsLast(r.processed, job) && forall j :: !Waits(r, j)))
  }

  lemma ClosingCommit(r: Repo, now: int, after: Store, job: Job)
    requires Closing(r, job) && Batched(r) && Enabled(r, Commit(now, after))
    ensures Closing(r.(store := after, phase := Removing, processed := r.processed + [r.batch[0]]), job)
  {
    hide Commits;
    var s := r.(store := after, phase := Removing, processed := r.processed + [r.batch[0]]);
    assert Waits(r, r.batch[0]);
    assert forall j :: Waits(s, j) <==> Waits(r, j) && j != r.batch[0];
    if r.batch[0] == job {
      assert |r.batch| == 1;
    }
  }

  lemma ClosingCountDown(r: Repo, job: Job)
    requires Closing(r, job) && Batched(r) && r.batch != [] && r.phase == Counting
    ensures Closing(r.(head := r.head.(pending := r.head.pending - 1), batch := r.batch[1..], phase := Committing), job)
  {
    var s := r.(head := r.head.(pending := r.head.pending - 1), batch := r.batch[1..], phase := Committing);
    assert r.batch == [r.batch[0]] + s.batch && r.batch[0] !in r.spool;
    assert forall j :: Waits(s, j) <==> Waits(r, j);
  }

  lemma ClosingKeeps(config: Config, r: Repo, step: Step, job: Job)
    requires Closing(r, job) && Batched(r) && Enabled(r, step) && !Queues(r, step)
    ensures Closing(Apply(config, r, step), job)
  {
    hide Commits, IsSafe;
    match step
    case Commit(now, after) => ClosingCommit(r, now, after, job);
    case CountDown => ClosingCountDown(r, job);
    case List(jobs) =>
      assert forall j :: Waits(r, j) <==> j in r.spool;
      assert forall j :: Waits(Apply(config, r, step), j) <==> Waits(r, j);
    case Remove => assert forall j :: Waits(Apply(config, r, step), j) <==> Waits(r, j);
    case Rename(_) => assert forall j :: Waits(Apply(config, r, step), j) <==> Waits(r, j);
    case Accept(_, _, _) => assert forall j :: Waits(Apply(config, r, step), j) <==> Waits(r, j);
    case _ =>
      UploadStep(config, r, step);
      UploadsClose(r, Apply(config, r, step), job);
  }

  lemma UploadsClose(r: Repo, s: Repo, job: Job)
    requires OnlyUploads(r, s) && Closing(r, job)
    ensures Closing(s, job)
  {
    assert forall j :: Waits(s, j) <==> Waits(r, j);
  }

  /** Something was committed after `job`, or `other` waits behind it. */
  ghost predicate Overtaken(r: Repo, job: Job, other: Job) {
    || (job in r.processed && !IsLast(r.processed, job))
    || (other != job && Waits(r, other) && IsListed(r, job) && (Waits(r, job) ==> other !in r.batch))
  }

  lemma OvertakenKeeps(config: Config, r: Repo, step: Step, job: Job, other: Job)
    requires Overtaken(r, job, other) && Once(r) && Batched(r) && AtWork(r) && Enabled(r, step)
    requires Accounted(r) && Separate(r)
    ensures Overtaken(Apply(config, r, step), job, other)
  {
    hide DistinctNumbers, Commits, IsSafe, IsListing;
    match step
    case Commit(now, after) => OvertakenCommit(r, now, after, job, other);
    case CountDown => OvertakenCountDown(config, r, job, other);
    case _ =>
  }

  lemma OvertakenCountDown(config: Config, r: Repo, job: Job, other: Job)
    requires Overtaken(r, job, other) && Enabled(r, CountDown) && AtWork(r)
    ensures Overtaken(Apply(config, r, CountDown), job, other)
  {
    assert r.batch == [r.batch[0]] + r.batch[1..];
  }

  lemma OvertakenCommit(r: Repo, now: int, after: Store, job: Job, other: Job)
    requires Overtaken(r, job, other) && Once(r) && Batched(r) && AtWork(r) && Enabled(r, Commit(now, after))
    ensures Overtaken(r.(store := after, phase := Removing, processed := r.processed + [r.batch[0]]), job, other)
  {
    hide Commits;
    assert Waits(r, r.batch[0]);
    if job in r.batch {
      assert Waits(r, job);
    }
  }

  lemma ListedKeeps(config: Config, r: Repo, step: Step, job: Job)
    requires AtWork(r) && Enabled(r, step)
    ensures IsListed(r, job) ==> IsListed(Apply(config, r, step), job)
    ensures IsListed(Apply(config, r, step), job) ==> IsListed(r, job) || (step.List? && job in step.jobs)
  {
    hide IsListing, Commits, IsSafe;
  }

  /** A job queued while `job` is listed waits behind it. */
  lemma QueuedBehind(config: Config, r: Repo, step: Step, job: Job)
    requires IsListed(r, job) && Queues(r, step) && Enabled(r, step) && Batched(r) && Accounted(r) && Separate(r)
    ensures Overtaken(Apply(config, r, step), job, step.job)
  {
    hide DistinctNumbers;
  }

  /** All that the order of commits rests on. */
  ghost predicate Steady(config: Config, r: Repo, first: int, leftover: nat) {
    Traced(config, r, first, leftover) && Once(r)
  }

  lemma StepSteady(config: Config, r: Repo, step: Step, first: int, leftover: nat)
    requires Enabled(r, step)
    ensures Steady(config, r, first, leftover) ==> Steady(config, Apply(config, r, step), first, leftover)
  {
    hide Apply, Enabled, Once, Wholesome, Accounted, AtWork, Queued, Numbered, Separate, Batched, Counted, Bounded;
    StepTraces(config, r, step, first, leftover);
    if Steady(config, r, first, leftover) {
      OnceKeeps(config, r, step);
    }
  }

  /** With nothing more queued, `job` ends last. */
  lemma {:induction false} ClosesLast(config: Config, r: Repo, steps: seq<Step>, job: Job, first: int, leftover: nat)
    requires IsRun(config, r, steps) && NoneQueued(config, r, steps) && Steady(config, r, first, leftover)
    requires Closing(r, job) && Drained(After(config, r, steps))
    ensures IsLast(After(config, r, steps).processed, job)
    decreases |steps|
  {
    hide Apply, Enabled, Wholesome, Accounted, AtWork, Queued;
    hide Numbered, Separate, Batched, Counted, Bounded, Once, Queues;
    if steps != [] {
      hide Closing;
      StepSteady(config, r, steps[0], first, leftover);
      ClosingKeeps(config, r, steps[0], job);
      ClosesLast(config, Apply(config, r, steps[0]), steps[1..], job, first, leftover);
    }
  }

  /** What was overtaken does not end last. */
  lemma {:induction false} OvertakenEnds(config: Config, r: Repo, steps: seq<Step>, job: Job, other: Job, first: int,
                                         leftover: nat)
    requires IsRun(config, r, steps) && Steady(config, r, first, leftover)
    requires Overtaken(r, job, other) && Drained(After(config, r, steps))
    ensures !IsLast(After(config, r, steps).processed, job)
    decreases |steps|
  {
    hide Apply, Enabled, Wholesome, Accounted, AtWork, Queued, Numbered, Separate, Batched, Counted, Bounded, Once;
    if steps != [] {
      hide Overtaken;
      StepSteady(config, r, steps[0], first, leftover);
      OvertakenKeeps(config, r, steps[0], job, other);
      OvertakenEnds(config, Apply(config, r, steps[0]), steps[1..], job, other, first, leftover);
    }
  }

  lemma {:induction false} QueuedOvertakes(config: Config, r: Repo, steps: seq<Step>, job: Job, first: int,
                                           leftover: nat)
    requires IsRun(config, r, steps) && !NoneQueued(config, r, steps) && Steady(config, r, first, leftover)
    requires IsListed(r, job) && Drained(After(config, r, steps))
    ensures !IsLast(After(config, r, steps).processed, job)
    decreases |steps|
  {
    hide Apply, Enabled, Wholesome, Accounted, AtWork, Queued, Numbered, Separate, Batched, Counted, Bounded, Once;
    hide IsListed, Overtaken;
    var step, rest := steps[0], steps[1..];
    var s := Apply(config, r, step);
    StepSteady(config, r, step, first, leftover);
    ListedKeeps(config, r, step, job);
    if Queues(r, step) {
      QueuedBehind(config, r, step, job);
      OvertakenEnds(config, s, rest, job, step.job, first, leftover);
    } else {
      QueuedOvertakes(config, s, rest, job, first, leftover);
    }
  }

  lemma {:induction false} NoneQueuedAtAll(config: Config, r: Repo, steps: seq<Step>, job: Job)
    requires IsRun(config, r, steps) && NoneQueued(config, r, steps)
    ensures NoneQueuedAfterListing(config, r, steps, job)
    decreases |steps|
  {
    hide Apply, Enabled;
    if steps != [] {
      NoneQueuedAtAll(config, Apply(config, r, steps[0]), steps[1..], job);
    }
  }

  /** Numbers are only ever added. */
  lemma {:induction false} NextSeqGrows(config: Config, r: Repo, steps: seq<Step>)
    requires IsRun(config, r, steps)
    ensures r.head.nextSeq <= After(config, r, steps).head.nextSeq
    decreases |steps|
  {
    hide Apply, Enabled;
    if steps != [] {
      StepAddsNumbers(config, r, steps[0]);
      NextSeqGrows(config, Apply(config, r, steps[0]), steps[1..]);
    }
  }

  lemma StepAddsNumbers(config: Config, r: Repo, step: Step)
    requires Enabled(r, step)
    ensures r.head.nextSeq <= Apply(config, r, step).head.nextSeq
  {
    hide IsListing, Commits, IsSafe, RateLimiter.Take, ExpiredUploads;
  }

  /** A listing that contains the job with the largest number ends with it. */
  lemma ListingCloses(config: Config, r: Repo, jobs: seq<Job>, job: Job, first: int)
    requires Enabled(r, List(jobs)) && job in jobs && Numbered(r, first) && Queued(r) && Batched(r)
    requires r.head.nextSeq <= job.number + 1
    ensures Closing(Apply(config, r, List(jobs)), job) && IsListed(Apply(config, r, List(jobs)), job)
  {
    var s := r.(batch := jobs, phase := Committing);
    assert forall j :: Waits(s, j) <==> j in r.spool;
    var last := jobs[|jobs| - 1];
    assert last in jobs && last in r.spool && last.number <= job.number;
    var i :| 0 <= i < |jobs| && jobs[i] == job;
    assert i == |jobs| - 1;
  }

  lemma {:induction false} LastIff(config: Config, r: Repo, steps: seq<Step>, job: Job, first: int, leftover: nat)
    requires IsRun(config, r, steps) && Steady(config, r, first, leftover) && !IsListed(r, job)
    requires Drained(After(config, r, steps)) && job in After(config, r, steps).processed
    requires After(config, r, steps).head.nextSeq == job.number + 1
    ensures IsLast(After(config, r, steps).processed, job) <==> NoneQueuedAfterListing(config, r, steps, job)
    decreases |steps|
  {
    hide Apply, Enabled, Wholesome, Accounted, AtWork, Queued, Numbered, Separate, Batched, Counted, Bounded, Once;
    if steps == [] {
      assert false;
    } else {
      var step, rest := steps[0], steps[1..];
      var s := Apply(config, r, step);
      StepSteady(config, r, step, first, leftover);
      ListedKeeps(config, r, step, job);
      if step.List? && job in step.jobs {
        NextSeqGrows(config, r, steps);
        ListingCloses(config, r, step.jobs, job, first);
        hide Closing;
        if NoneQueued(config, s, rest) {
          NoneQueuedAtAll(config, s, rest, job);
          ClosesLast(config, s, rest, job, first, leftover);
        } else {
          QueuedOvertakes(config, s, rest, job, first, leftover);
        }
      } else {
        LastIff(config, s, rest, job, first, leftover);
      }
    }
  }

  /** The schedule under which the last accepted job is the last committed: it reached the spool, and
      nothing was queued after the listing that took it up. */
  ghost predicate TakenUpLast(config: Config, r: Repo, steps: seq<Step>, job: Job)
    requires IsRun(config, r, steps)
  {
    job !in After(config, r, steps).lost && NoneQueuedAfterListing(config, r, steps, job)
  }

  lemma OpenedIsSteady(config: Config, r: Repo)
    requires IsOpened(r)
    ensures Steady(config, r, r.head.nextSeq, |r.spool|)
  {
    OpenedIsTraced(config, r);
  }

  lemma {:induction false} RunSteady(config: Config, r: Repo, steps: seq<Step>, first: int, leftover: nat)
    requires IsRun(config, r, steps)
    ensures Steady(config, r, first, leftover) ==> Steady(config, After(config, r, steps), first, leftover)
    decreases |steps|
  {
    hide Apply, Enabled, Steady;
    if steps != [] {
      StepSteady(config, r, steps[0], first, leftover);
      RunSteady(config, Apply(config, r, steps[0]), steps[1..], first, leftover);
    }
  }

  /** The last accepted job of a drained registry, and where it can be. */
  lemma LastAcceptedJob(r: Repo, first: int)
    requires Numbered(r, first) && Accounted(r) && Separate(r) && Drained(r) && r.accepted != []
    ensures var last := r.accepted[|r.accepted| - 1].job;
            r.head.nextSeq == last.number + 1 && (last in r.processed <==> last !in r.lost)
  {
    var last := r.accepted[|r.accepted| - 1].job;
  }

  /** In every run that drains, the worker's last commit is the last accepted job if and only if that job
      was not lost and nothing was queued after the listing that took it up. */
  lemma LastCommittedIff(config: Config, r: Repo, steps: seq<Step>)
    requires IsOpened(r) && IsRun(config, r, steps)
    requires Drained(After(config, r, steps)) && After(config, r, steps).accepted != []
    ensures var s := After(config, r, steps); var last := s.accepted[|s.accepted| - 1].job;
            IsLast(s.processed, last) <==> TakenUpLast(config, r, steps, last)
  {
    hide Apply, Enabled, IsRun, After, NoneQueuedAfterListing, Accounted, Numbered, Separate;
    var s := After(config, r, steps);
    var last := s.accepted[|s.accepted| - 1].job;
    OpenedIsSteady(config, r);
    RunSteady(config, r, steps, r.head.nextSeq, |r.spool|);
    LastAcceptedJob(s, r.head.nextSeq);
    if last in s.processed {
      LastIff(config, r, steps, last, r.head.nextSeq, |r.spool|);
    }
  }

  /** Then the persisted head is the head that pushes are compared with, and "latest" is the last accepted
      snapshot exactly when that push keeps at least one. */
  lemma LatestIsLastAccepted(config: Config, r: Repo, steps: seq<Step>)
    requires IsOpened(r) && IsRun(config, r, steps) && ClockAdvances(config, r, steps)
    requires Drained(After(config, r, steps)) && After(config, r, steps).accepted != []
    ensures var s := After(config, r, steps); var last := s.accepted[|s.accepted| - 1].job;
            TakenUpLast(config, r, steps, last) ==>
              && last in s.arrived && ReadHead(s.store.head) == s.head.sha == Some(last.sha)
              && (Pull(s.store, "latest") == Some(s.arrived[last]) <==> last.retention >= 1)
  {
    hide Apply, Enabled, IsRun, After, ClockAdvances, TakenUpLast, Pull, ReadHead, IsOpened, Drained;
    var s := After(config, r, steps);
    LastCommittedIff(config, r, steps);
    if s.processed != [] {
      LatestIsLastCommitted(config, r, steps);
    }
    HeadIsLastAccepted(config, r, steps);
  }

  lemma HeadIsLastAccepted(config: Config, r: Repo, steps: seq<Step>)
    requires IsOpened(r) && IsRun(config, r, steps) && After(config, r, steps).accepted != []
    ensures var s := After(config, r, steps); s.head.sha == Some(s.accepted[|s.accepted| - 1].job.sha)
  {
    hide Apply, Enabled, IsRun, After;
    RunChains(config, r, steps, r.head.sha);
  }

  /** Queueing in the order of acceptance is enough. */
  lemma InOrderIsTakenUpLast(config: Config, r: Repo, steps: seq<Step>)
    requires IsOpened(r) && IsRun(config, r, steps) && QueuedInOrder(config, r, steps)
    requires Drained(After(config, r, steps)) && After(config, r, steps).accepted != []
    ensures var s := After(config, r, steps); var last := s.accepted[|s.accepted| - 1].job;
            last !in s.lost ==> TakenUpLast(config, r, steps, last)
  {
    hide Apply, Enabled, IsRun, After, QueuedInOrder, TakenUpLast;
    hide Numbered, Accounted, Separate, BehindQueue, BehindBatch, BehindProcessed;
    var s := After(config, r, steps);
    OpenedIsTraced(config, r);
    RunTraces(config, r, steps, r.head.nextSeq, |r.spool|);
    LastAcceptedJob(s, r.head.nextSeq);
    LastCommittedIff(config, r, steps);
    var last := s.accepted[|s.accepted| - 1].job;
    if last in s.processed {
      LargestIsLast(s, r.head.nextSeq, last);
    }
  }

  lemma LargestIsLast(r: Repo, first: int, last: Job)
    requires Numbered(r, first) && Accounted(r) && BehindProcessed(r) && last in r.processed
    requires r.head.nextSeq == last.number + 1
    ensures IsLast(r.processed, last)
  {
    var i :| 0 <= i < |r.processed| && r.processed[i] == last;
    var top := r.processed[|r.processed| - 1];
    assert top in r.processed;
  }

  // ----- why the order matters -----

  /** A run with an advancing clock in which every rename finds its file. */
  ghost predicate Goes(config: Config, r: Repo, steps: seq<Step>, s: Repo) {
    && IsRun(config, r, steps) && After(config, r, steps) == s
    && ClockAdvances(config, r, steps) && FilesFound(config, r, steps)
  }

  lemma GoesByStep(config: Config, r: Repo, step: Step)
    requires Enabled(r, step) && Later(r, step) && (step.Rename? ==> step.job.sha in r.partials)
    ensures Goes(config, r, [step], Apply(config, r, step))
  {
    hide Enabled, Apply, Later;
    var s := Apply(config, r, step);
    assert [step][1..] == [] && IsRun(config, s, []) && ClockAdvances(config, s, []) && FilesFound(config, s, []);
    assert IsRun(config, r, [step]) && After(config, r, [step]) == s;
    assert ClockAdvances(config, r, [step]);
    assert FilesFound(config, r, [step]);
  }

  lemma {:induction false} GoesOn(config: Config, r: Repo, a: seq<Step>, s: Repo, b: seq<Step>, t: Repo)
    requires Goes(config, r, a, s) && Goes(config, s, b, t)
    ensures Goes(config, r, a + b, t)
    decreases |a|
  {
    hide Enabled, Apply, Later;
    if a == [] {
      assert a + b == b;
    } else {
      assert (a + b)[1..] == a[1..] + b && (a + b)[0] == a[0];
      GoesOn(config, Apply(config, r, a[0]), a[1..], s, b, t);
    }
  }

  /** The state once a worker that lists one job is done with it. */
  function Worked(r: Repo, job: Job, after: Store): Repo {
    r.(head := r.head.(pending := r.head.pending - 1), spool := r.spool - {job}, store := after,
       processed := r.processed + [job])
  }

  lemma WorkOne(config: Config, r: Repo, job: Job, now: int, after: Store) returns (steps: seq<Step>)
    requires r.batch == [] && r.phase == Committing && r.spool.Keys == {job} && job.retention >= 0
    requires Commits(r.store, job.sha, job.retention, r.spool[job], now, after)
    requires forall a :: a in r.store.blobs ==> r.store.blobs[a].time < now
    ensures Goes(config, r, steps, Worked(r, job, after))
  {
    hide Commits, Goes;
    var listed := r.(batch := [job]);
    assert IsListing([job], r.spool);
    GoesByStep(config, r, List([job]));
    GoesByStep(config, listed, Commit(now, after));
    var committed := Apply(config, listed, Commit(now, after));
    GoesOn(config, r, [List([job])], listed, [Commit(now, after)], committed);
    GoesByStep(config, committed, Remove);
    var removed := Apply(config, committed, Remove);
    GoesByStep(config, removed, CountDown);
    var done := Apply(config, removed, CountDown);
    GoesOn(config, committed, [Remove], removed, [CountDown], done);
    steps := ([List([job])] + [Commit(now, after)]) + ([Remove] + [CountDown]);
    GoesOn(config, r, [List([job])] + [Commit(now, after)], committed, [Remove] + [CountDown], done);
    assert [job][1..] == [];
    assert done == Worked(r, job, after);
  }

  /** Two commits uploaded and accepted, "b" after "a". */
  function BothAccepted(): Repo {
    var a, b := Job(0, "a", 2), Job(1, "b", 2);
    Empty().(head := Head(Some("b"), 2, 2, map[]), partials := map["a" := [], "b" := []], renaming := {a, b},
             accepted := [Push(a, None), Push(b, None)])
  }

  lemma GoesByTwo(config: Config, r: Repo, a: Step, b: Step)
    requires Enabled(r, a) && Enabled(Apply(config, r, a), b)
    requires !a.Rename? && !a.Commit? && !b.Rename? && !b.Commit?
    ensures Goes(config, r, [a] + [b], Apply(config, Apply(config, r, a), b))
  {
    hide Goes, Enabled, Apply;
    GoesByStep(config, r, a);
    GoesByStep(config, Apply(config, r, a), b);
    GoesOn(config, r, [a], Apply(config, r, a), [b], Apply(config, Apply(config, r, a), b));
  }

  lemma AcceptBoth(config: Config) returns (steps: seq<Step>)
    requires config.maxDepth >= 2
    ensures Goes(config, Empty(), steps, BothAccepted())
  {
    assert IsSafe("a") && IsSafe("b");
    hide IsSafe, Goes;
    var written := Empty().(partials := map["a" := [], "b" := []]);
    GoesByTwo(config, Empty(), Write("a", []), Write("b", []));
    GoesByTwo(config, written, Accept("a", None, 2), Accept("b", None, 2));
    steps := ([Write("a", [])] + [Write("b", [])]) + ([Accept("a", None, 2)] + [Accept("b", None, 2)]);
    assert ApplyAccept(config, ApplyAccept(config, written, "a", None, 2), "b", None, 2) == BothAccepted();
    GoesOn(config, Empty(), [Write("a", [])] + [Write("b", [])], written,
           [Accept("a", None, 2)] + [Accept("b", None, 2)], BothAccepted());
  }

  /** The second of them is queued and committed before the first. */
  function SecondWorked(): Repo {
    var b := Job(1, "b", 2);
    Worked(ApplyRename(BothAccepted(), b), b, Store(map["b" := Blob(1, [])], Some("b")))
  }

  function FirstWorked(): Repo {
    var a := Job(0, "a", 2);
    Worked(ApplyRename(SecondWorked(), a), a, Store(map["b" := Blob(1, []), "a" := Blob(2, [])], Some("a")))
  }

  lemma SecondFirst(config: Config) returns (steps: seq<Step>)
    ensures Goes(config, BothAccepted(), steps, SecondWorked())
  {
    var b := Job(1, "b", 2);
    var r := ApplyRename(BothAccepted(), b);
    GoesByStep(config, BothAccepted(), Rename(b));
    assert r.spool == map[b := []];
    var work := WorkOne(config, r, b, 1, Store(map["b" := Blob(1, [])], Some("b")));
    hide Goes;
    GoesOn(config, BothAccepted(), [Rename(b)], r, work, SecondWorked());
    steps := [Rename(b)] + work;
  }

  /** The first is renamed into the queue once the second is worked off. */
  lemma FirstRenamed()
    ensures var a := Job(0, "a", 2); var r := ApplyRename(SecondWorked(), a);
            && a in SecondWorked().renaming && r.spool == map[a := []] && r.batch == [] && r.phase == Committing
            && r.store == Store(map["b" := Blob(1, [])], Some("b")) && "a" in SecondWorked().partials
  {
    assert SecondWorked().spool == map[];
  }

  lemma FirstCommits()
    ensures Commits(Store(map["b" := Blob(1, [])], Some("b")), "a", 2, [], 2,
                    Store(map["b" := Blob(1, []), "a" := Blob(2, [])], Some("a")))
  {
  }

  lemma FirstLast(config: Config) returns (steps: seq<Step>)
    ensures Goes(config, SecondWorked(), steps, FirstWorked())
  {
    var a, after := Job(0, "a", 2), Store(map["b" := Blob(1, []), "a" := Blob(2, [])], Some("a"));
    FirstRenamed();
    FirstCommits();
    hide SecondWorked, Commits, ApplyRename, Goes;
    var r := ApplyRename(SecondWorked(), a);
    GoesByStep(config, SecondWorked(), Rename(a));
    var work := WorkOne(config, r, a, 2, after);
    GoesOn(config, SecondWorked(), [Rename(a)], r, work, FirstWorked());
    steps := [Rename(a)] + work;
  }

  /** Out of order the persisted head can end behind: drained, with every file found and times increasing,
      it is "a" while pushes are compared with "b". */
  lemma StaleExample(config: Config) returns (steps: seq<Step>)
    requires config.maxDepth >= 2
    ensures IsOpened(Empty()) && Goes(config, Empty(), steps, FirstWorked())
    ensures Drained(FirstWorked()) && FirstWorked().head.sha == Some("b")
    ensures ReadHead(FirstWorked().store.head) == Some("a")
    ensures |FirstWorked().accepted| == 2 && FirstWorked().accepted[1].job == Job(1, "b", 2)
    ensures !IsLast(FirstWorked().processed, Job(1, "b", 2))
  {
    EmptyIsOpened();
    var accept := AcceptBoth(config);
    var second := SecondFirst(config);
    var first := FirstLast(config);
    StaleEnd();
    hide Goes, BothAccepted, SecondWorked, FirstWorked, Empty;
    GoesOn(config, Empty(), accept, BothAccepted(), second, SecondWorked());
    GoesOn(config, Empty(), accept + second, SecondWorked(), first, FirstWorked());
    steps := accept + second + first;
  }

  lemma StaleEnd()
    ensures Drained(FirstWorked()) && FirstWorked().head.sha == Some("b")
    ensures ReadHead(FirstWorked().store.head) == Some("a")
    ensures |FirstWorked().accepted| == 2 && FirstWorked().accepted[1].job == Job(1, "b", 2)
    ensures !IsLast(FirstWorked().processed, Job(1, "b", 2))
  {
    SafeHead("a");
    assert SecondWorked().spool == map[] && SecondWorked().renaming == {Job(0, "a", 2)};
    assert FirstWorked().spool == map[] && FirstWorked().renaming == {};
  }
}
