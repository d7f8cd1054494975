/** The registry's state for one repository as the hub updates it in place, method by method. */
module HubServer {
  import opened BlobStore
  import opened Graph
  import opened Hub
  import opened RateLimiter
  import opened Registry
  import opened Spool
  import Upload
  import opened Wrappers

  /** What the spool directory of a repository holds. */
  ghost predicate IsSpool(spool: map<Job, Bytes>) {
    && (forall j :: j in spool ==> IsJob(j) && j.number < U64_LIMIT - 1 && IsSafe(j.sha))
    && DistinctNumbers(spool.Keys)
  }

  /** The names in the directory. */
  function SpoolFiles(spool: map<Job, Bytes>, partials: map<string, Bytes>): set<string>
    requires forall j :: j in spool ==> IsJob(j)
  {
    (set j | j in spool.Keys && IsJob(j) :: JobFilename(j)) + (set u | u in partials.Keys :: u + ".tmp")
  }

  lemma SpoolHolds(spool: map<Job, Bytes>, partials: map<string, Bytes>)
    requires IsSpool(spool)
    ensures Holds(SpoolFiles(spool, partials), spool.Keys)
  {
    RegistryDirectoryHolds(spool.Keys, partials.Keys, {});
    hide JobFilename, ParseFilename, Holds;
    var none: set<string> := {};
    assert SpoolFiles(spool, partials) == (set j | j in spool.Keys && IsJob(j) :: JobFilename(j))
      + (set u | u in partials.Keys :: u + ".tmp") + (set s | s in none :: s + ".sig");
  }

  class RepoState {
    var sha: Option<string>
    var nextSeq: int
    var pending: int
    var reservations: map<string, int>
    const limiter: Limiter
    var partials: map<string, Bytes>
    var spool: map<Job, Bytes>
    const store: RepoStore

    ghost var renaming: set<Job>
    ghost var batch: seq<Job>
    ghost var phase: Phase
    ghost var accepted: seq<Push>
    ghost var arrived: map<Job, Bytes>
    ghost var lost: set<Job>
    ghost var processed: seq<Job>

    ghost function View(): Repo
      reads this, limiter, store
    {
      Repo(Head(sha, nextSeq, pending, reservations), RateWindow(limiter.windowStart, limiter.count), partials,
           renaming, spool, batch, phase, store.View(), accepted, arrived, lost, processed)
    }

    /** Opens a repository on what a previous registry left in its directories. */
    constructor (store: RepoStore, spool: map<Job, Bytes>, partials: map<string, Bytes>, now: int)
      requires IsSpool(spool)
      ensures IsOpened(View()) && fresh(limiter) && this.store == store
      ensures this.spool == spool && this.partials == partials
    {
      hide JobFilename, ParseFilename, Holds, IsSafe;
      SpoolHolds(spool, partials);
      var files := SpoolFiles(spool, partials);
      var queue, next, count := Recover(files, spool.Keys);
      this.store, this.spool, this.partials := store, spool, partials;
      this.limiter := new Limiter(now);
      this.sha, this.nextSeq, this.pending, this.reservations := ReadHead(store.head), next, count, map[];
      this.renaming, this.batch, this.phase := {}, [], Committing;
      this.accepted, this.arrived, this.lost, this.processed := [], spool, {}, [];
    }

    method ExpireUploads(now: int)
      modifies this`reservations, this`partials
      ensures View() == ExpireAll(old(View()), now)
    {
      var todo := reservations.Keys;
      var expired := {};
      while todo != {}
        invariant todo <= reservations.Keys && reservations == old(reservations) && partials == old(partials)
        invariant expired == ExpiredUploads(reservations, now) - todo
        decreases todo
      {
        var target := Pick(todo);
        if now - reservations[target] >= RESERVATION_TTL {
          expired := expired + {target};
        }
        todo := todo - {target};
      }
      reservations := reservations - expired;
      while expired != {}
        invariant expired <= ExpiredUploads(old(reservations), now)
        invariant reservations == old(reservations) - ExpiredUploads(old(reservations), now)
        invariant partials == old(partials) - (ExpiredUploads(old(reservations), now) - expired)
        decreases expired
      {
        var target := Pick(expired);
        partials := partials - {target};
        expired := expired - {target};
      }
    }

    method BeginUpload(config: Config, target: string, base: Option<string>, now: int) returns (answer: Answer)
      modifies this, limiter
      ensures (View(), answer) == Hub.BeginUpload(config, old(View()), target, base, now)
      ensures var r := old(View()); var live := Live(r, AllOf([]), now);
              var (room, elsewhere) := (r.head.pending + |live| < config.maxDepth, BuildsElsewhere(r.head.sha, base));
              var token := HasToken(r.rate, config.maxRate, now);
              && (answer == Failed <==> !IsSafe(target))
              && (answer == Decided(RateLimited(5)) <==> IsSafe(target) && target !in live && !room)
              && (answer == Decided(Conflict) <==> IsSafe(target) && target !in live && room && elsewhere)
              && (answer == Decided(RateLimited(60)) <==>
                    IsSafe(target) && target !in live && room && !elsewhere && !token)
              && (answer == Decided(Accepted) <==> IsSafe(target) && (target in live || (room && !elsewhere && token)))
    {
      hide IsSafe, BuildsElsewhere, HasToken, Live;
      BeginAnswers(config, View(), target, base, AllOf([]), now);
      if !IsSafe(target) {
        return Failed;
      }
      ExpireUploads(now);
      if target in reservations {
        return Decided(Accepted);
      }
      if pending + |reservations| >= config.maxDepth {
        return Decided(RateLimited(5));
      }
      if base.Some? && sha.Some? && sha != base {
        return Decided(Conflict);
      }
      var granted := limiter.TryTake(config.maxRate, now, now);
      if !granted {
        return Decided(RateLimited(60));
      }
      var decision := Reserve(config, target, base, now);
      return Decided(decision);
    }

    /** The reservation, decided under the head lock; what `BeginUpload` saw earlier may have changed. */
    method Reserve(config: Config, target: string, base: Option<string>, now: int) returns (decision: Decision)
      modifies this`reservations
      ensures var r := old(View());
              (View().head, decision) == ReserveUpload(r.head, config.maxDepth, target, base, now)
              && View() == r.(head := View().head)
      ensures var room := old(pending + |reservations|) < config.maxDepth;
              && (decision == RateLimited(5) <==> !room)
              && (decision == Conflict <==> room && BuildsElsewhere(sha, base))
              && (decision == Accepted <==> room && !BuildsElsewhere(sha, base))
    {
      ReserveTells(View().head, config.maxDepth, target, base, now);
      hide BuildsElsewhere;
      if pending + |reservations| >= config.maxDepth {
        return RateLimited(5);
      }
      if base.Some? && sha.Some? && sha != base {
        return Conflict;
      }
      reservations := reservations[target := now];
      return Accepted;
    }

    method AbandonUpload(target: string)
      modifies this`reservations, this`partials
      ensures View() == Hub.AbandonUpload(old(View()), target)
    {
      hide IsSafe;
      if !IsSafe(target) {
        return;
      }
      reservations := reservations - {target};
      partials := partials - {target};
    }

    method SpoolChunk(config: Config, target: string, start: nat, chunk: Bytes) returns (ok: bool)
      modifies this`partials
      ensures var spooled := Hub.SpoolChunk(config, old(View()), target, start, chunk);
              ok == spooled.Some? && View() == if ok then spooled.value else old(View())
      ensures ok <==> && IsSafe(target) && start + |chunk| <= config.maxBytes
                      && (start == 0 || (target in old(partials) && |old(partials)[target]| == start))
      ensures !ok ==> partials == old(partials)
      ensures ok ==> partials == old(partials)[target := (if start == 0 then [] else old(partials)[target]) + chunk]
    {
      hide IsSafe;
      if !IsSafe(target) {
        return false;
      }
      var file := if target in partials then partials[target] else [];
      if start != 0 && |file| != start {
        return false;
      }
      if start + |chunk| > config.maxBytes {
        return false;
      }
      if start == 0 {
        file := [];
      }
      partials := partials[target := file + chunk];
      ok := true;
    }

    method FinishUpload(config: Config, target: string, base: Option<string>, retention: nat, reserved: bool, now: int)
      returns (answer: Answer)
      modifies this, limiter
      ensures (View(), answer) == Hub.FinishUpload(config, old(View()), target, base, retention, reserved, now)
    {
      hide IsSafe, ApplyAccept, AcceptPush;
      AcceptKeepsFiles(config, View(), target, base, retention);
      if !IsSafe(target) {
        return Failed;
      }
      if !reserved {
        var granted := limiter.TryTake(config.maxRate, now, now);
        if !granted {
          return Decided(RateLimited(60));
        }
      }
      var decision, number := Decide(config, target, base, retention);
      if decision != Accepted {
        return Decided(decision);
      }
      answer := Enqueue(Job(number, target, retention));
    }

    /** Decided under the head lock: an accepted push takes the next number and moves the head. */
    method Decide(config: Config, target: string, base: Option<string>, retention: nat)
      returns (decision: Decision, number: int)
      modifies this`sha, this`nextSeq, this`pending, this`renaming, this`accepted
      ensures View() == ApplyAccept(config, old(View()), target, base, retention)
      ensures decision == AcceptPush(old(View()).head, config.maxDepth, target, base).1 && number == old(nextSeq)
      ensures && (decision == RateLimited(5) <==> old(pending) >= config.maxDepth)
              && (decision == Conflict <==> old(pending) < config.maxDepth && BuildsElsewhere(old(sha), base))
              && (decision == Accepted <==> old(pending) < config.maxDepth && !BuildsElsewhere(old(sha), base))
      ensures decision == Accepted ==>
                sha == Some(target) && nextSeq == old(nextSeq) + 1 && pending == old(pending) + 1
    {
      AcceptTells(View().head, config.maxDepth, target, base);
      AcceptApplies(config, View(), target, base, retention);
      ElsewhereIff(sha, base);
      hide ApplyAccept, AcceptPush, BuildsElsewhere;
      number := nextSeq;
      if pending >= config.maxDepth {
        decision := RateLimited(5);
      } else if base.Some? && sha.Some? && sha != base {
        decision := Conflict;
      } else {
        decision := Accepted;
        nextSeq := nextSeq + 1;
        pending := pending + 1;
        sha := Some(target);
        ghost var job := Job(number, target, retention);
        renaming := renaming + {job};
        accepted := accepted + [Push(job, base)];
      }
    }

    /** Renames the finished upload to its place in the queue. */
    method Enqueue(job: Job) returns (answer: Answer)
      modifies this`partials, this`renaming, this`spool, this`arrived, this`lost
      ensures View() == ApplyRename(old(View()), job)
      ensures answer == if job.sha in old(partials) then Decided(Accepted) else Failed
    {
      renaming := renaming - {job};
      if job.sha !in partials {
        lost := lost + {job};
        return Failed;
      }
      spool, arrived := spool[job := partials[job.sha]], arrived[job := partials[job.sha]];
      partials := partials - {job.sha};
      answer := Decided(Accepted);
    }

    method PushComplete(config: Config, target: string, base: Option<string>, retention: nat, now: int)
      returns (answer: Answer)
      modifies this, limiter
      ensures (View(), answer) == Hub.PushComplete(config, old(View()), target, base, retention, now)
    {
      hide Hub.FinishUpload, Hub.AbandonUpload;
      var reserved := target in reservations;
      reservations := reservations - {target};
      answer := FinishUpload(config, target, base, retention, reserved, now);
      if answer != Decided(Accepted) {
        AbandonUpload(target);
      }
    }

    /** PUT of one chunk: a run of the registry's steps that serves whoever sends it. */
    method Put(config: Config, target: string, base: Option<string>, retention: nat, c: Chunk, now: int)
      returns (reply: Reply)
      modifies this, limiter
      ensures (View(), reply) == HandlePut(config, old(View()), target, base, retention, c, now)
      ensures LeadsTo(config, old(View()), View())
      ensures Upload.IsServed(old(View()), View(), reply, target, c, retention)
      ensures IsAnswered(config, old(View()), target, base, c, now, reply)
      ensures IsDone(config, old(View()), View(), target, base, retention, c, now, reply)
    {
      hide Hub.BeginUpload, Hub.AbandonUpload, Hub.SpoolChunk, Hub.PushComplete, LeadsTo, Upload.IsServed;
      hide IsAnswered, IsDone, BuildsElsewhere, HasToken, Live, IsSafe;
      PutIsRun(config, View(), target, base, retention, c, now);
      PutAnswers(config, View(), target, base, retention, c, now);
      Upload.PutIsServed(config, View(), target, base, retention, c, now);
      if !IsValidRange(c) || c.total > config.maxBytes {
        return Status(400, None);
      }
      if c.start == 0 {
        var begun := BeginUpload(config, target, base, now);
        if begun == Failed {
          return Closed;
        }
        if begun != Decided(Accepted) {
          return ReplyTo(begun);
        }
      }
      var spooled := SpoolChunk(config, target, c.start, c.body);
      if !spooled {
        AbandonUpload(target);
        return Status(500, None);
      }
      if c.start + |c.body| < c.total {
        return Status(202, None);
      }
      var answer := PushComplete(config, target, base, retention, now);
      reply := ReplyTo(answer);
    }

    // ----- the worker -----

    method ListSpool() returns (jobs: seq<Job>)
      requires IsSpool(spool)
      ensures IsListing(jobs, spool)
    {
      hide JobFilename, ParseFilename, IsSafe, IsListing;
      SpoolHolds(spool, partials);
      var files := SpoolFiles(spool, partials);
      jobs := LeftoverJobs(files);
      RecoveredIsListing(files, jobs, spool);
    }

    /** Commits the first job of the batch, deletes its file and counts it down. */
    method FinishJob(config: Config, job: Job, now: int)
      requires batch != [] && batch[0] == job && phase == Committing && job in spool && job.retention >= 0
      modifies this`spool, this`pending, this`batch, this`processed, store
      ensures LeadsTo(config, old(View()), View())
      ensures spool == old(spool) - {job} && batch == old(batch)[1..] && phase == Committing
      ensures pending == old(pending) - 1 && processed == old(processed) + [job]
      ensures Commits(old(store.View()), job.sha, job.retention, old(spool)[job], now, store.View())
    {
      hide LeadsTo, Commits;
      ghost var r := View();
      store.Commit(job.sha, job.retention, spool[job], now);
      JobIsRun(config, r, now, store.View());
      processed := processed + [job];
      spool := spool - {job};
      pending := pending - 1;
      batch := batch[1..];
    }

    /** One round of the worker: every job that was queued when it listed the spool is committed, removed
        and counted down, in sequence order; `clock` tells the time of each commit. */
    method WorkerRound(config: Config, clock: nat -> int)
      requires batch == [] && phase == Committing && IsSpool(spool)
      modifies this`spool, this`pending, this`batch, this`processed, store
      ensures batch == [] && phase == Committing && LeadsTo(config, old(View()), View())
      ensures spool == map[] && pending == old(pending) - |old(spool)|
      ensures exists jobs, stores ::
                && IsListing(jobs, old(spool)) && processed == old(processed) + jobs
                && AreCommits(stores, jobs, old(spool), clock) && stores[0] == old(store.View())
                && stores[|jobs|] == store.View()
    {
      hide IsSafe, LeadsTo, IsListing, Elems, AreCommits, HasWorked;
      ghost var r := View();
      var jobs := ListSpool();
      ListingFacts(jobs, spool);
      ListIsRun(config, r, jobs);
      batch := jobs;
      ghost var stores := [store.View()];
      WorkBegins(config, r, jobs, stores, clock);
      var i := 0;
      while i < |jobs|
        invariant 0 <= i <= |jobs| && HasWorked(config, r, View(), jobs, i, stores, clock)
      {
        ghost var v := View();
        WorkReady(config, r, v, jobs, i, stores, clock);
        FinishJob(config, jobs[i], clock(i));
        WorkGoesOn(config, r, v, View(), jobs, i, stores, clock);
        stores := stores + [store.View()];
        i := i + 1;
      }
      WorkEnds(config, r, View(), jobs, stores, clock);
    }
  }

  /** The worker has seen to the first `i` jobs of its listing. */
  ghost predicate HasWorked(config: Config, r: Repo, v: Repo, jobs: seq<Job>, i: nat, stores: seq<Store>,
                            clock: nat -> int)
  {
    && i <= |jobs| && v.batch == jobs[i..] && v.phase == Committing && LeadsTo(config, r, v)
    && v.spool.Keys == Elems(jobs[i..]) && (forall j :: j in v.spool ==> j in r.spool && v.spool[j] == r.spool[j])
    && v.head.pending == r.head.pending - i && v.processed == r.processed + jobs[..i]
    && AreCommits(stores, jobs[..i], r.spool, clock) && stores[0] == r.store && stores[i] == v.store
  }

  lemma WorkBegins(config: Config, r: Repo, jobs: seq<Job>, stores: seq<Store>, clock: nat -> int)
    requires r.phase == Committing && LeadsTo(config, r, r.(batch := jobs)) && r.spool.Keys == Elems(jobs)
    requires stores == [r.store]
    ensures HasWorked(config, r, r.(batch := jobs), jobs, 0, stores, clock)
  {
    hide LeadsTo, Elems;
    NoCommits(stores, jobs, r.spool, clock);
    assert jobs[0..] == jobs && r.processed + jobs[..0] == r.processed;
  }

  lemma WorkReady(config: Config, r: Repo, v: Repo, jobs: seq<Job>, i: nat, stores: seq<Store>, clock: nat -> int)
    requires HasWorked(config, r, v, jobs, i, stores, clock) && i < |jobs|
    requires forall k :: 0 <= k < |jobs| ==> jobs[k].retention >= 0
    ensures v.batch != [] && v.batch[0] == jobs[i] && v.phase == Committing && jobs[i] in v.spool
  {
    hide LeadsTo, AreCommits;
    assert jobs[i..][0] == jobs[i] && jobs[i] in Elems(jobs[i..]);
  }

  lemma WorkGoesOn(config: Config, r: Repo, v: Repo, v': Repo, jobs: seq<Job>, i: nat, stores: seq<Store>,
                   clock: nat -> int)
    requires HasWorked(config, r, v, jobs, i, stores, clock) && i < |jobs| && Distinct(jobs) && jobs[i].retention >= 0
    requires jobs[i] in v.spool && LeadsTo(config, v, v') && v'.spool == v.spool - {jobs[i]}
    requires v'.batch == v.batch[1..] && v'.phase == Committing
    requires v'.head.pending == v.head.pending - 1 && v'.processed == v.processed + [jobs[i]]
    requires Commits(v.store, jobs[i].sha, jobs[i].retention, v.spool[jobs[i]], clock(i), v'.store)
    ensures HasWorked(config, r, v', jobs, i + 1, stores + [v'.store], clock)
  {
    hide LeadsTo, AreCommits, Commits, Elems, Distinct;
    AdvanceBatch(jobs, i);
    LeadsOn(config, r, v, v');
    CommitsLength(stores, jobs[..i], r.spool, clock);
    MoreCommits(stores, jobs, i, r.spool, clock, v'.store);
    assert v'.processed == r.processed + jobs[..i + 1];
  }

  lemma CommitsLength(stores: seq<Store>, jobs: seq<Job>, spool: map<Job, Bytes>, clock: nat -> int)
    requires AreCommits(stores, jobs, spool, clock)
    ensures |stores| == |jobs| + 1
  {
  }

  lemma WorkEnds(config: Config, r: Repo, v: Repo, jobs: seq<Job>, stores: seq<Store>, clock: nat -> int)
    requires HasWorked(config, r, v, jobs, |jobs|, stores, clock)
    ensures v.batch == [] && v.phase == Committing && v.spool == map[] && LeadsTo(config, r, v)
    ensures v.processed == r.processed + jobs && v.head.pending == r.head.pending - |jobs|
    ensures AreCommits(stores, jobs, r.spool, clock) && stores[0] == r.store && stores[|jobs|] == v.store
  {
    hide LeadsTo, AreCommits;
    assert jobs[..|jobs|] == jobs && jobs[|jobs|..] == [];
    CommitsLength(stores, jobs, r.spool, clock);
    assert v.spool.Keys == {};
  }

  /** The store after each of the jobs in turn, `clock` telling the times of the commits. */
  ghost predicate AreCommits(stores: seq<Store>, jobs: seq<Job>, spool: map<Job, Bytes>, clock: nat -> int) {
    && |stores| == |jobs| + 1
    && forall i :: 0 <= i < |jobs| ==>
         && jobs[i] in spool && jobs[i].retention >= 0
         && Commits(stores[i], jobs[i].sha, jobs[i].retention, spool[jobs[i]], clock(i), stores[i + 1])
  }

  lemma NoCommits(stores: seq<Store>, jobs: seq<Job>, spool: map<Job, Bytes>, clock: nat -> int)
    requires |stores| == 1
    ensures AreCommits(stores, jobs[..0], spool, clock)
  {
  }

  lemma MoreCommits(stores: seq<Store>, jobs: seq<Job>, i: nat, spool: map<Job, Bytes>, clock: nat -> int, after: Store)
    requires i < |jobs| && AreCommits(stores, jobs[..i], spool, clock) && jobs[i] in spool && jobs[i].retention >= 0
    requires Commits(stores[i], jobs[i].sha, jobs[i].retention, spool[jobs[i]], clock(i), after)
    ensures AreCommits(stores + [after], jobs[..i + 1], spool, clock)
  {
    hide Commits;
    var more := stores + [after];
    forall k | 0 <= k <= i
      ensures jobs[k] in spool && jobs[k].retention >= 0
              && Commits(more[k], jobs[k].sha, jobs[k].retention, spool[jobs[k]], clock(k), more[k + 1])
    {
      if k < i {
        assert jobs[..i][k] == jobs[k];
      }
    }
  }

  lemma AcceptApplies(config: Config, r: Repo, sha: string, base: Option<string>, retention: nat)
    ensures var (head, decision) := AcceptPush(r.head, config.maxDepth, sha, base);
            ApplyAccept(config, r, sha, base, retention)
            == if decision != Accepted then r
               else var job := Job(r.head.nextSeq, sha, retention);
                    r.(head := head, renaming := r.renaming + {job}, accepted := r.accepted + [Push(job, base)])
  {
  }

  lemma AcceptKeepsFiles(config: Config, r: Repo, sha: string, base: Option<string>, retention: nat)
    ensures ApplyAccept(config, r, sha, base, retention).partials == r.partials
  {
  }

  lemma ListIsRun(config: Config, r: Repo, jobs: seq<Job>)
    requires r.batch == [] && r.phase == Committing && IsListing(jobs, r.spool)
    ensures LeadsTo(config, r, r.(batch := jobs))
  {
    hide LeadsTo, IsListing;
    LeadsByStep(config, r, List(jobs));
  }

  lemma JobIsRun(config: Config, r: Repo, now: int, after: Store)
    requires Enabled(r, Commit(now, after))
    ensures LeadsTo(config, r, r.(head := r.head.(pending := r.head.pending - 1), spool := r.spool - {r.batch[0]},
                                  batch := r.batch[1..], store := after, processed := r.processed + [r.batch[0]]))
  {
    hide LeadsTo, Commits;
    LeadsByStep(config, r, Commit(now, after));
    var committed := Apply(config, r, Commit(now, after));
    LeadsByStep(config, committed, Remove);
    var removed := Apply(config, committed, Remove);
    LeadsOn(config, r, committed, removed);
    LeadsByStep(config, removed, CountDown);
    LeadsOn(config, r, removed, Apply(config, removed, CountDown));
  }

  lemma RecoveredIsListing(files: set<string>, jobs: seq<Job>, spool: map<Job, Bytes>)
    requires IsSpool(spool) && Holds(files, spool.Keys) && InSequence(jobs) && |jobs| == |JobFiles(files)|
    requires forall j :: j in jobs <==> exists f :: f in files && ParseFilename(f) == Some(j)
    ensures IsListing(jobs, spool)
  {
    hide ParseFilename, Holds, JobFilename, IsJob, IsSafe;
    RecoveredCount(files, spool.Keys);
    forall j ensures j in jobs <==> j in spool.Keys {
      RecoveredJobs(files, spool.Keys, j);
    }
    SameCountIsDistinct(jobs, spool.Keys);
    StrictlyInSequence(jobs, spool.Keys);
  }

  lemma ListingFacts(jobs: seq<Job>, spool: map<Job, Bytes>)
    requires IsListing(jobs, spool) && forall j :: j in spool ==> IsJob(j)
    ensures Elems(jobs) == spool.Keys && |jobs| == |spool| && Distinct(jobs) && Elems<Job>([]) == {}
    ensures forall i :: 0 <= i < |jobs| ==> jobs[i] in spool && jobs[i].retention >= 0
  {
    DistinctCount(jobs);
    assert Elems(jobs) == spool.Keys;
  }

  lemma AdvanceBatch(jobs: seq<Job>, i: nat)
    requires i < |jobs| && Distinct(jobs)
    ensures Elems(jobs[i + 1..]) == Elems(jobs[i..]) - {jobs[i]}
    ensures jobs[i..] != [] && jobs[i..][0] == jobs[i] && jobs[i..][1..] == jobs[i + 1..]
    ensures jobs[..i + 1] == jobs[..i] + [jobs[i]] && jobs[i] in Elems(jobs[i..])
  {
    assert jobs[i..] == [jobs[i]] + jobs[i + 1..];
  }
}
