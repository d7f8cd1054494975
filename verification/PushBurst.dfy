/** Histories of the hub that accept as many pushes in a minute as any can. */
module PushBurst {
  import opened BlobStore
  import opened Decimal
  import opened Graph
  import opened Hub
  import opened PushRate
  import opened RateLimiter
  import opened Registry
  import opened RegistryRuns
  import opened Requests
  import opened Spool
  import opened Wrappers

  // ----- histories compose -----

  ghost predicate LeadsLog(config: Config, slots: nat, log: Log, end: Log) {
    exists events :: IsHistory(config, slots, log, events) && Outcome(config, slots, log, events) == end
  }

  lemma LogSelf(config: Config, slots: nat, log: Log)
    ensures LeadsLog(config, slots, log, log)
  {
    assert IsHistory(config, slots, log, []) && Outcome(config, slots, log, []) == log;
  }

  lemma {:induction false} HistoryJoined(config: Config, slots: nat, log: Log, a: seq<Event>, b: seq<Event>)
    requires IsHistory(config, slots, log, a) && IsHistory(config, slots, Outcome(config, slots, log, a), b)
    ensures IsHistory(config, slots, log, a + b)
    ensures Outcome(config, slots, log, a + b) == Outcome(config, slots, Outcome(config, slots, log, a), b)
    decreases |a|
  {
    hide Applies, Happen;
    if a == [] {
      assert a + b == b;
    } else {
      HistoryJoined(config, slots, Happen(config, log, a[0]), a[1..], b);
      assert (a + b)[1..] == a[1..] + b;
    }
  }

  lemma LogOn(config: Config, slots: nat, log: Log, middle: Log, end: Log)
    requires LeadsLog(config, slots, log, middle) && LeadsLog(config, slots, middle, end)
    ensures LeadsLog(config, slots, log, end)
  {
    hide Applies, Happen;
    var a :| IsHistory(config, slots, log, a) && Outcome(config, slots, log, a) == middle;
    var b :| IsHistory(config, slots, middle, b) && Outcome(config, slots, middle, b) == end;
    HistoryJoined(config, slots, log, a, b);
  }

  lemma LogByEvent(config: Config, slots: nat, log: Log, e: Event)
    requires CanHappen(config, slots, log, e)
    ensures LeadsLog(config, slots, log, Happen(config, log, e))
  {
    hide Applies, Happen;
    assert [e][1..] == [] && IsHistory(config, slots, Happen(config, log, e), []);
    assert IsHistory(config, slots, log, [e]) && Outcome(config, slots, log, [e]) == Happen(config, log, e);
  }

  // ----- the worker -----

  /** Nothing is queued and the worker is idle. */
  ghost predicate Calm(r: Repo) {
    r.head.pending == 0 && r.spool == map[] && r.batch == [] && r.phase == Committing
  }

  /** One job queued, to be committed and pruned away at once. */
  ghost predicate HasOne(r: Repo, job: Job) {
    r.head.pending == 1 && r.spool.Keys == {job} && r.batch == [] && r.phase == Committing && job.retention == 0
  }

  function Emptied(r: Repo, job: Job): Repo {
    r.(head := r.head.(pending := r.head.pending - 1), spool := r.spool - {job}, store := Store(map[], Some(job.sha)),
       processed := r.processed + [job])
  }

  lemma WorkBy(config: Config, slots: nat, log: Log, step: Step, s: Repo)
    requires IsWorkerStep(step) && Enabled(log.repo, step) && s == Apply(config, log.repo, step)
    ensures LeadsLog(config, slots, log, log.(repo := s))
  {
    hide LeadsLog, Enabled, Apply;
    LogByEvent(config, slots, log, Work(step));
  }

  lemma WorkOff(config: Config, slots: nat, log: Log, job: Job)
    requires HasOne(log.repo, job)
    ensures LeadsLog(config, slots, log, log.(repo := Emptied(log.repo, job))) && Calm(Emptied(log.repo, job))
  {
    hide LeadsLog;
    var r, after := log.repo, Store(map[], Some(job.sha));
    assert IsListing([job], r.spool) && [job][1..] == [];
    PrunedAway(r.store, job.sha, r.spool[job]);
    hide Commits, IsListing;
    assert (r.spool - {job}).Keys == {};
    var listed := r.(batch := [job]);
    var committed := listed.(store := after, phase := Removing, processed := r.processed + [job]);
    var removed := committed.(spool := r.spool - {job}, phase := Counting);
    WorkBy(config, slots, log, List([job]), listed);
    WorkBy(config, slots, log.(repo := listed), Commit(0, after), committed);
    WorkBy(config, slots, log.(repo := committed), Remove, removed);
    WorkBy(config, slots, log.(repo := removed), CountDown, Emptied(r, job));
    hide *;
    LogOn(config, slots, log, log.(repo := listed), log.(repo := committed));
    LogOn(config, slots, log, log.(repo := committed), log.(repo := removed));
    LogOn(config, slots, log, log.(repo := removed), log.(repo := Emptied(r, job)));
  }

  lemma PrunedAway(store: Store, sha: string, content: Bytes)
    ensures Commits(store, sha, 0, content, 0, Store(map[], Some(sha)))
  {
    var before := store.blobs[sha := Blob(0, content)];
    assert sha in before.Keys;
  }

  // ----- a handler goes on -----

  const FIRST := Chunk(0, 0, 2, [0])
  const SECOND := Chunk(1, 1, 2, [1])
  const WHOLE := Chunk(0, 0, 0, [])

  /** The requests of these histories name no base and keep no snapshot. */
  function Ask(sha: string, chunk: Chunk): Request {
    Request(sha, None, 0, chunk)
  }

  /** A handler has gone on to `next`, with `s` for the repository. */
  ghost predicate Goes(config: Config, slots: nat, log: Log, end: Log, id: nat, q: Request, s: Repo,
                       next: Option<Stage>, now: int) {
    && LeadsLog(config, slots, log, end) && end.now == now
    && end.repo == s && end.threads == Moved(log.threads, id, q, next)
  }

  lemma GoTo(config: Config, slots: nat, log: Log, id: nat, q: Request, at: Stage, now: int) returns (end: Log)
    requires id in log.threads && log.threads[id] == Thread(q, at) && log.now <= now
    ensures var (s, next) := Section(config, log.repo, q, at, now); Goes(config, slots, log, end, id, q, s, next, now)
    ensures end.accepts == NoteIf(log.accepts, TakesPush(config, log.repo, q, at), now)
  {
    hide Section, Moved, TakesPush, TakesToken, LeadsLog;
    LogByEvent(config, slots, log, Go(id, now));
    end := Happen(config, log, Go(id, now));
  }

  lemma MovedAgain(threads: map<nat, Thread>, id: nat, t: Thread, q: Request, next: Option<Stage>)
    ensures Moved(threads[id := t], id, q, next) == Moved(threads, id, q, next)
    ensures id !in threads ==> Moved(threads, id, q, None) == threads
  {
    assert threads[id := t] - {id} == threads - {id};
    if id !in threads {
      assert threads - {id} == threads;
    }
  }

  /** A handler goes on from a stage that neither asks the limiter nor decides. */
  lemma GoQuietly(config: Config, slots: nat, log: Log, middle: Log, id: nat, q: Request, at: Stage, now: int)
    returns (end: Log)
    requires Goes(config, slots, log, middle, id, q, middle.repo, Some(at), now) && !at.Deciding?
    ensures var (s, next) := Section(config, middle.repo, q, at, now);
            Goes(config, slots, log, end, id, q, s, next, now)
    ensures end.accepts == middle.accepts
  {
    end := GoTo(config, slots, middle, id, q, at, now);
    hide Section, LeadsLog;
    LogOn(config, slots, log, middle, end);
    MovedAgain(log.threads, id, Thread(q, at), q, Section(config, middle.repo, q, at, now).1);
  }

  lemma SectionsCheck(config: Config, r: Repo, q: Request, now: int)
    requires IsSafe(q.sha) && q.sha !in r.head.reservations && q.chunk.start == 0 && q.base == None
    requires r.head.pending + |r.head.reservations| < config.maxDepth
    requires forall x :: x in r.head.reservations ==> now - r.head.reservations[x] < RESERVATION_TTL
    ensures Section(config, r, q, Begun, now) == (r, Some(Sweeping(now)))
    ensures Section(config, r, q, Sweeping(now), now) == (r, Some(Clearing({})))
    ensures Section(config, r, q, Clearing({}), now) == (r, Some(Checking))
    ensures Section(config, r, q, Checking, now) == (r, Some(Asking))
  {
    hide IsSafe;
    assert ExpiredUploads(r.head.reservations, now) == {};
    assert r.head.reservations - {} == r.head.reservations && r.partials - {} == r.partials;
  }

  lemma Arrives(config: Config, slots: nat, log: Log, id: nat, q: Request, now: int) returns (end: Log)
    requires id !in log.threads && |log.threads| < slots && log.now <= now && Admits(config, q.chunk)
    ensures var next := Section(config, log.repo, q, Begun, now).1;
            Goes(config, slots, log, end, id, q, log.repo, next, now)
    ensures end.accepts == log.accepts
  {
    hide Admits;
    var arrived := log.(threads := log.threads[id := Thread(q, Begun)]);
    LogByEvent(config, slots, log, Arrive(id, q));
    end := GoTo(config, slots, arrived, id, q, Begun, now);
    hide LeadsLog, IsSafe;
    LogOn(config, slots, log, arrived, end);
    MovedAgain(log.threads, id, Thread(q, Begun), q, Section(config, log.repo, q, Begun, now).1);
  }

  lemma {:induction false} AloneHappens(config: Config, slots: nat, log: Log, id: nat, q: Request, at: Stage, now: int)
    returns (end: Log)
    requires id in log.threads && log.threads[id] == Thread(q, at) && log.now <= now
    ensures LeadsLog(config, slots, log, end) && end.repo == Alone(config, log.repo, q, at, now)
    ensures end.threads == log.threads - {id} && end.now == now
    decreases Rank(at)
  {
    hide LeadsLog, Section;
    RankFalls(config, log.repo, q, at, now);
    end := GoTo(config, slots, log, id, q, at, now);
    var next := Section(config, log.repo, q, at, now).1;
    if next.Some? {
      var middle := end;
      end := AloneHappens(config, slots, middle, id, q, next.value, now);
      LogOn(config, slots, log, middle, end);
      MovedAgain(log.threads, id, Thread(q, next.value), q, None);
    }
  }

  /** A request handled without interruption is a history of its own. */
  lemma PutHappens(config: Config, slots: nat, log: Log, id: nat, q: Request, now: int) returns (end: Log)
    requires id !in log.threads && |log.threads| < slots && log.now <= now && Admits(config, q.chunk)
    ensures LeadsLog(config, slots, log, end) && end.threads == log.threads && end.now == now
    ensures end.repo == HandlePut(config, log.repo, q.sha, q.base, q.retention, q.chunk, now).0
  {
    AloneIsPut(config, log.repo, q, now);
    hide LeadsLog, HandlePut, Alone;
    var arrived := log.(threads := log.threads[id := Thread(q, Begun)]);
    LogByEvent(config, slots, log, Arrive(id, q));
    end := AloneHappens(config, slots, arrived, id, q, Begun, now);
    LogOn(config, slots, log, arrived, end);
    assert arrived.threads - {id} == log.threads;
  }

  /** With nothing to expire and room in the queue, a new upload gets as far as the limiter. */
  lemma Checks(config: Config, slots: nat, log: Log, id: nat, q: Request, now: int) returns (end: Log)
    requires id !in log.threads && |log.threads| < slots && log.now <= now && Admits(config, q.chunk)
    requires IsSafe(q.sha) && q.sha !in log.repo.head.reservations && q.chunk.start == 0 && q.base == None
    requires log.repo.head.pending + |log.repo.head.reservations| < config.maxDepth
    requires forall x :: x in log.repo.head.reservations ==> now - log.repo.head.reservations[x] < RESERVATION_TTL
    ensures Goes(config, slots, log, end, id, q, log.repo, Some(Asking), now) && end.accepts == log.accepts
  {
    SectionsCheck(config, log.repo, q, now);
    hide IsSafe, Goes, Section, Admits;
    end := Arrives(config, slots, log, id, q, now);
    GoesRepo(config, slots, log, end, id, q, log.repo, Some(Sweeping(now)), now);
    end := GoQuietly(config, slots, log, end, id, q, Sweeping(now), now);
    GoesRepo(config, slots, log, end, id, q, log.repo, Some(Clearing({})), now);
    end := GoQuietly(config, slots, log, end, id, q, Clearing({}), now);
    GoesRepo(config, slots, log, end, id, q, log.repo, Some(Checking), now);
    end := GoQuietly(config, slots, log, end, id, q, Checking, now);
  }

  lemma GoesRepo(config: Config, slots: nat, log: Log, end: Log, id: nat, q: Request, s: Repo, next: Option<Stage>,
                 now: int)
    requires Goes(config, slots, log, end, id, q, s, next, now)
    ensures end.repo == s && end.now == now
  {
  }

  /** A handler gets a token, to reserve or to finish an upload without a reservation. */
  lemma GetsToken(config: Config, slots: nat, log: Log, id: nat, q: Request, at: Stage, now: int) returns (end: Log)
    requires id in log.threads && log.threads[id] == Thread(q, at) && log.now <= now && (at.Asking? || at.Charging?)
    requires Take(log.repo.rate, config.maxRate, now).1
    ensures Goes(config, slots, log, end, id, q, log.repo.(rate := Take(log.repo.rate, config.maxRate, now).0),
                 Some(if at.Asking? then Reserving else Deciding), now)
    ensures end.accepts == log.accepts
  {
    end := GoTo(config, slots, log, id, q, at, now);
    hide LeadsLog, Take, Moved;
  }

  function Reserved(r: Repo, sha: string, now: int, content: Bytes): Repo {
    r.(head := r.head.(reservations := r.head.reservations[sha := now]), partials := r.partials[sha := content])
  }

  lemma SectionsReserve(config: Config, r: Repo, q: Request, now: int)
    requires IsSafe(q.sha) && q.base == None && q.chunk.start == 0 && |q.chunk.body| <= config.maxBytes
    requires r.head.pending + |r.head.reservations| < config.maxDepth
    ensures var s := r.(head := r.head.(reservations := r.head.reservations[q.sha := now]));
            && Section(config, r, q, Reserving, now) == (s, Some(Spooling))
            && Section(config, s, q, Spooling, now)
               == (Reserved(r, q.sha, now, q.chunk.body), if |q.chunk.body| < q.chunk.total then None else Some(Taking))
  {
    hide IsSafe;
    assert [] + q.chunk.body == q.chunk.body;
  }

  /** A handler with a token reserves and spools its chunk. */
  lemma Reserves(config: Config, slots: nat, log: Log, id: nat, q: Request, now: int) returns (end: Log)
    requires id in log.threads && log.threads[id] == Thread(q, Reserving) && log.now <= now
    requires IsSafe(q.sha) && q.base == None && q.chunk.start == 0 && |q.chunk.body| <= config.maxBytes
    requires log.repo.head.pending + |log.repo.head.reservations| < config.maxDepth
    ensures Goes(config, slots, log, end, id, q, Reserved(log.repo, q.sha, now, q.chunk.body),
                 if |q.chunk.body| < q.chunk.total then None else Some(Taking), now)
    ensures end.accepts == log.accepts
  {
    SectionsReserve(config, log.repo, q, now);
    var s := log.repo.(head := log.repo.head.(reservations := log.repo.head.reservations[q.sha := now]));
    end := GoTo(config, slots, log, id, q, Reserving, now);
    assert end.accepts == log.accepts;
    hide IsSafe, Goes, Section, Reserved;
    GoesRepo(config, slots, log, end, id, q, s, Some(Spooling), now);
    end := GoQuietly(config, slots, log, end, id, q, Spooling, now);
  }

  function TakenUp(r: Repo, sha: string): Repo {
    r.(head := r.head.(reservations := r.head.reservations - {sha}))
  }

  /** A handler takes up the reservation, if there is one. */
  lemma TakesUp(config: Config, slots: nat, log: Log, middle: Log, id: nat, q: Request, now: int) returns (end: Log)
    requires Goes(config, slots, log, middle, id, q, middle.repo, Some(Taking), now)
    ensures Goes(config, slots, log, end, id, q, TakenUp(middle.repo, q.sha),
                 Some(if q.sha in middle.repo.head.reservations then Deciding else Charging), now)
    ensures end.accepts == middle.accepts
  {
    end := GoQuietly(config, slots, log, middle, id, q, Taking, now);
    hide Goes;
  }

  lemma SectionsResume(config: Config, r: Repo, q: Request, now: int)
    requires q.chunk == SECOND && IsSafe(q.sha) && q.sha in r.partials && r.partials[q.sha] == [0]
    requires config.maxBytes >= 2
    ensures Section(config, r, q, Begun, now) == (r, Some(Spooling))
    ensures Section(config, r, q, Spooling, now) == (r.(partials := r.partials[q.sha := [0, 1]]), Some(Taking))
  {
    hide IsSafe;
    assert [0] + [1] == [0 as bv8, 1];
  }

  /** The second chunk of an upload, up to where its reservation would be taken up. */
  lemma Resumes(config: Config, slots: nat, log: Log, id: nat, q: Request, now: int) returns (end: Log)
    requires id !in log.threads && |log.threads| < slots && log.now <= now && config.maxBytes >= 2
    requires q.chunk == SECOND && IsSafe(q.sha) && q.sha in log.repo.partials && log.repo.partials[q.sha] == [0]
    ensures var s := log.repo.(partials := log.repo.partials[q.sha := [0, 1]]);
            Goes(config, slots, log, end, id, q, TakenUp(s, q.sha),
                 Some(if q.sha in log.repo.head.reservations then Deciding else Charging), now)
    ensures end.accepts == log.accepts
  {
    assert Admits(config, SECOND);
    SectionsResume(config, log.repo, q, now);
    hide IsSafe, Goes, Section, Admits, TakenUp;
    end := Arrives(config, slots, log, id, q, now);
    GoesRepo(config, slots, log, end, id, q, log.repo, Some(Spooling), now);
    end := GoQuietly(config, slots, log, end, id, q, Spooling, now);
    var spooled := log.repo.(partials := log.repo.partials[q.sha := [0, 1]]);
    GoesRepo(config, slots, log, end, id, q, spooled, Some(Taking), now);
    end := TakesUp(config, slots, log, end, id, q, now);
  }

  function PushTaken(r: Repo, sha: string): Repo {
    var job := Job(r.head.nextSeq, sha, 0);
    r.(head := r.head.(sha := Some(sha), nextSeq := r.head.nextSeq + 1, pending := r.head.pending + 1),
       renaming := r.renaming + {job}, accepted := r.accepted + [Push(job, None)])
  }

  lemma SectionsDecide(config: Config, r: Repo, sha: string, chunk: Chunk, now: int)
    requires r.head.pending < config.maxDepth && sha in r.partials
    ensures var (q, s, job) := (Ask(sha, chunk), PushTaken(r, sha), Job(r.head.nextSeq, sha, 0));
            && Section(config, r, q, Deciding, now) == (s, Some(Queueing(job)))
            && Section(config, s, q, Queueing(job), now) == (ApplyRename(s, job), None)
            && TakesPush(config, r, q, Deciding)
  {
  }

  lemma QueuedOne(r: Repo, sha: string)
    requires Calm(r) && sha in r.partials
    ensures var job := Job(r.head.nextSeq, sha, 0); var s := ApplyRename(PushTaken(r, sha), job);
            && HasOne(s, job) && s.rate == r.rate && s.head.reservations == r.head.reservations
            && s.partials == r.partials - {sha}
  {
    var job := Job(r.head.nextSeq, sha, 0);
    assert r.spool[job := r.partials[sha]].Keys == {job};
  }

  /** An upload that can be accepted is, and the worker sees to it at once. */
  lemma Decides(config: Config, slots: nat, log: Log, id: nat, sha: string, chunk: Chunk, now: int) returns (end: Log)
    requires id in log.threads && log.threads[id] == Thread(Ask(sha, chunk), Deciding) && log.now <= now
    requires Calm(log.repo) && config.maxDepth >= 1 && sha in log.repo.partials
    ensures LeadsLog(config, slots, log, end) && end.threads == log.threads - {id} && end.now == now
    ensures Calm(end.repo) && end.accepts == log.accepts + [now] && end.repo.rate == log.repo.rate
    ensures end.repo.head.reservations == log.repo.head.reservations && end.repo.partials == log.repo.partials - {sha}
  {
    var q, job := Ask(sha, chunk), Job(log.repo.head.nextSeq, sha, 0);
    SectionsDecide(config, log.repo, sha, chunk, now);
    QueuedOne(log.repo, sha);
    hide Section, ApplyRename, PushTaken, Calm, TakesPush, LeadsLog;
    var decided := GoTo(config, slots, log, id, q, Deciding, now);
    var queued := GoQuietly(config, slots, log, decided, id, q, Queueing(job), now);
    WorkOff(config, slots, queued, job);
    end := queued.(repo := Emptied(queued.repo, job));
    LogOn(config, slots, log, queued, end);
  }

  // ----- handlers side by side -----

  /** Handler `i` sees to commit `i`, for each of a range of commits, and all are at the same stage. */
  function Waiting(names: seq<string>, lo: nat, hi: nat, chunk: Chunk, at: Stage): map<nat, Thread>
    requires hi <= |names|
  {
    map i: nat | lo <= i < hi :: Thread(Ask(names[i], chunk), at)
  }

  lemma WaitingMore(names: seq<string>, lo: nat, hi: nat, chunk: Chunk, at: Stage)
    requires lo <= hi < |names|
    ensures hi !in Waiting(names, lo, hi, chunk, at)
    ensures Moved(Waiting(names, lo, hi, chunk, at), hi, Ask(names[hi], chunk), Some(at))
            == Waiting(names, lo, hi + 1, chunk, at)
  {
  }

  lemma WaitingLess(names: seq<string>, lo: nat, hi: nat, chunk: Chunk, at: Stage)
    requires lo < hi <= |names|
    ensures lo in Waiting(names, lo, hi, chunk, at)
    ensures Waiting(names, lo, hi, chunk, at)[lo] == Thread(Ask(names[lo], chunk), at)
    ensures Waiting(names, lo, hi, chunk, at) - {lo} == Waiting(names, lo + 1, hi, chunk, at)
  {
  }

  lemma {:induction false} WaitingSize(names: seq<string>, lo: nat, hi: nat, chunk: Chunk, at: Stage)
    requires lo <= hi <= |names|
    ensures |Waiting(names, lo, hi, chunk, at)| == hi - lo && (lo == hi ==> Waiting(names, lo, hi, chunk, at) == map[])
  {
    if lo < hi {
      WaitingSize(names, lo, hi - 1, chunk, at);
      var fewer := Waiting(names, lo, hi - 1, chunk, at);
      assert Waiting(names, lo, hi, chunk, at).Keys == fewer.Keys + {hi - 1};
    }
  }

  ghost predicate AreGood(names: seq<string>) {
    Distinct(names) && forall i :: 0 <= i < |names| ==> IsSafe(names[i]) && names[i] != "y"
  }

  /** The worker is idle, and exactly the commits from `i` to `j` have a reservation. */
  ghost predicate Ready(log: Log, names: seq<string>, i: nat, j: nat) {
    Calm(log.repo) && i <= j <= |names| && log.repo.head.reservations.Keys == Elems(names[i..j])
  }

  /** The first byte of each of a range of commits is spooled. */
  ghost predicate Files(log: Log, names: seq<string>, lo: nat, hi: nat) {
    hi <= |names| && forall x :: lo <= x < hi ==> names[x] in log.repo.partials && log.repo.partials[names[x]] == [0]
  }

  lemma ReadyCount(log: Log, names: seq<string>, i: nat, j: nat)
    requires Ready(log, names, i, j) && AreGood(names)
    ensures |log.repo.head.reservations| == j - i && log.repo.head.pending == 0
    ensures forall k :: 0 <= k < |names| ==> (names[k] in log.repo.head.reservations <==> i <= k < j)
  {
    hide IsSafe;
    DistinctCount(names[i..j]);
    forall k | 0 <= k < |names| ensures names[k] in Elems(names[i..j]) <==> i <= k < j {
      if i <= k < j {
        assert names[i..j][k - i] == names[k];
      }
    }
  }

  /** When a token is sure to be had: in a new window. */
  function NextMinute(log: Log): int {
    if log.now < log.repo.rate.start + WINDOW then log.repo.rate.start + WINDOW else log.now
  }

  lemma TokenNext(config: Config, log: Log)
    requires config.maxRate >= 1
    ensures Take(log.repo.rate, config.maxRate, NextMinute(log)) == (RateWindow(NextMinute(log), 1), true)
  {
  }

  lemma GoesOn(config: Config, slots: nat, log: Log, middle: Log, end: Log, id: nat, q: Request, s: Repo, at: Stage,
               now: int, s': Repo, next: Option<Stage>, now': int)
    requires Goes(config, slots, log, middle, id, q, s, Some(at), now)
    requires Goes(config, slots, middle, end, id, q, s', next, now')
    ensures Goes(config, slots, log, end, id, q, s', next, now')
  {
    hide LeadsLog;
    LogOn(config, slots, log, middle, end);
    MovedAgain(log.threads, id, Thread(q, at), q, next);
  }

  /** A new upload gets a token, to reserve with. */
  lemma Holds(config: Config, slots: nat, log: Log, id: nat, q: Request, now: int) returns (end: Log)
    requires id !in log.threads && |log.threads| < slots && log.now <= now && Admits(config, q.chunk)
    requires IsSafe(q.sha) && q.sha !in log.repo.head.reservations && q.chunk.start == 0 && q.base == None
    requires log.repo.head.pending + |log.repo.head.reservations| < config.maxDepth
    requires Take(log.repo.rate, config.maxRate, now).1
    requires forall x :: x in log.repo.head.reservations ==> now - log.repo.head.reservations[x] < RESERVATION_TTL
    ensures Goes(config, slots, log, end, id, q, log.repo.(rate := Take(log.repo.rate, config.maxRate, now).0),
                 Some(Reserving), now)
    ensures end.accepts == log.accepts
  {
    hide IsSafe, Take, Admits;
    var checked := Checks(config, slots, log, id, q, now);
    end := GetsToken(config, slots, checked, id, q, Asking, now);
    hide Goes;
    GoesOn(config, slots, log, checked, end, id, q, log.repo, Asking, now,
           log.repo.(rate := Take(log.repo.rate, config.maxRate, now).0), Some(Reserving), now);
  }

  /** An upload of one chunk, up to where it is decided. */
  lemma Whole(config: Config, slots: nat, log: Log, id: nat, sha: string, now: int) returns (end: Log)
    requires id !in log.threads && |log.threads| < slots && log.now <= now && IsSafe(sha)
    requires log.repo.head.reservations == map[]
    requires log.repo.head.pending < config.maxDepth && Take(log.repo.rate, config.maxRate, now).1
    ensures Goes(config, slots, log, end, id, Ask(sha, WHOLE),
                 log.repo.(rate := Take(log.repo.rate, config.maxRate, now).0,
                           partials := log.repo.partials[sha := []]),
                 Some(Deciding), now)
    ensures end.accepts == log.accepts
  {
    assert Admits(config, WHOLE);
    hide IsSafe, Take, Admits;
    var q, rate := Ask(sha, WHOLE), Take(log.repo.rate, config.maxRate, now).0;
    var held := Holds(config, slots, log, id, q, now);
    var spooled := Reserves(config, slots, held, id, q, now);
    var s := Reserved(log.repo.(rate := rate), sha, now, []);
    assert spooled.repo == s;
    hide Goes;
    GoesOn(config, slots, log, held, spooled, id, q, log.repo.(rate := rate), Reserving, now, s, Some(Taking), now);
    end := TakesUp(config, slots, log, spooled, id, q, now);
    assert log.repo.head.reservations[sha := now] - {sha} == log.repo.head.reservations;
  }

  // ----- a stage of many handlers -----

  lemma MoreReserved(log: Log, end: Log, names: seq<string>, j: nat, now: int)
    requires AreGood(names) && Ready(log, names, 0, j) && j < |names| && Calm(end.repo)
    requires end.repo.head.reservations == log.repo.head.reservations[names[j] := now]
    ensures Ready(end, names, 0, j + 1)
  {
    hide IsSafe;
    assert names[0..j + 1] == names[0..j] + [names[j]];
    ElemsAppend(names[0..j], names[j]);
  }

  /** Handlers get tokens one after the other, each in a new window, and none reserves yet. */
  lemma {:induction false} HoldAll(config: Config, slots: nat, log: Log, names: seq<string>, k: nat, m: nat)
    returns (end: Log)
    requires AreGood(names) && Ready(log, names, 0, 0) && Files(log, names, 0, |names|) && k <= m <= |names|
    requires m <= slots
    requires log.threads == Waiting(names, 0, k, FIRST, Reserving) && config.maxDepth >= 1 && config.maxRate >= 1
    requires config.maxBytes >= 2
    ensures LeadsLog(config, slots, log, end) && Ready(end, names, 0, 0) && Files(end, names, 0, |names|)
    ensures end.threads == Waiting(names, 0, m, FIRST, Reserving) && end.accepts == log.accepts
    ensures if k == m then end == log else end.repo.rate == RateWindow(end.now, 1)
    decreases m - k
  {
    if k == m {
      LogSelf(config, slots, log);
      end := log;
    } else {
      var next := HoldNext(config, slots, log, names, k);
      hide *;
      end := HoldAll(config, slots, next, names, k + 1, m);
      LogOn(config, slots, log, next, end);
    }
  }

  lemma HoldNext(config: Config, slots: nat, log: Log, names: seq<string>, k: nat) returns (end: Log)
    requires AreGood(names) && Ready(log, names, 0, 0) && Files(log, names, 0, |names|) && k < |names| && k < slots
    requires log.threads == Waiting(names, 0, k, FIRST, Reserving) && config.maxDepth >= 1 && config.maxRate >= 1
    requires config.maxBytes >= 2
    ensures LeadsLog(config, slots, log, end) && Ready(end, names, 0, 0) && Files(end, names, 0, |names|)
    ensures end.threads == Waiting(names, 0, k + 1, FIRST, Reserving) && end.accepts == log.accepts
    ensures end.repo.rate == RateWindow(end.now, 1)
  {
    hide IsSafe, LeadsLog, Moved, Waiting, Take;
    assert Admits(config, FIRST);
    var now := NextMinute(log);
    ReadyCount(log, names, 0, 0);
    WaitingSize(names, 0, k, FIRST, Reserving);
    WaitingMore(names, 0, k, FIRST, Reserving);
    TokenNext(config, log);
    assert log.repo.head.reservations.Keys == {};
    end := Holds(config, slots, log, k, Ask(names[k], FIRST), now);
  }

  /** They reserve together. */
  lemma {:induction false} PlaceAll(config: Config, slots: nat, log: Log, names: seq<string>, k: nat, m: nat, now: int)
    returns (end: Log)
    requires AreGood(names) && Ready(log, names, 0, k) && Files(log, names, 0, |names|) && k <= m <= |names|
    requires m <= config.maxDepth
    requires log.threads == Waiting(names, k, m, FIRST, Reserving) && log.now <= now && config.maxBytes >= 2
    requires forall x :: x in log.repo.head.reservations ==> log.repo.head.reservations[x] >= now
    ensures LeadsLog(config, slots, log, end) && Ready(end, names, 0, m) && Files(end, names, 0, |names|)
    ensures end.threads == map[] && end.accepts == log.accepts && end.repo.rate == log.repo.rate && end.now <= now
    ensures forall x :: x in end.repo.head.reservations ==> end.repo.head.reservations[x] >= now
    decreases m - k
  {
    if k == m {
      LogSelf(config, slots, log);
      WaitingSize(names, k, m, FIRST, Reserving);
      end := log;
    } else {
      WaitingLess(names, k, m, FIRST, Reserving);
      var next := PlaceOne(config, slots, log, k, names, k, now);
      hide IsSafe, LeadsLog, Waiting, Ready, Files;
      end := PlaceAll(config, slots, next, names, k + 1, m, now);
      LogOn(config, slots, log, next, end);
    }
  }

  /** The next reservation, by a handler with a token for it. */
  lemma PlaceOne(config: Config, slots: nat, log: Log, id: nat, names: seq<string>, k: nat, now: int) returns (end: Log)
    requires AreGood(names) && Ready(log, names, 0, k) && Files(log, names, 0, |names|) && k < |names|
    requires k < config.maxDepth
    requires id in log.threads && log.threads[id] == Thread(Ask(names[k], FIRST), Reserving) && log.now <= now
    requires config.maxBytes >= 2
    ensures LeadsLog(config, slots, log, end) && Ready(end, names, 0, k + 1) && Files(end, names, 0, |names|)
    ensures end.threads == log.threads - {id} && end.accepts == log.accepts && end.repo.rate == log.repo.rate
    ensures end.now == now
    ensures end.repo.head.reservations == log.repo.head.reservations[names[k] := now]
  {
    hide IsSafe, LeadsLog;
    ReadyCount(log, names, 0, k);
    end := Reserves(config, slots, log, id, Ask(names[k], FIRST), now);
    MoreReserved(log, end, names, k, now);
  }

  /** The first `k` uploads are begun, in the windows up to the one that starts `q` minutes after `s`. */
  ghost predicate Filling(config: Config, log: Log, names: seq<string>, k: nat, q: nat, s: int) {
    && log.threads == map[] && Ready(log, names, 0, k) && Files(log, names, 0, |names|)
    && (forall x :: x in log.repo.head.reservations ==> log.repo.head.reservations[x] > s)
    && q <= 15 && log.repo.rate.start == s + q * WINDOW && 0 <= log.repo.rate.count <= config.maxRate
    && log.now <= (if q == 0 then s + 1 else s + q * WINDOW)
  }

  lemma FillNext(config: Config, slots: nat, log: Log, names: seq<string>, k: nat, q: nat, s: int, now: int)
    returns (end: Log)
    requires AreGood(names) && Filling(config, log, names, k, q, s) && k < |names| && k < config.maxDepth && slots >= 1
    requires s < now <= s + 15 * WINDOW && log.now <= now && Take(log.repo.rate, config.maxRate, now).1
    requires config.maxBytes >= 2
    ensures LeadsLog(config, slots, log, end) && Ready(end, names, 0, k + 1) && Files(end, names, 0, |names|)
    ensures forall x :: x in end.repo.head.reservations ==> end.repo.head.reservations[x] > s
    ensures end.threads == map[] && end.accepts == log.accepts && end.now == now
    ensures end.repo.rate == Take(log.repo.rate, config.maxRate, now).0
  {
    hide IsSafe, LeadsLog, Take;
    assert Admits(config, FIRST);
    ReadyCount(log, names, 0, k);
    var held := Holds(config, slots, log, 0, Ask(names[k], FIRST), now);
    assert Ready(held, names, 0, k);
    end := PlaceOne(config, slots, held, 0, names, k, now);
    LogOn(config, slots, log, held, end);
    assert held.threads - {0} == map[];
  }

  /** Uploads are begun one after the other while there are tokens for a quarter of an hour. */
  lemma {:induction false} FillAll(config: Config, slots: nat, log: Log, names: seq<string>, k: nat, m: nat, q: nat,
                                   s: int)
    returns (end: Log)
    requires AreGood(names) && Filling(config, log, names, k, q, s) && k <= m <= |names| && m <= config.maxDepth
    requires slots >= 1
    requires m - k <= config.maxRate - log.repo.rate.count + Budget(15 - q, config.maxRate) && config.maxRate >= 1
    requires config.maxBytes >= 2
    ensures LeadsLog(config, slots, log, end) && Ready(end, names, 0, m) && Files(end, names, 0, |names|)
    ensures forall x :: x in end.repo.head.reservations ==> end.repo.head.reservations[x] > s
    ensures end.threads == map[] && end.accepts == log.accepts && end.now <= s + 15 * WINDOW
    decreases m - k
  {
    if k == m {
      LogSelf(config, slots, log);
      end := log;
    } else {
      hide LeadsLog, Calm, IsSafe, Budget, Ready, Files;
      var q' := if log.repo.rate.count < config.maxRate then q else q + 1;
      if q' > q {
        WindowLeft(q, config.maxRate);
      }
      var now := if q' == 0 then s + 1 else s + q' * WINDOW;
      var next := FillNext(config, slots, log, names, k, q, s, now);
      end := FillAll(config, slots, next, names, k + 1, m, q', s);
      LogOn(config, slots, log, next, end);
    }
  }

  lemma WindowLeft(q: nat, max: nat)
    requires q <= 15
    ensures q < 15 ==> Budget(15 - q, max) == Budget(15 - (q + 1), max) + max
    ensures q == 15 ==> Budget(15 - q, max) == 0
  {
    if q < 15 {
      OneMoreWindow(15 - (q + 1), max);
    }
  }

  /** More handlers get as far as the limiter, all at one time. */
  lemma {:induction false} CheckAll(config: Config, slots: nat, log: Log, names: seq<string>, b: nat, k: nat, m: nat,
                                    now: int)
    returns (end: Log)
    requires AreGood(names) && Ready(log, names, 0, b) && Files(log, names, 0, |names|) && b <= k <= m <= |names|
    requires m <= config.maxDepth
    requires m - b <= slots && log.threads == Waiting(names, b, k, FIRST, Asking) && log.now <= now
    requires config.maxBytes >= 2
    requires forall x :: x in log.repo.head.reservations ==> now - log.repo.head.reservations[x] < RESERVATION_TTL
    ensures LeadsLog(config, slots, log, end) && Ready(end, names, 0, b) && Files(end, names, 0, |names|)
    ensures end.threads == Waiting(names, b, m, FIRST, Asking) && end.accepts == log.accepts
    decreases m - k
  {
    if k == m {
      LogSelf(config, slots, log);
      end := log;
    } else {
      hide IsSafe, LeadsLog, Moved, Waiting;
      assert Admits(config, FIRST);
      ReadyCount(log, names, 0, b);
      WaitingSize(names, b, k, FIRST, Asking);
      WaitingMore(names, b, k, FIRST, Asking);
      var next := Checks(config, slots, log, k, Ask(names[k], FIRST), now);
      end := CheckAll(config, slots, next, names, b, k + 1, m, now);
      LogOn(config, slots, log, next, end);
    }
  }

  /** They get their tokens one after the other, and reserve. */
  lemma {:induction false} AskAll(config: Config, slots: nat, log: Log, names: seq<string>, k: nat, m: nat)
    returns (end: Log)
    requires AreGood(names) && Ready(log, names, 0, k) && Files(log, names, 0, |names|) && k <= m <= |names|
    requires m <= config.maxDepth
    requires log.threads == Waiting(names, k, m, FIRST, Asking) && config.maxBytes >= 2 && config.maxRate >= 1
    ensures LeadsLog(config, slots, log, end) && Ready(end, names, 0, m) && Files(end, names, 0, |names|)
    ensures end.threads == map[] && end.accepts == log.accepts
    decreases m - k
  {
    if k == m {
      LogSelf(config, slots, log);
      WaitingSize(names, k, m, FIRST, Asking);
      end := log;
    } else {
      var next := AskNext(config, slots, log, names, k, m);
      hide *;
      end := AskAll(config, slots, next, names, k + 1, m);
      LogOn(config, slots, log, next, end);
    }
  }

  lemma AskNext(config: Config, slots: nat, log: Log, names: seq<string>, k: nat, m: nat) returns (end: Log)
    requires AreGood(names) && Ready(log, names, 0, k) && Files(log, names, 0, |names|) && k < m <= |names|
    requires m <= config.maxDepth
    requires log.threads == Waiting(names, k, m, FIRST, Asking) && config.maxBytes >= 2 && config.maxRate >= 1
    ensures LeadsLog(config, slots, log, end) && Ready(end, names, 0, k + 1) && Files(end, names, 0, |names|)
    ensures end.threads == Waiting(names, k + 1, m, FIRST, Asking) && end.accepts == log.accepts
  {
    hide IsSafe, LeadsLog, Waiting, Take;
    var now := NextMinute(log);
    TokenNext(config, log);
    WaitingLess(names, k, m, FIRST, Asking);
    var held := GetsToken(config, slots, log, k, Ask(names[k], FIRST), Asking, now);
    assert Ready(held, names, 0, k);
    end := PlaceOne(config, slots, held, k, names, k, now);
    LogOn(config, slots, log, held, end);
    assert held.threads - {k} == log.threads - {k};
  }

  // ----- handlers that are about to have a push accepted -----

  /** `n - r` handlers are about to decide, and their uploads are spooled; `r` reservations are open. */
  ghost predicate Poised(log: Log, names: seq<string>, r: nat, k: nat, n: nat, chunk: Chunk) {
    && Ready(log, names, 0, r) && Files(log, names, 0, r) && r <= k <= n <= |names|
    && log.threads == Waiting(names, k, n, chunk, Deciding)
    && forall x :: k <= x < n ==> names[x] in log.repo.partials
  }

  /** Uploads left over from before are finished without a reservation, as far as the decision. */
  lemma {:induction false} LooseAll(config: Config, slots: nat, log: Log, names: seq<string>, r: nat, k: nat, n: nat)
    returns (end: Log)
    requires AreGood(names) && Ready(log, names, 0, r) && Files(log, names, 0, r) && Files(log, names, k, n)
    requires r <= k <= n <= |names|
    requires log.threads == Waiting(names, r, k, SECOND, Deciding)
    requires (forall x :: r <= x < k ==> names[x] in log.repo.partials)
    requires n - r <= slots && config.maxRate >= 1 && config.maxBytes >= 2
    ensures LeadsLog(config, slots, log, end) && Poised(end, names, r, r, n, SECOND) && end.accepts == log.accepts
    ensures if k == n then end == log else end.repo.rate == RateWindow(end.now, 1)
    decreases n - k
  {
    if k == n {
      LogSelf(config, slots, log);
      end := log;
    } else {
      var next := LooseNext(config, slots, log, names, r, k, n);
      hide *;
      end := LooseAll(config, slots, next, names, r, k + 1, n);
      LogOn(config, slots, log, next, end);
    }
  }

  lemma LooseNext(config: Config, slots: nat, log: Log, names: seq<string>, r: nat, k: nat, n: nat) returns (end: Log)
    requires AreGood(names) && Ready(log, names, 0, r) && Files(log, names, 0, r) && Files(log, names, k, n)
    requires r <= k < n <= |names|
    requires log.threads == Waiting(names, r, k, SECOND, Deciding)
    requires (forall x :: r <= x < k ==> names[x] in log.repo.partials)
    requires n - r <= slots && config.maxRate >= 1 && config.maxBytes >= 2
    ensures LeadsLog(config, slots, log, end) && Ready(end, names, 0, r) && Files(end, names, 0, r)
    ensures Files(end, names, k + 1, n)
    ensures end.threads == Waiting(names, r, k + 1, SECOND, Deciding)
    ensures (forall x :: r <= x < k + 1 ==> names[x] in end.repo.partials)
    ensures end.accepts == log.accepts && end.repo.rate == RateWindow(end.now, 1)
  {
    hide IsSafe, LeadsLog, Waiting, Take;
    var now, q := NextMinute(log), Ask(names[k], SECOND);
    TokenNext(config, log);
    ReadyCount(log, names, 0, r);
    WaitingSize(names, r, k, SECOND, Deciding);
    WaitingMore(names, r, k, SECOND, Deciding);
    var resumed := Resumes(config, slots, log, k, q, now);
    assert log.repo.head.reservations - {names[k]} == log.repo.head.reservations;
    end := GetsToken(config, slots, resumed, k, q, Charging, now);
    MovedAgain(log.threads, k, Thread(q, Charging), q, Some(Deciding));
    OthersKept(log, end, names, k, [0, 1]);
    FilesStay(log, end, names, k, 0, r);
    FilesStay(log, end, names, k, k + 1, n);
    LogOn(config, slots, log, resumed, end);
    assert names[k] in end.repo.partials;
    hide Moved, AreGood, Files;
  }

  /** All of them are accepted at one time. */
  lemma {:induction false} DecideAll(config: Config, slots: nat, log: Log, names: seq<string>, r: nat, k: nat, n: nat,
                                     chunk: Chunk, now: int, lo: int) returns (end: Log)
    requires AreGood(names) && Poised(log, names, r, k, n, chunk) && config.maxDepth >= 1 && log.now <= now
    requires lo <= now < lo + WINDOW
    ensures LeadsLog(config, slots, log, end) && Ready(end, names, 0, r) && Files(end, names, 0, r)
    ensures end.threads == map[]
    ensures CountIn(end.accepts, lo, lo + WINDOW) == CountIn(log.accepts, lo, lo + WINDOW) + (n - k)
    ensures end.repo.rate == log.repo.rate && end.now <= now
    decreases n - k
  {
    if k == n {
      LogSelf(config, slots, log);
      WaitingSize(names, k, n, chunk, Deciding);
      end := log;
    } else {
      var next := DecideNext(config, slots, log, names, r, k, n, chunk, now);
      CountNext(log.accepts, now, lo, lo + WINDOW);
      hide *;
      end := DecideAll(config, slots, next, names, r, k + 1, n, chunk, now, lo);
      LogOn(config, slots, log, next, end);
    }
  }

  lemma DecideNext(config: Config, slots: nat, log: Log, names: seq<string>, r: nat, k: nat, n: nat, chunk: Chunk,
                   now: int)
    returns (end: Log)
    requires AreGood(names) && Poised(log, names, r, k, n, chunk) && k < n && config.maxDepth >= 1 && log.now <= now
    ensures LeadsLog(config, slots, log, end) && Poised(end, names, r, k + 1, n, chunk)
    ensures end.accepts == log.accepts + [now] && end.repo.rate == log.repo.rate && end.now == now
  {
    hide IsSafe, LeadsLog, Waiting;
    WaitingLess(names, k, n, chunk, Deciding);
    end := Decides(config, slots, log, k, names[k], chunk, now);
  }

  /** The reserved uploads are finished at one time. */
  lemma {:induction false} FinishAll(config: Config, slots: nat, log: Log, names: seq<string>, k: nat, r: nat, now: int,
                                     lo: int)
    returns (end: Log)
    requires AreGood(names) && Ready(log, names, k, r) && Files(log, names, k, r) && log.threads == map[] && slots >= 1
    requires config.maxDepth >= 1 && (k < r ==> config.maxBytes >= 2) && log.now <= now && lo <= now < lo + WINDOW
    ensures LeadsLog(config, slots, log, end) && Calm(end.repo) && end.threads == map[]
    ensures end.repo.head.reservations == map[]
    ensures CountIn(end.accepts, lo, lo + WINDOW) == CountIn(log.accepts, lo, lo + WINDOW) + (r - k)
    ensures end.repo.rate == log.repo.rate && end.now <= now
    decreases r - k
  {
    if k == r {
      LogSelf(config, slots, log);
      end := log;
      assert log.repo.head.reservations.Keys == {};
    } else {
      var next := FinishNext(config, slots, log, names, k, r, now);
      CountNext(log.accepts, now, lo, lo + WINDOW);
      hide *;
      end := FinishAll(config, slots, next, names, k + 1, r, now, lo);
      LogOn(config, slots, log, next, end);
    }
  }

  lemma FinishNext(config: Config, slots: nat, log: Log, names: seq<string>, k: nat, r: nat, now: int)
    returns (end: Log)
    requires AreGood(names) && Ready(log, names, k, r) && Files(log, names, k, r) && log.threads == map[] && slots >= 1
    requires config.maxDepth >= 1 && k < r && config.maxBytes >= 2 && log.now <= now
    ensures LeadsLog(config, slots, log, end) && Ready(end, names, k + 1, r) && Files(end, names, k + 1, r)
    ensures end.threads == map[]
    ensures end.accepts == log.accepts + [now] && end.repo.rate == log.repo.rate && end.now == now
  {
    hide IsSafe, LeadsLog;
    ReadyCount(log, names, k, r);
    var resumed := Resumes(config, slots, log, 0, Ask(names[k], SECOND), now);
    end := Decides(config, slots, resumed, 0, names[k], SECOND, now);
    assert resumed.threads - {0} == map[];
    OthersKept(log, end, names, k, [0, 1]);
    FewerReserved(log, end, names, k, r);
    hide *;
    LogOn(config, slots, log, resumed, end);
  }

  lemma FewerReserved(log: Log, end: Log, names: seq<string>, k: nat, r: nat)
    requires AreGood(names) && Ready(log, names, k, r) && Files(log, names, k, r) && k < r && Calm(end.repo)
    requires end.repo.head.reservations == log.repo.head.reservations - {names[k]} && KeepsOthers(log, end, names, k)
    ensures Ready(end, names, k + 1, r) && Files(end, names, k + 1, r)
  {
    FilesStay(log, end, names, k, k + 1, r);
    DropOne(names, k, r);
    hide IsSafe, Files, KeepsOthers, Elems, AreGood;
  }

  lemma DropOne(names: seq<string>, k: nat, r: nat)
    requires AreGood(names) && k < r <= |names|
    ensures Elems(names[k + 1..r]) == Elems(names[k..r]) - {names[k]}
  {
    hide IsSafe;
    assert names[k..r] == [names[k]] + names[k + 1..r];
    assert names[k] !in names[k + 1..r];
  }

  /** The files of other commits stay as they are. */
  ghost predicate KeepsOthers(log: Log, end: Log, names: seq<string>, k: nat) {
    forall x :: 0 <= x < |names| && x != k && names[x] in log.repo.partials ==>
      names[x] in end.repo.partials && end.repo.partials[names[x]] == log.repo.partials[names[x]]
  }

  lemma OthersKept(log: Log, end: Log, names: seq<string>, k: nat, content: Bytes)
    requires AreGood(names) && k < |names|
    requires end.repo.partials == log.repo.partials[names[k] := content]
             || end.repo.partials == log.repo.partials[names[k] := content] - {names[k]}
    ensures KeepsOthers(log, end, names, k)
  {
    hide IsSafe;
  }

  lemma FilesStay(log: Log, end: Log, names: seq<string>, k: nat, lo: nat, hi: nat)
    requires KeepsOthers(log, end, names, k) && Files(log, names, lo, hi) && !(lo <= k < hi)
    ensures Files(end, names, lo, hi)
  {
  }

  /** Pushes of one chunk, as many as the window has tokens for, or a new one has. */
  lemma {:induction false} PushMany(config: Config, slots: nat, log: Log, now: int, k: nat, lo: int) returns (end: Log)
    requires Calm(log.repo) && log.threads == map[] && log.repo.head.reservations == map[] && slots >= 1
    requires config.maxDepth >= 1
    requires (if now - log.repo.rate.start >= WINDOW then 0 else log.repo.rate.count) + k <= config.maxRate
    requires log.now <= now && lo <= now < lo + WINDOW
    ensures LeadsLog(config, slots, log, end) && Calm(end.repo) && end.threads == map[]
    ensures end.repo.head.reservations == map[]
    ensures CountIn(end.accepts, lo, lo + WINDOW) == CountIn(log.accepts, lo, lo + WINDOW) + k
    ensures now - log.repo.rate.start < WINDOW ==> end.repo.rate.start == log.repo.rate.start
    ensures end.now <= now
    decreases k
  {
    if k == 0 {
      LogSelf(config, slots, log);
      end := log;
    } else {
      var next := PushNext(config, slots, log, now);
      CountNext(log.accepts, now, lo, lo + WINDOW);
      hide LeadsLog, CountIn, Calm;
      end := PushMany(config, slots, next, now, k - 1, lo);
      LogOn(config, slots, log, next, end);
    }
  }

  lemma PushNext(config: Config, slots: nat, log: Log, now: int) returns (end: Log)
    requires Calm(log.repo) && log.threads == map[] && log.repo.head.reservations == map[] && slots >= 1
    requires config.maxDepth >= 1
    requires log.now <= now && Take(log.repo.rate, config.maxRate, now).1
    ensures LeadsLog(config, slots, log, end) && Calm(end.repo) && end.threads == map[]
    ensures end.repo.head.reservations == map[]
    ensures end.accepts == log.accepts + [now] && end.now == now
    ensures end.repo.rate == Take(log.repo.rate, config.maxRate, now).0
  {
    assert IsSafe("y");
    hide IsSafe, LeadsLog, Take;
    var whole := Whole(config, slots, log, 0, "y", now);
    end := Decides(config, slots, whole, 0, "y", WHOLE, now);
    LogOn(config, slots, log, whole, end);
    assert whole.threads - {0} == map[];
  }

  /** Uploads of one chunk, as far as the decision. */
  lemma {:induction false} WholeAll(config: Config, slots: nat, log: Log, names: seq<string>, k: nat, n: nat)
    returns (end: Log)
    requires AreGood(names) && Poised(log, names, 0, 0, k, WHOLE) && k <= n <= |names| && n <= slots
    requires config.maxRate >= 1 && config.maxDepth >= 1
    ensures LeadsLog(config, slots, log, end) && Poised(end, names, 0, 0, n, WHOLE) && end.accepts == log.accepts
    ensures if k == n then end == log else end.repo.rate == RateWindow(end.now, 1)
    decreases n - k
  {
    if k == n {
      LogSelf(config, slots, log);
      end := log;
    } else {
      var next := WholeNext(config, slots, log, names, k);
      hide *;
      end := WholeAll(config, slots, next, names, k + 1, n);
      LogOn(config, slots, log, next, end);
    }
  }

  lemma WholeNext(config: Config, slots: nat, log: Log, names: seq<string>, k: nat) returns (end: Log)
    requires AreGood(names) && Poised(log, names, 0, 0, k, WHOLE) && k < |names| && k < slots
    requires config.maxRate >= 1 && config.maxDepth >= 1
    ensures LeadsLog(config, slots, log, end) && Poised(end, names, 0, 0, k + 1, WHOLE) && end.accepts == log.accepts
    ensures end.repo.rate == RateWindow(end.now, 1)
  {
    hide IsSafe, LeadsLog, Waiting, Take, Moved;
    var now := NextMinute(log);
    TokenNext(config, log);
    WaitingSize(names, 0, k, WHOLE, Deciding);
    WaitingMore(names, 0, k, WHOLE, Deciding);
    assert log.repo.head.reservations.Keys == {};
    end := Whole(config, slots, log, k, names[k], now);
  }

  // ----- one minute -----

  /** Everything that is open accepted, the rest of the window's tokens, and all of the next window's. */
  lemma Finale(config: Config, slots: nat, log: Log, names: seq<string>, r: nat, n: nat, chunk: Chunk)
    returns (end: Log)
    requires AreGood(names) && Poised(log, names, r, r, n, chunk) && log.repo.rate == RateWindow(log.now, 1)
    requires log.accepts == []
    requires config.maxDepth >= 1 && config.maxRate >= 1 && slots >= 1 && (r > 0 ==> config.maxBytes >= 2)
    ensures LeadsLog(config, slots, log, end)
    ensures CountIn(end.accepts, log.now + 1, log.now + 1 + WINDOW) == n + 2 * config.maxRate - 1
  {
    hide LeadsLog, CountIn, AreGood, Waiting, Calm, Files;
    var lo := log.now + 1;
    CountNone([], lo, lo + WINDOW);
    var decided := DecideAll(config, slots, log, names, r, r, n, chunk, lo, lo);
    var finished := FinishAll(config, slots, decided, names, 0, r, lo, lo);
    LogOn(config, slots, log, decided, finished);
    var more := PushMany(config, slots, finished, lo, config.maxRate - 1, lo);
    LogOn(config, slots, log, finished, more);
    end := PushMany(config, slots, more, log.now + WINDOW, config.maxRate, lo);
    LogOn(config, slots, log, more, end);
  }

  /** As many uploads as there is room for are begun: on tokens held for them, on those of a quarter of an
      hour, and by handlers that had read the clock by then. */
  lemma OpenAll(config: Config, slots: nat, log: Log, names: seq<string>, r: nat) returns (end: Log)
    requires AreGood(names) && Ready(log, names, 0, 0) && Files(log, names, 0, |names|) && log.threads == map[]
    requires log.accepts == []
    requires slots >= 1 && config.maxDepth >= 1 && config.maxRate >= 1 && config.maxBytes >= 2
    requires r == Room(config, slots) <= |names|
    ensures LeadsLog(config, slots, log, end) && Ready(end, names, 0, r) && Files(end, names, 0, |names|)
    ensures end.threads == map[] && end.accepts == []
  {
    var a := Minimum(slots, r);
    var b := a + Minimum(16 * config.maxRate - 1, r - a);
    assert 0 < a <= b <= r <= config.maxDepth && r - b <= slots && b - a <= 16 * config.maxRate - 1;
    hide LeadsLog, AreGood, Waiting, Ready, Files, Room, Minimum, Budget;
    WaitingSize(names, 0, 0, FIRST, Reserving);
    var held := HoldAll(config, slots, log, names, 0, a);
    var s := held.now;
    NothingReserved(held, names, s + 1);
    var placed := PlaceAll(config, slots, held, names, 0, a, s + 1);
    LogOn(config, slots, log, held, placed);
    FullBudget(config.maxRate);
    var filled := FillAll(config, slots, placed, names, a, b, 0, s);
    LogOn(config, slots, log, placed, filled);
    WaitingSize(names, b, b, FIRST, Asking);
    var checked := CheckAll(config, slots, filled, names, b, b, r, s + 15 * WINDOW);
    LogOn(config, slots, log, filled, checked);
    end := AskAll(config, slots, checked, names, b, r);
    LogOn(config, slots, log, checked, end);
  }

  lemma NothingReserved(log: Log, names: seq<string>, now: int)
    requires Ready(log, names, 0, 0)
    ensures forall x :: x in log.repo.head.reservations ==> log.repo.head.reservations[x] >= now
  {
    assert log.repo.head.reservations.Keys == {};
  }

  lemma FullBudget(max: nat)
    ensures Budget(15, max) == 15 * max
  {
  }

  // ----- as many commits as needed -----

  const U32_LIMIT := 0x1_0000_0000

  function Names(n: nat): seq<string> {
    if n == 0 then [] else Names(n - 1) + [Digits(n - 1)]
  }

  lemma {:induction false} NamesAt(n: nat)
    ensures |Names(n)| == n && forall i :: 0 <= i < n ==> Names(n)[i] == Digits(i)
  {
    hide Digits;
    if n > 0 {
      NamesAt(n - 1);
    }
  }

  lemma NumberIsSafe(n: nat)
    requires n < 19 * U32_LIMIT
    ensures IsSafe(Digits(n)) && Digits(n) != "y"
  {
    DigitsFit(n, 11);
    Power11();
    hide Digits;
    var s := Digits(n);
    assert IsDigit(s[0]);
  }

  lemma Power11()
    ensures Power10(11) == 100_000_000_000
  {
    assert Power10(5) == 100_000;
    assert Power10(8) == 100_000_000;
  }

  lemma NamesAreGood(n: nat)
    requires n <= 19 * U32_LIMIT
    ensures AreGood(Names(n)) && |Names(n)| == n
  {
    hide IsSafe, Digits, Names;
    NamesAt(n);
    forall i | 0 <= i < n ensures IsSafe(Digits(i)) && Digits(i) != "y" && Value(Digits(i)) == i {
      NumberIsSafe(i);
      DigitsValue(i);
    }
  }

  // ----- the bound is met -----

  /** A history that accepts `Most` pushes in the minute from `lo`. */
  ghost predicate Attains(config: Config, slots: nat, r: Repo, end: Log, lo: int) {
    && IsOpened(r) && LeadsLog(config, slots, Opening(r, 0), end)
    && CountIn(end.accepts, lo, lo + WINDOW) >= Most(config, slots)
  }

  /** A repository with nothing but leftover uploads. */
  function Start(names: seq<string>): Repo {
    Empty().(partials := map x | x in names :: [0])
  }

  lemma Starts(names: seq<string>)
    ensures IsOpened(Start(names)) && Ready(Opening(Start(names), 0), names, 0, 0)
    ensures Files(Opening(Start(names), 0), names, 0, |names|)
  {
    assert names[0..0] == [];
    EmptyIsOpened();
    assert Start(names).head == Empty().head && Start(names).spool == map[];
  }

  /** When no reservation outlives its handler, every handler is about to decide. */
  lemma AttainSmall(config: Config, slots: nat) returns (r: Repo, end: Log, lo: int)
    requires config.maxDepth >= 1 && config.maxRate >= 1 && 1 <= slots < U32_LIMIT && config.maxBytes < 2
    ensures Attains(config, slots, r, end, lo)
  {
    hide LeadsLog, CountIn, AreGood, Waiting, Calm, Files, Names, Ready, IsOpened, Start;
    var names := Names(slots);
    NamesAreGood(slots);
    Starts(names);
    r := Start(names);
    var log := Opening(r, 0);
    WaitingSize(names, 0, 0, WHOLE, Deciding);
    NoFiles(log, names);
    var poised := WholeAll(config, slots, log, names, 0, slots);
    lo := poised.now + 1;
    end := Finale(config, slots, poised, names, 0, slots, WHOLE);
    LogOn(config, slots, log, poised, end);
  }

  lemma NoFiles(log: Log, names: seq<string>)
    ensures Files(log, names, 0, 0)
  {
  }

  /** Otherwise every reservation is open besides, the handlers being those of uploads without one. */
  lemma AttainLarge(config: Config, slots: nat) returns (r: Repo, end: Log, lo: int)
    requires config.maxDepth >= 1 && 1 <= config.maxRate < U32_LIMIT && 1 <= slots < U32_LIMIT && config.maxBytes >= 2
    ensures Attains(config, slots, r, end, lo)
  {
    var room := Room(config, slots);
    var n := room + slots;
    assert n <= 19 * U32_LIMIT;
    hide LeadsLog, CountIn, AreGood, Waiting, Calm, Names, Ready, IsOpened, Start, Room;
    var names := Names(n);
    NamesAreGood(n);
    Starts(names);
    r := Start(names);
    var log := Opening(r, 0);
    var open := OpenAll(config, slots, log, names, room);
    WaitingSize(names, room, room, SECOND, Deciding);
    var poised := LooseAll(config, slots, open, names, room, room, n);
    LogOn(config, slots, log, open, poised);
    lo := poised.now + 1;
    end := Finale(config, slots, poised, names, room, n, SECOND);
    LogOn(config, slots, log, poised, end);
  }

  lemma Attain(config: Config, slots: nat) returns (r: Repo, end: Log, lo: int)
    requires config.maxRate < U32_LIMIT && slots < U32_LIMIT
    ensures Attains(config, slots, r, end, lo)
  {
    if config.maxDepth == 0 || config.maxRate == 0 || slots == 0 {
      r, lo := Empty(), 0;
      EmptyIsOpened();
      end := Opening(r, 0);
      LogSelf(config, slots, end);
    } else if config.maxBytes < 2 {
      r, end, lo := AttainSmall(config, slots);
    } else {
      r, end, lo := AttainLarge(config, slots);
    }
  }

  /** How many pushes a history accepts in the minute from `lo`. */
  ghost function AcceptedInMinute(config: Config, slots: nat, r: Repo, created: int, events: seq<Event>, lo: int): nat
    requires IsHistory(config, slots, Opening(r, created), events)
  {
    CountIn(Outcome(config, slots, Opening(r, created), events).accepts, lo, lo + WINDOW)
  }

  ghost predicate CapsAccepted(config: Config, slots: nat, cap: int) {
    forall r, created, events, lo | IsOpened(r) && IsHistory(config, slots, Opening(r, created), events)
      :: AcceptedInMinute(config, slots, r, created, events, lo) <= cap
  }

  /** A number caps the pushes accepted in every minute of every history if and only if it is at least `Most`. */
  lemma AcceptedCap(config: Config, slots: nat, cap: int)
    requires config.maxRate < U32_LIMIT && slots < U32_LIMIT
    ensures CapsAccepted(config, slots, cap) <==> cap >= Most(config, slots)
  {
    hide Most, Happen, Applies, IsOpened;
    if cap >= Most(config, slots) {
      forall r, created, events, lo | IsOpened(r) && IsHistory(config, slots, Opening(r, created), events)
        ensures AcceptedInMinute(config, slots, r, created, events, lo) <= cap
      {
        AcceptedAtMost(config, slots, r, created, events, lo);
      }
    } else {
      var r, end, lo := Attain(config, slots);
      var log := Opening(r, 0);
      var events :| IsHistory(config, slots, log, events) && Outcome(config, slots, log, events) == end;
      assert AcceptedInMinute(config, slots, r, 0, events, lo) > cap;
    }
  }

  /** One push a minute, room for one, and three accepted at once: three handlers got their tokens in
      different minutes and decide together. */
  lemma ThreePushes() returns (end: Log, lo: int)
    ensures var config := Config(1, 1, 100);
            && LeadsLog(config, MAX_CONNECTIONS, Opening(Start(["a", "b", "c"]), 0), end)
            && CountIn(end.accepts, lo, lo + WINDOW) >= 3 > 2 * config.maxRate
  {
    var config, names := Config(1, 1, 100), ["a", "b", "c"];
    assert IsSafe("a") && IsSafe("b") && IsSafe("c");
    assert AreGood(names);
    hide LeadsLog, CountIn, AreGood, Waiting, Calm, Files, Ready, IsOpened, Start;
    Starts(names);
    var log := Opening(Start(names), 0);
    WaitingSize(names, 0, 0, WHOLE, Deciding);
    NoFiles(log, names);
    var poised := WholeAll(config, MAX_CONNECTIONS, log, names, 0, 3);
    lo := poised.now + 1;
    end := Finale(config, MAX_CONNECTIONS, poised, names, 0, 3, WHOLE);
    LogOn(config, MAX_CONNECTIONS, log, poised, end);
  }
}
