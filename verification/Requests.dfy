/** PUT handlers as threads of the hub: each goes through its critical sections and file operations one at
    a time, and those of different handlers interleave. */
module Requests {
  import opened BlobStore
  import opened Hub
  import opened RateLimiter
  import opened Registry
  import opened Spool
  import opened Wrappers

  datatype Request = Request(sha: string, base: Option<string>, retention: nat, chunk: Chunk)

  /** What a handler does next. */
  datatype Stage =
    | Begun
    | Sweeping(read: int)         // expires uploads as of the time it has read
    | Clearing(gone: set<string>) // deletes the files of expired uploads
    | Checking
    | Asking                      // asks the limiter, to reserve
    | Reserving                   // holds a token
    | Spooling
    | Taking                      // takes up the reservation
    | Charging                    // has none and asks the limiter
    | Deciding                    // holds a reservation it has taken up, or a token
    | Queueing(job: Job)
    | Leaving                     // gives the upload up: its reservation
    | Dropping                    // and its file

  /** A request that is not answered with 400 at once. */
  predicate Admits(config: Config, c: Chunk) {
    IsValidRange(c) && c.total <= config.maxBytes
  }

  /** One section of a handler at time `now`, and the stage it is left in, if it is not done. */
  function Section(config: Config, r: Repo, q: Request, at: Stage, now: int): (Repo, Option<Stage>) {
    match at
    case Begun =>
      (r, if q.chunk.start != 0 then Some(Spooling) else if IsSafe(q.sha) then Some(Sweeping(now)) else None)
    case Sweeping(read) =>
      (r.(head := ExpireUploads(r.head, read)), Some(Clearing(ExpiredUploads(r.head.reservations, read))))
    case Clearing(gone) => (r.(partials := r.partials - gone), Some(Checking))
    case Checking =>
      (r, match CheckUpload(r.head, config.maxDepth, q.sha, q.base)
          case None => Some(Asking)
          case Some(decision) => if decision == Accepted then Some(Spooling) else None)
    case Asking =>
      var (rate, granted) := Take(r.rate, config.maxRate, now);
      (r.(rate := rate), if granted then Some(Reserving) else None)
    case Reserving =>
      var (head, decision) := ReserveUpload(r.head, config.maxDepth, q.sha, q.base, now);
      (r.(head := head), if decision == Accepted then Some(Spooling) else None)
    case Spooling =>
      var spooled := SpoolChunk(config, r, q.sha, q.chunk.start, q.chunk.body);
      if spooled.None? then (r, if IsSafe(q.sha) then Some(Leaving) else None)
      else (spooled.value, if q.chunk.start + |q.chunk.body| < q.chunk.total then None else Some(Taking))
    case Taking =>
      (r.(head := ReleaseUpload(r.head, q.sha)), Some(if q.sha in r.head.reservations then Deciding else Charging))
    case Charging =>
      var (rate, granted) := Take(r.rate, config.maxRate, now);
      (r.(rate := rate), Some(if granted then Deciding else Leaving))
    case Deciding =>
      (ApplyAccept(config, r, q.sha, q.base, q.retention),
       Some(if AcceptPush(r.head, config.maxDepth, q.sha, q.base).1 == Accepted
            then Queueing(Job(r.head.nextSeq, q.sha, q.retention)) else Leaving))
    case Queueing(job) => (ApplyRename(r, job), if job.sha in r.partials then None else Some(Leaving))
    case Leaving => (r.(head := ReleaseUpload(r.head, q.sha)), Some(Dropping))
    case Dropping => (r.(partials := r.partials - {q.sha}), None)
  }

  // ----- a handler that is not interrupted -----

  function Rank(at: Stage): nat {
    match at
    case Begun => 12
    case Sweeping(_) => 11
    case Clearing(_) => 10
    case Checking => 9
    case Asking => 8
    case Reserving => 7
    case Spooling => 6
    case Taking => 5
    case Charging => 4
    case Deciding => 3
    case Queueing(_) => 2
    case Leaving => 1
    case Dropping => 0
  }

  lemma RankFalls(config: Config, r: Repo, q: Request, at: Stage, now: int)
    ensures var next := Section(config, r, q, at, now).1; next.Some? ==> Rank(next.value) < Rank(at)
  {
  }

  /** All sections from `at` on, one after the other. */
  function Alone(config: Config, r: Repo, q: Request, at: Stage, now: int): Repo
    decreases Rank(at)
  {
    RankFalls(config, r, q, at, now);
    var (s, next) := Section(config, r, q, at, now);
    if next.None? then s else Alone(config, s, q, next.value, now)
  }

  lemma AloneLeaves(config: Config, r: Repo, q: Request, now: int)
    requires IsSafe(q.sha)
    ensures Alone(config, r, q, Leaving, now) == AbandonUpload(r, q.sha)
  {
    hide IsSafe;
    var released := r.(head := ReleaseUpload(r.head, q.sha));
    assert Alone(config, released, q, Dropping, now) == released.(partials := r.partials - {q.sha});
  }

  lemma AloneDecides(config: Config, r: Repo, q: Request, reserved: bool, now: int)
    requires IsSafe(q.sha)
    ensures var (done, answer) := FinishUpload(config, r, q.sha, q.base, q.retention, reserved, now);
            Alone(config, r, q, if reserved then Deciding else Charging, now)
            == if answer == Decided(Accepted) then done else AbandonUpload(done, q.sha)
  {
    hide IsSafe, AbandonUpload, Take, ApplyRename;
    var counted := if reserved then r else r.(rate := Take(r.rate, config.maxRate, now).0);
    var decided := ApplyAccept(config, counted, q.sha, q.base, q.retention);
    var job := Job(r.head.nextSeq, q.sha, q.retention);
    AloneLeaves(config, counted, q, now);
    AloneLeaves(config, decided, q, now);
    AloneLeaves(config, ApplyRename(decided, job), q, now);
    hide ApplyAccept;
    AloneFrom(config, decided, q, Queueing(job), now);
    AloneFrom(config, counted, q, Deciding, now);
    AloneFrom(config, r, q, Charging, now);
  }

  lemma AloneFrom(config: Config, r: Repo, q: Request, at: Stage, now: int)
    ensures var (s, next) := Section(config, r, q, at, now);
            Alone(config, r, q, at, now) == if next.None? then s else Alone(config, s, q, next.value, now)
  {
  }

  lemma AloneSpools(config: Config, r: Repo, q: Request, now: int)
    ensures Alone(config, r, q, Spooling, now)
            == SpoolAndFinish(config, r, q.sha, q.base, q.retention, q.chunk, now).0
  {
    hide IsSafe, AbandonUpload, FinishUpload, SpoolOffset, Section, Alone;
    AloneFrom(config, r, q, Spooling, now);
    var spooled := SpoolChunk(config, r, q.sha, q.chunk.start, q.chunk.body);
    if spooled.Some? {
      var s := spooled.value;
      var released := s.(head := ReleaseUpload(s.head, q.sha));
      SpooledTakes(config, r, q, s, now);
      AloneFrom(config, s, q, Taking, now);
      AloneDecides(config, released, q, q.sha in s.head.reservations, now);
    } else {
      NotSpooled(config, r, q, now);
    }
  }

  lemma NotSpooled(config: Config, r: Repo, q: Request, now: int)
    requires SpoolChunk(config, r, q.sha, q.chunk.start, q.chunk.body).None?
    ensures Alone(config, r, q, Spooling, now) == AbandonUpload(r, q.sha)
  {
    hide SpoolChunk;
    if IsSafe(q.sha) {
      AloneLeaves(config, r, q, now);
    }
  }

  lemma SpooledTakes(config: Config, r: Repo, q: Request, s: Repo, now: int)
    requires SpoolChunk(config, r, q.sha, q.chunk.start, q.chunk.body) == Some(s)
    ensures IsSafe(q.sha)
    ensures Section(config, r, q, Spooling, now)
            == (s, if q.chunk.start + |q.chunk.body| < q.chunk.total then None else Some(Taking))
    ensures Section(config, s, q, Taking, now)
            == (s.(head := ReleaseUpload(s.head, q.sha)),
                Some(if q.sha in s.head.reservations then Deciding else Charging))
  {
  }

  lemma AloneBegins(config: Config, r: Repo, q: Request, now: int)
    requires q.chunk.start == 0
    ensures var (begun, answer) := BeginUpload(config, r, q.sha, q.base, now);
            Alone(config, r, q, Begun, now)
            == if answer == Decided(Accepted) then Alone(config, begun, q, Spooling, now) else begun
  {
    hide IsSafe, SpoolChunk, Take, CheckUpload, ReserveUpload, ExpireUploads, ExpiredUploads, Alone;
    AloneFrom(config, r, q, Begun, now);
    if IsSafe(q.sha) {
      var gone := ExpiredUploads(r.head.reservations, now);
      var swept := r.(head := ExpireUploads(r.head, now));
      var live := swept.(partials := r.partials - gone);
      AloneFrom(config, r, q, Sweeping(now), now);
      AloneFrom(config, swept, q, Clearing(gone), now);
      AloneFrom(config, live, q, Checking, now);
      AloneFrom(config, live, q, Asking, now);
      AloneFrom(config, live.(rate := Take(r.rate, config.maxRate, now).0), q, Reserving, now);
    }
  }

  /** Left alone, a handler does to the repository what `HandlePut` says. */
  lemma AloneIsPut(config: Config, r: Repo, q: Request, now: int)
    requires Admits(config, q.chunk)
    ensures Alone(config, r, q, Begun, now) == HandlePut(config, r, q.sha, q.base, q.retention, q.chunk, now).0
  {
    hide IsSafe, BeginUpload, SpoolAndFinish, Alone;
    if q.chunk.start == 0 {
      AloneBegins(config, r, q, now);
      AloneSpools(config, BeginUpload(config, r, q.sha, q.base, now).0, q, now);
    } else {
      AloneFrom(config, r, q, Begun, now);
      AloneSpools(config, r, q, now);
    }
  }

  // ----- every section is a run of the registry's steps -----

  /** What holds of a handler that has come to its stage. */
  ghost predicate IsAt(r: Repo, q: Request, at: Stage) {
    && (at.Begun? || (at.Spooling? && q.chunk.start != 0) || IsSafe(q.sha))
    && (at.Queueing? ==> at.job in r.renaming)
  }

  lemma SectionIsRun(config: Config, r: Repo, q: Request, at: Stage, now: int)
    requires IsAt(r, q, at)
    ensures LeadsTo(config, r, Section(config, r, q, at, now).0)
  {
    hide LeadsTo, IsSafe, Take, CheckUpload, AcceptPush;
    hide ApplyAccept, ApplyRename, ReserveUpload, SpoolOffset, ExpireUploads;
    match at
    case Sweeping(read) => LeadsByStep(config, r, Expire(read));
    case Clearing(gone) => DiscardAll(config, r, gone);
    case Asking => LeadsByStep(config, r, TakeToken(now));
    case Reserving => LeadsByStep(config, r, Reserve(q.sha, q.base, now));
    case Spooling =>
      LeadsToSelf(config, r);
      var spooled := SpoolChunk(config, r, q.sha, q.chunk.start, q.chunk.body);
      if spooled.Some? {
        LeadsByStep(config, r, Write(q.sha, spooled.value.partials[q.sha]));
      }
    case Charging => LeadsByStep(config, r, TakeToken(now));
    case Deciding => LeadsByStep(config, r, Accept(q.sha, q.base, q.retention));
    case Queueing(job) => LeadsByStep(config, r, Rename(job));
    case Dropping => LeadsByStep(config, r, Discard(q.sha));
    case Taking => LeadsByStep(config, r, Release(q.sha));
    case Leaving => LeadsByStep(config, r, Release(q.sha));
    case _ => LeadsToSelf(config, r);
  }
}
