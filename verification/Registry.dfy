/** One repository of the hub registry, as a machine whose steps are the critical sections and file
    operations of its threads: uploads reserve, spool, are accepted and renamed into the queue, and one
    worker commits the queued jobs. Steps of different threads interleave freely. */
module Registry {
  import opened BlobStore
  import opened RateLimiter
  import opened Spool
  import opened Wrappers

  const RESERVATION_TTL := 900_000_000_000

  datatype Config = Config(maxDepth: nat, maxRate: nat, maxBytes: nat)

  datatype Decision = Accepted | Conflict | RateLimited(retryAfterSecs: nat)

  /** What the head lock guards. */
  datatype Head = Head(sha: Option<string>, nextSeq: int, pending: int, reservations: map<string, int>)

  predicate Conflicts(h: Head, base: Option<string>) {
    base.Some? && h.sha.Some? && h.sha != base
  }

  /** The first section of `begin_upload`; none means that the upload goes on to ask for a token. */
  function CheckUpload(h: Head, maxDepth: nat, sha: string, base: Option<string>): Option<Decision> {
    if sha in h.reservations then Some(Accepted)
    else if h.pending + |h.reservations| >= maxDepth then Some(RateLimited(5))
    else if Conflicts(h, base) then Some(Conflict)
    else None
  }

  /** The last section of `begin_upload`. */
  function ReserveUpload(h: Head, maxDepth: nat, sha: string, base: Option<string>, now: int): (Head, Decision) {
    if h.pending + |h.reservations| >= maxDepth then (h, RateLimited(5))
    else if Conflicts(h, base) then (h, Conflict)
    else (h.(reservations := h.reservations[sha := now]), Accepted)
  }

  function ReleaseUpload(h: Head, sha: string): Head {
    h.(reservations := h.reservations - {sha})
  }

  function ExpiredUploads(reservations: map<string, int>, now: int): set<string> {
    set sha | sha in reservations && now - reservations[sha] >= RESERVATION_TTL
  }

  function ExpireUploads(h: Head, now: int): Head {
    h.(reservations := h.reservations - ExpiredUploads(h.reservations, now))
  }

  /** The deciding section of `finish_upload`. An accepted push is given the old `nextSeq`. */
  function AcceptPush(h: Head, maxDepth: nat, sha: string, base: Option<string>): (Head, Decision) {
    if h.pending >= maxDepth then (h, RateLimited(5))
    else if Conflicts(h, base) then (h, Conflict)
    else (h.(sha := Some(sha), nextSeq := h.nextSeq + 1, pending := h.pending + 1), Accepted)
  }

  // ----- what the sections decide -----

  /** The push builds on one commit and the head is another. */
  ghost predicate BuildsElsewhere(head: Option<string>, base: Option<string>) {
    exists a, b :: a != b && base == Some(a) && head == Some(b)
  }

  lemma ElsewhereIff(head: Option<string>, base: Option<string>)
    ensures BuildsElsewhere(head, base) <==> base.Some? && head.Some? && head != base
  {
  }

  lemma CheckTells(h: Head, maxDepth: nat, sha: string, base: Option<string>)
    ensures var check := CheckUpload(h, maxDepth, sha, base); var room := h.pending + |h.reservations| < maxDepth;
            && (check == Some(Accepted) <==> sha in h.reservations)
            && (check == Some(RateLimited(5)) <==> sha !in h.reservations && !room)
            && (check == Some(Conflict) <==> sha !in h.reservations && room && BuildsElsewhere(h.sha, base))
            && (check == None <==> sha !in h.reservations && room && !BuildsElsewhere(h.sha, base))
  {
  }

  lemma ReserveTells(h: Head, maxDepth: nat, sha: string, base: Option<string>, now: int)
    ensures var (after, decision) := ReserveUpload(h, maxDepth, sha, base, now);
            var room := h.pending + |h.reservations| < maxDepth;
            && (decision == RateLimited(5) <==> !room)
            && (decision == Conflict <==> room && BuildsElsewhere(h.sha, base))
            && (decision == Accepted <==> room && !BuildsElsewhere(h.sha, base))
            && after == h.(reservations := if decision == Accepted then h.reservations[sha := now] else h.reservations)
  {
  }

  lemma AcceptTells(h: Head, maxDepth: nat, sha: string, base: Option<string>)
    ensures var (after, decision) := AcceptPush(h, maxDepth, sha, base);
            && (decision == RateLimited(5) <==> h.pending >= maxDepth)
            && (decision == Conflict <==> h.pending < maxDepth && BuildsElsewhere(h.sha, base))
            && (decision == Accepted <==> h.pending < maxDepth && !BuildsElsewhere(h.sha, base))
            && after == if decision == Accepted then Head(Some(sha), h.nextSeq + 1, h.pending + 1, h.reservations)
                        else h
  {
  }

  // ----- the state of a repository -----

  datatype Phase = Committing | Removing | Counting

  /** An accepted push and the base it named. */
  datatype Push = Push(job: Job, base: Option<string>)

  datatype Repo = Repo(
    head: Head,
    rate: RateWindow,
    partials: map<string, Bytes>, // the `<sha>.tmp` files
    renaming: set<Job>,           // accepted, not yet renamed into the queue
    spool: map<Job, Bytes>,       // the queued job files
    batch: seq<Job>,              // what is left of the worker's last listing
    phase: Phase,                 // what the worker does next with the first of them
    store: Store,
    // history
    accepted: seq<Push>,
    arrived: map<Job, Bytes>,     // every job that was ever queued, with its content
    lost: set<Job>,               // accepted jobs whose upload file was gone when it was to be renamed
    processed: seq<Job>)          // jobs in the order in which the worker committed them

  datatype Step =
    | TakeToken(now: int)
    | Reserve(sha: string, base: Option<string>, now: int)
    | Release(sha: string)
    | Expire(now: int)
    | Write(sha: string, content: Bytes)
    | Discard(sha: string)
    | Accept(sha: string, base: Option<string>, retention: nat)
    | Rename(job: Job)
    | List(jobs: seq<Job>)
    | Commit(now: int, after: Store)
    | Remove
    | CountDown

  /** The worker's listing: the queued jobs in sequence order. */
  ghost predicate IsListing(jobs: seq<Job>, spool: map<Job, Bytes>) {
    && (forall j :: j in jobs <==> j in spool)
    && forall i, k :: 0 <= i < k < |jobs| ==> jobs[i].number < jobs[k].number
  }

  ghost predicate Enabled(r: Repo, step: Step) {
    match step
    case Reserve(sha, _, _) => IsSafe(sha)
    case Accept(sha, _, _) => IsSafe(sha)
    case Rename(job) => job in r.renaming
    case List(jobs) => r.batch == [] && IsListing(jobs, r.spool)
    case Commit(now, after) =>
      && r.batch != [] && r.phase == Committing && r.batch[0] in r.spool && r.batch[0].retention >= 0
      && Commits(r.store, r.batch[0].sha, r.batch[0].retention, r.spool[r.batch[0]], now, after)
    case Remove => r.batch != [] && r.phase == Removing
    case CountDown => r.batch != [] && r.phase == Counting
    case _ => true
  }

  function Apply(config: Config, r: Repo, step: Step): Repo
    requires Enabled(r, step)
  {
    match step
    case TakeToken(now) => r.(rate := Take(r.rate, config.maxRate, now).0)
    case Reserve(sha, base, now) => r.(head := ReserveUpload(r.head, config.maxDepth, sha, base, now).0)
    case Release(sha) => r.(head := ReleaseUpload(r.head, sha))
    case Expire(now) => r.(head := ExpireUploads(r.head, now))
    case Write(sha, content) => r.(partials := r.partials[sha := content])
    case Discard(sha) => r.(partials := r.partials - {sha})
    case Accept(sha, base, retention) => ApplyAccept(config, r, sha, base, retention)
    case Rename(job) => ApplyRename(r, job)
    case List(jobs) => r.(batch := jobs, phase := Committing)
    case Commit(_, after) => r.(store := after, phase := Removing, processed := r.processed + [r.batch[0]])
    case Remove => r.(spool := r.spool - {r.batch[0]}, phase := Counting)
    case CountDown =>
      r.(head := r.head.(pending := r.head.pending - 1), batch := r.batch[1..], phase := Committing)
  }

  function ApplyAccept(config: Config, r: Repo, sha: string, base: Option<string>, retention: nat): Repo {
    var (head, decision) := AcceptPush(r.head, config.maxDepth, sha, base);
    if decision != Accepted then r else
    var job := Job(r.head.nextSeq, sha, retention);
    r.(head := head, renaming := r.renaming + {job}, accepted := r.accepted + [Push(job, base)])
  }

  function ApplyRename(r: Repo, job: Job): Repo {
    if job.sha in r.partials then
      var content := r.partials[job.sha];
      r.(renaming := r.renaming - {job}, partials := r.partials - {job.sha},
         spool := r.spool[job := content], arrived := r.arrived[job := content])
    else
      r.(renaming := r.renaming - {job}, lost := r.lost + {job})
  }

  // ----- runs -----

  ghost predicate IsRun(config: Config, r: Repo, steps: seq<Step>)
    decreases |steps|
  {
    steps == [] || (Enabled(r, steps[0]) && IsRun(config, Apply(config, r, steps[0]), steps[1..]))
  }

  ghost function After(config: Config, r: Repo, steps: seq<Step>): Repo
    requires IsRun(config, r, steps)
    decreases |steps|
  {
    if steps == [] then r else After(config, Apply(config, r, steps[0]), steps[1..])
  }

  /** A repository just opened on a spool directory that holds `spool`. */
  ghost predicate IsOpened(r: Repo) {
    && r.head == Head(ReadHead(r.store.head), r.head.nextSeq, |r.spool|, map[])
    && r.renaming == {} && r.batch == [] && r.phase == Committing
    && r.accepted == [] && r.arrived == r.spool && r.lost == {} && r.processed == []
    && (forall j :: j in r.spool ==> 0 <= j.number < r.head.nextSeq)
    && (forall j :: j in r.spool ==> j.retention >= 0 && IsSafe(j.sha))
    && r.head.nextSeq >= 0 && DistinctNumbers(r.spool.Keys)
  }
}
