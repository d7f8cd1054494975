/** How many pushes the hub accepts in a minute. The limiter counts tokens; a push is accepted on a token
    that its handler holds, or on the one its upload was begun with, and either may be old by then. */
module PushRate {
  import opened BlobStore
  import opened Graph
  import opened Hub
  import opened RateLimiter
  import opened Registry
  import opened RegistryRuns
  import opened Requests
  import opened Spool
  import opened Wrappers

  // ----- histories of the hub -----

  const MAX_CONNECTIONS := 64

  datatype Thread = Thread(request: Request, at: Stage)

  /** The hub with the handlers at work, the times at which tokens were granted and pushes accepted, the
      time of the latest section, and the latest time as of which uploads were expired. */
  datatype Log = Log(repo: Repo, threads: map<nat, Thread>, grants: seq<int>, accepts: seq<int>, now: int, swept: int)

  datatype Event =
    | Arrive(id: nat, request: Request)
    | Go(id: nat, now: int)
    | Work(step: Step)

  predicate IsWorkerStep(step: Step) {
    step.List? || step.Commit? || step.Remove? || step.CountDown?
  }

  ghost predicate Applies(log: Log, e: Event) {
    match e
    case Arrive(id, _) => id !in log.threads
    case Go(id, now) => id in log.threads && log.now <= now
    case Work(step) => IsWorkerStep(step) && Enabled(log.repo, step)
  }

  /** A connection is taken up while there is a slot for it. Then its handler, the others and the worker go
      on a section at a time, under a clock that never goes back. */
  ghost predicate CanHappen(config: Config, slots: nat, log: Log, e: Event) {
    Applies(log, e) && (e.Arrive? ==> |log.threads| < slots && Admits(config, e.request.chunk))
  }

  predicate TakesToken(config: Config, r: Repo, at: Stage, now: int) {
    (at.Asking? || at.Charging?) && Take(r.rate, config.maxRate, now).1
  }

  predicate TakesPush(config: Config, r: Repo, q: Request, at: Stage) {
    at.Deciding? && AcceptPush(r.head, config.maxDepth, q.sha, q.base).1 == Accepted
  }

  function NoteIf(times: seq<int>, b: bool, now: int): seq<int> {
    if b then times + [now] else times
  }

  function Moved(threads: map<nat, Thread>, id: nat, q: Request, next: Option<Stage>): map<nat, Thread> {
    if next.Some? then threads[id := Thread(q, next.value)] else threads - {id}
  }

  function Happen(config: Config, log: Log, e: Event): Log
    requires Applies(log, e)
  {
    match e
    case Arrive(id, request) => log.(threads := log.threads[id := Thread(request, Begun)])
    case Go(id, now) =>
      var Thread(q, at) := log.threads[id];
      var (s, next) := Section(config, log.repo, q, at, now);
      Log(s, Moved(log.threads, id, q, next), NoteIf(log.grants, TakesToken(config, log.repo, at, now), now),
          NoteIf(log.accepts, TakesPush(config, log.repo, q, at), now), now,
          if at.Sweeping? && log.swept < at.read then at.read else log.swept)
    case Work(step) => log.(repo := Apply(config, log.repo, step))
  }

  ghost predicate IsHistory(config: Config, slots: nat, log: Log, events: seq<Event>)
    decreases |events|
  {
    events != [] ==>
      && CanHappen(config, slots, log, events[0])
      && IsHistory(config, slots, Happen(config, log, events[0]), events[1..])
  }

  ghost function Outcome(config: Config, slots: nat, log: Log, events: seq<Event>): Log
    requires IsHistory(config, slots, log, events)
    decreases |events|
  {
    if events == [] then log else Outcome(config, slots, Happen(config, log, events[0]), events[1..])
  }

  /** A repository opened at time `created`. */
  function Opening(r: Repo, created: int): Log {
    Log(r.(rate := RateWindow(created, 0)), map[], [], [], created, created)
  }

  // ----- counting handlers -----

  /** Handlers that may still reserve, having read the clock by `x`; those with a token for it; those with
      anything to accept a push on; and those that still see to a reservation. */
  datatype Kind = Early(x: int) | Holding | Paying | Placing

  predicate Is(kind: Kind, at: Stage) {
    match kind
    case Early(x) => at.Clearing? || at.Checking? || at.Asking? || at.Reserving? || (at.Sweeping? && at.read <= x)
    case Holding => at.Reserving?
    case Paying => at.Reserving? || at.Deciding?
    case Placing => at.Spooling? || at.Taking? || at.Leaving?
  }

  ghost function Those(threads: map<nat, Thread>, kind: Kind): set<nat> {
    set id | id in threads && Is(kind, threads[id].at)
  }

  ghost function Number(threads: map<nat, Thread>, kind: Kind): nat {
    |Those(threads, kind)|
  }

  function One(b: bool): nat {
    if b then 1 else 0
  }

  lemma NumberBounded(threads: map<nat, Thread>, kind: Kind)
    ensures Number(threads, kind) <= |threads|
    ensures Number(threads, Placing) + Number(threads, Paying) <= |threads|
    ensures Number(threads, Holding) <= Number(threads, Paying)
  {
    hide Is;
    SubsetCount(Those(threads, kind), threads.Keys);
    var a, b := Those(threads, Placing), Those(threads, Paying);
    KindsDiffer(threads);
    SubsetCount(a + b, threads.Keys);
    assert |a + b| == |a| + |b|;
    SubsetCount(Those(threads, Holding), b);
  }

  lemma KindsDiffer(threads: map<nat, Thread>)
    ensures Those(threads, Placing) !! Those(threads, Paying) && Those(threads, Holding) <= Those(threads, Paying)
  {
  }

  lemma WithOrWithout<T>(s: set<T>, x: T, b: bool)
    ensures |s - {x} + (if b then {x} else {})| == |s| - One(x in s) + One(b)
  {
  }

  lemma ThoseMoved(threads: map<nat, Thread>, id: nat, q: Request, next: Option<Stage>, kind: Kind)
    ensures Those(Moved(threads, id, q, next), kind)
            == Those(threads, kind) - {id} + (if next.Some? && Is(kind, next.value) then {id} else {})
    ensures Moved(threads, id, q, next).Keys == threads.Keys - {id} + (if next.Some? then {id} else {})
  {
    hide Is;
  }

  /** One handler comes, goes on or is done. */
  lemma NumberMoves(threads: map<nat, Thread>, id: nat, q: Request, next: Option<Stage>, kind: Kind)
    ensures Number(Moved(threads, id, q, next), kind)
            == Number(threads, kind) - One(id in threads && Is(kind, threads[id].at))
              + One(next.Some? && Is(kind, next.value))
    ensures |Moved(threads, id, q, next)| == |threads| - One(id in threads) + One(next.Some?)
  {
    hide Is, Moved, One;
    ThoseMoved(threads, id, q, next, kind);
    WithOrWithout(Those(threads, kind), id, next.Some? && Is(kind, next.value));
    WithOrWithout(threads.Keys, id, next.Some?);
  }

  // ----- what one section pays -----

  lemma FewerReservations(m: map<string, int>, gone: set<string>)
    ensures |m - gone| <= |m|
    ensures forall sha :: sha in gone && sha in m ==> |m - gone| < |m|
  {
    FewerKeys(m, gone);
    assert (m - gone).Keys == m.Keys - gone;
    forall sha | sha in gone && sha in m ensures |m - gone| < |m| {
      SubsetCount(m.Keys - gone, m.Keys - {sha});
    }
  }

  /** A handler reserves at the price of its token, and takes up a reservation that is then gone. */
  lemma SectionOpens(config: Config, r: Repo, q: Request, at: Stage, now: int)
    ensures var (s, next) := Section(config, r, q, at, now);
            |s.head.reservations| + One(at.Taking? && q.sha in r.head.reservations)
            <= |r.head.reservations| + One(at.Reserving?)
  {
    hide IsSafe, Take, ExpiredUploads, ApplyRename, SpoolOffset, CheckUpload, ApplyAccept;
    match at
    case Sweeping(read) => FewerReservations(r.head.reservations, ExpiredUploads(r.head.reservations, read));
    case Reserving => OneMoreKey(r.head.reservations, q.sha, now);
    case Taking => FewerReservations(r.head.reservations, {q.sha});
    case Leaving => FewerReservations(r.head.reservations, {q.sha});
    case Deciding => AcceptKeeps(config, r, q);
    case Queueing(job) => RenameKeeps(r, job);
    case _ =>
  }

  lemma AcceptKeeps(config: Config, r: Repo, q: Request)
    ensures var s := ApplyAccept(config, r, q.sha, q.base, q.retention);
            s.head.reservations == r.head.reservations && s.rate == r.rate
  {
  }

  /** A push is accepted on something paid for, and nothing is paid for but with a token. */
  lemma SectionPays(config: Config, r: Repo, q: Request, at: Stage, now: int)
    ensures var (s, next) := Section(config, r, q, at, now);
            One(TakesPush(config, r, q, at)) + |s.head.reservations| + One(next.Some? && Is(Paying, next.value))
            <= |r.head.reservations| + One(Is(Paying, at)) + One(TakesToken(config, r, at, now))
  {
    SectionOpens(config, r, q, at, now);
    hide IsSafe, Take, ExpiredUploads, ApplyRename, SpoolChunk, CheckUpload, ApplyAccept, ReserveUpload, AcceptPush;
  }

  lemma RenameKeeps(r: Repo, job: Job)
    ensures ApplyRename(r, job).head == r.head && ApplyRename(r, job).rate == r.rate
  {
  }

  /** Reservations are those found, with their times, or the handler's own. */
  lemma SectionReserves(config: Config, r: Repo, q: Request, at: Stage, now: int)
    ensures var (s, next) := Section(config, r, q, at, now);
            && (forall x :: x in s.head.reservations ==>
                  || (x in r.head.reservations && s.head.reservations[x] == r.head.reservations[x])
                  || (at.Reserving? && next == Some(Spooling) && x == q.sha && s.head.reservations[x] == now))
            && (at.Sweeping? ==> forall x :: x in s.head.reservations ==>
                  at.read - s.head.reservations[x] < RESERVATION_TTL)
            && (at.Taking? || at.Leaving? ==> q.sha !in s.head.reservations)
  {
    hide IsSafe, Take, SpoolOffset, CheckUpload, ApplyRename;
    if at.Queueing? {
      RenameKeeps(r, at.job);
    }
  }

  lemma SectionRate(config: Config, r: Repo, q: Request, at: Stage, now: int)
    ensures Section(config, r, q, at, now).0.rate
            == if at.Asking? || at.Charging? then Take(r.rate, config.maxRate, now).0 else r.rate
  {
    hide IsSafe, Take, SpoolOffset, CheckUpload, ApplyRename, ExpiredUploads;
    if at.Queueing? {
      RenameKeeps(r, at.job);
    }
  }

  // ----- what every history keeps -----

  ghost function Above(reservations: map<string, int>, x: int): set<string> {
    set sha | sha in reservations && reservations[sha] > x
  }

  ghost function Between(reservations: map<string, int>, x: int, y: int): set<string> {
    set sha | sha in reservations && x <= reservations[sha] <= y
  }

  ghost predicate Dated(log: Log) {
    && log.repo.rate.start <= log.now && log.swept <= log.now
    && (forall i :: 0 <= i < |log.grants| ==> log.grants[i] <= log.now)
    && (forall i :: 0 <= i < |log.accepts| ==> log.accepts[i] <= log.now)
    && (forall sha :: sha in log.repo.head.reservations ==> log.repo.head.reservations[sha] <= log.now)
    && (forall id :: id in log.threads && log.threads[id].at.Sweeping? ==> log.threads[id].at.read <= log.now)
  }

  /** There is a slot for every handler, and no two handlers queue the same job. */
  ghost predicate Staffed(config: Config, slots: nat, log: Log) {
    && |log.threads| <= slots
    && AllHandled(config, log.repo, log.threads)
    && (forall a, b :: a in log.threads && b in log.threads && a != b ==>
          !SameJob(log.threads[a].at, log.threads[b].at))
  }

  ghost predicate AllHandled(config: Config, r: Repo, threads: map<nat, Thread>) {
    forall id :: id in threads ==> IsHandled(config, r, threads[id])
  }

  ghost predicate IsHandled(config: Config, r: Repo, t: Thread) {
    Admits(config, t.request.chunk) && IsAt(r, t.request, t.at)
  }

  predicate SameJob(a: Stage, b: Stage) {
    a.Queueing? && a == b
  }

  ghost predicate Unexpired(log: Log) {
    forall sha :: sha in log.repo.head.reservations ==> log.repo.head.reservations[sha] > log.swept - RESERVATION_TTL
  }

  /** Whoever reserves later than uploads were last expired had read the clock before, and held a slot ever
      since; so it is for any later time. */
  ghost predicate Late(slots: nat, log: Log) {
    forall x :: log.swept <= x ==> |Above(log.repo.head.reservations, x)| + Number(log.threads, Early(x)) <= slots
  }

  /** Reservations made from `x` on are backed by tokens granted from then on, or held by a handler then. */
  ghost predicate Backed(slots: nat, log: Log) {
    forall x, y :: IsBacked(slots, log, x, y)
  }

  ghost predicate IsBacked(slots: nat, log: Log, x: int, y: int) {
    |Between(log.repo.head.reservations, x, y)| + (if log.now <= y then Number(log.threads, Holding) else 0)
    <= (if GrantedBefore(log.grants, x) then slots else 0) + CountIn(log.grants, x, y + 1)
  }

  /** Every accepted push, reservation and handler that can have a push accepted stands for a token. */
  ghost predicate Accounted(log: Log) {
    |log.accepts| + |log.repo.head.reservations| + Number(log.threads, Paying) <= |log.grants|
  }

  ghost predicate Sees(threads: map<nat, Thread>, id: nat, sha: string) {
    id in threads && threads[id].request.sha == sha && Is(Placing, threads[id].at)
  }

  /** With room for at most one byte an upload is one chunk, and no reservation outlives its handler. */
  ghost predicate Small(config: Config, log: Log) {
    config.maxBytes < 2 ==> forall sha :: sha in log.repo.head.reservations ==> exists id :: Sees(log.threads, id, sha)
  }

  // ----- a section -----

  lemma GoDated(config: Config, log: Log, id: nat, now: int)
    requires Dated(log) && Applies(log, Go(id, now))
    ensures Dated(Happen(config, log, Go(id, now)))
  {
    var Thread(q, at) := log.threads[id];
    SectionReserves(config, log.repo, q, at, now);
    SectionRate(config, log.repo, q, at, now);
    StageDated(config, log.repo, q, at, now);
    hide Section, TakesToken, TakesPush;
  }

  lemma StageDated(config: Config, r: Repo, q: Request, at: Stage, now: int)
    ensures var next := Section(config, r, q, at, now).1;
            next.Some? && next.value.Sweeping? ==> at.Begun? && next.value.read == now
  {
    hide IsSafe, SpoolChunk, Take, CheckUpload, ReserveUpload, AcceptPush, ApplyAccept, ApplyRename;
  }

  lemma GoLimited(config: Config, log: Log, id: nat, now: int)
    requires Limited(log.repo.rate, config.maxRate, log.grants) && Dated(log) && Applies(log, Go(id, now))
    ensures var end := Happen(config, log, Go(id, now)); Limited(end.repo.rate, config.maxRate, end.grants)
  {
    hide Limited, Section, TakesPush, Take;
    var Thread(q, at) := log.threads[id];
    SectionRate(config, log.repo, q, at, now);
    TakeKeeps(log.repo.rate, config.maxRate, log.grants, now);
  }

  lemma SectionKeepsJobs(config: Config, r: Repo, q: Request, at: Stage, now: int)
    requires IsAt(r, q, at)
    ensures var (s, next) := Section(config, r, q, at, now);
            && (next.Some? ==> IsAt(s, q, next.value))
            && (forall j :: j in r.renaming && at != Queueing(j) ==> j in s.renaming)
            && (next.Some? && next.value.Queueing? ==> next.value.job.number == r.head.nextSeq)
  {
    hide IsSafe, Take, CheckUpload, ReserveUpload, SpoolOffset, ExpireUploads, ExpiredUploads;
  }

  lemma GoStaffed(config: Config, slots: nat, log: Log, id: nat, now: int, first: int)
    requires Staffed(config, slots, log) && Numbered(log.repo, first) && Applies(log, Go(id, now))
    ensures Staffed(config, slots, Happen(config, log, Go(id, now)))
  {
    var Thread(q, at) := log.threads[id];
    var next := Section(config, log.repo, q, at, now).1;
    NumberMoves(log.threads, id, q, next, Paying);
    GoHandled(config, slots, log, id, now);
    GoJobs(config, slots, log, id, now, first);
    hide Section, AllHandled, TakesToken, TakesPush, Number, SameJob;
  }

  lemma GoHandled(config: Config, slots: nat, log: Log, id: nat, now: int)
    requires Staffed(config, slots, log) && Applies(log, Go(id, now))
    ensures var end := Happen(config, log, Go(id, now)); AllHandled(config, end.repo, end.threads)
  {
    var Thread(q, at) := log.threads[id];
    assert IsHandled(config, log.repo, log.threads[id]);
    SectionKeepsJobs(config, log.repo, q, at, now);
    hide Section, Admits, TakesToken, TakesPush, IsSafe;
    var end := Happen(config, log, Go(id, now));
    forall a | a in end.threads ensures IsHandled(config, end.repo, end.threads[a]) {
      if a != id {
        assert end.threads[a] == log.threads[a] && IsHandled(config, log.repo, log.threads[a]);
        assert !SameJob(log.threads[a].at, at);
      }
    }
  }

  lemma GoJobs(config: Config, slots: nat, log: Log, id: nat, now: int, first: int)
    requires Staffed(config, slots, log) && Numbered(log.repo, first) && Applies(log, Go(id, now))
    ensures var threads := Happen(config, log, Go(id, now)).threads;
            forall a, b :: a in threads && b in threads && a != b ==> !SameJob(threads[a].at, threads[b].at)
  {
    var Thread(q, at) := log.threads[id];
    assert IsHandled(config, log.repo, log.threads[id]);
    SectionKeepsJobs(config, log.repo, q, at, now);
    var next := Section(config, log.repo, q, at, now).1;
    var threads := Moved(log.threads, id, q, next);
    hide Section, Admits, TakesToken, TakesPush;
    forall a | a in log.threads && log.threads[a].at.Queueing?
      ensures log.threads[a].at.job.number < log.repo.head.nextSeq
    {
      assert IsHandled(config, log.repo, log.threads[a]);
    }
    hide IsHandled, AllHandled, Numbered;
    forall a, b | a in threads && b in threads && a != b ensures !SameJob(threads[a].at, threads[b].at) {
      assert a != id ==> threads[a] == log.threads[a];
      assert b != id ==> threads[b] == log.threads[b];
    }
  }

  lemma GoUnexpired(config: Config, log: Log, id: nat, now: int)
    requires Unexpired(log) && Dated(log) && Applies(log, Go(id, now))
    ensures Unexpired(Happen(config, log, Go(id, now)))
  {
    var Thread(q, at) := log.threads[id];
    SectionReserves(config, log.repo, q, at, now);
    hide Section, TakesToken, TakesPush;
  }

  /** At most one reservation is new. */
  lemma AboveGrows(r: Repo, s: Repo, sha: string, now: int, made: bool, x: int)
    requires forall y :: y in s.head.reservations ==>
               || (y in r.head.reservations && s.head.reservations[y] == r.head.reservations[y])
               || (made && y == sha && s.head.reservations[y] == now)
    ensures |Above(s.head.reservations, x)| <= |Above(r.head.reservations, x)| + One(made && now > x)
    ensures forall z ::
              |Between(s.head.reservations, x, z)| <= |Between(r.head.reservations, x, z)| + One(made && x <= now <= z)
  {
    var before, after := Above(r.head.reservations, x), Above(s.head.reservations, x);
    SubsetCount(after, if made && now > x then before + {sha} else before);
    forall z
      ensures |Between(s.head.reservations, x, z)| <= |Between(r.head.reservations, x, z)| + One(made && x <= now <= z)
    {
      var before, after := Between(r.head.reservations, x, z), Between(s.head.reservations, x, z);
      SubsetCount(after, if made && x <= now <= z then before + {sha} else before);
    }
  }

  /** Which kinds a handler belongs to after a section. */
  lemma StageMoves(config: Config, r: Repo, q: Request, at: Stage, now: int, x: int)
    ensures var next := Section(config, r, q, at, now).1;
            && One(next.Some? && Is(Early(x), next.value))
               <= One(Is(Early(x), at) && !at.Reserving?) + One(at.Begun? && now <= x)
                 + One(at.Sweeping? && at.read > x)
            && (next.Some? && next.value.Reserving? <==> at.Asking? && TakesToken(config, r, at, now))
  {
    hide IsSafe, SpoolChunk, Take, CheckUpload, ReserveUpload;
    hide AcceptPush, ApplyAccept, ApplyRename, ExpiredUploads, ExpireUploads;
  }

  lemma NothingAbove(log: Log, x: int)
    requires Dated(log) && log.now <= x
    ensures Above(log.repo.head.reservations, x) == {}
  {
  }

  lemma NothingFrom(log: Log, x: int, y: int)
    requires Dated(log) && log.now < x
    ensures Between(log.repo.head.reservations, x, y) == {}
  {
  }

  lemma GoLateAt(config: Config, slots: nat, log: Log, id: nat, now: int, x: int)
    requires Applies(log, Go(id, now)) && Happen(config, log, Go(id, now)).swept <= x
    requires |Above(log.repo.head.reservations, x)| + Number(log.threads, Early(x)) <= slots
    requires var end := Happen(config, log, Go(id, now)); Dated(end) && |end.threads| <= slots
    ensures var end := Happen(config, log, Go(id, now));
            |Above(end.repo.head.reservations, x)| + Number(end.threads, Early(x)) <= slots
  {
    var Thread(q, at) := log.threads[id];
    var (s, next) := Section(config, log.repo, q, at, now);
    var end := Happen(config, log, Go(id, now));
    SectionReserves(config, log.repo, q, at, now);
    AboveGrows(log.repo, s, q.sha, now, at.Reserving?, x);
    StageMoves(config, log.repo, q, at, now, x);
    NumberMoves(log.threads, id, q, next, Early(x));
    NumberBounded(end.threads, Early(x));
    if now <= x {
      NothingAbove(end, x);
    }
    hide Section, Dated, Above, Number, TakesToken, TakesPush, Moved;
  }

  lemma GoLate(config: Config, slots: nat, log: Log, id: nat, now: int)
    requires Late(slots, log) && Applies(log, Go(id, now))
    requires var end := Happen(config, log, Go(id, now)); Dated(end) && |end.threads| <= slots
    ensures Late(slots, Happen(config, log, Go(id, now)))
  {
    hide Section, Dated, Above, Number, TakesToken, TakesPush, Moved;
    var end := Happen(config, log, Go(id, now));
    forall x | end.swept <= x ensures |Above(end.repo.head.reservations, x)| + Number(end.threads, Early(x)) <= slots {
      GoLateAt(config, slots, log, id, now, x);
    }
  }

  lemma NoteCount(times: seq<int>, b: bool, now: int, lo: int, hi: int)
    ensures CountIn(NoteIf(times, b, now), lo, hi) == CountIn(times, lo, hi) + One(b && lo <= now < hi)
    ensures |NoteIf(times, b, now)| == |times| + One(b)
    ensures GrantedBefore(NoteIf(times, b, now), lo) <==> GrantedBefore(times, lo) || (b && now < lo)
  {
    CountNext(times, now, lo, hi);
    var more := times + [now];
    assert more[|times|] == now && forall i :: 0 <= i < |times| ==> more[i] == times[i];
  }

  lemma GoBackedAt(config: Config, slots: nat, log: Log, id: nat, now: int, x: int, y: int)
    requires Applies(log, Go(id, now)) && IsBacked(slots, log, x, y)
    requires var end := Happen(config, log, Go(id, now)); Dated(end) && |end.threads| <= slots
    ensures IsBacked(slots, Happen(config, log, Go(id, now)), x, y)
  {
    var Thread(q, at) := log.threads[id];
    var (s, next) := Section(config, log.repo, q, at, now);
    var end := Happen(config, log, Go(id, now));
    SectionReserves(config, log.repo, q, at, now);
    AboveGrows(log.repo, s, q.sha, now, at.Reserving?, x);
    StageMoves(config, log.repo, q, at, now, x);
    NumberMoves(log.threads, id, q, next, Holding);
    NumberBounded(end.threads, Holding);
    NoteCount(log.grants, TakesToken(config, log.repo, at, now), now, x, y + 1);
    if now < x {
      NothingFrom(end, x, y);
    }
    hide Section, Dated, Above, Between, Number, TakesToken, TakesPush, Moved, CountIn, NoteIf, GrantedBefore;
  }

  lemma GoBacked(config: Config, slots: nat, log: Log, id: nat, now: int)
    requires Backed(slots, log) && Applies(log, Go(id, now))
    requires var end := Happen(config, log, Go(id, now)); Dated(end) && |end.threads| <= slots
    ensures Backed(slots, Happen(config, log, Go(id, now)))
  {
    hide Happen, IsBacked, Dated;
    forall x, y ensures IsBacked(slots, Happen(config, log, Go(id, now)), x, y) {
      GoBackedAt(config, slots, log, id, now, x, y);
    }
  }

  lemma GoAccounted(config: Config, log: Log, id: nat, now: int)
    requires Applies(log, Go(id, now))
    ensures var end := Happen(config, log, Go(id, now));
            |end.accepts| + |end.repo.head.reservations| + Number(end.threads, Paying) - |end.grants|
            <= |log.accepts| + |log.repo.head.reservations| + Number(log.threads, Paying) - |log.grants|
  {
    var Thread(q, at) := log.threads[id];
    var (s, next) := Section(config, log.repo, q, at, now);
    SectionPays(config, log.repo, q, at, now);
    NumberMoves(log.threads, id, q, next, Paying);
    hide Section, Number, TakesToken, TakesPush, Moved, Is;
  }

  lemma GoSmall(config: Config, log: Log, id: nat, now: int)
    requires Small(config, log) && Applies(log, Go(id, now)) && IsHandled(config, log.repo, log.threads[id])
    ensures Small(config, Happen(config, log, Go(id, now)))
  {
    var Thread(q, at) := log.threads[id];
    var (s, next) := Section(config, log.repo, q, at, now);
    SectionReserves(config, log.repo, q, at, now);
    if config.maxBytes < 2 {
      SmallStage(config, log.repo, q, at, now);
      hide Section, TakesToken, TakesPush;
      var threads := Moved(log.threads, id, q, next);
      forall sha | sha in s.head.reservations ensures exists k :: Sees(threads, k, sha) {
        if at.Reserving? && next == Some(Spooling) && sha == q.sha {
          assert Sees(threads, id, sha);
        } else {
          var k :| Sees(log.threads, k, sha);
          assert Sees(threads, k, sha);
        }
      }
    }
  }

  /** A handler that sees to a reservation goes on to take it up or to give it back. */
  lemma SmallStage(config: Config, r: Repo, q: Request, at: Stage, now: int)
    requires config.maxBytes < 2 && Admits(config, q.chunk) && IsAt(r, q, at)
    ensures var (s, next) := Section(config, r, q, at, now);
            at.Spooling? ==> next.Some? && Is(Placing, next.value)
  {
    hide IsSafe;
  }

  ghost predicate Paced(config: Config, slots: nat, log: Log, first: int, leftover: nat) {
    && Kept(config, log.repo, first, leftover) && Limited(log.repo.rate, config.maxRate, log.grants)
    && Dated(log) && Staffed(config, slots, log) && Unexpired(log) && Late(slots, log) && Backed(slots, log)
    && Accounted(log) && Small(config, log) && (config.maxDepth == 0 || slots == 0 ==> log.accepts == [])
  }

  lemma LeadsKeeps(config: Config, r: Repo, s: Repo, first: int, leftover: nat)
    requires LeadsTo(config, r, s) && Kept(config, r, first, leftover)
    ensures Kept(config, s, first, leftover)
  {
    hide Kept, Enabled, Apply;
    var steps :| IsRun(config, r, steps) && After(config, r, steps) == s;
    RunKeeps(config, r, steps, first, leftover);
  }

  lemma KeptFacts(config: Config, r: Repo, first: int, leftover: nat)
    requires Kept(config, r, first, leftover)
    ensures r.head.pending >= 0 && |r.head.reservations| <= config.maxDepth && Numbered(r, first)
  {
  }

  lemma GoKept(config: Config, slots: nat, log: Log, id: nat, now: int, first: int, leftover: nat)
    requires Kept(config, log.repo, first, leftover) && Staffed(config, slots, log) && Applies(log, Go(id, now))
    ensures Kept(config, Happen(config, log, Go(id, now)).repo, first, leftover)
  {
    hide Kept, LeadsTo, Section, IsAt, Admits;
    var Thread(q, at) := log.threads[id];
    assert IsHandled(config, log.repo, log.threads[id]);
    SectionIsRun(config, log.repo, q, at, now);
    LeadsKeeps(config, log.repo, Section(config, log.repo, q, at, now).0, first, leftover);
  }

  lemma NothingTaken(config: Config, log: Log, id: nat, now: int)
    requires Applies(log, Go(id, now)) && config.maxDepth == 0 && log.repo.head.pending >= 0
    ensures Happen(config, log, Go(id, now)).accepts == log.accepts
  {
    hide Section, TakesToken;
  }

  lemma SomeSlot(threads: map<nat, Thread>, id: nat)
    requires id in threads
    ensures |threads| > 0
  {
    assert id in threads.Keys;
  }

  lemma GoPaced(config: Config, slots: nat, log: Log, id: nat, now: int, first: int, leftover: nat)
    requires Paced(config, slots, log, first, leftover) && Applies(log, Go(id, now))
    ensures Paced(config, slots, Happen(config, log, Go(id, now)), first, leftover)
  {
    hide Kept, Limited, Dated, Unexpired, Late, Backed, Small, Happen, IsHandled, Numbered, Number;
    assert IsHandled(config, log.repo, log.threads[id]);
    KeptFacts(config, log.repo, first, leftover);
    GoKept(config, slots, log, id, now, first, leftover);
    GoDated(config, log, id, now);
    GoLimited(config, log, id, now);
    GoStaffed(config, slots, log, id, now, first);
    GoUnexpired(config, log, id, now);
    GoLate(config, slots, log, id, now);
    GoBacked(config, slots, log, id, now);
    GoAccounted(config, log, id, now);
    GoSmall(config, log, id, now);
    SomeSlot(log.threads, id);
    if config.maxDepth == 0 {
      NothingTaken(config, log, id, now);
    }
  }

  // ----- an arrival, and the worker -----

  lemma ArrivalCounts(config: Config, log: Log, e: Event, kind: Kind)
    requires e.Arrive? && Applies(log, e)
    ensures var end := Happen(config, log, e);
            Number(end.threads, kind) == Number(log.threads, kind) && |end.threads| == |log.threads| + 1
  {
    NumberMoves(log.threads, e.id, e.request, Some(Begun), kind);
    hide Number;
  }

  lemma ArrivalDated(config: Config, log: Log, e: Event)
    requires e.Arrive? && Applies(log, e) && Dated(log)
    ensures Dated(Happen(config, log, e))
  {
  }

  lemma ArrivalStaffed(config: Config, slots: nat, log: Log, e: Event)
    requires e.Arrive? && CanHappen(config, slots, log, e) && Staffed(config, slots, log)
    ensures Staffed(config, slots, Happen(config, log, e))
  {
    ArrivalCounts(config, log, e, Paying);
    var threads := log.threads[e.id := Thread(e.request, Begun)];
    assert IsHandled(config, log.repo, threads[e.id]);
    hide Number, IsHandled, Admits;
    assert AllHandled(config, log.repo, threads);
    forall a, b | a in threads && b in threads && a != b ensures !SameJob(threads[a].at, threads[b].at) {
      assert a != e.id ==> threads[a] == log.threads[a];
      assert b != e.id ==> threads[b] == log.threads[b];
    }
  }

  lemma ArrivalSmall(config: Config, log: Log, e: Event)
    requires e.Arrive? && Applies(log, e) && Small(config, log)
    ensures Small(config, Happen(config, log, e))
  {
    var threads := log.threads[e.id := Thread(e.request, Begun)];
    if config.maxBytes < 2 {
      forall sha | sha in log.repo.head.reservations ensures exists k :: Sees(threads, k, sha) {
        var k :| Sees(log.threads, k, sha);
        assert Sees(threads, k, sha);
      }
    }
  }

  lemma SameLedger(slots: nat, log: Log, end: Log)
    requires end == log.(threads := end.threads)
    requires forall kind :: Number(end.threads, kind) == Number(log.threads, kind)
    requires Late(slots, log) && Backed(slots, log) && Accounted(log)
    ensures Late(slots, end) && Backed(slots, end) && Accounted(end)
  {
    hide Number, GrantedBefore, CountIn, Above, Between;
    forall x, y ensures IsBacked(slots, end, x, y) {
      assert IsBacked(slots, log, x, y);
    }
  }

  lemma ArrivalPaced(config: Config, slots: nat, log: Log, e: Event, first: int, leftover: nat)
    requires Paced(config, slots, log, first, leftover) && e.Arrive? && CanHappen(config, slots, log, e)
    ensures Paced(config, slots, Happen(config, log, e), first, leftover)
  {
    var end := Happen(config, log, e);
    hide Number, Kept, Limited, Staffed, Dated, Late, Backed, Accounted, Small, Admits;
    forall kind ensures Number(end.threads, kind) == Number(log.threads, kind) {
      ArrivalCounts(config, log, e, kind);
    }
    SameLedger(slots, log, end);
    ArrivalDated(config, log, e);
    ArrivalStaffed(config, slots, log, e);
    ArrivalSmall(config, log, e);
  }

  lemma WorkerKeeps(config: Config, r: Repo, step: Step)
    requires IsWorkerStep(step) && Enabled(r, step)
    ensures var s := Apply(config, r, step);
            s.rate == r.rate && s.head.reservations == r.head.reservations && s.renaming == r.renaming
  {
    hide IsListing, Commits;
  }

  lemma WorkPaced(config: Config, slots: nat, log: Log, step: Step, first: int, leftover: nat)
    requires Paced(config, slots, log, first, leftover) && Applies(log, Work(step))
    ensures Paced(config, slots, Happen(config, log, Work(step)), first, leftover)
  {
    hide Kept, Limited, Apply, Enabled, Number, Above, Between, CountIn, GrantedBefore, Sees, Admits;
    StepKeeps(config, log.repo, step, first, leftover);
    WorkerKeeps(config, log.repo, step);
    forall x, y ensures IsBacked(slots, Happen(config, log, Work(step)), x, y) {
      assert IsBacked(slots, log, x, y);
    }
  }

  lemma EventPaced(config: Config, slots: nat, log: Log, e: Event, first: int, leftover: nat)
    requires Paced(config, slots, log, first, leftover) && CanHappen(config, slots, log, e)
    ensures Paced(config, slots, Happen(config, log, e), first, leftover)
  {
    hide Paced, Happen, Applies;
    match e
    case Arrive(_, _) => ArrivalPaced(config, slots, log, e, first, leftover);
    case Go(id, now) => GoPaced(config, slots, log, id, now, first, leftover);
    case Work(step) => WorkPaced(config, slots, log, step, first, leftover);
  }

  lemma {:induction false} HistoryPaced(config: Config, slots: nat, log: Log, events: seq<Event>, first: int,
                                        leftover: nat)
    requires Paced(config, slots, log, first, leftover) && IsHistory(config, slots, log, events)
    ensures Paced(config, slots, Outcome(config, slots, log, events), first, leftover)
    decreases |events|
  {
    hide Paced, Happen, Applies;
    if events != [] {
      EventPaced(config, slots, log, events[0], first, leftover);
      HistoryPaced(config, slots, Happen(config, log, events[0]), events[1..], first, leftover);
    }
  }

  // ----- any stretch of a history -----

  /** What pushes can still be accepted on: reservations, and handlers with a token or a reservation. */
  ghost function Open(log: Log): nat {
    |log.repo.head.reservations| + Number(log.threads, Paying)
  }

  lemma EventPays(config: Config, log: Log, e: Event)
    requires Applies(log, e)
    ensures var end := Happen(config, log, e);
            |end.accepts| - |log.accepts| + Open(end) <= Open(log) + |end.grants| - |log.grants|
  {
    match e
    case Arrive(_, _) => ArrivalCounts(config, log, e, Paying);
    case Go(id, now) => GoAccounted(config, log, id, now);
    case Work(step) =>
      hide Apply, Enabled;
      WorkerKeeps(config, log.repo, step);
  }

  /** Over any stretch of a history the pushes accepted are at most what was open at its start and the
      tokens granted in it, less what is open at its end. */
  lemma {:induction false} StretchPays(config: Config, slots: nat, log: Log, events: seq<Event>)
    requires IsHistory(config, slots, log, events)
    ensures var end := Outcome(config, slots, log, events);
            |end.accepts| - |log.accepts| + Open(end) <= Open(log) + |end.grants| - |log.grants|
    decreases |events|
  {
    if events != [] {
      EventPays(config, log, events[0]);
      hide Applies, Happen, Open;
      StretchPays(config, slots, Happen(config, log, events[0]), events[1..]);
    }
  }

  // ----- one minute -----

  function Minimum(a: nat, b: nat): nat {
    if a < b then a else b
  }

  /** How many reservations can be open at once: what the queue has room for, and what is left by those who
      held a token a quarter of an hour before uploads were last expired, by the tokens granted since, and
      by those who had read the clock by then. */
  function Room(config: Config, slots: nat): nat
    requires config.maxRate > 0
  {
    Minimum(config.maxDepth, 16 * config.maxRate - 1 + 2 * slots)
  }

  /** How much can be open at once; when no reservation outlives its handler, a thing for each. */
  function Stock(config: Config, slots: nat): nat
    requires config.maxRate > 0
  {
    if config.maxBytes < 2 then slots else Room(config, slots) + slots
  }

  lemma ReservationsSplit(reservations: map<string, int>, swept: int)
    requires forall sha :: sha in reservations ==> reservations[sha] > swept - RESERVATION_TTL
    ensures |reservations| == |Between(reservations, swept - RESERVATION_TTL + 1, swept)| + |Above(reservations, swept)|
  {
    var a, b := Between(reservations, swept - RESERVATION_TTL + 1, swept), Above(reservations, swept);
    assert reservations.Keys == a + b && a !! b;
  }

  lemma RoomSuffices(config: Config, slots: nat, log: Log, first: int, leftover: nat)
    requires Paced(config, slots, log, first, leftover) && config.maxRate > 0 && slots > 0
    ensures |log.repo.head.reservations| <= Room(config, slots)
  {
    KeptFacts(config, log.repo, first, leftover);
    hide Kept, Limited, Staffed, Accounted, Small, Dated, Numbered;
    LimitedMinutes(log.repo.rate, config.maxRate, log.grants, log.swept - RESERVATION_TTL + 1);
    hide CountIn, GrantedBefore, Unexpired;
    UnexpiredBacked(slots, log);
  }

  lemma UnexpiredBacked(slots: nat, log: Log)
    requires Unexpired(log) && Late(slots, log) && Backed(slots, log)
    ensures var lo := log.swept - RESERVATION_TTL + 1;
            |log.repo.head.reservations|
            <= slots + (if GrantedBefore(log.grants, lo) then slots else 0) + CountIn(log.grants, lo, log.swept + 1)
  {
    var lo := log.swept - RESERVATION_TTL + 1;
    assert IsBacked(slots, log, lo, log.swept);
    assert |Above(log.repo.head.reservations, log.swept)| + Number(log.threads, Early(log.swept)) <= slots;
    ReservationsSplit(log.repo.head.reservations, log.swept);
    hide Above, Between, CountIn, GrantedBefore, Number;
  }

  /** When uploads are one chunk, each reservation has a handler of its own. */
  lemma {:induction false} SeenBounds(threads: map<nat, Thread>, shas: set<string>)
    requires forall sha :: sha in shas ==> exists id :: Sees(threads, id, sha)
    ensures |shas| <= Number(threads, Placing)
    decreases |shas|
  {
    if shas != {} {
      var sha :| sha in shas;
      var id :| Sees(threads, id, sha);
      var rest := threads - {id};
      forall x | x in shas - {sha} ensures exists k :: Sees(rest, k, x) {
        var k :| Sees(threads, k, x);
        assert Sees(rest, k, x);
      }
      SeenBounds(rest, shas - {sha});
      NumberMoves(threads, id, threads[id].request, None, Placing);
    }
  }

  lemma StockSuffices(config: Config, slots: nat, log: Log, first: int, leftover: nat)
    requires Paced(config, slots, log, first, leftover) && config.maxRate > 0 && slots > 0
    ensures Open(log) <= Stock(config, slots)
  {
    NumberBounded(log.threads, Paying);
    if config.maxBytes < 2 {
      SeenBounds(log.threads, log.repo.head.reservations.Keys);
    }
    RoomSuffices(config, slots, log, first, leftover);
    hide Kept, Limited, Dated, Unexpired, Late, Backed, Small, Number, Room, AllHandled, SameJob;
  }

  /** The pushes accepted in the minute from `lo` are paid for by the stock open at its start and by the
      tokens granted in it; so is what is still open. */
  ghost predicate Paid(config: Config, slots: nat, log: Log, lo: int)
    requires config.maxRate > 0
  {
    CountIn(log.accepts, lo, lo + WINDOW) + (if log.now < lo + WINDOW then Open(log) else 0)
    <= (if GrantedBefore(log.grants, lo) then Stock(config, slots) else 0) + CountIn(log.grants, lo, lo + WINDOW)
  }

  lemma BeforeMinute(config: Config, slots: nat, log: Log, lo: int)
    requires Dated(log) && Accounted(log) && config.maxRate > 0 && Open(log) <= Stock(config, slots) && log.now < lo
    ensures Paid(config, slots, log, lo)
  {
    hide CountIn, Stock, Number;
    CountNone(log.accepts, lo, lo + WINDOW);
    if log.grants != [] {
      assert log.grants[0] < lo;
    }
  }

  lemma GoPaid(config: Config, slots: nat, log: Log, id: nat, now: int, lo: int)
    requires config.maxRate > 0 && Paid(config, slots, log, lo) && Applies(log, Go(id, now)) && lo <= now
    ensures Paid(config, slots, Happen(config, log, Go(id, now)), lo)
  {
    var Thread(q, at) := log.threads[id];
    EventPays(config, log, Go(id, now));
    NoteCount(log.grants, TakesToken(config, log.repo, at, now), now, lo, lo + WINDOW);
    NoteCount(log.accepts, TakesPush(config, log.repo, q, at), now, lo, lo + WINDOW);
    hide CountIn, Stock, Open, Section, TakesToken, TakesPush, NoteIf, GrantedBefore, Moved;
  }

  lemma EventPaid(config: Config, slots: nat, log: Log, e: Event, lo: int)
    requires config.maxRate > 0 && Paid(config, slots, log, lo) && Applies(log, e) && (e.Go? ==> lo <= e.now)
    ensures Paid(config, slots, Happen(config, log, e), lo)
  {
    if e.Go? {
      GoPaid(config, slots, log, e.id, e.now, lo);
    } else {
      EventPays(config, log, e);
      hide CountIn, Stock, Open, GrantedBefore, Apply, Enabled;
    }
  }

  lemma {:induction false} HistoryPaid(config: Config, slots: nat, log: Log, events: seq<Event>, lo: int, first: int,
                                       leftover: nat)
    requires config.maxRate > 0 && slots > 0 && Paced(config, slots, log, first, leftover)
    requires Paid(config, slots, log, lo)
    requires IsHistory(config, slots, log, events)
    ensures var end := Outcome(config, slots, log, events);
            Paced(config, slots, end, first, leftover) && Paid(config, slots, end, lo)
    decreases |events|
  {
    hide Paced, Paid, Happen, Applies, Stock;
    if events != [] {
      var next := Happen(config, log, events[0]);
      EventPaced(config, slots, log, events[0], first, leftover);
      NextPaid(config, slots, log, events[0], lo, first, leftover);
      HistoryPaid(config, slots, next, events[1..], lo, first, leftover);
    }
  }

  lemma NextPaid(config: Config, slots: nat, log: Log, e: Event, lo: int, first: int, leftover: nat)
    requires config.maxRate > 0 && slots > 0 && Paid(config, slots, log, lo) && Applies(log, e)
    requires Paced(config, slots, Happen(config, log, e), first, leftover)
    ensures Paid(config, slots, Happen(config, log, e), lo)
  {
    var next := Happen(config, log, e);
    if e.Go? && e.now < lo {
      StockSuffices(config, slots, next, first, leftover);
      assert next.now == e.now;
      hide Happen, Paid, Kept, Limited, Stock, Open;
      BeforeMinute(config, slots, next, lo);
    } else {
      hide Paced, Paid, Happen, Stock;
      EventPaid(config, slots, log, e, lo);
    }
  }

  lemma OpeningIsPaced(config: Config, slots: nat, r: Repo, created: int)
    requires IsOpened(r)
    ensures Paced(config, slots, Opening(r, created), r.head.nextSeq, |r.spool|) && Open(Opening(r, created)) == 0
  {
    var start := r.(rate := RateWindow(created, 0));
    SameOpened(r, start);
    OpenedIsKept(config, start);
    StartIsLimited(created, config.maxRate);
    hide Kept, Limited, IsOpened;
    NothingOpen(config, slots, Opening(r, created));
  }

  lemma NothingOpen(config: Config, slots: nat, log: Log)
    requires log.repo.head.reservations == map[] && log.threads == map[] && log.accepts == []
    ensures Late(slots, log) && Backed(slots, log) && Accounted(log) && Open(log) == 0
  {
    forall kind ensures Number(log.threads, kind) == 0 {
      assert Those(log.threads, kind) == {};
    }
    hide Number;
    forall x ensures Above(log.repo.head.reservations, x) == {} {
    }
    forall x, y ensures IsBacked(slots, log, x, y) {
      assert Between(log.repo.head.reservations, x, y) == {};
    }
  }

  lemma SameOpened(r: Repo, s: Repo)
    requires IsOpened(r) && s == r.(rate := s.rate)
    ensures IsOpened(s) && r.head.reservations == map[]
  {
    hide DistinctNumbers, IsSafe, ReadHead;
  }

  /** The most pushes that can be accepted in a minute. */
  function Most(config: Config, slots: nat): nat {
    if config.maxDepth == 0 || config.maxRate == 0 || slots == 0 then 0
    else Stock(config, slots) + 2 * config.maxRate - 1
  }

  lemma NoneAccepted(config: Config, slots: nat, log: Log, first: int, leftover: nat)
    requires Paced(config, slots, log, first, leftover) && (config.maxDepth == 0 || config.maxRate == 0 || slots == 0)
    ensures log.accepts == []
  {
    if config.maxRate == 0 {
      NoneIfZero(0, log.grants);
    }
  }

  lemma MinuteCapped(config: Config, slots: nat, log: Log, lo: int, first: int, leftover: nat)
    requires config.maxRate > 0 && slots > 0 && config.maxDepth > 0
    requires Paced(config, slots, log, first, leftover) && Paid(config, slots, log, lo)
    ensures CountIn(log.accepts, lo, lo + WINDOW) <= Most(config, slots)
  {
    LimitedMinutes(log.repo.rate, config.maxRate, log.grants, lo);
    hide Paced, CountIn, Open, GrantedBefore;
  }

  /** In any half-open minute of any history. */
  lemma AcceptedAtMost(config: Config, slots: nat, r: Repo, created: int, events: seq<Event>, lo: int)
    requires IsOpened(r) && IsHistory(config, slots, Opening(r, created), events)
    ensures var log := Outcome(config, slots, Opening(r, created), events);
            CountIn(log.accepts, lo, lo + WINDOW) <= Most(config, slots)
  {
    OpeningIsPaced(config, slots, r, created);
    var log := Outcome(config, slots, Opening(r, created), events);
    if config.maxDepth == 0 || config.maxRate == 0 || slots == 0 {
      HistoryPaced(config, slots, Opening(r, created), events, r.head.nextSeq, |r.spool|);
      NoneAccepted(config, slots, log, r.head.nextSeq, |r.spool|);
      CountNone(log.accepts, lo, lo + WINDOW);
    } else {
      hide Paced, Happen, Applies, IsOpened, Stock, Open;
      HistoryPaid(config, slots, Opening(r, created), events, lo, r.head.nextSeq, |r.spool|);
      MinuteCapped(config, slots, log, lo, r.head.nextSeq, |r.spool|);
    }
  }
}
