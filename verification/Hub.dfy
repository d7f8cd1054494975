/** The hub's answers to PUT and HEAD, each request taken as one step: `begin_upload`, `spool_chunk`,
    `push_complete` and the branches of `handle_connection` around them. */
module Hub {
  import opened BlobStore
  import opened RateLimiter
  import opened Registry
  import opened RegistryRuns
  import opened Spool
  import opened Wrappers

  /** What a registry call returns: a decision, or an error. */
  datatype Answer = Decided(decision: Decision) | Failed

  // ----- uploads -----

  function ExpireAll(r: Repo, now: int): Repo {
    r.(head := ExpireUploads(r.head, now), partials := r.partials - ExpiredUploads(r.head.reservations, now))
  }

  function BeginUpload(config: Config, r: Repo, sha: string, base: Option<string>, now: int): (Repo, Answer) {
    if !IsSafe(sha) then (r, Failed) else
    var live := ExpireAll(r, now);
    var check := CheckUpload(live.head, config.maxDepth, sha, base);
    if check.Some? then (live, Decided(check.value)) else
    var (rate, granted) := Take(live.rate, config.maxRate, now);
    var counted := live.(rate := rate);
    if !granted then (counted, Decided(RateLimited(60))) else
    var (head, decision) := ReserveUpload(counted.head, config.maxDepth, sha, base, now);
    (counted.(head := head), Decided(decision))
  }

  function AbandonUpload(r: Repo, sha: string): Repo {
    if !IsSafe(sha) then r else r.(head := ReleaseUpload(r.head, sha), partials := r.partials - {sha})
  }

  /** The length of the partial upload; none counts as empty. */
  function SpoolOffset(r: Repo, sha: string): nat {
    if IsSafe(sha) && sha in r.partials then |r.partials[sha]| else 0
  }

  /** A chunk at offset zero starts over; any other is appended, if it starts where the file ends. */
  function SpoolChunk(config: Config, r: Repo, sha: string, start: nat, chunk: Bytes): Option<Repo> {
    if !IsSafe(sha) || (start != 0 && SpoolOffset(r, sha) != start) || start + |chunk| > config.maxBytes then None else
    var kept := if start == 0 || sha !in r.partials then [] else r.partials[sha];
    Some(r.(partials := r.partials[sha := kept + chunk]))
  }

  function FinishUpload(config: Config, r: Repo, sha: string, base: Option<string>, retention: nat, reserved: bool,
                        now: int)
    : (Repo, Answer)
  {
    if !IsSafe(sha) then (r, Failed) else
    var (rate, granted) := if reserved then (r.rate, true) else Take(r.rate, config.maxRate, now);
    var counted := r.(rate := rate);
    if !granted then (counted, Decided(RateLimited(60))) else
    var decision := AcceptPush(counted.head, config.maxDepth, sha, base).1;
    var decided := ApplyAccept(config, counted, sha, base, retention);
    if decision != Accepted then (decided, Decided(decision)) else
    (ApplyRename(decided, Job(r.head.nextSeq, sha, retention)), if sha in r.partials then Decided(Accepted) else Failed)
  }

  function PushComplete(config: Config, r: Repo, sha: string, base: Option<string>, retention: nat, now: int)
    : (Repo, Answer)
  {
    var (done, answer) := FinishUpload(config, r.(head := ReleaseUpload(r.head, sha)), sha, base, retention,
                                       sha in r.head.reservations, now);
    if answer == Decided(Accepted) then (done, answer) else (AbandonUpload(done, sha), answer)
  }

  // ----- requests -----

  datatype Chunk = Chunk(start: nat, end: nat, total: nat, body: Bytes)

  /** A status line and, for HEAD, the upload offset; a request whose handler fails gets no answer. */
  datatype Reply = Status(code: nat, offset: Option<nat>) | Closed

  predicate IsValidRange(c: Chunk) {
    if c.total == 0 then c.start == 0 && c.end == 0 && |c.body| == 0
    else c.end >= c.start && c.end - c.start + 1 == |c.body| && c.start + |c.body| <= c.total
  }

  function CodeFor(decision: Decision): nat {
    match decision
    case Accepted => 202
    case Conflict => 409
    case RateLimited(_) => 429
  }

  function ReplyTo(answer: Answer): Reply {
    match answer
    case Decided(decision) => Status(CodeFor(decision), None)
    case Failed => Status(500, None)
  }

  function HandlePut(config: Config, r: Repo, sha: string, base: Option<string>, retention: nat, c: Chunk,
                     now: int): (Repo, Reply) {
    if !IsValidRange(c) || c.total > config.maxBytes then (r, Status(400, None)) else
    var (begun, answer) := if c.start == 0 then BeginUpload(config, r, sha, base, now) else (r, Decided(Accepted));
    if answer == Failed then (begun, Closed)
    else if answer != Decided(Accepted) then (begun, ReplyTo(answer))
    else SpoolAndFinish(config, begun, sha, base, retention, c, now)
  }

  function SpoolAndFinish(config: Config, r: Repo, sha: string, base: Option<string>, retention: nat, c: Chunk,
                          now: int): (Repo, Reply) {
    var spooled := SpoolChunk(config, r, sha, c.start, c.body);
    if spooled.None? then (AbandonUpload(r, sha), Status(500, None))
    else if c.start + |c.body| < c.total then (spooled.value, Status(202, None))
    else
      var (done, answer) := PushComplete(config, spooled.value, sha, base, retention, now);
      (done, ReplyTo(answer))
  }

  function HandleHead(r: Repo, sha: string): Reply {
    if SpoolOffset(r, sha) > 0 then Status(200, Some(SpoolOffset(r, sha))) else Status(404, None)
  }

  // ----- what a PUT is answered -----

  /** Each kind of answer has a status of its own. */
  lemma AnswersHaveCodes(answer: Answer, code: nat)
    ensures ReplyTo(answer) == Status(code, None) <==>
              match answer
              case Failed => code == 500
              case Decided(decision) =>
                code == (if decision == Accepted then 202 else if decision == Conflict then 409 else 429)
  {
  }

  /** The chunk is a part of some payload of the size it names, and of nothing if that is empty. */
  ghost predicate IsPart(c: Chunk) {
    exists payload: Bytes :: IsPartOf(c, payload)
  }

  ghost predicate IsPartOf(c: Chunk, payload: Bytes) {
    && |payload| == c.total
    && if payload == [] then c == Chunk(0, 0, 0, [])
       else c.start <= c.end < |payload| && c.body == payload[c.start..c.end + 1]
  }

  lemma ValidIsPart(c: Chunk)
    ensures IsValidRange(c) <==> IsPart(c)
  {
    if IsValidRange(c) {
      var payload := seq(c.start, _ => 0 as bv8) + c.body + seq(c.total - c.start - |c.body|, _ => 0 as bv8);
      assert c.total > 0 ==> payload[c.start..c.end + 1] == c.body;
      assert IsPartOf(c, payload);
    }
  }

  /** The reservations that the request finds: one that begins an upload first drops those that are a quarter
      of an hour old. */
  ghost function Live(r: Repo, c: Chunk, now: int): map<string, int> {
    if c.start != 0 then r.head.reservations else
    map x | x in r.head.reservations && now - r.head.reservations[x] < 900_000_000_000 :: r.head.reservations[x]
  }

  /** The partial uploads that it finds: those of dropped reservations are gone. */
  ghost function Files(r: Repo, c: Chunk, now: int): map<string, Bytes> {
    if c.start != 0 then r.partials else
    map x | x in r.partials && (x !in r.head.reservations || x in Live(r, c, now)) :: r.partials[x]
  }

  /** What the chunk continues. */
  ghost function Stored(r: Repo, sha: string, c: Chunk): Bytes {
    if c.start != 0 && sha in r.partials then r.partials[sha] else []
  }

  ghost predicate IsAcceptable(config: Config, c: Chunk) {
    IsPart(c) && c.total <= config.maxBytes
  }

  /** The chunk can be put where it belongs. */
  ghost predicate Fits(config: Config, r: Repo, sha: string, c: Chunk) {
    IsAcceptable(config, c) && IsSafe(sha) && |Stored(r, sha, c)| == c.start
  }

  /** The request has to reserve first; or it is the last of an upload that need not. */
  ghost predicate Opens(r: Repo, sha: string, c: Chunk, now: int) {
    c.start == 0 && sha !in Live(r, c, now)
  }

  ghost predicate IsLast(c: Chunk) {
    c.start + |c.body| == c.total
  }

  ghost predicate HasRoom(config: Config, r: Repo, sha: string, c: Chunk, now: int) {
    r.head.pending + (if Opens(r, sha, c, now) then |Live(r, c, now)| else 0) < config.maxDepth
  }

  /** The request needs no token, or there is one. */
  ghost predicate IsCovered(config: Config, r: Repo, sha: string, c: Chunk, now: int) {
    sha in Live(r, c, now) || HasToken(r.rate, config.maxRate, now)
  }

  /** The request asks for a token: to open an upload that nothing else stands against, or to end one that has
      no reservation. */
  ghost predicate Asks(config: Config, r: Repo, sha: string, base: Option<string>, c: Chunk, now: int) {
    && Fits(config, r, sha, c)
    && if Opens(r, sha, c, now) then HasRoom(config, r, sha, c, now) && !BuildsElsewhere(r.head.sha, base)
       else IsLast(c) && sha !in Live(r, c, now)
  }

  /** The answer, by what the request finds. One that opens an upload is refused for want of room, for its
      base and for want of a token, in this order; one that ends an upload for the last first. */
  ghost predicate IsAnswered(config: Config, r: Repo, sha: string, base: Option<string>, c: Chunk, now: int,
                             reply: Reply)
  {
    var fits, opens := Fits(config, r, sha, c), Opens(r, sha, c, now);
    var (room, covered) := (HasRoom(config, r, sha, c, now), IsCovered(config, r, sha, c, now));
    var elsewhere := BuildsElsewhere(r.head.sha, base);
    && (reply == Status(400, None) <==> !IsAcceptable(config, c))
    && (reply == Closed <==> IsAcceptable(config, c) && c.start == 0 && !IsSafe(sha))
    && (reply == Status(500, None) <==> IsAcceptable(config, c) && c.start != 0 && !fits)
    && (reply == Status(409, None) <==>
          fits && (opens || IsLast(c)) && room && elsewhere && (opens || covered))
    && (reply == Status(429, None) <==>
          fits && (opens || IsLast(c)) && (!room || (!covered && !(opens && elsewhere))))
    && (reply == Status(202, None) <==>
          fits && (opens || IsLast(c) ==> room && !elsewhere && covered))
  }

  /** The push that a request completes is the next job, with the stored part and the chunk for its content. */
  ghost predicate IsTaken(r: Repo, s: Repo, sha: string, base: Option<string>, retention: nat, c: Chunk) {
    var job, content := Job(r.head.nextSeq, sha, retention), Stored(r, sha, c) + c.body;
    && s.accepted == r.accepted + [Push(job, base)] && s.arrived == r.arrived[job := content]
    && s.spool == r.spool[job := content]
    && s.head.sha == Some(sha) && s.head.nextSeq == r.head.nextSeq + 1 && s.head.pending == r.head.pending + 1
  }

  ghost predicate IsUntouched(r: Repo, s: Repo) {
    && s.accepted == r.accepted && s.arrived == r.arrived && s.spool == r.spool
    && s.head.sha == r.head.sha && s.head.nextSeq == r.head.nextSeq && s.head.pending == r.head.pending
  }

  /** Nothing of the upload is left, and all other uploads are as the request found them. */
  ghost predicate IsDropped(r: Repo, s: Repo, sha: string, c: Chunk, now: int) {
    s.head.reservations == Live(r, c, now) - {sha} && s.partials == Files(r, c, now) - {sha}
  }

  /** What the answer says has happened. After 202 to the last chunk, and after nothing else, the push is
      taken. After 202 to another the chunk is stored, with a reservation. A refused upload is dropped, unless
      it was not even opened. */
  ghost predicate IsDone(config: Config, r: Repo, s: Repo, sha: string, base: Option<string>, retention: nat, c: Chunk,
                         now: int, reply: Reply)
  {
    var (live, files, opens) := (Live(r, c, now), Files(r, c, now), Opens(r, sha, c, now));
    && s.rate == (if Asks(config, r, sha, base, c, now) then Take(r.rate, config.maxRate, now).0 else r.rate)
    && if reply == Status(202, None) && IsLast(c) then
      IsTaken(r, s, sha, base, retention, c) && IsDropped(r, s, sha, c, now)
    else
      && IsUntouched(r, s)
      && (reply == Status(202, None) ==>
            && s.partials == files[sha := Stored(r, sha, c) + c.body]
            && s.head.reservations == if opens then live[sha := now] else live)
      && (reply in {Status(409, None), Status(429, None)} && opens ==>
            s.partials == files && s.head.reservations == live)
      && (reply in {Status(409, None), Status(429, None), Status(500, None)} && !opens && IsSafe(sha) ==>
            IsDropped(r, s, sha, c, now))
      && (reply in {Status(400, None), Closed} || !IsSafe(sha) ==> s == r)
  }

  lemma LiveIsUnexpired(r: Repo, c: Chunk, now: int)
    requires c.start == 0
    ensures ExpireAll(r, now) == r.(head := r.head.(reservations := Live(r, c, now)), partials := Files(r, c, now))
  {
  }

  /** Beginning an upload: the answer, and what is then reserved. */
  lemma BeginAnswers(config: Config, r: Repo, sha: string, base: Option<string>, c: Chunk, now: int)
    requires c.start == 0
    ensures var (s, answer) := BeginUpload(config, r, sha, base, now);
            var live, room := Live(r, c, now), r.head.pending + |Live(r, c, now)| < config.maxDepth;
            var elsewhere := BuildsElsewhere(r.head.sha, base);
            && (answer == Failed <==> !IsSafe(sha))
            && (answer == Decided(RateLimited(5)) <==> IsSafe(sha) && sha !in live && !room)
            && (answer == Decided(Conflict) <==> IsSafe(sha) && sha !in live && room && elsewhere)
            && (answer == Decided(RateLimited(60)) <==>
                  IsSafe(sha) && sha !in live && room && !elsewhere && !HasToken(r.rate, config.maxRate, now))
            && (answer == Decided(Accepted) <==>
                  IsSafe(sha) && (sha in live || (room && !elsewhere && HasToken(r.rate, config.maxRate, now))))
            && IsUntouched(r, s)
            && (IsSafe(sha) ==>
                  && s.head.reservations
                     == (if answer == Decided(Accepted) && sha !in live then live[sha := now] else live)
                  && s.partials == Files(r, c, now)
                  && s.rate
                     == if sha !in live && room && !elsewhere then Take(r.rate, config.maxRate, now).0 else r.rate)
            && (!IsSafe(sha) ==> s == r)
  {
    hide IsSafe, Take, CheckUpload, ReserveUpload, ExpireAll, HasToken, BuildsElsewhere, Live, Files;
    LiveIsUnexpired(r, c, now);
    var live := ExpireAll(r, now);
    CheckTells(live.head, config.maxDepth, sha, base);
    TakeGives(r.rate, config.maxRate, now);
    ReserveTells(live.head, config.maxDepth, sha, base, now);
  }

  /** Completing an upload whose file is there. */
  lemma CompleteAnswers(config: Config, r: Repo, sha: string, base: Option<string>, retention: nat, now: int)
    requires IsSafe(sha) && sha in r.partials
    ensures var (s, answer) := PushComplete(config, r, sha, base, retention, now);
            var covered := sha in r.head.reservations || HasToken(r.rate, config.maxRate, now);
            var (room, elsewhere) := (r.head.pending < config.maxDepth, BuildsElsewhere(r.head.sha, base));
            && (answer == Decided(RateLimited(60)) <==> !covered)
            && (answer == Decided(RateLimited(5)) <==> covered && !room)
            && (answer == Decided(Conflict) <==> covered && room && elsewhere)
            && (answer == Decided(Accepted) <==> covered && room && !elsewhere)
            && (answer == Decided(Accepted) ==>
                  var job := Job(r.head.nextSeq, sha, retention);
                  && s.accepted == r.accepted + [Push(job, base)] && s.arrived == r.arrived[job := r.partials[sha]]
                  && s.spool == r.spool[job := r.partials[sha]]
                  && s.head.sha == Some(sha) && s.head.nextSeq == r.head.nextSeq + 1
                  && s.head.pending == r.head.pending + 1)
            && (answer != Decided(Accepted) ==> IsUntouched(r, s))
            && s.head.reservations == r.head.reservations - {sha} && s.partials == r.partials - {sha}
            && s.rate == if sha in r.head.reservations then r.rate else Take(r.rate, config.maxRate, now).0
  {
    hide IsSafe, Take, AcceptPush, HasToken, BuildsElsewhere;
    TakeGives(r.rate, config.maxRate, now);
    AcceptTells(ReleaseUpload(r.head, sha), config.maxDepth, sha, base);
  }

  /** Storing a chunk, and completing the upload if it is the last. */
  lemma SpoolAnswers(config: Config, r: Repo, sha: string, base: Option<string>, retention: nat, c: Chunk, now: int)
    requires IsAcceptable(config, c)
    ensures var (s, reply) := SpoolAndFinish(config, r, sha, base, retention, c, now);
            var covered := sha in r.head.reservations || HasToken(r.rate, config.maxRate, now);
            var (room, elsewhere) := (r.head.pending < config.maxDepth, BuildsElsewhere(r.head.sha, base));
            var fits := Fits(config, r, sha, c);
            && (reply == Status(500, None) <==> !fits)
            && (reply == Status(429, None) <==> fits && IsLast(c) && (!covered || !room))
            && (reply == Status(409, None) <==> fits && IsLast(c) && covered && room && elsewhere)
            && (reply == Status(202, None) <==> fits && (IsLast(c) ==> covered && room && !elsewhere))
            && (if reply == Status(202, None) && IsLast(c) then IsTaken(r, s, sha, base, retention, c)
                else IsUntouched(r, s))
            && (if reply == Status(202, None) && !IsLast(c) then
                  && s.head.reservations == r.head.reservations
                  && s.partials == r.partials[sha := Stored(r, sha, c) + c.body]
                else if IsSafe(sha) then
                  s.head.reservations == r.head.reservations - {sha} && s.partials == r.partials - {sha}
                else s == r)
            && (s.rate == if fits && IsLast(c) && sha !in r.head.reservations
                          then Take(r.rate, config.maxRate, now).0 else r.rate)
  {
    ValidIsPart(c);
    hide IsSafe, PushComplete, HasToken, BuildsElsewhere, IsPart, Take;
    var spooled := SpoolChunk(config, r, sha, c.start, c.body);
    if spooled.Some? {
      CompleteAnswers(config, spooled.value, sha, base, retention, now);
      assert spooled.value.partials - {sha} == r.partials - {sha};
    }
  }

  /** A PUT is answered by what it finds, and the answer says what it has done. */
  lemma PutAnswers(config: Config, r: Repo, sha: string, base: Option<string>, retention: nat, c: Chunk, now: int)
    ensures var (s, reply) := HandlePut(config, r, sha, base, retention, c, now);
            IsAnswered(config, r, sha, base, c, now, reply) && IsDone(config, r, s, sha, base, retention, c, now, reply)
  {
    ValidIsPart(c);
    if !IsAcceptable(config, c) {
      hide IsSafe, HasToken, BuildsElsewhere, BeginUpload, SpoolAndFinish, Take;
    } else if c.start == 0 {
      PutOpens(config, r, sha, base, retention, c, now);
    } else {
      hide BeginUpload;
      SpoolAnswers(config, r, sha, base, retention, c, now);
      hide IsSafe, HasToken, BuildsElsewhere, SpoolAndFinish, IsPart, IsTaken, IsUntouched, Take;
    }
  }

  lemma PutOpens(config: Config, r: Repo, sha: string, base: Option<string>, retention: nat, c: Chunk, now: int)
    requires IsAcceptable(config, c) && c.start == 0
    ensures var (s, reply) := HandlePut(config, r, sha, base, retention, c, now);
            IsAnswered(config, r, sha, base, c, now, reply) && IsDone(config, r, s, sha, base, retention, c, now, reply)
  {
    ValidIsPart(c);
    hide IsPart, BeginUpload, SpoolAndFinish;
    var (begun, answer) := BeginUpload(config, r, sha, base, now);
    if answer == Decided(Accepted) {
      hide HandlePut;
      OpenedAnswers(config, r, sha, base, retention, c, now);
    } else {
      BeginAnswers(config, r, sha, base, c, now);
      hide IsSafe, HasToken, BuildsElsewhere, Live, Take;
    }
  }

  /** The upload is open: from here on only its last chunk can be refused. */
  lemma OpenedAnswers(config: Config, r: Repo, sha: string, base: Option<string>, retention: nat, c: Chunk, now: int)
    requires IsAcceptable(config, c) && c.start == 0 && BeginUpload(config, r, sha, base, now).1 == Decided(Accepted)
    ensures var (s, reply) := HandlePut(config, r, sha, base, retention, c, now);
            IsAnswered(config, r, sha, base, c, now, reply) && IsDone(config, r, s, sha, base, retention, c, now, reply)
  {
    hide HandlePut, BeginUpload, IsAcceptable, IsAnswered, IsDone;
    OpenedReplies(config, r, sha, base, retention, c, now);
    OpenedDoes(config, r, sha, base, retention, c, now);
  }

  lemma OpenedReplies(config: Config, r: Repo, sha: string, base: Option<string>, retention: nat, c: Chunk, now: int)
    requires IsAcceptable(config, c) && c.start == 0 && BeginUpload(config, r, sha, base, now).1 == Decided(Accepted)
    ensures var (s, reply) := HandlePut(config, r, sha, base, retention, c, now);
            IsAnswered(config, r, sha, base, c, now, reply)
  {
    hide HandlePut, BeginUpload, SpoolAndFinish, IsSafe, HasToken, BuildsElsewhere, Live, Files, IsPart, IsTaken;
    PutGoesOn(config, r, sha, base, retention, c, now);
    BeginAnswers(config, r, sha, base, c, now);
    var begun := BeginUpload(config, r, sha, base, now).0;
    SpoolAnswers(config, begun, sha, base, retention, c, now);
  }

  lemma OpenedDoes(config: Config, r: Repo, sha: string, base: Option<string>, retention: nat, c: Chunk, now: int)
    requires IsAcceptable(config, c) && c.start == 0 && BeginUpload(config, r, sha, base, now).1 == Decided(Accepted)
    ensures var (s, reply) := HandlePut(config, r, sha, base, retention, c, now);
            IsDone(config, r, s, sha, base, retention, c, now, reply)
  {
    hide HandlePut, BeginUpload, SpoolAndFinish, IsSafe, HasToken, BuildsElsewhere, Live, Files, IsAcceptable;
    hide IsUntouched, IsTaken, Fits, IsDone, Stored, Asks, Take;
    PutGoesOn(config, r, sha, base, retention, c, now);
    BeginAnswers(config, r, sha, base, c, now);
    var begun := BeginUpload(config, r, sha, base, now).0;
    OpenedFits(config, begun, sha, c);
    SpoolAnswers(config, begun, sha, base, retention, c, now);
    var (s, reply) := SpoolAndFinish(config, begun, sha, base, retention, c, now);
    UntouchedOn(r, begun, s, sha, base, retention, c);
    OpenedAsks(config, r, sha, base, c, now);
    OpenedMeans(config, r, begun, s, sha, base, retention, c, now, reply);
  }

  /** What was done to the upload just opened, seen from before. */
  lemma OpenedMeans(config: Config, r: Repo, begun: Repo, s: Repo, sha: string, base: Option<string>, retention: nat,
                    c: Chunk, now: int, reply: Reply)
    requires c.start == 0 && IsSafe(sha) && reply in {Status(202, None), Status(409, None), Status(429, None)}
    requires begun.partials == Files(r, c, now) && (Opens(r, sha, c, now) ==> reply == Status(202, None))
    requires s.rate == if Asks(config, r, sha, base, c, now) then Take(r.rate, config.maxRate, now).0 else r.rate
    requires begun.head.reservations == if Opens(r, sha, c, now) then Live(r, c, now)[sha := now] else Live(r, c, now)
    requires if reply == Status(202, None) && IsLast(c) then IsTaken(r, s, sha, base, retention, c)
             else IsUntouched(r, s)
    requires if reply == Status(202, None) && !IsLast(c) then
               && s.head.reservations == begun.head.reservations
               && s.partials == begun.partials[sha := Stored(r, sha, c) + c.body]
             else s.head.reservations == begun.head.reservations - {sha} && s.partials == begun.partials - {sha}
    ensures IsDone(config, r, s, sha, base, retention, c, now, reply)
  {
    hide IsSafe, Live, Files, IsUntouched, IsTaken, Stored, Asks, Take;
    assert Live(r, c, now)[sha := now] - {sha} == Live(r, c, now) - {sha};
  }

  lemma OpenedAsks(config: Config, r: Repo, sha: string, base: Option<string>, c: Chunk, now: int)
    requires IsAcceptable(config, c) && c.start == 0 && IsSafe(sha)
    ensures Asks(config, r, sha, base, c, now)
            <==> if Opens(r, sha, c, now) then
                   r.head.pending + |Live(r, c, now)| < config.maxDepth && !BuildsElsewhere(r.head.sha, base)
                 else IsLast(c) && sha !in Live(r, c, now)
  {
    OpenedFits(config, r, sha, c);
    hide IsSafe, Live, Fits, BuildsElsewhere;
  }

  lemma OpenedFits(config: Config, r: Repo, sha: string, c: Chunk)
    requires IsAcceptable(config, c) && c.start == 0
    ensures Fits(config, r, sha, c) <==> IsSafe(sha)
  {
    hide IsSafe, IsPart;
  }

  lemma PutGoesOn(config: Config, r: Repo, sha: string, base: Option<string>, retention: nat, c: Chunk, now: int)
    requires IsAcceptable(config, c) && c.start == 0 && BeginUpload(config, r, sha, base, now).1 == Decided(Accepted)
    ensures HandlePut(config, r, sha, base, retention, c, now)
            == SpoolAndFinish(config, BeginUpload(config, r, sha, base, now).0, sha, base, retention, c, now)
  {
    ValidIsPart(c);
    hide IsPart, BeginUpload, SpoolAndFinish;
  }

  lemma UntouchedOn(r: Repo, begun: Repo, s: Repo, sha: string, base: Option<string>, retention: nat, c: Chunk)
    requires IsUntouched(r, begun) && c.start == 0
    ensures IsTaken(begun, s, sha, base, retention, c) ==> IsTaken(r, s, sha, base, retention, c)
    ensures IsUntouched(begun, s) ==> IsUntouched(r, s)
    ensures begun.head.pending == r.head.pending && begun.head.sha == r.head.sha
    ensures Stored(begun, sha, c) == Stored(r, sha, c)
  {
  }

  /** The offset query reports how much of an upload is there, if anything is. */
  lemma HeadAnswers(r: Repo, sha: string, n: nat)
    ensures HandleHead(r, sha) == Status(200, Some(n)) <==>
              n > 0 && IsSafe(sha) && sha in r.partials && |r.partials[sha]| == n
    ensures HandleHead(r, sha) == Status(404, None) <==> !IsSafe(sha) || sha !in r.partials || r.partials[sha] == []
  {
    hide IsSafe;
  }

  // ----- every request is a run of the registry's steps -----

  ghost predicate LeadsTo(config: Config, r: Repo, s: Repo) {
    exists steps :: IsRun(config, r, steps) && After(config, r, steps) == s
  }

  lemma LeadsToSelf(config: Config, r: Repo)
    ensures LeadsTo(config, r, r)
  {
    assert IsRun(config, r, []) && After(config, r, []) == r;
  }

  lemma LeadsByStep(config: Config, r: Repo, step: Step)
    requires Enabled(r, step)
    ensures LeadsTo(config, r, Apply(config, r, step))
  {
    hide Enabled, Apply;
    assert [step][1..] == [] && IsRun(config, Apply(config, r, step), []);
    assert IsRun(config, r, [step]) && After(config, r, [step]) == Apply(config, r, step);
  }

  lemma LeadsOn(config: Config, r: Repo, s: Repo, t: Repo)
    requires LeadsTo(config, r, s) && LeadsTo(config, s, t)
    ensures LeadsTo(config, r, t)
  {
    hide Enabled, Apply;
    var a :| IsRun(config, r, a) && After(config, r, a) == s;
    var b :| IsRun(config, s, b) && After(config, s, b) == t;
    Joined(config, r, a, b);
  }

  lemma {:induction false} DiscardAll(config: Config, r: Repo, gone: set<string>)
    ensures LeadsTo(config, r, r.(partials := r.partials - gone))
    decreases |gone|
  {
    hide LeadsTo;
    if gone == {} {
      LeadsToSelf(config, r);
      assert r.partials - gone == r.partials;
    } else {
      var sha :| sha in gone;
      LeadsByStep(config, r, Discard(sha));
      var s := Apply(config, r, Discard(sha));
      DiscardAll(config, s, gone - {sha});
      assert s.partials - (gone - {sha}) == r.partials - gone;
      LeadsOn(config, r, s, r.(partials := r.partials - gone));
    }
  }

  lemma ExpireIsRun(config: Config, r: Repo, now: int)
    ensures LeadsTo(config, r, ExpireAll(r, now))
  {
    hide LeadsTo;
    LeadsByStep(config, r, Expire(now));
    var s := r.(head := ExpireUploads(r.head, now));
    DiscardAll(config, s, ExpiredUploads(r.head.reservations, now));
    LeadsOn(config, r, s, ExpireAll(r, now));
  }

  lemma BeginIsRun(config: Config, r: Repo, sha: string, base: Option<string>, now: int)
    ensures LeadsTo(config, r, BeginUpload(config, r, sha, base, now).0)
  {
    hide LeadsTo, IsSafe, CheckUpload;
    LeadsToSelf(config, r);
    if IsSafe(sha) {
      var live := ExpireAll(r, now);
      ExpireIsRun(config, r, now);
      hide ExpireAll;
      LeadsByStep(config, live, TakeToken(now));
      var counted := Apply(config, live, TakeToken(now));
      LeadsOn(config, r, live, counted);
      LeadsByStep(config, counted, Reserve(sha, base, now));
      LeadsOn(config, r, counted, Apply(config, counted, Reserve(sha, base, now)));
    }
  }

  lemma AbandonIsRun(config: Config, r: Repo, sha: string)
    ensures LeadsTo(config, r, AbandonUpload(r, sha))
  {
    hide LeadsTo, IsSafe;
    LeadsToSelf(config, r);
    LeadsByStep(config, r, Release(sha));
    var s := Apply(config, r, Release(sha));
    LeadsByStep(config, s, Discard(sha));
    LeadsOn(config, r, s, Apply(config, s, Discard(sha)));
  }

  lemma FinishIsRun(config: Config, r: Repo, sha: string, base: Option<string>, retention: nat, reserved: bool,
                    now: int)
    ensures LeadsTo(config, r, FinishUpload(config, r, sha, base, retention, reserved, now).0)
  {
    hide LeadsTo, IsSafe, ApplyRename;
    LeadsToSelf(config, r);
    if IsSafe(sha) {
      LeadsByStep(config, r, TakeToken(now));
      var counted := if reserved then r else Apply(config, r, TakeToken(now));
      LeadsByStep(config, counted, Accept(sha, base, retention));
      var decided := ApplyAccept(config, counted, sha, base, retention);
      LeadsOn(config, r, counted, decided);
      var job := Job(r.head.nextSeq, sha, retention);
      if AcceptPush(counted.head, config.maxDepth, sha, base).1 == Accepted {
        LeadsByStep(config, decided, Rename(job));
        LeadsOn(config, r, decided, ApplyRename(decided, job));
      }
    }
  }

  lemma CompleteIsRun(config: Config, r: Repo, sha: string, base: Option<string>, retention: nat, now: int)
    ensures LeadsTo(config, r, PushComplete(config, r, sha, base, retention, now).0)
  {
    hide LeadsTo, FinishUpload, AbandonUpload;
    LeadsByStep(config, r, Release(sha));
    var s := Apply(config, r, Release(sha));
    var reserved := sha in r.head.reservations;
    FinishIsRun(config, s, sha, base, retention, reserved, now);
    var done := FinishUpload(config, s, sha, base, retention, reserved, now).0;
    LeadsOn(config, r, s, done);
    AbandonIsRun(config, done, sha);
    LeadsOn(config, r, done, AbandonUpload(done, sha));
  }

  /** A request handled without interruption is one of the interleavings, so all that holds of those holds
      of it: the counters, the head, the numbers. */
  lemma PutIsRun(config: Config, r: Repo, sha: string, base: Option<string>, retention: nat, c: Chunk, now: int)
    ensures LeadsTo(config, r, HandlePut(config, r, sha, base, retention, c, now).0)
  {
    hide LeadsTo, BeginUpload, SpoolAndFinish, IsValidRange;
    LeadsToSelf(config, r);
    BeginIsRun(config, r, sha, base, now);
    var begun := if c.start == 0 then BeginUpload(config, r, sha, base, now).0 else r;
    SpoolIsRun(config, begun, sha, base, retention, c, now);
    LeadsOn(config, r, begun, SpoolAndFinish(config, begun, sha, base, retention, c, now).0);
  }

  // ----- compare and advance -----

  /** The target of the push accepted last, or the head that was persisted when the repository was opened. */
  ghost function LastTarget(first: Repo, r: Repo): Option<string> {
    if r.accepted == [] then ReadHead(first.store.head) else Some(r.accepted[|r.accepted| - 1].job.sha)
  }

  /** All of a payload in one request. */
  function AllOf(payload: Bytes): Chunk {
    Chunk(0, if payload == [] then 0 else |payload| - 1, |payload|, payload)
  }

  lemma AllOfIsPart(payload: Bytes)
    ensures IsPart(AllOf(payload)) && IsLast(AllOf(payload))
  {
    assert payload != [] ==> payload[0..|payload|] == payload;
    assert IsPartOf(AllOf(payload), payload);
  }

  /** After any run, with room in the queue and a token to be had: a push of a whole payload that names no
      base, or the commit accepted last, or comes first of all, is accepted and becomes the head; one that
      names any other base is a conflict and changes nothing of that. */
  lemma CompareAndAdvance(config: Config, first: Repo, steps: seq<Step>, sha: string, base: Option<string>,
                          retention: nat, payload: Bytes, now: int)
    requires IsOpened(first) && IsRun(config, first, steps) && IsSafe(sha) && |payload| <= config.maxBytes
    requires var r := After(config, first, steps);
             && r.head.pending + |r.head.reservations| < config.maxDepth && HasToken(r.rate, config.maxRate, now)
    ensures var r := After(config, first, steps); var head := LastTarget(first, r);
            var (s, reply) := HandlePut(config, r, sha, base, retention, AllOf(payload), now);
            if base.None? || head.None? || base == head then
              var job := Job(r.head.nextSeq, sha, retention);
              && reply == Status(202, None) && s.accepted == r.accepted + [Push(job, base)]
              && s.head.sha == LastTarget(first, s) == Some(sha) && job in s.spool && s.spool[job] == payload
            else
              && reply == Status(409, None) && s.accepted == r.accepted && s.head.sha == r.head.sha == head
              && s.spool == r.spool
  {
    hide Enabled, Apply, IsSafe, HasToken, HandlePut;
    var r, c := After(config, first, steps), AllOf(payload);
    RunChains(config, first, steps, first.head.sha);
    PutAnswers(config, r, sha, base, retention, c, now);
    AllOfIsPart(payload);
    hide IsPart;
    SomeExpire(r, c, now);
    assert Stored(r, sha, c) + payload == payload;
  }

  lemma SomeExpire(r: Repo, c: Chunk, now: int)
    ensures |Live(r, c, now)| <= |r.head.reservations|
  {
    var gone := set x | x in r.head.reservations && x !in Live(r, c, now);
    assert Live(r, c, now) == r.head.reservations - gone;
    FewerKeys(r.head.reservations, gone);
  }

  lemma SpoolIsRun(config: Config, r: Repo, sha: string, base: Option<string>, retention: nat, c: Chunk, now: int)
    ensures LeadsTo(config, r, SpoolAndFinish(config, r, sha, base, retention, c, now).0)
  {
    hide LeadsTo, PushComplete, AbandonUpload, SpoolOffset, IsSafe;
    AbandonIsRun(config, r, sha);
    var spooled := SpoolChunk(config, r, sha, c.start, c.body);
    if spooled.Some? {
      var s := spooled.value;
      LeadsByStep(config, r, Write(sha, s.partials[sha]));
      CompleteIsRun(config, s, sha, base, retention, now);
      LeadsOn(config, r, s, PushComplete(config, s, sha, base, retention, now).0);
    }
  }
}
