/** A resumable upload end to end: the client's `push_chunks` loop, a network that loses, delays,
    duplicates and reorders, and the hub's handlers, for one payload pushed to one commit. */
module Upload {
  import opened BlobStore
  import opened Hub
  import opened Registry
  import opened RegistryRuns
  import opened Spool
  import opened Wrappers

  // ----- the client -----

  const CHUNK_SIZE := 5 * 1024 * 1024

  datatype Outcome = PushPublished | PushAccepted | PushConflict | PushLimited | PushError

  datatype Mode = Greeting | Sending | Asking | Done(outcome: Outcome)

  datatype Client = Client(mode: Mode, offset: nat, attempts: nat)

  /** An offset query, or the chunk from `start` up to `end`. */
  datatype Request = Query | Put(start: nat, end: nat)

  /** What comes back: an answer of the hub, or a transport error. */
  datatype Event = Answered(code: nat, offset: Option<nat>) | Broken

  function OutcomeFor(code: nat): Outcome {
    if code in {200, 201, 204} then PushPublished
    else if code == 202 then PushAccepted
    else if code == 409 then PushConflict
    else if code == 429 then PushLimited
    else PushError
  }

  /** The top of the chunk loop. */
  function Loop(total: nat, offset: nat, attempts: nat): Client {
    Client(if offset < total then Sending else Done(PushAccepted), offset, attempts)
  }

  function Start(total: nat): Client {
    Client(if total == 0 then Sending else Greeting, 0, 0)
  }

  function ChunkEnd(total: nat, offset: nat): nat {
    if offset + CHUNK_SIZE < total then offset + CHUNK_SIZE else total
  }

  /** The request that the client is waiting on. */
  function Pending(total: nat, c: Client): Request {
    if c.mode == Sending then Put(c.offset, ChunkEnd(total, c.offset)) else Query
  }

  function Hears(total: nat, c: Client, e: Event): Client {
    match c.mode
    case Greeting =>
      Loop(total, if e.Answered? && e.code == 200 && e.offset.Some? then e.offset.value else 0, 0)
    case Sending =>
      if e.Answered? then
        if total > 0 && e.code == 202 then Loop(total, ChunkEnd(total, c.offset), 0)
        else c.(mode := Done(OutcomeFor(e.code)))
      else if total == 0 || c.attempts >= 3 then c.(mode := Done(PushError))
      else c.(mode := Asking, attempts := c.attempts + 1)
    case Asking =>
      Loop(total, if e.Answered? && e.code == 200 && e.offset.Some? then e.offset.value else c.offset, c.attempts)
    case Done(_) => c
  }

  function Follow(total: nat, events: seq<Event>): Client {
    if events == [] then Start(total) else Hears(total, Follow(total, events[..|events| - 1]), events[|events| - 1])
  }

  lemma {:induction false} DoneStays(total: nat, events: seq<Event>, n: nat)
    requires n <= |events| && Follow(total, events[..n]).mode.Done?
    ensures Follow(total, events) == Follow(total, events[..n])
    decreases |events| - n
  {
    if n < |events| {
      FollowNext(total, events, n);
      DoneStays(total, events, n + 1);
    } else {
      assert events[..n] == events;
    }
  }

  lemma FollowNext(total: nat, events: seq<Event>, n: nat)
    requires n < |events|
    ensures Follow(total, events[..n + 1]) == Hears(total, Follow(total, events[..n]), events[n])
  {
    assert events[..n + 1][..n] == events[..n];
  }

  // ----- what the client makes of answers -----

  ghost predicate AreAcks(events: seq<Event>) {
    forall i :: 0 <= i < |events| ==> events[i].Answered? && events[i].code == 202
  }

  /** The offset that an answer to a query reports. */
  ghost function Reported(e: Event): Option<nat> {
    if e.Answered? && e.code == 200 then e.offset else None
  }

  function Least(a: nat, b: nat): nat {
    if a < b then a else b
  }

  /** The client has come to `offset`: it sends the next chunk from there, or is done. */
  ghost predicate HasComeTo(total: nat, c: Client, offset: nat) {
    c.offset == offset && c.mode == if offset < total then Sending else Done(PushAccepted)
  }

  /** What a final answer to a chunk means. */
  ghost predicate IsOutcome(code: nat, outcome: Outcome) {
    && (outcome == PushPublished <==> code == 200 || code == 201 || code == 204)
    && (outcome == PushAccepted <==> code == 202)
    && (outcome == PushConflict <==> code == 409)
    && (outcome == PushLimited <==> code == 429)
  }

  /** Chunks of five megabytes answered with 202 move the client on, the last of them to the end. */
  lemma {:induction false} AckedMoves(total: nat, events: seq<Event>, acks: seq<Event>)
    requires AreAcks(acks) && Follow(total, events).mode == Sending && Follow(total, events).offset < total
    ensures var c := Follow(total, events);
            HasComeTo(total, Follow(total, events + acks), Least(c.offset + |acks| * 5_242_880, total))
    ensures acks != [] ==> Follow(total, events + acks).attempts == 0
    decreases |acks|
  {
    if acks == [] {
      assert events + acks == events;
    } else {
      var n := |acks| - 1;
      AckedMoves(total, events, acks[..n]);
      assert (events + acks)[..|events| + n] == events + acks[..n];
      assert (events + acks)[|events| + n] == acks[n];
    }
  }

  lemma FollowMore(total: nat, events: seq<Event>, e: Event)
    ensures Follow(total, events + [e]) == Hears(total, Follow(total, events), e)
  {
    assert (events + [e])[..|events|] == events;
  }

  /** The first answer to a chunk other than 202 ends the push, with the outcome of its code. */
  lemma RefusalEnds(total: nat, events: seq<Event>, e: Event)
    requires Follow(total, events).mode == Sending && e.Answered? && (e.code != 202 || total == 0)
    ensures var c := Follow(total, events + [e]); c.mode.Done? && IsOutcome(e.code, c.mode.outcome)
  {
    FollowMore(total, events, e);
  }

  /** An offset query moves the client to what it reports, or leaves it where it was. */
  lemma QueryMoves(total: nat, events: seq<Event>, e: Event)
    requires Follow(total, events).mode in {Greeting, Asking}
    ensures var (c, c') := (Follow(total, events), Follow(total, events + [e]));
            && HasComeTo(total, c', if Reported(e).Some? then Reported(e).value else c.offset)
            && c'.attempts == c.attempts
  {
    FollowMore(total, events, e);
    GreetingIsFirst(total, events);
  }

  lemma {:induction false} GreetingIsFirst(total: nat, events: seq<Event>)
    ensures Follow(total, events).mode == Greeting ==>
              events == [] && total > 0 && Follow(total, events) == Start(total)
  {
    if events != [] {
      GreetingIsFirst(total, events[..|events| - 1]);
    }
  }

  /** Transport errors of chunks, each followed by a query. */
  ghost predicate AreFailures(total: nat, events: seq<Event>, tries: seq<Event>) {
    && |tries| % 2 == 0
    && forall i :: 0 <= i < |tries| && i % 2 == 0 ==>
         tries[i].Broken? && Follow(total, events + tries[..i]).mode == Sending
  }

  /** Three transport errors in a row are tried again, each after a query; the fourth ends the push. */
  lemma FourthErrorEnds(total: nat, events: seq<Event>, tries: seq<Event>)
    requires total > 0 && Follow(total, events).mode == Sending && Follow(total, events).attempts == 0
    requires AreFailures(total, events, tries) && |tries| <= 6 && Follow(total, events + tries).mode == Sending
    ensures Follow(total, events + tries + [Broken]).mode == if |tries| == 6 then Done(PushError) else Asking
  {
    FailuresCount(total, events, tries);
    FollowMore(total, events + tries, Broken);
  }

  lemma {:induction false} FailuresCount(total: nat, events: seq<Event>, tries: seq<Event>)
    requires total > 0 && Follow(total, events).attempts == 0
    requires AreFailures(total, events, tries) && |tries| <= 6 && Follow(total, events + tries).mode == Sending
    ensures Follow(total, events + tries).attempts == |tries| / 2
    decreases |tries|
  {
    hide Follow, Hears;
    if tries == [] {
      assert events + tries == events;
    } else {
      var n := |tries| - 2;
      var rest := tries[..n];
      forall i | 0 <= i < n && i % 2 == 0 ensures rest[i].Broken? && Follow(total, events + rest[..i]).mode == Sending {
        assert rest[..i] == tries[..i];
      }
      assert rest == tries[..n] && tries[n].Broken?;
      FailuresCount(total, events, rest);
      FailureCounts(total, events + rest, tries[n + 1]);
      assert events + tries == events + rest + [Broken] + [tries[n + 1]];
    }
  }

  /** One more error, and what the query after it was told. */
  lemma FailureCounts(total: nat, events: seq<Event>, query: Event)
    requires total > 0 && Follow(total, events).mode == Sending && Follow(total, events).attempts < 3
    ensures Follow(total, events + [Broken] + [query]).attempts == Follow(total, events).attempts + 1
  {
    FollowMore(total, events, Broken);
    FollowMore(total, events + [Broken], query);
    hide Follow;
  }

  /** The push, given what comes back for each of its requests in turn. It returns when it is done or when
      nothing more comes back. Told where to begin, it goes on by one chunk with each 202, and the first other
      answer ends it. */
  method PushChunks(total: nat, events: seq<Event>) returns (c: Client)
    ensures c == Follow(total, events)
    ensures events == [] ==> c.offset == c.attempts == 0 && c.mode == if total == 0 then Sending else Greeting
    ensures total > 0 && events != [] && AreAcks(events[1..]) ==>
              var from := if Reported(events[0]).Some? then Reported(events[0]).value else 0;
              HasComeTo(total, c, if from < total then Least(from + (|events| - 1) * 5_242_880, total) else from)
    ensures total > 0 && |events| > 1 && AreAcks(events[1..|events| - 1]) && events[|events| - 1].Answered? ==>
              var from := if Reported(events[0]).Some? then Reported(events[0]).value else 0;
              var last := events[|events| - 1];
              from + (|events| - 2) * 5_242_880 < total && last.code != 202 ==>
                c.mode.Done? && IsOutcome(last.code, c.mode.outcome)
    ensures total == 0 && |events| == 1 ==>
              c.mode.Done? && if events[0].Answered? then IsOutcome(events[0].code, c.mode.outcome)
                              else c.mode.outcome == PushError
  {
    SessionsEnd(total, events);
    hide AreAcks, IsOutcome, HasComeTo, Reported;
    var i := 0;
    if events == [] {
      return Start(total);
    }
    FollowNext(total, events, 0);
    if total == 0 {
      c := Client(Done(if events[0].Answered? then OutcomeFor(events[0].code) else PushError), 0, 0);
      DoneStays(total, events, 1);
      if events[0].Answered? {
        RefusalEnds(total, [], events[0]);
        assert events[..1] == [] + [events[0]];
      }
      return;
    }
    var offset: nat := 0;
    if events[0].Answered? && events[0].code == 200 && events[0].offset.Some? {
      offset := events[0].offset.value;
    }
    i := 1;
    var attempts: nat := 0;
    while offset < total
      invariant 1 <= i <= |events|
      invariant Follow(total, events[..i]) == Loop(total, offset, attempts)
      decreases |events| - i
    {
      if i == |events| {
        assert events[..i] == events;
        return Client(Sending, offset, attempts);
      }
      var e := events[i];
      FollowNext(total, events, i);
      i := i + 1;
      if e.Answered? {
        if e.code != 202 {
          c := Client(Done(OutcomeFor(e.code)), offset, attempts);
          DoneStays(total, events, i);
          return;
        }
        offset := ChunkEnd(total, offset);
        attempts := 0;
      } else {
        attempts := attempts + 1;
        if attempts > 3 {
          c := Client(Done(PushError), offset, attempts - 1);
          DoneStays(total, events, i);
          return;
        }
        if i == |events| {
          assert events[..i] == events;
          return Client(Asking, offset, attempts);
        }
        FollowNext(total, events, i);
        if events[i].Answered? && events[i].code == 200 && events[i].offset.Some? {
          offset := events[i].offset.value;
        }
        i := i + 1;
      }
    }
    DoneStays(total, events, i);
    c := Client(Done(PushAccepted), offset, attempts);
  }

  /** A session that is only acknowledged comes as far as there were chunks; its first other answer ends it. */
  lemma SessionsEnd(total: nat, events: seq<Event>)
    ensures total > 0 && events != [] && AreAcks(events[1..]) ==>
              var from := if Reported(events[0]).Some? then Reported(events[0]).value else 0;
              HasComeTo(total, Follow(total, events),
                        if from < total then Least(from + (|events| - 1) * 5_242_880, total) else from)
    ensures total > 0 && |events| > 1 && AreAcks(events[1..|events| - 1]) && events[|events| - 1].Answered? ==>
              var from := if Reported(events[0]).Some? then Reported(events[0]).value else 0;
              var last := events[|events| - 1];
              var c := Follow(total, events);
              from + (|events| - 2) * 5_242_880 < total && last.code != 202 ==>
                c.mode.Done? && IsOutcome(last.code, c.mode.outcome)
  {
    if total > 0 && events != [] {
      if AreAcks(events[1..]) {
        AckedSession(total, events);
      }
      var n := |events| - 1;
      if n > 0 && AreAcks(events[1..n]) && events[n].Answered? && events[n].code != 202 {
        assert events[..n][1..] == events[1..n];
        AckedSession(total, events[..n]);
        if Follow(total, events[..n]).mode == Sending {
          RefusalEnds(total, events[..n], events[n]);
          assert events == events[..n] + [events[n]];
        }
      }
    }
  }

  lemma AckedSession(total: nat, events: seq<Event>)
    requires total > 0 && events != [] && AreAcks(events[1..])
    ensures var from := if Reported(events[0]).Some? then Reported(events[0]).value else 0;
            HasComeTo(total, Follow(total, events),
                      if from < total then Least(from + (|events| - 1) * 5_242_880, total) else from)
  {
    hide Follow, AreAcks, Reported, Hears;
    var (e, acks) := (events[0], events[1..]);
    GreetingMoves(total, e);
    if Follow(total, [e]).mode == Sending {
      AckedMoves(total, [e], acks);
      assert [e] + acks == events;
    } else {
      assert events[..1] == [e];
      DoneStays(total, events, 1);
    }
  }

  lemma GreetingMoves(total: nat, e: Event)
    requires total > 0
    ensures HasComeTo(total, Follow(total, [e]), if Reported(e).Some? then Reported(e).value else 0)
  {
    QueryMoves(total, [], e);
    assert [] + [e] == [e];
  }

  // ----- the network and the hub -----

  /** The push under way: its target, content and headers. */
  datatype Task = Task(sha: string, payload: Bytes, base: Option<string>, retention: nat)

  datatype Message = Message(request: Request, base: Option<string>, retention: nat)

  /** Everything ever sent may be delivered at any time, any number of times or never. `waiting` is the
      place in `sent` of the request the client is waiting on. */
  datatype World = World(repo: Repo, client: Client, sent: seq<Message>, replies: set<(nat, Reply)>, waiting: nat)

  datatype Move =
    | Deliver(i: nat, now: int)
    | Receive(reply: Reply)
    | Break
    | Interfere(message: Message)
    | Background(step: Step)

  /** The chunks of a payload that a client may send. */
  predicate IsRequestFor(payload: Bytes, q: Request) {
    match q
    case Query => true
    case Put(start, end) => if payload == [] then start == 0 && end == 0 else start < end <= |payload|
  }

  function ChunkFor(payload: Bytes, start: nat, end: nat): Chunk
    requires IsRequestFor(payload, Put(start, end))
  {
    if payload == [] then Chunk(0, 0, 0, []) else Chunk(start, end - 1, |payload|, payload[start..end])
  }

  function Serve(config: Config, sha: string, payload: Bytes, r: Repo, m: Message, now: int): (Repo, Reply)
    requires IsRequestFor(payload, m.request)
  {
    match m.request
    case Query => (r, HandleHead(r, sha))
    case Put(start, end) => HandlePut(config, r, sha, m.base, m.retention, ChunkFor(payload, start, end), now)
  }

  /** A partial upload is a prefix of the payload. */
  ghost predicate IsPrefix(r: Repo, sha: string, payload: Bytes) {
    sha in r.partials ==> r.partials[sha] <= payload
  }

  /** The partial upload is all of a payload, so that the hub reports its end as the offset. */
  ghost predicate IsWhole(r: Repo, sha: string, payload: Bytes) {
    payload != [] && IsSafe(sha) && sha in r.partials && r.partials[sha] == payload
  }

  /** Whatever was queued for the commit is the payload. */
  ghost predicate IsExact(r: Repo, sha: string, payload: Bytes) {
    forall j :: j in r.arrived && j.sha == sha ==> r.arrived[j] == payload
  }

  ghost predicate WasQueued(r: Repo, sha: string, payload: Bytes, retention: nat) {
    exists j :: j in r.arrived && j.sha == sha && j.retention == retention && r.arrived[j] == payload
  }

  /** What any handler does to the files of a commit: the upload stays, goes or starts afresh. */
  ghost predicate KeepsOrDrops(r: Repo, s: Repo, sha: string) {
    && s.arrived == r.arrived
    && (sha in s.partials ==> sha in r.partials && s.partials[sha] == r.partials[sha])
  }

  lemma BeginDrops(config: Config, r: Repo, sha: string, base: Option<string>, now: int)
    ensures KeepsOrDrops(r, BeginUpload(config, r, sha, base, now).0, sha)
  {
    hide IsSafe, CheckUpload, ReserveUpload, RateLimiter.Take, ExpireUploads, ExpiredUploads;
  }

  /** A chunk of the payload leaves the upload a prefix of it, ending where the chunk ends. */
  lemma ChunkExtends(config: Config, r: Repo, sha: string, payload: Bytes, start: nat, end: nat)
    requires IsPrefix(r, sha, payload) && IsRequestFor(payload, Put(start, end))
    ensures var spooled := SpoolChunk(config, r, sha, start, ChunkFor(payload, start, end).body);
            spooled.Some? ==> sha in spooled.value.partials && spooled.value.partials[sha] == payload[..end]
                              && spooled.value.arrived == r.arrived && IsSafe(sha)
  {
    hide IsSafe;
    if start != 0 && sha in r.partials && |r.partials[sha]| == start {
      assert r.partials[sha] == payload[..start];
      assert payload[..start] + payload[start..end] == payload[..end];
    }
  }

  /** Completing an upload that is all there either queues exactly it or drops it. */
  lemma CompleteQueues(config: Config, r: Repo, sha: string, base: Option<string>, retention: nat, now: int)
    requires IsSafe(sha) && sha in r.partials
    ensures var (s, answer) := PushComplete(config, r, sha, base, retention, now);
            && sha !in s.partials
            && (answer == Decided(Accepted) ==>
                  s.arrived == r.arrived[Job(r.head.nextSeq, sha, retention) := r.partials[sha]])
            && (answer != Decided(Accepted) ==> s.arrived == r.arrived)
            && (answer == Decided(Accepted) ==> Job(r.head.nextSeq, sha, retention) in s.spool)
            && s.lost == r.lost
  {
    hide IsSafe;
  }

  /** What one delivered chunk does, whatever came before it. */
  ghost predicate ChunkServed(r: Repo, s: Repo, reply: Reply, sha: string, payload: Bytes, end: nat, retention: nat) {
    && IsPrefix(s, sha, payload) && IsExact(s, sha, payload)
    && r.arrived.Keys <= s.arrived.Keys
    && (IsWhole(s, sha, payload) ==> IsWhole(r, sha, payload))
    && (reply.Status? ==> reply.code !in {200, 201, 204})
    && (reply.Status? && reply.code == 202 && end == |payload| ==> WasQueued(s, sha, payload, retention))
  }

  lemma SpoolServes(config: Config, r: Repo, sha: string, payload: Bytes, base: Option<string>, retention: nat,
                    start: nat, end: nat, now: int)
    requires IsPrefix(r, sha, payload) && IsExact(r, sha, payload) && IsRequestFor(payload, Put(start, end))
    ensures var (s, reply) := SpoolAndFinish(config, r, sha, base, retention, ChunkFor(payload, start, end), now);
            ChunkServed(r, s, reply, sha, payload, end, retention)
  {
    hide IsSafe, SpoolChunk, PushComplete;
    var c := ChunkFor(payload, start, end);
    ChunkExtends(config, r, sha, payload, start, end);
    var spooled := SpoolChunk(config, r, sha, c.start, c.body);
    hide SpoolChunk;
    if spooled.Some? && end == |payload| {
      assert payload[..end] == payload;
      CompleteQueues(config, spooled.value, sha, base, retention, now);
      var s := PushComplete(config, spooled.value, sha, base, retention, now).0;
      assert Job(spooled.value.head.nextSeq, sha, retention).sha == sha;
    }
  }

  lemma PutServes(config: Config, r: Repo, sha: string, payload: Bytes, base: Option<string>, retention: nat,
                  start: nat, end: nat, now: int)
    requires IsPrefix(r, sha, payload) && IsExact(r, sha, payload) && IsRequestFor(payload, Put(start, end))
    ensures var (s, reply) := HandlePut(config, r, sha, base, retention, ChunkFor(payload, start, end), now);
            ChunkServed(r, s, reply, sha, payload, end, retention)
  {
    hide IsSafe, SpoolAndFinish, BeginUpload, IsValidRange;
    var c := ChunkFor(payload, start, end);
    BeginDrops(config, r, sha, base, now);
    var begun := if c.start == 0 then BeginUpload(config, r, sha, base, now).0 else r;
    SpoolServes(config, begun, sha, payload, base, retention, start, end, now);
  }

  /** What a request with this chunk does for whoever sends it as part of a payload. */
  ghost predicate IsServed(r: Repo, s: Repo, reply: Reply, sha: string, c: Chunk, retention: nat) {
    forall payload: Bytes, end: nat {:trigger ChunkServed(r, s, reply, sha, payload, end, retention)} ::
      && IsPrefix(r, sha, payload) && IsExact(r, sha, payload)
      && IsRequestFor(payload, Put(c.start, end)) && c == ChunkFor(payload, c.start, end) ==>
        ChunkServed(r, s, reply, sha, payload, end, retention)
  }

  lemma PutIsServed(config: Config, r: Repo, sha: string, base: Option<string>, retention: nat, c: Chunk, now: int)
    ensures var (s, reply) := HandlePut(config, r, sha, base, retention, c, now);
            IsServed(r, s, reply, sha, c, retention)
  {
    hide HandlePut, ChunkServed, IsPrefix, IsExact;
    var (s, reply) := HandlePut(config, r, sha, base, retention, c, now);
    forall payload: Bytes, end: nat | IsPrefix(r, sha, payload) && IsExact(r, sha, payload)
        && IsRequestFor(payload, Put(c.start, end)) && c == ChunkFor(payload, c.start, end)
      ensures ChunkServed(r, s, reply, sha, payload, end, retention)
    {
      PutServes(config, r, sha, payload, base, retention, c.start, end, now);
    }
  }

  // ----- runs of the whole system -----

  ghost predicate CanMove(u: Task, w: World, move: Move) {
    match move
    case Deliver(i, _) => i < |w.sent| && IsRequestFor(u.payload, w.sent[i].request)
    case Receive(reply) => !w.client.mode.Done? && reply.Status? && (w.waiting, reply) in w.replies
    case Break => !w.client.mode.Done?
    case Interfere(message) => IsRequestFor(u.payload, message.request)
    case Background(step) => Enabled(w.repo, step) && IsElsewhere(u.sha, step)
  }

  /** Other threads of the registry: the worker, expiry, abandoned uploads and other commits. */
  predicate IsElsewhere(sha: string, step: Step) {
    (step.Write? ==> step.sha != sha) && (step.Rename? ==> step.job.sha != sha)
  }

  function Proceed(u: Task, w: World, client: Client): World {
    if client.mode.Done? then w.(client := client) else
    w.(client := client, waiting := |w.sent|,
       sent := w.sent + [Message(Pending(|u.payload|, client), u.base, u.retention)])
  }

  function Moved(config: Config, u: Task, w: World, move: Move): World
    requires CanMove(u, w, move)
  {
    match move
    case Deliver(i, now) =>
      var (repo, reply) := Serve(config, u.sha, u.payload, w.repo, w.sent[i], now);
      w.(repo := repo, replies := w.replies + {(i, reply)})
    case Receive(reply) => Proceed(u, w, Hears(|u.payload|, w.client, Answered(reply.code, reply.offset)))
    case Break => Proceed(u, w, Hears(|u.payload|, w.client, Broken))
    case Interfere(message) => w.(sent := w.sent + [message])
    case Background(step) => w.(repo := Apply(config, w.repo, step))
  }

  ghost predicate Unfolds(config: Config, u: Task, w: World, moves: seq<Move>)
    decreases |moves|
  {
    moves == [] || (CanMove(u, w, moves[0]) && Unfolds(config, u, Moved(config, u, w, moves[0]), moves[1..]))
  }

  ghost function Ending(config: Config, u: Task, w: World, moves: seq<Move>): World
    requires Unfolds(config, u, w, moves)
    decreases |moves|
  {
    if moves == [] then w else Ending(config, u, Moved(config, u, w, moves[0]), moves[1..])
  }

  /** The world as the client sends its first request. */
  function Launch(u: Task, r: Repo): World {
    World(r, Start(|u.payload|), [Message(Pending(|u.payload|, Start(|u.payload|)), u.base, u.retention)], {}, 0)
  }

  // ----- what every run keeps -----

  /** The whole payload lies in the partial upload and was not queued: an upload cut off between its last
      chunk and its completion, which a registry opened later finds as it was. */
  ghost predicate IsTrap(u: Task, r: Repo) {
    IsWhole(r, u.sha, u.payload) && !WasQueued(r, u.sha, u.payload, u.retention)
  }

  /** What the registry keeps; `sound` when it did not start in the trap. */
  ghost predicate RepoOk(u: Task, sound: bool, r: Repo) {
    IsPrefix(r, u.sha, u.payload) && IsExact(r, u.sha, u.payload) && (sound ==> !IsTrap(u, r))
  }

  ghost predicate ReplyOk(u: Task, sound: bool, r: Repo, m: Message, reply: Reply) {
    match m.request
    case Query =>
      sound && reply.Status? && reply.code == 200 && reply.offset.Some? ==>
        reply.offset.value < |u.payload| || WasQueued(r, u.sha, u.payload, u.retention)
    case Put(_, end) =>
      && (reply.Status? ==> reply.code !in {200, 201, 204})
      && (reply.Status? && reply.code == 202 && end == |u.payload| ==> WasQueued(r, u.sha, u.payload, m.retention))
  }

  ghost predicate SentOk(u: Task, sound: bool, w: World) {
    && (forall i :: 0 <= i < |w.sent| ==> IsRequestFor(u.payload, w.sent[i].request))
    && (forall i, reply :: (i, reply) in w.replies ==> i < |w.sent| && ReplyOk(u, sound, w.repo, w.sent[i], reply))
  }

  ghost predicate ClientOk(u: Task, sound: bool, w: World) {
    match w.client.mode
    case Done(outcome) =>
      && outcome != PushPublished
      && (sound && outcome == PushAccepted ==> WasQueued(w.repo, u.sha, u.payload, u.retention))
    case _ =>
      && (if u.payload == [] then w.client == Start(0) else w.client.offset < |u.payload|)
      && w.waiting < |w.sent|
      && w.sent[w.waiting] == Message(Pending(|u.payload|, w.client), u.base, u.retention)
  }

  lemma QueuedStays(u: Task, r: Repo, s: Repo, retention: nat)
    requires IsExact(s, u.sha, u.payload) && r.arrived.Keys <= s.arrived.Keys
    requires WasQueued(r, u.sha, u.payload, retention)
    ensures WasQueued(s, u.sha, u.payload, retention)
  {
    var j :| j in r.arrived && j.sha == u.sha && j.retention == retention && r.arrived[j] == u.payload;
    assert j in s.arrived;
  }

  /** Nothing but the start leads into the trap. */
  lemma TrapStaysAway(u: Task, r: Repo, s: Repo)
    requires IsExact(s, u.sha, u.payload) && r.arrived.Keys <= s.arrived.Keys && !IsTrap(u, r)
    requires IsWhole(s, u.sha, u.payload) ==> IsWhole(r, u.sha, u.payload)
    ensures !IsTrap(u, s)
  {
    if WasQueued(r, u.sha, u.payload, u.retention) {
      QueuedStays(u, r, s, u.retention);
    }
  }

  lemma DeliverServes(config: Config, u: Task, sound: bool, w: World, i: nat, now: int)
    requires RepoOk(u, sound, w.repo) && CanMove(u, w, Deliver(i, now))
    ensures var w' := Moved(config, u, w, Deliver(i, now));
            && RepoOk(u, sound, w'.repo) && w.repo.arrived.Keys <= w'.repo.arrived.Keys
            && exists reply :: w'.replies == w.replies + {(i, reply)} && ReplyOk(u, sound, w'.repo, w.sent[i], reply)
  {
    hide HandlePut, IsSafe;
    var m := w.sent[i];
    var (repo, reply) := Serve(config, u.sha, u.payload, w.repo, m, now);
    if m.request.Put? {
      PutServes(config, w.repo, u.sha, u.payload, m.base, m.retention, m.request.start, m.request.end, now);
      if sound {
        TrapStaysAway(u, w.repo, repo);
      }
    }
    assert ReplyOk(u, sound, repo, m, reply);
  }

  /** What was promised about earlier replies and the client stays true as the registry goes on. */
  lemma PromisesStay(u: Task, sound: bool, w: World, s: Repo)
    requires RepoOk(u, sound, s) && w.repo.arrived.Keys <= s.arrived.Keys && SentOk(u, sound, w)
    requires ClientOk(u, sound, w)
    ensures SentOk(u, sound, w.(repo := s)) && ClientOk(u, sound, w.(repo := s))
  {
    hide IsPrefix, IsExact, IsTrap, WasQueued;
    forall retention | WasQueued(w.repo, u.sha, u.payload, retention)
      ensures WasQueued(s, u.sha, u.payload, retention)
    {
      QueuedStays(u, w.repo, s, retention);
    }
  }

  lemma BackgroundKeeps(config: Config, u: Task, sound: bool, r: Repo, step: Step)
    requires RepoOk(u, sound, r) && Enabled(r, step) && IsElsewhere(u.sha, step)
    ensures RepoOk(u, sound, Apply(config, r, step)) && r.arrived.Keys <= Apply(config, r, step).arrived.Keys
  {
    BackgroundDrops(config, u, r, step);
    if sound {
      TrapStaysAway(u, r, Apply(config, r, step));
    }
  }

  lemma BackgroundDrops(config: Config, u: Task, r: Repo, step: Step)
    requires IsPrefix(r, u.sha, u.payload) && IsExact(r, u.sha, u.payload) && Enabled(r, step)
    requires IsElsewhere(u.sha, step)
    ensures var s := Apply(config, r, step);
            && IsPrefix(s, u.sha, u.payload) && IsExact(s, u.sha, u.payload) && r.arrived.Keys <= s.arrived.Keys
            && (IsWhole(s, u.sha, u.payload) ==> IsWhole(r, u.sha, u.payload))
  {
    hide IsSafe, Commits, IsListing;
  }

  lemma ClientProceeds(u: Task, sound: bool, w: World, e: Event)
    requires SentOk(u, sound, w) && ClientOk(u, sound, w) && !w.client.mode.Done?
    requires e.Answered? ==> (w.waiting, Status(e.code, e.offset)) in w.replies
    ensures var w' := Proceed(u, w, Hears(|u.payload|, w.client, e)); SentOk(u, sound, w') && ClientOk(u, sound, w')
  {
    hide WasQueued;
    if e.Answered? {
      assert ReplyOk(u, sound, w.repo, w.sent[w.waiting], Status(e.code, e.offset));
    }
  }

  lemma MoveKeeps(config: Config, u: Task, sound: bool, w: World, move: Move)
    requires RepoOk(u, sound, w.repo) && SentOk(u, sound, w) && ClientOk(u, sound, w) && CanMove(u, w, move)
    ensures var w' := Moved(config, u, w, move);
            RepoOk(u, sound, w'.repo) && SentOk(u, sound, w') && ClientOk(u, sound, w')
  {
    hide RepoOk, ReplyOk, WasQueued, Serve, Apply, Enabled, Hears;
    match move
    case Deliver(i, now) =>
      DeliverServes(config, u, sound, w, i, now);
      PromisesStay(u, sound, w, Moved(config, u, w, move).repo);
    case Receive(reply) => ClientProceeds(u, sound, w, Answered(reply.code, reply.offset));
    case Break => ClientProceeds(u, sound, w, Broken);
    case Interfere(_) =>
    case Background(step) =>
      BackgroundKeeps(config, u, sound, w.repo, step);
      PromisesStay(u, sound, w, Apply(config, w.repo, step));
  }

  lemma {:induction false} RunKeepsUpload(config: Config, u: Task, sound: bool, w: World, moves: seq<Move>)
    requires RepoOk(u, sound, w.repo) && SentOk(u, sound, w) && ClientOk(u, sound, w) && Unfolds(config, u, w, moves)
    ensures var w' := Ending(config, u, w, moves);
            RepoOk(u, sound, w'.repo) && SentOk(u, sound, w') && ClientOk(u, sound, w')
    decreases |moves|
  {
    hide RepoOk, SentOk, ClientOk, CanMove, Moved;
    if moves != [] {
      MoveKeeps(config, u, sound, w, moves[0]);
      RunKeepsUpload(config, u, sound, Moved(config, u, w, moves[0]), moves[1..]);
    }
  }

  /** Whatever the network and the other threads do, the partial upload stays a prefix of the payload and
      every job queued for the commit holds exactly the payload. */
  lemma UploadIsExact(config: Config, u: Task, r: Repo, moves: seq<Move>)
    requires IsPrefix(r, u.sha, u.payload) && IsExact(r, u.sha, u.payload) && Unfolds(config, u, Launch(u, r), moves)
    ensures var w := Ending(config, u, Launch(u, r), moves);
            && (u.sha in w.repo.partials ==> w.repo.partials[u.sha] <= u.payload)
            && (forall j :: j in w.repo.arrived && j.sha == u.sha ==> w.repo.arrived[j] == u.payload)
            && w.client.mode != Done(PushPublished)
  {
    hide CanMove, Moved;
    RunKeepsUpload(config, u, false, Launch(u, r), moves);
  }

  // ----- a leftover of another payload -----

  /** No chunk of the payload fits onto the partial upload unless it is a prefix. */
  ghost predicate IsSettled(config: Config, r: Repo, sha: string, payload: Bytes) {
    IsSafe(sha) && sha in r.partials && |r.partials[sha]| < |payload| <= config.maxBytes ==> r.partials[sha] <= payload
  }

  lemma SpoolSettles(config: Config, r: Repo, sha: string, payload: Bytes, base: Option<string>, retention: nat,
                     start: nat, end: nat, now: int)
    requires IsSettled(config, r, sha, payload) && IsExact(r, sha, payload) && IsRequestFor(payload, Put(start, end))
    requires |payload| <= config.maxBytes
    ensures var s := SpoolAndFinish(config, r, sha, base, retention, ChunkFor(payload, start, end), now).0;
            IsSettled(config, s, sha, payload) && IsExact(s, sha, payload)
  {
    hide IsSafe, PushComplete;
    var c := ChunkFor(payload, start, end);
    var spooled := SpoolChunk(config, r, sha, c.start, c.body);
    if spooled.Some? {
      SettledExtends(config, r, sha, payload, start, end);
      hide SpoolChunk, IsRequestFor;
      if end == |payload| {
        assert payload[..end] == payload;
        CompleteQueues(config, spooled.value, sha, base, retention, now);
      }
    }
  }

  lemma SettledExtends(config: Config, r: Repo, sha: string, payload: Bytes, start: nat, end: nat)
    requires IsSettled(config, r, sha, payload) && IsRequestFor(payload, Put(start, end))
    requires |payload| <= config.maxBytes
    ensures var spooled := SpoolChunk(config, r, sha, start, ChunkFor(payload, start, end).body);
            spooled.Some? ==> sha in spooled.value.partials && spooled.value.partials[sha] == payload[..end]
                              && spooled.value.arrived == r.arrived && IsSafe(sha) && end <= |payload|
  {
    hide IsSafe;
    var clean := if start == 0 then r.(partials := r.partials - {sha}) else r;
    if SpoolChunk(config, r, sha, start, ChunkFor(payload, start, end).body).Some? {
      ChunkExtends(config, clean, sha, payload, start, end);
    }
  }

  lemma PutSettles(config: Config, r: Repo, sha: string, payload: Bytes, base: Option<string>, retention: nat,
                   start: nat, end: nat, now: int)
    requires IsSettled(config, r, sha, payload) && IsExact(r, sha, payload) && IsRequestFor(payload, Put(start, end))
    ensures var s := HandlePut(config, r, sha, base, retention, ChunkFor(payload, start, end), now).0;
            IsSettled(config, s, sha, payload) && IsExact(s, sha, payload)
  {
    hide IsSafe, SpoolAndFinish, BeginUpload, IsValidRange;
    var c := ChunkFor(payload, start, end);
    BeginDrops(config, r, sha, base, now);
    if c.total <= config.maxBytes {
      var begun := if c.start == 0 then BeginUpload(config, r, sha, base, now).0 else r;
      SpoolSettles(config, begun, sha, payload, base, retention, start, end, now);
    }
  }

  lemma BackgroundSettles(config: Config, u: Task, r: Repo, step: Step)
    requires IsSettled(config, r, u.sha, u.payload) && IsExact(r, u.sha, u.payload)
    requires Enabled(r, step) && IsElsewhere(u.sha, step)
    ensures var s := Apply(config, r, step); IsSettled(config, s, u.sha, u.payload) && IsExact(s, u.sha, u.payload)
  {
    hide IsSafe, Commits, IsListing;
  }

  lemma {:induction false} RunSettles(config: Config, u: Task, w: World, moves: seq<Move>)
    requires IsSettled(config, w.repo, u.sha, u.payload) && IsExact(w.repo, u.sha, u.payload)
    requires Unfolds(config, u, w, moves)
    ensures IsExact(Ending(config, u, w, moves).repo, u.sha, u.payload)
    decreases |moves|
  {
    if moves != [] {
      MoveSettles(config, u, w, moves[0]);
      hide CanMove, Moved, IsSettled, IsExact;
      RunSettles(config, u, Moved(config, u, w, moves[0]), moves[1..]);
    }
  }

  lemma MoveSettles(config: Config, u: Task, w: World, move: Move)
    requires IsSettled(config, w.repo, u.sha, u.payload) && IsExact(w.repo, u.sha, u.payload) && CanMove(u, w, move)
    ensures var s := Moved(config, u, w, move).repo;
            IsSettled(config, s, u.sha, u.payload) && IsExact(s, u.sha, u.payload)
  {
    hide HandlePut, HandleHead, Apply, Enabled, Hears, IsSettled, IsExact;
    match move
    case Deliver(i, now) =>
      var m := w.sent[i];
      if m.request.Put? {
        PutSettles(config, w.repo, u.sha, u.payload, m.base, m.retention, m.request.start, m.request.end, now);
      }
    case Background(step) => BackgroundSettles(config, u, w.repo, step);
    case _ =>
  }

  /** Completing an upload with room in the queue, no base and a token to be had. */
  lemma CompleteAccepts(config: Config, r: Repo, sha: string, retention: nat, now: int)
    requires IsSafe(sha) && sha in r.partials && r.head.pending < config.maxDepth && config.maxRate >= 1
    requires now - r.rate.start >= RateLimiter.WINDOW
    ensures PushComplete(config, r, sha, None, retention, now).1 == Decided(Accepted)
  {
    hide IsSafe, ApplyRename;
  }

  /** The chunk that follows on a leftover is put behind it, whatever the leftover is. */
  lemma MixedUpload(config: Config, u: Task, r: Repo) returns (moves: seq<Move>)
    requires !IsSettled(config, r, u.sha, u.payload) && r.head.pending < config.maxDepth && config.maxRate >= 1
    ensures Unfolds(config, u, Launch(u, r), moves)
    ensures !IsExact(Ending(config, u, Launch(u, r), moves).repo, u.sha, u.payload)
  {
    hide IsSafe;
    var n, total, now := |r.partials[u.sha]|, |u.payload|, r.rate.start + RateLimiter.WINDOW;
    var w := Launch(u, r);
    var sender := Interfere(Message(Put(n, total), None, 0));
    var c := ChunkFor(u.payload, n, total);
    var mixed := r.partials[u.sha] + u.payload[n..];
    var spooled := r.(partials := r.partials[u.sha := mixed]);
    assert u.payload[n..total] == u.payload[n..];
    assert SpoolChunk(config, r, u.sha, n, c.body) == Some(spooled);
    CompleteAccepts(config, spooled, u.sha, 0, now);
    CompleteQueues(config, spooled, u.sha, None, 0, now);
    hide PushComplete, SpoolChunk;
    var s := HandlePut(config, r, u.sha, None, 0, c, now).0;
    assert s.arrived[Job(r.head.nextSeq, u.sha, 0)] == mixed;
    assert mixed != u.payload by {
      assert mixed[..n] == r.partials[u.sha];
    }
    moves := [sender, Deliver(1, now)];
    UnfoldTwo(config, u, w, sender, Deliver(1, now));
  }

  ghost predicate EndsExact(config: Config, u: Task, r: Repo, moves: seq<Move>) {
    Unfolds(config, u, Launch(u, r), moves) ==>
      IsExact(Ending(config, u, Launch(u, r), moves).repo, u.sha, u.payload)
  }

  /** On a hub that takes pushes and has room, every run queues exactly the payload if and only if it was so
      before and no chunk fits onto a leftover of something else. */
  lemma ExactIff(config: Config, u: Task, r: Repo)
    requires r.head.pending < config.maxDepth && config.maxRate >= 1
    ensures (forall moves :: EndsExact(config, u, r, moves))
            <==> IsExact(r, u.sha, u.payload) && IsSettled(config, r, u.sha, u.payload)
  {
    hide CanMove, Moved, IsSettled, IsExact;
    var w := Launch(u, r);
    if !IsExact(r, u.sha, u.payload) {
      assert Unfolds(config, u, w, []) && Ending(config, u, w, []) == w;
      assert !EndsExact(config, u, r, []);
    } else if !IsSettled(config, r, u.sha, u.payload) {
      var moves := MixedUpload(config, u, r);
      assert !EndsExact(config, u, r, moves);
    } else {
      forall moves ensures EndsExact(config, u, r, moves) {
        if Unfolds(config, u, w, moves) {
          RunSettles(config, u, w, moves);
        }
      }
    }
  }

  // ----- what the client is told -----

  /** The client was told "accepted" and nothing of its push was queued. */
  ghost predicate Misreports(config: Config, u: Task, r: Repo, moves: seq<Move>) {
    && Unfolds(config, u, Launch(u, r), moves)
    && var w := Ending(config, u, Launch(u, r), moves);
       w.client.mode == Done(PushAccepted) && !WasQueued(w.repo, u.sha, u.payload, u.retention)
  }

  /** From the trap an offset query alone ends the push. */
  lemma TrapMisreports(config: Config, u: Task, r: Repo)
    requires IsTrap(u, r)
    ensures Misreports(config, u, r, [Deliver(0, 0), Receive(Status(200, Some(|u.payload|)))])
  {
    hide IsSafe, WasQueued, HandlePut;
    var w0 := Launch(u, r);
    var reply := Status(200, Some(|u.payload|));
    assert HandleHead(r, u.sha) == reply;
    var w1 := Moved(config, u, w0, Deliver(0, 0));
    assert w1 == w0.(replies := {(0, reply)});
    var w2 := Moved(config, u, w1, Receive(reply));
    assert w2.client.mode == Done(PushAccepted) && w2.repo == r;
    UnfoldTwo(config, u, w0, Deliver(0, 0), Receive(reply));
  }

  lemma UnfoldTwo(config: Config, u: Task, w: World, a: Move, b: Move)
    requires CanMove(u, w, a) && CanMove(u, Moved(config, u, w, a), b)
    ensures Unfolds(config, u, w, [a, b]) && Ending(config, u, w, [a, b]) == Moved(config, u, Moved(config, u, w, a), b)
  {
    hide CanMove, Moved;
    var w1 := Moved(config, u, w, a);
    assert [a, b][1..] == [b] && [b][1..] == [];
    assert Unfolds(config, u, w1, [b]) && Ending(config, u, w1, [b]) == Moved(config, u, w1, b);
  }

  /** "Accepted" means queued, in every run, exactly when the push does not start in the trap. */
  lemma AcceptedMeansQueued(config: Config, u: Task, r: Repo)
    requires IsPrefix(r, u.sha, u.payload) && IsExact(r, u.sha, u.payload)
    ensures (forall moves :: !Misreports(config, u, r, moves)) <==> !IsTrap(u, r)
  {
    hide CanMove, Moved, IsSafe;
    if IsTrap(u, r) {
      TrapMisreports(config, u, r);
    } else {
      forall moves ensures !Misreports(config, u, r, moves) {
        if Unfolds(config, u, Launch(u, r), moves) {
          RunKeepsUpload(config, u, true, Launch(u, r), moves);
        }
      }
    }
  }

  /** A registry opened on such a leftover: the push of one byte is reported accepted, and nothing is queued. */
  lemma TrapExample(config: Config)
    ensures var r := Empty().(partials := map["a" := [1]]); var u := Task("a", [1], None, 1);
            IsOpened(r) && IsTrap(u, r) && Misreports(config, u, r, [Deliver(0, 0), Receive(Status(200, Some(1)))])
  {
    var r := Empty().(partials := map["a" := [1]]);
    var u := Task("a", [1], None, 1);
    assert IsSafe("a");
    assert IsOpened(r) && IsTrap(u, r);
    hide *;
    TrapMisreports(config, u, r);
  }

  // ----- a push that nothing comes between -----

  ghost predicate HasTokens(config: Config, r: Repo, times: seq<int>) {
    forall i :: 0 <= i < |times| ==> RateLimiter.HasToken(r.rate, config.maxRate, times[i])
  }

  /** The hub has the payload up to `offset`, and nothing stands against the rest: there is room, a token
      whenever one may be asked for, and the push builds on the head. */
  ghost predicate IsWelcome(config: Config, u: Task, r: Repo, offset: nat, times: seq<int>) {
    && IsSafe(u.sha) && |u.payload| <= config.maxBytes && !BuildsElsewhere(r.head.sha, u.base)
    && (offset > 0 ==> offset < |u.payload| && u.sha in r.partials && r.partials[u.sha] == u.payload[..offset])
    && r.head.pending + (if offset == 0 then |r.head.reservations| else 0) < config.maxDepth
    && (HasTokens(config, r, times) || (offset > 0 && u.sha in r.head.reservations))
  }

  /** The push is accepted, queued with its payload, and the head. */
  ghost predicate IsThrough(u: Task, r: Repo, s: Repo) {
    var job := Job(r.head.nextSeq, u.sha, u.retention);
    && s.accepted == r.accepted + [Push(job, u.base)] && s.head.sha == Some(u.sha)
    && job in s.spool && s.spool[job] == u.payload && WasQueued(s, u.sha, u.payload, u.retention)
  }

  /** A welcome chunk is answered with 202. The last ends the push; any other leaves the rest welcome. */
  lemma ChunkSucceeds(config: Config, u: Task, r: Repo, offset: nat, times: seq<int>)
    requires IsWelcome(config, u, r, offset, times) && times != []
    requires IsRequestFor(u.payload, Put(offset, ChunkEnd(|u.payload|, offset)))
    ensures var end := ChunkEnd(|u.payload|, offset);
            var c := ChunkFor(u.payload, offset, end);
            var (s, reply) := HandlePut(config, r, u.sha, u.base, u.retention, c, times[0]);
            && reply == Status(202, None)
            && if end == |u.payload| then IsThrough(u, r, s)
               else && IsWelcome(config, u, s, end, times[1..])
                    && s.accepted == r.accepted && s.head.nextSeq == r.head.nextSeq
  {
    var end := ChunkEnd(|u.payload|, offset);
    var c, now := ChunkFor(u.payload, offset, end), times[0];
    hide HandlePut, IsAnswered, IsDone, IsWelcome, IsThrough, Fits, Stored;
    PutAnswers(config, r, u.sha, u.base, u.retention, c, now);
    var (s, reply) := HandlePut(config, r, u.sha, u.base, u.retention, c, now);
    WelcomeIsAnswered(config, u, r, offset, times, reply);
    if end == |u.payload| {
      WelcomeEnds(config, u, r, s, offset, times[0]);
    } else {
      WelcomeOn(config, u, r, s, offset, times);
    }
  }

  lemma WelcomeEnds(config: Config, u: Task, r: Repo, s: Repo, offset: nat, now: int)
    requires IsRequestFor(u.payload, Put(offset, |u.payload|))
    requires var c := ChunkFor(u.payload, offset, |u.payload|);
             && Stored(r, u.sha, c) + c.body == u.payload[..|u.payload|]
             && IsDone(config, r, s, u.sha, u.base, u.retention, c, now, Status(202, None))
    ensures IsThrough(u, r, s)
  {
    ChunkIsPart(u.payload, offset, |u.payload|);
    hide IsPart, RateLimiter.Take, RateLimiter.HasToken, BuildsElsewhere, IsSafe, Stored, Live;
    assert u.payload[..|u.payload|] == u.payload;
    assert Job(r.head.nextSeq, u.sha, u.retention) in s.arrived;
  }

  lemma WelcomeIsAnswered(config: Config, u: Task, r: Repo, offset: nat, times: seq<int>, reply: Reply)
    requires IsWelcome(config, u, r, offset, times) && times != []
    requires IsRequestFor(u.payload, Put(offset, ChunkEnd(|u.payload|, offset)))
    requires var c := ChunkFor(u.payload, offset, ChunkEnd(|u.payload|, offset));
             IsAnswered(config, r, u.sha, u.base, c, times[0], reply)
    ensures var c := ChunkFor(u.payload, offset, ChunkEnd(|u.payload|, offset));
            && reply == Status(202, None) && Fits(config, r, u.sha, c)
            && Stored(r, u.sha, c) + c.body == u.payload[..ChunkEnd(|u.payload|, offset)]
  {
    var end := ChunkEnd(|u.payload|, offset);
    var c := ChunkFor(u.payload, offset, end);
    ChunkIsPart(u.payload, offset, end);
    SomeExpire(r, c, times[0]);
    hide IsSafe, RateLimiter.HasToken, BuildsElsewhere, IsPart, Live;
    assert offset > 0 ==> u.payload[..offset] + c.body == u.payload[..end];
    assert offset == 0 ==> [] + c.body == u.payload[..end];
  }

  /** A chunk stored leaves the rest welcome. */
  lemma WelcomeOn(config: Config, u: Task, r: Repo, s: Repo, offset: nat, times: seq<int>)
    requires IsWelcome(config, u, r, offset, times) && times != []
    requires IsRequestFor(u.payload, Put(offset, ChunkEnd(|u.payload|, offset)))
    requires ChunkEnd(|u.payload|, offset) < |u.payload|
    requires var c := ChunkFor(u.payload, offset, ChunkEnd(|u.payload|, offset));
             && Stored(r, u.sha, c) + c.body == u.payload[..ChunkEnd(|u.payload|, offset)]
             && IsDone(config, r, s, u.sha, u.base, u.retention, c, times[0], Status(202, None))
    ensures IsWelcome(config, u, s, ChunkEnd(|u.payload|, offset), times[1..])
    ensures s.accepted == r.accepted && s.head.nextSeq == r.head.nextSeq
  {
    var end := ChunkEnd(|u.payload|, offset);
    var c := ChunkFor(u.payload, offset, end);
    ChunkIsPart(u.payload, offset, end);
    hide IsSafe, RateLimiter.HasToken, RateLimiter.Take, BuildsElsewhere, IsPart, Stored, IsTaken;
  }

  lemma ChunkIsPart(payload: Bytes, start: nat, end: nat)
    requires IsRequestFor(payload, Put(start, end))
    ensures var c := ChunkFor(payload, start, end);
            && IsPart(c) && c.start == start && c.total == |payload| && (Hub.IsLast(c) <==> end == |payload|)
            && c.body == payload[start..end]
  {
    assert IsPartOf(ChunkFor(payload, start, end), payload);
  }

  /** Nothing is lost: each request is delivered once, in turn and at its time, and its answer received. */
  ghost predicate IsLossless(moves: seq<Move>, first: nat, times: seq<int>)
    decreases |times|
  {
    if times == [] then moves == []
    else
      && |moves| >= 2 && moves[0] == Deliver(first, times[0]) && moves[1].Receive?
      && IsLossless(moves[2..], first + 1, times[1..])
  }

  /** The client waits on a request that was never delivered. */
  ghost predicate IsWaiting(u: Task, w: World) {
    && !w.client.mode.Done? && |w.sent| == w.waiting + 1
    && w.sent[w.waiting] == Message(Pending(|u.payload|, w.client), u.base, u.retention)
    && IsRequestFor(u.payload, w.sent[w.waiting].request)
    && (forall i, reply :: (i, reply) in w.replies ==> i < w.waiting)
  }

  /** One request and its answer; there is no other answer to receive. */
  lemma Exchange(config: Config, u: Task, w: World, now: int, x: Reply)
    requires IsWaiting(u, w)
    ensures CanMove(u, w, Deliver(w.waiting, now))
    ensures var (s, reply) := Serve(config, u.sha, u.payload, w.repo, w.sent[w.waiting], now);
            var w' := Moved(config, u, w, Deliver(w.waiting, now));
            && (CanMove(u, w', Receive(x)) <==> x == reply && reply.Status?)
            && (x == reply && reply.Status? ==>
                  Moved(config, u, w', Receive(x))
                  == Proceed(u, w'.(repo := s), Hears(|u.payload|, w.client, Answered(reply.code, reply.offset))))
            && w' == w.(repo := s, replies := w.replies + {(w.waiting, reply)})
  {
    hide HandlePut, HandleHead, Hears;
  }

  /** The next two moves of a run without loss. */
  lemma LosslessNext(config: Config, u: Task, w: World, moves: seq<Move>, times: seq<int>)
    requires IsWaiting(u, w) && IsLossless(moves, w.waiting, times) && times != [] && Unfolds(config, u, w, moves)
    ensures var (s, reply) := Serve(config, u.sha, u.payload, w.repo, w.sent[w.waiting], times[0]);
            && reply.Status?
            && var w' := Proceed(u, w.(repo := s, replies := w.replies + {(w.waiting, reply)}),
                                 Hears(|u.payload|, w.client, Answered(reply.code, reply.offset)));
               && Unfolds(config, u, w', moves[2..]) && Ending(config, u, w', moves[2..]) == Ending(config, u, w, moves)
               && IsLossless(moves[2..], w.waiting + 1, times[1..])
  {
    hide CanMove, Moved, Serve, Proceed, Hears;
    TwoMoves(config, u, w, moves);
    Exchange(config, u, w, times[0], moves[1].reply);
  }

  lemma TwoMoves(config: Config, u: Task, w: World, moves: seq<Move>)
    requires |moves| >= 2 && Unfolds(config, u, w, moves)
    ensures CanMove(u, w, moves[0]) && CanMove(u, Moved(config, u, w, moves[0]), moves[1])
    ensures var w' := Moved(config, u, Moved(config, u, w, moves[0]), moves[1]);
            Unfolds(config, u, w', moves[2..]) && Ending(config, u, w', moves[2..]) == Ending(config, u, w, moves)
  {
    hide CanMove, Moved;
    assert moves[1..][1..] == moves[2..];
    assert Unfolds(config, u, Moved(config, u, w, moves[0]), moves[1..]);
  }

  /** The session from a chunk on: as many exchanges as there are chunks left end it. */
  ghost predicate InSession(config: Config, u: Task, w: World, times: seq<int>) {
    && IsWaiting(u, w) && w.client == Client(Sending, w.client.offset, 0) && times != []
    && IsWelcome(config, u, w.repo, w.client.offset, times)
    && (if u.payload == [] then |times| == 1
        else (|times| - 1) * 5_242_880 < |u.payload| - w.client.offset <= |times| * 5_242_880)
  }

  /** A chunk, answered with 202: the session goes on after it, or is over. */
  lemma SessionNext(config: Config, u: Task, w: World, times: seq<int>)
    requires InSession(config, u, w, times)
    ensures var (s, reply) := Serve(config, u.sha, u.payload, w.repo, w.sent[w.waiting], times[0]);
            var w' := Proceed(u, w.(repo := s, replies := w.replies + {(w.waiting, reply)}),
                              Hears(|u.payload|, w.client, Answered(reply.code, reply.offset)));
            && reply.Status?
            && if |times| == 1 then w'.client.mode == Done(PushAccepted) && IsThrough(u, w.repo, w'.repo)
               else
                 && InSession(config, u, w', times[1..]) && w'.waiting == w.waiting + 1
                 && w'.repo.accepted == w.repo.accepted && w'.repo.head.nextSeq == w.repo.head.nextSeq
  {
    hide HandlePut, IsWelcome, IsThrough;
    ChunkSucceeds(config, u, w.repo, w.client.offset, times);
    assert ChunkEnd(|u.payload|, w.client.offset) == |u.payload| <==> |times| == 1;
  }

  lemma {:induction false} SessionSucceeds(config: Config, u: Task, w: World, times: seq<int>, moves: seq<Move>)
    requires InSession(config, u, w, times) && IsLossless(moves, w.waiting, times) && Unfolds(config, u, w, moves)
    ensures var end := Ending(config, u, w, moves);
            end.client.mode == Done(PushAccepted) && IsThrough(u, w.repo, end.repo)
    decreases |times|
  {
    assert IsWaiting(u, w);
    LosslessNext(config, u, w, moves, times);
    SessionNext(config, u, w, times);
    hide InSession, IsThrough, CanMove, Moved, Serve, Hears, IsWaiting;
    var (s, reply) := Serve(config, u.sha, u.payload, w.repo, w.sent[w.waiting], times[0]);
    var w' := Proceed(u, w.(repo := s, replies := w.replies + {(w.waiting, reply)}),
                      Hears(|u.payload|, w.client, Answered(reply.code, reply.offset)));
    hide Proceed;
    if |times| == 1 {
      assert moves[2..] == [];
    } else {
      SessionSucceeds(config, u, w', times[1..], moves[2..]);
      ThroughFrom(u, w.repo, w'.repo, Ending(config, u, w', moves[2..]).repo);
    }
  }

  lemma ThroughFrom(u: Task, r: Repo, s: Repo, t: Repo)
    requires IsThrough(u, s, t) && s.accepted == r.accepted && s.head.nextSeq == r.head.nextSeq
    ensures IsThrough(u, r, t)
  {
    hide WasQueued;
  }

  /** How much of the payload the hub has already. */
  ghost function Kept(u: Task, r: Repo): nat {
    if u.sha in r.partials then |r.partials[u.sha]| else 0
  }

  /** A push without loss takes an offset query and as many chunks as the hub does not have yet. If the push
      is welcome, every such run ends with "accepted", the payload queued and the push the head. */
  lemma PushSucceeds(config: Config, u: Task, r: Repo, times: seq<int>, moves: seq<Move>)
    requires IsPrefix(r, u.sha, u.payload) && !IsWhole(r, u.sha, u.payload) && IsSafe(u.sha)
    requires |u.payload| <= config.maxBytes && !BuildsElsewhere(r.head.sha, u.base)
    requires r.head.pending + |r.head.reservations| < config.maxDepth && HasTokens(config, r, times)
    requires if u.payload == [] then |times| == 1
             else (|times| - 2) * 5_242_880 < |u.payload| - Kept(u, r) <= (|times| - 1) * 5_242_880
    requires IsLossless(moves, 0, times) && Unfolds(config, u, Launch(u, r), moves)
    ensures var end := Ending(config, u, Launch(u, r), moves);
            end.client.mode == Done(PushAccepted) && IsThrough(u, r, end.repo)
  {
    hide IsSafe, CanMove, Moved, BuildsElsewhere, IsThrough;
    var w := Launch(u, r);
    if u.payload == [] {
      SessionSucceeds(config, u, w, times, moves);
    } else {
      LosslessNext(config, u, w, moves, times);
      var w' := Greeted(config, u, r, times);
      SessionSucceeds(config, u, w', times[1..], moves[2..]);
    }
  }

  /** After the offset query the session begins where the hub's copy ends. */
  lemma Greeted(config: Config, u: Task, r: Repo, times: seq<int>) returns (w': World)
    requires IsPrefix(r, u.sha, u.payload) && !IsWhole(r, u.sha, u.payload) && IsSafe(u.sha) && u.payload != []
    requires |u.payload| <= config.maxBytes && !BuildsElsewhere(r.head.sha, u.base)
    requires r.head.pending + |r.head.reservations| < config.maxDepth && HasTokens(config, r, times)
    requires (|times| - 2) * 5_242_880 < |u.payload| - Kept(u, r) <= (|times| - 1) * 5_242_880
    ensures var w := Launch(u, r); var (s, reply) := Serve(config, u.sha, u.payload, r, w.sent[w.waiting], times[0]);
            && IsWaiting(u, w) && reply.Status?
            && w' == Proceed(u, w.(repo := s, replies := w.replies + {(w.waiting, reply)}),
                             Hears(|u.payload|, w.client, Answered(reply.code, reply.offset)))
            && w'.repo == r && w'.waiting == 1 && InSession(config, u, w', times[1..])
  {
    hide IsSafe, HandlePut, BuildsElsewhere, RateLimiter.HasToken;
    var w := Launch(u, r);
    var (s, reply) := Serve(config, u.sha, u.payload, r, w.sent[w.waiting], times[0]);
    w' := Proceed(u, w.(repo := s, replies := w.replies + {(w.waiting, reply)}),
                  Hears(|u.payload|, w.client, Answered(reply.code, reply.offset)));
  }

  lemma MovesFirst(config: Config, u: Task, w: World, a: Move, b: Move, rest: seq<Move>)
    requires CanMove(u, w, a) && CanMove(u, Moved(config, u, w, a), b)
    requires Unfolds(config, u, Moved(config, u, Moved(config, u, w, a), b), rest)
    ensures Unfolds(config, u, w, [a, b] + rest)
  {
    hide CanMove, Moved;
    var moves := [a, b] + rest;
    assert moves[1..] == [b] + rest && ([b] + rest)[1..] == rest;
    assert Unfolds(config, u, Moved(config, u, w, a), [b] + rest);
  }

  /** An exchange, and the moves after it. */
  lemma LosslessMore(config: Config, u: Task, w: World, times: seq<int>, rest: seq<Move>) returns (moves: seq<Move>)
    requires IsWaiting(u, w) && times != [] && IsLossless(rest, w.waiting + 1, times[1..])
    requires var (s, reply) := Serve(config, u.sha, u.payload, w.repo, w.sent[w.waiting], times[0]);
             && reply.Status?
             && Unfolds(config, u, Proceed(u, w.(repo := s, replies := w.replies + {(w.waiting, reply)}),
                                           Hears(|u.payload|, w.client, Answered(reply.code, reply.offset))), rest)
    ensures IsLossless(moves, w.waiting, times) && Unfolds(config, u, w, moves)
  {
    var reply := Serve(config, u.sha, u.payload, w.repo, w.sent[w.waiting], times[0]).1;
    hide CanMove, Moved, Serve, Proceed, Hears, IsWaiting;
    Exchange(config, u, w, times[0], reply);
    MovesFirst(config, u, w, Deliver(w.waiting, times[0]), Receive(reply), rest);
    moves := [Deliver(w.waiting, times[0]), Receive(reply)] + rest;
    assert moves[2..] == rest;
  }

  lemma {:induction false} SessionRuns(config: Config, u: Task, w: World, times: seq<int>) returns (moves: seq<Move>)
    requires InSession(config, u, w, times)
    ensures IsLossless(moves, w.waiting, times) && Unfolds(config, u, w, moves)
    decreases |times|
  {
    assert IsWaiting(u, w);
    SessionNext(config, u, w, times);
    hide InSession, IsThrough, CanMove, Moved, Serve, Hears, IsWaiting;
    var (s, reply) := Serve(config, u.sha, u.payload, w.repo, w.sent[w.waiting], times[0]);
    var rest := [];
    if |times| > 1 {
      var w' := Proceed(u, w.(repo := s, replies := w.replies + {(w.waiting, reply)}),
                        Hears(|u.payload|, w.client, Answered(reply.code, reply.offset)));
      rest := SessionRuns(config, u, w', times[1..]);
    }
    moves := LosslessMore(config, u, w, times, rest);
  }

  /** There is such a run. */
  lemma PushRuns(config: Config, u: Task, r: Repo, times: seq<int>) returns (moves: seq<Move>)
    requires IsPrefix(r, u.sha, u.payload) && !IsWhole(r, u.sha, u.payload) && IsSafe(u.sha)
    requires |u.payload| <= config.maxBytes && !BuildsElsewhere(r.head.sha, u.base)
    requires r.head.pending + |r.head.reservations| < config.maxDepth && HasTokens(config, r, times)
    requires if u.payload == [] then |times| == 1
             else (|times| - 2) * 5_242_880 < |u.payload| - Kept(u, r) <= (|times| - 1) * 5_242_880
    ensures IsLossless(moves, 0, times) && Unfolds(config, u, Launch(u, r), moves)
    ensures var end := Ending(config, u, Launch(u, r), moves);
            end.client.mode == Done(PushAccepted) && IsThrough(u, r, end.repo)
  {
    hide IsSafe, CanMove, Moved, BuildsElsewhere, IsThrough;
    var w := Launch(u, r);
    if u.payload == [] {
      moves := SessionRuns(config, u, w, times);
    } else {
      var w' := Greeted(config, u, r, times);
      var rest := SessionRuns(config, u, w', times[1..]);
      moves := LosslessMore(config, u, w, times, rest);
    }
    PushSucceeds(config, u, r, times, moves);
  }
}
