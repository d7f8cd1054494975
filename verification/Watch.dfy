/** The file watcher: `watch::run` debounces events into batches, and `run_watch_loop` accumulates what
    changed until a reindex of it succeeds. */
module Watch {
  import opened Graph
  import opened Wrappers

  type Path = string

  /** What the channel yields in turn: an event, or a quiet period as long as the debounce time. The end
      of the signals is the disconnection. */
  datatype Signal = Event(path: Path) | Quiet

  datatype TickResult = Reindexed | Deferred | Failed

  /** What became of one batch; nothing to reindex means no tick. */
  datatype Round = Round(window: seq<Path>, tick: Option<TickResult>)

  // ----- windows -----

  /** The events between quiet periods, `open` being those of the window under way. */
  function Windows(signals: seq<Signal>, open: seq<Path>): seq<seq<Path>> {
    if signals == [] then Close(open)
    else match signals[0]
      case Event(p) => Windows(signals[1..], open + [p])
      case Quiet => Close(open) + Windows(signals[1..], [])
  }

  function Close(open: seq<Path>): seq<seq<Path>> {
    if open == [] then [] else [open]
  }

  function Events(signals: seq<Signal>): seq<Path> {
    if signals == [] then []
    else (if signals[0].Event? then [signals[0].path] else []) + Events(signals[1..])
  }

  function Flatten(windows: seq<seq<Path>>): seq<Path> {
    if windows == [] then [] else windows[0] + Flatten(windows[1..])
  }

  lemma {:induction false} FlattenClose(open: seq<Path>, rest: seq<seq<Path>>)
    ensures Flatten(Close(open) + rest) == open + Flatten(rest)
  {
    if open != [] {
      assert (Close(open) + rest)[1..] == rest;
    } else {
      assert Close(open) + rest == rest;
    }
  }

  /** Put end to end, the windows are the events: each event is in exactly one, none is empty. */
  lemma {:induction false} WindowsAreEvents(signals: seq<Signal>, open: seq<Path>)
    ensures Flatten(Windows(signals, open)) == open + Events(signals)
    ensures forall w :: w in Windows(signals, open) ==> w != []
    decreases |signals|
  {
    if signals == [] {
      FlattenClose(open, []);
      assert Close(open) + [] == Close(open);
    } else {
      match signals[0]
      case Event(p) =>
        WindowsAreEvents(signals[1..], open + [p]);
        hide Flatten, Windows, Close;
        assert open + [p] + Events(signals[1..]) == open + ([p] + Events(signals[1..]));
        assert Windows(signals, open) == Windows(signals[1..], open + [p]);
      case Quiet =>
        WindowsAreEvents(signals[1..], []);
        FlattenClose(open, Windows(signals[1..], []));
        hide Flatten;
        assert Events(signals) == [] + Events(signals[1..]);
    }
  }

  ghost predicate AreEvents(signals: seq<Signal>, i: nat, window: seq<Path>) {
    i + |window| <= |signals| && forall k :: 0 <= k < |window| ==> signals[i + k] == Event(window[k])
  }

  /** `window` is a run of events, from `i` up to a quiet period or the end, that follows one or is first. */
  ghost predicate IsRun(signals: seq<Signal>, i: nat, window: seq<Path>) {
    && window != [] && AreEvents(signals, i, window)
    && (i == 0 || signals[i - 1].Quiet?) && (i + |window| == |signals| || signals[i + |window|].Quiet?)
  }

  ghost predicate IsStart(signals: seq<Signal>, i: nat) {
    i < |signals| && signals[i].Event? && (i == 0 || signals[i - 1].Quiet?)
  }

  /** The windows are the runs of events from `from` on, all of them and in order: the first starts at the
      first event, and the others follow it. */
  ghost predicate AreRuns(signals: seq<Signal>, from: nat, windows: seq<seq<Path>>)
    decreases |windows|
  {
    if windows == [] then forall i: nat :: from <= i ==> !IsStart(signals, i)
    else exists i: nat :: from <= i && IsRun(signals, i, windows[0])
                          && (forall k: nat :: from <= k < i ==> !IsStart(signals, k))
                          && AreRuns(signals, i + |windows[0]|, windows[1..])
  }

  /** The windows of signals are the runs of events between quiet periods, all of them and in order. */
  lemma {:induction false} WindowsAreRuns(signals: seq<Signal>)
    ensures AreRuns(signals, 0, Windows(signals, []))
  {
    RunsFrom(signals, 0, [], 0);
    assert signals[0..] == signals;
  }

  lemma {:induction false} RunsFrom(signals: seq<Signal>, start: nat, open: seq<Path>, i: nat)
    requires AreEvents(signals, start, open) && (start == 0 || signals[start - 1].Quiet?)
    requires start + |open| == i <= |signals|
    ensures AreRuns(signals, start, Windows(signals[i..], open))
    decreases |signals| - i
  {
    hide AreRuns, Windows, Close;
    if i == |signals| {
      RunsEnd(signals, start, open);
    } else {
      WindowsStep(signals, i, open);
      match signals[i]
      case Event(p) =>
        EventsNext(signals, start, open, p);
        RunsFrom(signals, start, open + [p], i + 1);
      case Quiet =>
        RunsFrom(signals, i + 1, [], i + 1);
        RunsEarlier(signals, i, Windows(signals[i + 1..], []));
        RunsClose(signals, start, open, Windows(signals[i + 1..], []));
    }
  }

  lemma EventsNext(signals: seq<Signal>, start: nat, open: seq<Path>, p: Path)
    requires AreEvents(signals, start, open)
    requires start + |open| < |signals| && signals[start + |open|] == Event(p)
    ensures AreEvents(signals, start, open + [p])
  {
  }

  lemma RunsEnd(signals: seq<Signal>, start: nat, open: seq<Path>)
    requires AreEvents(signals, start, open) && (start == 0 || signals[start - 1].Quiet?)
    requires start + |open| == |signals|
    ensures AreRuns(signals, start, Windows(signals[|signals|..], open))
  {
    assert Windows(signals[|signals|..], open) == Close(open) + [];
    assert AreRuns(signals, |signals|, []);
    hide Windows, AreEvents, AreRuns, Close;
    RunsClose(signals, start, open, []);
  }

  lemma RunsEarlier(signals: seq<Signal>, i: nat, windows: seq<seq<Path>>)
    requires i < |signals| && signals[i].Quiet? && AreRuns(signals, i + 1, windows)
    ensures AreRuns(signals, i, windows)
  {
    assert !IsStart(signals, i);
    if windows != [] {
      var j: nat :| i + 1 <= j && IsRun(signals, j, windows[0])
                    && (forall k: nat :: i + 1 <= k < j ==> !IsStart(signals, k))
                    && AreRuns(signals, j + |windows[0]|, windows[1..]);
      assert forall k: nat :: i <= k < j ==> !IsStart(signals, k);
    }
  }

  lemma RunsClose(signals: seq<Signal>, start: nat, open: seq<Path>, windows: seq<seq<Path>>)
    requires AreEvents(signals, start, open) && (start == 0 || signals[start - 1].Quiet?)
    requires start + |open| == |signals| || signals[start + |open|].Quiet?
    requires AreRuns(signals, start + |open|, windows)
    ensures AreRuns(signals, start, Close(open) + windows)
  {
    hide AreEvents;
    if open == [] {
      assert Close(open) + windows == windows;
    } else {
      assert IsRun(signals, start, open);
      assert (Close(open) + windows)[0] == open && (Close(open) + windows)[1..] == windows;
    }
  }

  // ----- what is pending -----

  /** The indexable paths among events, relative to the root. */
  ghost function Indexable(relative: Path -> Option<string>, events: seq<Path>): set<string> {
    set p | p in events && relative(p).Some? :: relative(p).value
  }

  lemma IndexableJoin(relative: Path -> Option<string>, a: seq<Path>, b: seq<Path>)
    ensures Indexable(relative, a + b) == Indexable(relative, a) + Indexable(relative, b)
  {
  }

  /** The events since the last successful tick. */
  function SinceSuccess(history: seq<Round>): seq<Path> {
    if history == [] then [] else
    var last := history[|history| - 1];
    if last.tick == Some(Reindexed) then [] else SinceSuccess(history[..|history| - 1]) + last.window
  }

  function WindowsOf(history: seq<Round>): (windows: seq<seq<Path>>)
    ensures |windows| == |history| && forall k :: 0 <= k < |history| ==> windows[k] == history[k].window
  {
    if history == [] then [] else WindowsOf(history[..|history| - 1]) + [history[|history| - 1].window]
  }

  /** The changes that the last round of a history had to deal with. */
  function Facing(history: seq<Round>): seq<Path>
    requires history != []
  {
    SinceSuccess(history[..|history| - 1]) + history[|history| - 1].window
  }

  function TickCount(history: seq<Round>): nat {
    if history == [] then 0 else
    TickCount(history[..|history| - 1]) + (if history[|history| - 1].tick.Some? then 1 else 0)
  }

  /** Each round made a tick exactly when there was something indexable to deal with, and with all of it. */
  ghost predicate IsHistory(relative: Path -> Option<string>, tick: (nat, set<string>) -> TickResult,
                            history: seq<Round>)
  {
    history != [] ==>
      var before, last := history[..|history| - 1], history[|history| - 1];
      var facing := Indexable(relative, Facing(history));
      && IsHistory(relative, tick, before)
      && last.tick == if facing == {} then None else Some(tick(TickCount(before), facing))
  }

  /** Nothing succeeded in round `k` or later. */
  ghost predicate NoSuccessFrom(history: seq<Round>, k: nat) {
    forall i :: k <= i < |history| ==> history[i].tick != Some(Reindexed)
  }

  ghost predicate SeenAndOpen(history: seq<Round>, k: nat, path: Path) {
    k < |history| && path in history[k].window && NoSuccessFrom(history, k)
  }

  /** A change is pending exactly when no tick has succeeded since it was seen: neither a deferral nor an
      error forgets it. */
  lemma {:induction false} PendingIffOpen(history: seq<Round>, path: Path)
    ensures path in SinceSuccess(history) <==> exists k :: SeenAndOpen(history, k, path)
  {
    if history != [] {
      var n := |history| - 1;
      var before, last := history[..n], history[n];
      PendingIffOpen(before, path);
      if last.tick == Some(Reindexed) {
        forall k ensures !SeenAndOpen(history, k, path) {
        }
      } else {
        forall k | 0 <= k < n ensures SeenAndOpen(history, k, path) <==> SeenAndOpen(before, k, path) {
          OpenInBoth(history, k, path);
        }
        assert SeenAndOpen(history, n, path) <==> path in last.window;
      }
    }
  }

  lemma OpenInBoth(history: seq<Round>, k: nat, path: Path)
    requires k < |history| - 1 && history[|history| - 1].tick != Some(Reindexed)
    ensures SeenAndOpen(history, k, path) <==> SeenAndOpen(history[..|history| - 1], k, path)
  {
    var before := history[..|history| - 1];
    if NoSuccessFrom(before, k) {
      forall i | k <= i < |history| ensures history[i].tick != Some(Reindexed) {
        if i < |before| {
          assert before[i] == history[i];
        }
      }
    }
  }

  /** A path is pending exactly when it is that of a change no tick has succeeded since. */
  ghost predicate IsPending(relative: Path -> Option<string>, history: seq<Round>, pending: set<string>) {
    forall rel :: rel in pending <==> exists k, path :: SeenAndOpen(history, k, path) && relative(path) == Some(rel)
  }

  lemma PendingIsOpen(relative: Path -> Option<string>, history: seq<Round>)
    ensures IsPending(relative, history, Indexable(relative, SinceSuccess(history)))
  {
    forall path ensures path in SinceSuccess(history) <==> exists k :: SeenAndOpen(history, k, path) {
      PendingIffOpen(history, path);
    }
    hide SinceSuccess, SeenAndOpen;
  }

  /** The history up to round `k` before it ticks: what is pending in it is what the round deals with. */
  ghost function UpTo(history: seq<Round>, k: nat): seq<Round>
    requires k < |history|
  {
    history[..k] + [Round(history[k].window, None)]
  }

  /** Round `k` ticks exactly when it has an indexable change to deal with, with the paths of all of them,
      as the next tick. */
  ghost predicate IsRound(relative: Path -> Option<string>, tick: (nat, set<string>) -> TickResult,
                          history: seq<Round>, k: nat)
    requires k < |history|
  {
    var made := set i | 0 <= i < k && history[i].tick.Some?;
    exists paths :: IsPending(relative, UpTo(history, k), paths)
                    && history[k].tick == if paths == {} then None else Some(tick(|made|, paths))
  }

  lemma {:induction false} TicksFace(relative: Path -> Option<string>, tick: (nat, set<string>) -> TickResult,
                                     history: seq<Round>, k: nat)
    requires IsHistory(relative, tick, history) && k < |history|
    ensures IsRound(relative, tick, history, k)
  {
    HistoryBefore(relative, tick, history, k + 1);
    assert history[..k + 1][..k] == history[..k] == UpTo(history, k)[..k];
    assert Facing(history[..k + 1]) == SinceSuccess(UpTo(history, k));
    PendingIsOpen(relative, UpTo(history, k));
    TicksBefore(history, k);
    hide SinceSuccess, SeenAndOpen, TickCount, IsPending, Indexable;
  }

  lemma {:induction false} HistoryBefore(relative: Path -> Option<string>, tick: (nat, set<string>) -> TickResult,
                                         history: seq<Round>, k: nat)
    requires IsHistory(relative, tick, history) && k <= |history|
    ensures IsHistory(relative, tick, history[..k])
    decreases |history|
  {
    if k < |history| {
      var before := history[..|history| - 1];
      HistoryBefore(relative, tick, before, k);
      assert before[..k] == history[..k];
    } else {
      assert history[..k] == history;
    }
  }

  lemma {:induction false} TicksBefore(history: seq<Round>, k: nat)
    requires k <= |history|
    ensures TickCount(history[..k]) == |set i | 0 <= i < k && history[i].tick.Some?|
  {
    if k > 0 {
      TicksBefore(history, k - 1);
      assert history[..k][..k - 1] == history[..k - 1];
      CountNext(history, k - 1);
    }
  }

  lemma CountNext(history: seq<Round>, k: nat)
    requires k < |history|
    ensures |set i | 0 <= i < k + 1 && history[i].tick.Some?|
            == |set i | 0 <= i < k && history[i].tick.Some?| + (if history[k].tick.Some? then 1 else 0)
  {
    var fewer := set i | 0 <= i < k && history[i].tick.Some?;
    assert (set i | 0 <= i < k + 1 && history[i].tick.Some?)
        == if history[k].tick.Some? then fewer + {k} else fewer;
  }

  class WatchLoop {
    var pending: set<string>
    var inFlight: set<string>
    var ticks: nat
    ghost var history: seq<Round>

    constructor ()
      ensures pending == {} && inFlight == {} && ticks == 0 && history == []
    {
      pending, inFlight, ticks, history := {}, {}, 0, [];
    }

    method OnEvent(relative: Path -> Option<string>, path: Path)
      modifies this`inFlight
      ensures inFlight == old(inFlight) + Indexable(relative, [path])
    {
      var rel := relative(path);
      if rel.Some? {
        inFlight := inFlight + {rel.value};
      }
    }

    method AddBatch(relative: Path -> Option<string>, batch: set<Path>, ghost window: seq<Path>)
      requires batch == Elems(window)
      modifies this`pending
      ensures pending == old(pending) + Indexable(relative, window)
    {
      var todo := batch;
      while todo != {}
        invariant todo <= batch && old(pending) <= pending <= old(pending) + Indexable(relative, window)
        invariant forall p :: p in window && p !in todo && relative(p).Some? ==> relative(p).value in pending
        decreases todo
      {
        var path := Pick(todo);
        assert path in window;
        var rel := relative(path);
        if rel.Some? {
          pending := pending + {rel.value};
        }
        todo := todo - {path};
      }
    }

    /** The batch of a window joins what is pending. Unless nothing is, a tick is made with all of it;
        only a successful one clears it. */
    method OnBatch(relative: Path -> Option<string>, tick: (nat, set<string>) -> TickResult,
                   batch: set<Path>, ghost window: seq<Path>)
      requires batch == Elems(window)
      requires pending == Indexable(relative, SinceSuccess(history))
      requires IsHistory(relative, tick, history) && ticks == TickCount(history)
      modifies this
      ensures inFlight == {} && pending == Indexable(relative, SinceSuccess(history))
      ensures |history| == |old(history)| + 1 && history[..|old(history)|] == old(history)
      ensures history[|old(history)|].window == window && IsHistory(relative, tick, history)
      ensures ticks == TickCount(history)
    {
      inFlight := {};
      AddBatch(relative, batch, window);
      IndexableJoin(relative, SinceSuccess(history), window);
      NothingIndexable(relative);
      hide Indexable;
      var result: Option<TickResult> := None;
      if pending != {} {
        result := Some(tick(ticks, pending));
        ticks := ticks + 1;
        if result == Some(Reindexed) {
          pending := {};
        }
      }
      history := history + [Round(window, result)];
      assert history[..|history| - 1] == old(history);
    }

    /** Receives one window: the event at `i` and those that follow it without a quiet period. */
    method Debounce(relative: Path -> Option<string>, signals: seq<Signal>, i: nat)
      returns (j: nat, batch: set<Path>, ghost window: seq<Path>)
      requires i < |signals| && signals[i].Event? && inFlight == {}
      modifies this`inFlight
      ensures i < j <= |signals| && batch == Elems(window) && inFlight == Indexable(relative, window)
      ensures window != [] && Windows(signals[i..], []) == [window] + Windows(signals[j..], [])
    {
      batch, window := {signals[i].path}, [signals[i].path];
      OnEvent(relative, signals[i].path);
      WindowsStep(signals, i, []);
      assert [] + [signals[i].path] == window;
      j := i + 1;
      while j < |signals|
        invariant i < j <= |signals| && window != [] && batch == Elems(window)
        invariant inFlight == Indexable(relative, window)
        invariant Windows(signals[i..], []) == Windows(signals[j..], window)
        decreases |signals| - j
      {
        WindowsStep(signals, j, window);
        var next := signals[j];
        j := j + 1;
        if next.Quiet? {
          return;
        }
        OnEvent(relative, next.path);
        IndexableJoin(relative, window, [next.path]);
        batch, window := batch + {next.path}, window + [next.path];
      }
    }

    /** The whole loop. Its rounds are exactly the runs of events between quiet periods, each ticks with what
        it has to deal with, and whatever the ticks said, `pending` is what none has succeeded since. */
    method Run(relative: Path -> Option<string>, tick: (nat, set<string>) -> TickResult, signals: seq<Signal>)
      requires pending == {} && inFlight == {} && ticks == 0 && history == []
      modifies this
      ensures WindowsOf(history) == Windows(signals, []) && IsHistory(relative, tick, history)
      ensures AreRuns(signals, 0, WindowsOf(history))
      ensures forall k :: 0 <= k < |history| ==> IsRound(relative, tick, history, k)
      ensures IsPending(relative, history, pending) && inFlight == {}
    {
      NothingIndexable(relative);
      hide Indexable, Windows, SinceSuccess, Elems;
      var i := 0;
      assert signals[0..] == signals;
      while i < |signals|
        invariant 0 <= i <= |signals|
        invariant pending == Indexable(relative, SinceSuccess(history)) && inFlight == {}
        invariant WindowsOf(history) + Windows(signals[i..], []) == Windows(signals, [])
        invariant IsHistory(relative, tick, history) && ticks == TickCount(history)
        decreases |signals| - i
      {
        if signals[i].Quiet? {
          WindowsStep(signals, i, []);
          i := i + 1;
        } else {
          ghost var before := history;
          var j, batch, window := Debounce(relative, signals, i);
          OnBatch(relative, tick, batch, window);
          assert WindowsOf(history) == WindowsOf(before) + [window];
          i := j;
        }
      }
      NoWindows(signals);
      WindowsAreRuns(signals);
      PendingIsOpen(relative, history);
      forall k | 0 <= k < |history| ensures IsRound(relative, tick, history, k) {
        TicksFace(relative, tick, history, k);
      }
    }
  }

  lemma NothingIndexable(relative: Path -> Option<string>)
    ensures Indexable(relative, []) == {} && SinceSuccess([]) == []
  {
  }

  lemma NoWindows(signals: seq<Signal>)
    ensures Windows(signals[|signals|..], []) == []
  {
  }

  lemma WindowsStep(signals: seq<Signal>, i: nat, open: seq<Path>)
    requires i < |signals|
    ensures Windows(signals[i..], open) == match signals[i]
                                           case Event(p) => Windows(signals[i + 1..], open + [p])
                                           case Quiet => Close(open) + Windows(signals[i + 1..], [])
  {
    assert signals[i..][1..] == signals[i + 1..];
  }
}
