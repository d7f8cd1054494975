/** The fixed-window limiter that the push path takes its tokens from. Times are in nanoseconds. */
module RateLimiter {

  const WINDOW := 60_000_000_000

  datatype RateWindow = RateWindow(start: int, count: int)

  /** What one request at time `now` does: a window at least a minute old is replaced, then a token
      is granted if the window has one left. */
  function Take(w: RateWindow, max: nat, now: int): (RateWindow, bool) {
    var current := if now - w.start >= WINDOW then RateWindow(now, 0) else w;
    if current.count >= max then (current, false) else (current.(count := current.count + 1), true)
  }

  /** A token is to be had: the window is a minute old and there are any, or it has one left. */
  ghost predicate HasToken(w: RateWindow, max: nat, now: int) {
    if now - w.start >= 60_000_000_000 then max >= 1 else w.count < max
  }

  /** Whoever asks gets a token exactly when there is one, and it is counted. */
  lemma TakeGives(w: RateWindow, max: nat, now: int)
    ensures var (w', granted) := Take(w, max, now);
            && (granted <==> HasToken(w, max, now))
            && w'.start == (if now - w.start >= 60_000_000_000 then now else w.start)
            && w'.count == (if now - w.start >= 60_000_000_000 then 0 else w.count) + (if granted then 1 else 0)
  {
  }

  class Limiter {
    var windowStart: int
    var count: int

    constructor (now: int)
      ensures windowStart == now && count == 0
    {
      windowStart, count := now, 0;
    }

    /** The clock is read once, and `later` a second time to date a new window: the request counts at the
        last reading. */
    method TryTake(max: nat, now: int, later: int) returns (granted: bool)
      requires now <= later
      modifies this
      ensures (RateWindow(windowStart, count), granted)
              == Take(old(RateWindow(windowStart, count)), max, if now - old(windowStart) >= WINDOW then later else now)
      ensures granted <==> HasToken(old(RateWindow(windowStart, count)), max, now)
    {
      if now - windowStart >= WINDOW {
        windowStart := later;
        count := 0;
      }
      if count >= max {
        return false;
      }
      count := count + 1;
      granted := true;
    }
  }

  // ----- runs -----

  /** Requests come one after the other, none before the limiter was created. */
  ghost predicate IsTimeline(created: int, times: seq<int>) {
    && (forall i :: 0 <= i < |times| ==> created <= times[i])
    && (forall i, j :: 0 <= i < j < |times| ==> times[i] <= times[j])
  }

  /** The window after the requests at `times`, and when tokens were granted. */
  function Run(created: int, max: nat, times: seq<int>): (RateWindow, seq<int>) {
    if times == [] then (RateWindow(created, 0), []) else
    var now := times[|times| - 1];
    var (w, grants) := Run(created, max, times[..|times| - 1]);
    var (w', granted) := Take(w, max, now);
    (w', if granted then grants + [now] else grants)
  }

  /** How many grants fall in the half-open interval from `lo` to `hi`. */
  function CountIn(grants: seq<int>, lo: int, hi: int): nat {
    if grants == [] then 0 else
    var g := grants[|grants| - 1];
    CountIn(grants[..|grants| - 1], lo, hi) + (if lo <= g < hi then 1 else 0)
  }

  lemma CountNext(grants: seq<int>, g: int, lo: int, hi: int)
    ensures CountIn(grants + [g], lo, hi) == CountIn(grants, lo, hi) + (if lo <= g < hi then 1 else 0)
  {
    assert (grants + [g])[..|grants|] == grants;
  }

  lemma {:induction false} CountSplit(grants: seq<int>, lo: int, mid: int, hi: int)
    requires lo <= mid <= hi
    ensures CountIn(grants, lo, hi) == CountIn(grants, lo, mid) + CountIn(grants, mid, hi)
  {
    if grants != [] {
      CountSplit(grants[..|grants| - 1], lo, mid, hi);
    }
  }

  lemma {:induction false} CountNone(grants: seq<int>, lo: int, hi: int)
    requires forall i :: 0 <= i < |grants| ==> grants[i] < lo || hi <= grants[i]
    ensures CountIn(grants, lo, hi) == 0
  {
    if grants != [] {
      CountNone(grants[..|grants| - 1], lo, hi);
    }
  }

  lemma {:induction false} CountGrows(grants: seq<int>, lo: int, hi: int, lo': int, hi': int)
    requires lo' <= lo && hi <= hi'
    ensures CountIn(grants, lo, hi) <= CountIn(grants, lo', hi')
  {
    if grants != [] {
      CountGrows(grants[..|grants| - 1], lo, hi, lo', hi');
    }
  }

  lemma {:induction false} CountSome(grants: seq<int>, i: nat, lo: int, hi: int)
    requires i < |grants| && lo <= grants[i] < hi
    ensures CountIn(grants, lo, hi) >= 1
  {
    if i < |grants| - 1 {
      CountSome(grants[..|grants| - 1], i, lo, hi);
    }
  }

  /** The tokens of `k` windows. */
  function Budget(k: nat, max: nat): nat {
    k * max
  }

  lemma OneMoreWindow(k: nat, max: nat)
    ensures Budget(k + 1, max) == Budget(k, max) + max && Budget(0, max) == 0 && Budget(1, max) == max
    ensures Budget(2, max) == 2 * max
  {
  }

  ghost predicate GrantedBefore(grants: seq<int>, lo: int) {
    exists i :: 0 <= i < |grants| && grants[i] < lo
  }

  /** The window counts the grants since its start, and none is later than it lasts. */
  ghost predicate Counts(w: RateWindow, max: nat, grants: seq<int>) {
    && (forall i :: 0 <= i < |grants| ==> grants[i] < w.start + WINDOW)
    && CountIn(grants, w.start, w.start + WINDOW) == w.count <= max
  }

  /** A window other than the first starts with a grant. */
  ghost predicate Opens(w: RateWindow, grants: seq<int>) {
    (forall i :: 0 <= i < |grants| ==> grants[i] >= w.start) || exists i :: 0 <= i < |grants| && grants[i] == w.start
  }

  /** Going back `k` minutes from the start of the window there are at most `k` windows of grants. */
  ghost predicate Behind(w: RateWindow, max: nat, grants: seq<int>) {
    forall k: nat, lo {:trigger CountIn(grants, lo, w.start), Budget(k, max)} ::
      w.start - k * WINDOW <= lo <= w.start ==> CountIn(grants, lo, w.start) <= Budget(k, max)
  }

  /** Less than `k + 1` minutes back there is one fewer than `k + 1` windows of them, if any came before. */
  ghost predicate JustBehind(w: RateWindow, max: nat, grants: seq<int>) {
    forall k: nat, lo {:trigger CountIn(grants, lo, w.start), Budget(k, max)} ::
      w.start - k * WINDOW - WINDOW < lo <= w.start && GrantedBefore(grants, lo) ==>
        CountIn(grants, lo, w.start) < Budget(k, max) + max
  }

  /** The bound on any `k` minutes, and on those before which there was a grant. */
  ghost predicate Capped(max: nat, grants: seq<int>) {
    && (forall k: nat, lo, hi {:trigger CountIn(grants, lo, hi), Budget(k, max)} ::
          lo <= hi <= lo + k * WINDOW ==> CountIn(grants, lo, hi) <= Budget(k, max) + max)
    && (forall k: nat, lo, hi {:trigger CountIn(grants, lo, hi), Budget(k, max)} ::
          k > 0 && lo <= hi <= lo + k * WINDOW && GrantedBefore(grants, lo) ==>
            CountIn(grants, lo, hi) < Budget(k, max) + max)
  }

  ghost predicate Limited(w: RateWindow, max: nat, grants: seq<int>) {
    && Counts(w, max, grants) && Opens(w, grants) && Behind(w, max, grants) && JustBehind(w, max, grants)
    && Capped(max, grants)
  }

  lemma StartIsLimited(created: int, max: nat)
    ensures Limited(RateWindow(created, 0), max, [])
  {
  }

  /** Everything from the start of the window on is counted by it. */
  lemma SinceStart(w: RateWindow, max: nat, grants: seq<int>, lo: int, hi: int)
    requires Counts(w, max, grants) && w.start <= lo
    ensures CountIn(grants, lo, hi) <= w.count
  {
    var end := w.start + WINDOW;
    if hi <= end {
      CountGrows(grants, lo, hi, w.start, end);
    } else if lo <= end {
      CountSplit(grants, lo, end, hi);
      CountNone(grants, end, hi);
      CountGrows(grants, lo, end, w.start, end);
    } else {
      CountNone(grants, lo, hi);
    }
  }

  lemma FreshBehind(w: RateWindow, max: nat, grants: seq<int>, now: int)
    requires Counts(w, max, grants) && Behind(w, max, grants) && now - w.start >= WINDOW
    ensures Behind(RateWindow(now, 0), max, grants)
  {
    hide CountIn, Budget;
    forall k: nat, lo | now - k * WINDOW <= lo <= now ensures CountIn(grants, lo, now) <= Budget(k, max) {
      if k == 0 {
        CountNone(grants, lo, now);
      } else {
        OneMoreWindow(k - 1, max);
        SinceStart(w, max, grants, if lo < w.start then w.start else lo, now);
        if lo < w.start {
          CountSplit(grants, lo, w.start, now);
        }
      }
    }
  }

  lemma FreshJustBehind(w: RateWindow, max: nat, grants: seq<int>, now: int)
    requires Counts(w, max, grants) && Opens(w, grants) && JustBehind(w, max, grants) && now - w.start >= WINDOW
    ensures JustBehind(RateWindow(now, 0), max, grants)
  {
    hide CountIn, Budget;
    forall k: nat, lo | now - k * WINDOW - WINDOW < lo <= now && GrantedBefore(grants, lo)
      ensures CountIn(grants, lo, now) < Budget(k, max) + max
    {
      SinceStart(w, max, grants, w.start, now);
      if lo > w.start {
        var i :| 0 <= i < |grants| && w.start <= grants[i] < lo;
        CountSome(grants, i, w.start, lo);
        CountSplit(grants, w.start, lo, now);
      } else {
        OneMoreWindow(k - 1, max);
        CountSplit(grants, lo, w.start, now);
        assert CountIn(grants, lo, w.start) < Budget(k - 1, max) + max;
      }
    }
  }

  /** A grant keeps the bounds, in the window it is taken from. */
  lemma GrantCapped(w: RateWindow, max: nat, grants: seq<int>, now: int)
    requires Counts(w, max, grants) && Behind(w, max, grants) && JustBehind(w, max, grants) && Capped(max, grants)
    requires w.start <= now < w.start + WINDOW && w.count < max
    ensures Capped(max, grants + [now])
  {
    hide CountIn, Budget;
    GrantCappedLater(w, max, grants, now);
    var more := grants + [now];
    forall k: nat, lo, hi | lo <= hi <= lo + k * WINDOW ensures CountIn(more, lo, hi) <= Budget(k, max) + max {
      CountNext(grants, now, lo, hi);
      if lo <= now < hi {
        SinceStart(w, max, grants, if lo < w.start then w.start else lo, hi);
        if lo < w.start {
          CountSplit(grants, lo, w.start, hi);
        }
      }
    }
  }

  lemma GrantCappedLater(w: RateWindow, max: nat, grants: seq<int>, now: int)
    requires Counts(w, max, grants) && JustBehind(w, max, grants) && Capped(max, grants)
    requires w.start <= now < w.start + WINDOW && w.count < max
    ensures forall k: nat, lo, hi {:trigger CountIn(grants + [now], lo, hi), Budget(k, max)} ::
              k > 0 && lo <= hi <= lo + k * WINDOW && GrantedBefore(grants + [now], lo) ==>
                CountIn(grants + [now], lo, hi) < Budget(k, max) + max
  {
    hide CountIn, Budget;
    var more := grants + [now];
    forall k: nat, lo, hi | k > 0 && lo <= hi <= lo + k * WINDOW && GrantedBefore(more, lo)
      ensures CountIn(more, lo, hi) < Budget(k, max) + max
    {
      CountNext(grants, now, lo, hi);
      OneMoreWindow(k - 1, max);
      if lo <= now < hi {
        SinceStart(w, max, grants, if lo < w.start then w.start else lo, hi);
        assert GrantedBefore(grants, lo);
        if lo <= w.start {
          CountSplit(grants, lo, w.start, hi);
          assert CountIn(grants, lo, w.start) < Budget(k - 1, max) + max;
        }
      } else if now < lo {
        SinceStart(w, max, grants, lo, hi);
      }
    }
  }

  lemma GrantKeeps(w: RateWindow, max: nat, grants: seq<int>, now: int)
    requires Counts(w, max, grants) && Behind(w, max, grants) && JustBehind(w, max, grants) && Capped(max, grants)
    requires w.start <= now < w.start + WINDOW && w.count < max && (Opens(w, grants) || now == w.start)
    ensures Limited(w.(count := w.count + 1), max, grants + [now])
  {
    GrantCapped(w, max, grants, now);
    hide CountIn, Budget, Capped;
    var more := grants + [now];
    assert more[|grants|] == now && forall i :: 0 <= i < |grants| ==> more[i] == grants[i];
    forall lo, hi ensures CountIn(more, lo, hi) == CountIn(grants, lo, hi) + (if lo <= now < hi then 1 else 0) {
      CountNext(grants, now, lo, hi);
    }
    forall lo | lo <= w.start && GrantedBefore(more, lo) ensures GrantedBefore(grants, lo) {
    }
  }

  lemma NoneIfZero(max: nat, grants: seq<int>)
    requires Capped(max, grants) && max == 0
    ensures grants == []
  {
    if grants != [] {
      CountSome(grants, 0, grants[0], grants[0] + 1);
      OneMoreWindow(0, 0);
      assert false;
    }
  }

  /** One request, granted or not, in the same window or a new one. */
  lemma TakeKeeps(w: RateWindow, max: nat, grants: seq<int>, now: int)
    requires Limited(w, max, grants) && w.start <= now
    ensures var (w', granted) := Take(w, max, now); Limited(w', max, if granted then grants + [now] else grants)
  {
    hide CountIn, Budget, Capped, Behind, JustBehind;
    var current := if now - w.start >= WINDOW then RateWindow(now, 0) else w;
    if now - w.start >= WINDOW {
      FreshBehind(w, max, grants, now);
      FreshJustBehind(w, max, grants, now);
      CountNone(grants, now, now + WINDOW);
    }
    if current.count < max {
      GrantKeeps(current, max, grants, now);
    } else if now - w.start >= WINDOW {
      NoneIfZero(max, grants);
    }
  }

  /** The bounds on a minute and on a quarter of an hour. */
  lemma LimitedMinutes(w: RateWindow, max: nat, grants: seq<int>, lo: int)
    requires Limited(w, max, grants)
    ensures CountIn(grants, lo, lo + WINDOW) <= 2 * max
    ensures GrantedBefore(grants, lo) ==> CountIn(grants, lo, lo + WINDOW) <= 2 * max - 1
    ensures CountIn(grants, lo, lo + 15 * WINDOW) <= 16 * max
    ensures GrantedBefore(grants, lo) ==> CountIn(grants, lo, lo + 15 * WINDOW) <= 16 * max - 1
  {
    hide CountIn;
    assert CountIn(grants, lo, lo + WINDOW) <= Budget(1, max) + max;
    assert CountIn(grants, lo, lo + 15 * WINDOW) <= Budget(15, max) + max;
  }

  lemma {:induction false} RunIsLimited(created: int, max: nat, times: seq<int>)
    requires IsTimeline(created, times)
    ensures var (w, grants) := Run(created, max, times);
            Limited(w, max, grants) && w.start <= (if times == [] then created else times[|times| - 1])
  {
    hide Limited;
    if times == [] {
      StartIsLimited(created, max);
    } else {
      var before, now := times[..|times| - 1], times[|times| - 1];
      RunIsLimited(created, max, before);
      var (w, grants) := Run(created, max, before);
      TakeKeeps(w, max, grants, now);
    }
  }

  /** No run grants more than `max` tokens since the window it is in began, nor more than twice that
      in any half-open minute, nor more than `k + 1` times that in any `k` minutes. */
  lemma AtMostTwice(created: int, max: nat, times: seq<int>, lo: int, k: nat)
    requires IsTimeline(created, times)
    ensures var (w, grants) := Run(created, max, times);
            && CountIn(grants, w.start, w.start + WINDOW) == w.count <= max
            && CountIn(grants, lo, lo + WINDOW) <= 2 * max
            && CountIn(grants, lo, lo + k * WINDOW) <= k * max + max
  {
    RunIsLimited(created, max, times);
    var (w, grants) := Run(created, max, times);
    OneMoreWindow(0, max);
    assert CountIn(grants, lo, lo + WINDOW) <= Budget(1, max) + max;
    assert CountIn(grants, lo, lo + k * WINDOW) <= Budget(k, max) + max;
  }

  // ----- the bound is tight -----

  function Repeat(t: int, n: nat): seq<int> {
    if n == 0 then [] else Repeat(t, n - 1) + [t]
  }

  lemma {:induction false} RepeatAt(t: int, n: nat)
    ensures |Repeat(t, n)| == n && forall i :: 0 <= i < n ==> Repeat(t, n)[i] == t
  {
    if n > 0 {
      RepeatAt(t, n - 1);
    }
  }

  /** The last nanosecond of the first window and the first of the next. */
  function Burst(created: int, max: nat, second: nat): seq<int> {
    Repeat(created + WINDOW - 1, max) + Repeat(created + WINDOW, second)
  }

  lemma BurstIsTimeline(created: int, max: nat, second: nat)
    ensures IsTimeline(created, Burst(created, max, second))
  {
    RepeatAt(created + WINDOW - 1, max);
    RepeatAt(created + WINDOW, second);
  }

  lemma {:induction false} FirstBurst(created: int, max: nat, n: nat)
    requires n <= max
    ensures Run(created, max, Repeat(created + WINDOW - 1, n))
            == (RateWindow(created, n), Repeat(created + WINDOW - 1, n))
  {
    if n > 0 {
      FirstBurst(created, max, n - 1);
      var times := Repeat(created + WINDOW - 1, n);
      assert times[..|times| - 1] == Repeat(created + WINDOW - 1, n - 1);
    }
  }

  lemma {:induction false} SecondBurst(created: int, max: nat, n: nat)
    requires 1 <= n <= max
    ensures Run(created, max, Burst(created, max, n)) == (RateWindow(created + WINDOW, n), Burst(created, max, n))
  {
    var times := Burst(created, max, n);
    assert times[..|times| - 1] == Burst(created, max, n - 1);
    assert times == Burst(created, max, n - 1) + [created + WINDOW];
    if n == 1 {
      FirstBurst(created, max, max);
      assert Burst(created, max, 0) == Repeat(created + WINDOW - 1, max);
    } else {
      SecondBurst(created, max, n - 1);
    }
  }

  lemma {:induction false} CountAll(grants: seq<int>, lo: int, hi: int)
    requires forall i :: 0 <= i < |grants| ==> lo <= grants[i] < hi
    ensures CountIn(grants, lo, hi) == |grants|
  {
    if grants != [] {
      CountAll(grants[..|grants| - 1], lo, hi);
    }
  }

  /** How many tokens a run grants in the half-open minute from `lo`. */
  function InMinute(created: int, max: nat, times: seq<int>, lo: int): nat {
    CountIn(Run(created, max, times).1, lo, lo + WINDOW)
  }

  /** A cap on what any minute of any run may grant. */
  ghost predicate Caps(max: nat, cap: int) {
    forall created: int, times: seq<int>, lo: int | IsTimeline(created, times)
      :: InMinute(created, max, times, lo) <= cap
  }

  /** The configured rate is described as a cap on a rolling minute. Of the tokens handed out it is one
      only at twice its value, so for the value itself only when that is zero. */
  lemma RollingCap(max: nat, cap: int)
    ensures Caps(max, cap) <==> cap >= 2 * max
  {
    if cap >= 2 * max {
      forall created: int, times: seq<int>, lo: int | IsTimeline(created, times)
        ensures InMinute(created, max, times, lo) <= cap
      {
        AtMostTwice(created, max, times, lo, 1);
      }
    } else {
      var times, lo := Burst(0, max, max), WINDOW - 1;
      BurstIsTimeline(0, max, max);
      BurstTotal(max);
      assert InMinute(0, max, times, lo) > cap;
    }
  }

  lemma BurstTotal(max: nat)
    ensures InMinute(0, max, Burst(0, max, max), WINDOW - 1) == 2 * max
  {
    if max > 0 {
      SecondBurst(0, max, max);
      RepeatAt(WINDOW - 1, max);
      RepeatAt(WINDOW, max);
      CountAll(Burst(0, max, max), WINDOW - 1, WINDOW - 1 + WINDOW);
    }
  }
}
