/**
The two rate limiters of the websocket layer: a token bucket on subscribe messages and a sliding
window per relay key. Clocks do not run backwards.
 */
module Limiters {
  import opened Wrappers

  // ---------------------------------------------------------------------------------------
  // Token bucket
  // ---------------------------------------------------------------------------------------

  /** last is the time of the latest call; a bucket that was never used starts full. */
  datatype Bucket = Bucket(tokens: real, last: Option<real>)

  const EMPTY: Bucket := Bucket(0.0, None)

  /** What trickles into the bucket over a time. */
  function Trickle(elapsed: real, refill: real): (tokens: real) {
    elapsed * refill
  }

  function Refilled(b: Bucket, now: real, burst: real, refill: real): (tokens: real) {
    if b.last.None? then burst
    else
      var grown := b.tokens + Trickle(now - b.last.value, refill);
      if grown > burst then burst else grown
  }

  predicate Admits(b: Bucket, now: real, burst: real, refill: real) {
    Refilled(b, now, burst, refill) >= 1.0
  }

  function AfterCall(b: Bucket, now: real, burst: real, refill: real): (r: Bucket) {
    var tokens := Refilled(b, now, burst, refill);
    Bucket(if tokens < 1.0 then tokens else tokens - 1.0, Some(now))
  }

  class TokenBucket {
    var tokens: real
    var last: Option<real>

    ghost function Contents(): (b: Bucket)
      reads this
    {
      Bucket(tokens, last)
    }

    constructor ()
      ensures Contents() == EMPTY
    {
      tokens, last := 0.0, None;
    }

    /** Consumes one token and reports whether one was available. */
    method Allow(now: real, burst: int, refill: real) returns (ok: bool)
      modifies this
      ensures ok == Admits(old(Contents()), now, burst as real, refill)
      ensures Contents() == AfterCall(old(Contents()), now, burst as real, refill)
    {
      if last.None? {
        tokens := burst as real;
      } else {
        tokens := tokens + Trickle(now - last.value, refill);
        if tokens > burst as real {
          tokens := burst as real;
        }
      }
      last := Some(now);
      if tokens < 1.0 {
        return false;
      }
      tokens := tokens - 1.0;
      return true;
    }
  }

  ghost predicate Monotone(times: seq<real>) {
    forall i, j :: 0 <= i < j < |times| ==> times[i] <= times[j]
  }

  ghost function AfterCalls(times: seq<real>, burst: real, refill: real): (b: Bucket) {
    if times == [] then EMPTY
    else AfterCall(AfterCalls(times[..|times| - 1], burst, refill), times[|times| - 1], burst, refill)
  }

  /** How many of the calls made at times within [s, t] were admitted. */
  ghost function Admitted(times: seq<real>, burst: real, refill: real, s: real, t: real): (n: nat) {
    if times == [] then 0
    else
      var init, now := times[..|times| - 1], times[|times| - 1];
      Admitted(init, burst, refill, s, t)
      + if s <= now <= t && Admits(AfterCalls(init, burst, refill), now, burst, refill) then 1 else 0
  }

  ghost predicate Bounded(b: Bucket, burst: real) {
    b.tokens <= burst && (burst >= 0.0 ==> b.tokens >= 0.0)
  }

  lemma TrickleIsPositive(elapsed: real, refill: real)
    requires elapsed >= 0.0 && refill >= 0.0
    ensures Trickle(elapsed, refill) >= 0.0
  {
  }

  lemma TrickleAddsUp(a: real, b: real, refill: real)
    ensures Trickle(a + b, refill) == Trickle(a, refill) + Trickle(b, refill)
  {
  }

  /** One call on a used bucket: what it admits comes out of what was left and what trickled in. */
  lemma CallSpends(b: Bucket, now: real, burst: real, refill: real)
    requires b.last.Some? && b.last.value <= now && refill >= 0.0 && Bounded(b, burst)
    ensures Bounded(AfterCall(b, now, burst, refill), burst)
    ensures AfterCall(b, now, burst, refill).tokens + (if Admits(b, now, burst, refill) then 1.0 else 0.0)
         <= b.tokens + Trickle(now - b.last.value, refill)
  {
    TrickleIsPositive(now - b.last.value, refill);
  }

  lemma {:induction false} TokensAreBounded(times: seq<real>, burst: real, refill: real)
    requires times != [] && Monotone(times) && refill >= 0.0
    ensures var b := AfterCalls(times, burst, refill);
      Bounded(b, burst) && b.last == Some(times[|times| - 1])
    decreases |times|
  {
    var init := times[..|times| - 1];
    if init != [] {
      TokensAreBounded(init, burst, refill);
      CallSpends(AfterCalls(init, burst, refill), times[|times| - 1], burst, refill);
    }
  }

  lemma {:induction false} NothingBefore(times: seq<real>, burst: real, refill: real, s: real, t: real)
    requires forall i :: 0 <= i < |times| ==> times[i] < s
    ensures Admitted(times, burst, refill, s, t) == 0
  {
    if times != [] {
      NothingBefore(times[..|times| - 1], burst, refill, s, t);
    }
  }

  /** The amortised bound: what was admitted since s plus what is left in the bucket never exceeds
      one burst plus what has trickled in since s. */
  lemma {:induction false} SpentPlusLeft(times: seq<real>, burst: real, refill: real, s: real, t: real)
    requires times != [] && Monotone(times) && refill >= 0.0
    requires s <= times[|times| - 1] <= t
    ensures var b := AfterCalls(times, burst, refill);
      Admitted(times, burst, refill, s, t) as real + b.tokens <= burst + Trickle(times[|times| - 1] - s, refill)
    decreases |times|
  {
    var init, now := times[..|times| - 1], times[|times| - 1];
    var b := AfterCalls(init, burst, refill);
    TrickleIsPositive(now - s, refill);
    if init != [] {
      TokensAreBounded(init, burst, refill);
    }
    if init == [] || init[|init| - 1] < s {
      NothingBefore(init, burst, refill, s, t);
    } else {
      SpentPlusLeft(init, burst, refill, s, t);
      CallSpends(b, now, burst, refill);
      TrickleAddsUp(init[|init| - 1] - s, now - init[|init| - 1], refill);
      assert init[|init| - 1] - s + (now - init[|init| - 1]) == now - s;
    }
  }

  lemma {:induction false} SmallBurstAdmitsNothing(times: seq<real>, burst: real, refill: real, s: real, t: real)
    requires burst < 1.0 && Monotone(times) && refill >= 0.0
    ensures Admitted(times, burst, refill, s, t) == 0
    decreases |times|
  {
    if times != [] {
      SmallBurstAdmitsNothing(times[..|times| - 1], burst, refill, s, t);
    }
  }

  /** In every run and every interval [s, t] the bucket admits at most burst + refill * (t - s)
      calls. */
  lemma {:induction false} BucketBound(times: seq<real>, burst: real, refill: real, s: real, t: real)
    requires Monotone(times) && refill >= 0.0 && s <= t
    ensures Admitted(times, burst, refill, s, t) as real
        <= (if burst < 0.0 then 0.0 else burst) + Trickle(t - s, refill)
    decreases |times|
  {
    TrickleIsPositive(t - s, refill);
    if burst < 1.0 {
      SmallBurstAdmitsNothing(times, burst, refill, s, t);
    } else if times != [] {
      var init, now := times[..|times| - 1], times[|times| - 1];
      if now > t {
        BucketBound(init, burst, refill, s, t);
      } else if now < s {
        NothingBefore(times, burst, refill, s, t);
      } else {
        SpentPlusLeft(times, burst, refill, s, t);
        TokensAreBounded(times, burst, refill);
        TrickleAddsUp(now - s, t - now, refill);
        assert now - s + (t - now) == t - s;
        TrickleIsPositive(t - now, refill);
      }
    }
  }

  // ---------------------------------------------------------------------------------------
  // The other half of the bound
  // ---------------------------------------------------------------------------------------

  /** Nothing was admitted later than the last call. */
  lemma {:induction false} AdmittedUpTo(times: seq<real>, burst: real, refill: real, s: real, t: real, u: real)
    requires t <= u && forall i :: 0 <= i < |times| ==> times[i] <= t
    ensures Admitted(times, burst, refill, s, t) == Admitted(times, burst, refill, s, u)
  {
    if times != [] {
      AdmittedUpTo(times[..|times| - 1], burst, refill, s, t, u);
    }
  }

  /** tokens are no fewer than one burst and what has trickled in since s, less what was admitted since. */
  ghost predicate LeftSince(tokens: real, times: seq<real>, burst: real, refill: real, s: real, now: real) {
    s <= now && tokens >= burst + Trickle(now - s, refill) - Admitted(times, burst, refill, s, now) as real
  }

  /** A bucket that the trickle has not overfilled since s refills without loss. */
  lemma RefillLosesNothing(times: seq<real>, burst: real, refill: real, s: real, now: real)
    requires times != [] && Monotone(times) && refill >= 0.0 && times[|times| - 1] <= now
    requires LeftSince(AfterCalls(times, burst, refill).tokens, times, burst, refill, s, times[|times| - 1])
    ensures var tokens := Refilled(AfterCalls(times, burst, refill), now, burst, refill);
      tokens == burst || LeftSince(tokens, times, burst, refill, s, now)
  {
    var last := times[|times| - 1];
    TokensAreBounded(times, burst, refill);
    AdmittedUpTo(times, burst, refill, s, last, now);
    TrickleAddsUp(last - s, now - last, refill);
    assert last - s + (now - last) == now - s;
  }

  /** One call: from what the refill left to what the call leaves. */
  lemma CallLeaves(init: seq<real>, burst: real, refill: real, s: real, now: real)
    requires LeftSince(Refilled(AfterCalls(init, burst, refill), now, burst, refill), init, burst, refill, s, now)
    ensures LeftSince(AfterCalls(init + [now], burst, refill).tokens, init + [now], burst, refill, s, now)
  {
    assert (init + [now])[..|init|] == init;
  }

  /** A bucket that is full at a call counts from that call. */
  lemma FullCounts(init: seq<real>, burst: real, refill: real, now: real)
    ensures LeftSince(burst, init, burst, refill, now, now)
  {
    assert Trickle(now - now, refill) == 0.0;
  }

  lemma FirstCallCounts(now: real, burst: real, refill: real)
    ensures LeftSince(AfterCalls([now], burst, refill).tokens, [now], burst, refill, now, now)
  {
    FullCounts([], burst, refill, now);
    assert Refilled(AfterCalls([], burst, refill), now, burst, refill) == burst;
    CallLeaves([], burst, refill, now, now);
    assert [] + [now] == [now];
  }

  lemma NextCallCounts(init: seq<real>, burst: real, refill: real, since: real, now: real) returns (s: real)
    requires init != [] && Monotone(init) && refill >= 0.0 && init[|init| - 1] <= now
    requires LeftSince(AfterCalls(init, burst, refill).tokens, init, burst, refill, since, init[|init| - 1])
    ensures LeftSince(AfterCalls(init + [now], burst, refill).tokens, init + [now], burst, refill, s, now)
  {
    RefillLosesNothing(init, burst, refill, since, now);
    FullCounts(init, burst, refill, now);
    s := if Refilled(AfterCalls(init, burst, refill), now, burst, refill) == burst then now else since;
    CallLeaves(init, burst, refill, s, now);
  }

  /** In every run there is a moment, that of a call with a full bucket, since which nothing of the trickle
      was lost. */
  lemma {:induction false} NothingLostSince(times: seq<real>, burst: real, refill: real) returns (s: real)
    requires times != [] && Monotone(times) && refill >= 0.0
    ensures LeftSince(AfterCalls(times, burst, refill).tokens, times, burst, refill, s, times[|times| - 1])
    decreases |times|
  {
    var init, now := times[..|times| - 1], times[|times| - 1];
    assert times == init + [now];
    if init == [] {
      FirstCallCounts(now, burst, refill);
      s := now;
    } else {
      var since := NothingLostSince(init, burst, refill);
      s := NextCallCounts(init, burst, refill, since, now);
    }
  }

  /** One more admission at now stays within burst + refill * (now - s), for the calls since s. */
  ghost predicate FitsSince(times: seq<real>, burst: real, refill: real, s: real, now: real) {
    Admitted(times, burst, refill, s, now) as real + 1.0
      <= (if burst < 0.0 then 0.0 else burst) + Trickle(now - s, refill)
  }

  lemma {:induction false} RefusedIsSpent(times: seq<real>, burst: real, refill: real, now: real) returns (s: real)
    requires Monotone(times + [now]) && refill >= 0.0
    requires !Admits(AfterCalls(times, burst, refill), now, burst, refill)
    ensures s <= now && !FitsSince(times, burst, refill, s, now)
  {
    s := now;
    FullCounts(times, burst, refill, now);
    assert Trickle(now - now, refill) == 0.0;
    if times != [] && burst >= 1.0 {
      assert Monotone(times) by { assert times == (times + [now])[..|times|]; }
      assert times[|times| - 1] <= now by { assert (times + [now])[|times| - 1] <= (times + [now])[|times|]; }
      s := NothingLostSince(times, burst, refill);
      RefillLosesNothing(times, burst, refill, s, now);
    }
  }

  /** The exact behaviour of the bucket, in every run with a monotone clock: a call is admitted if and only
      if with it, for every earlier moment s, no more than burst + refill * (now - s) calls are admitted
      since s. It refuses only what the bound forbids. */
  lemma BucketAdmitsIff(times: seq<real>, burst: real, refill: real, now: real)
    requires Monotone(times + [now]) && refill >= 0.0
    ensures Admits(AfterCalls(times, burst, refill), now, burst, refill) <==>
      forall s :: s <= now ==> FitsSince(times, burst, refill, s, now)
  {
    if Admits(AfterCalls(times, burst, refill), now, burst, refill) {
      forall s | s <= now ensures FitsSince(times, burst, refill, s, now) {
        BucketBound(times + [now], burst, refill, s, now);
        assert (times + [now])[..|times|] == times;
      }
    } else {
      var s := RefusedIsSpent(times, burst, refill, now);
    }
  }

  /** In particular a call that comes at least the refill time of one token after the last one is admitted. */
  lemma PatientCallIsAdmitted(times: seq<real>, burst: real, refill: real, now: real)
    requires times != [] && Monotone(times) && refill > 0.0 && burst >= 1.0
    requires times[|times| - 1] <= now && Trickle(now - times[|times| - 1], refill) >= 1.0
    ensures Admits(AfterCalls(times, burst, refill), now, burst, refill)
  {
    TokensAreBounded(times, burst, refill);
  }

  // ---------------------------------------------------------------------------------------
  // Sliding window
  // ---------------------------------------------------------------------------------------

  /** The times later than a cutoff, in order. */
  ghost function Recent(times: seq<int>, cutoff: int): (r: seq<int>) {
    if times == [] then []
    else if times[|times| - 1] > cutoff then Recent(times[..|times| - 1], cutoff) + [times[|times| - 1]]
    else Recent(times[..|times| - 1], cutoff)
  }

  function Lookup(limits: map<string, seq<int>>, key: string): (r: seq<int>) {
    if key in limits then limits[key] else []
  }

  predicate Unlimited(key: string, maxRate: int) {
    key == "" || maxRate <= 0
  }

  ghost predicate Passes(limits: map<string, seq<int>>, key: string, now: int, maxRate: int, window: int) {
    Unlimited(key, maxRate) || |Recent(Lookup(limits, key), now - window)| < maxRate
  }

  ghost function AfterRequest(limits: map<string, seq<int>>, key: string, now: int, maxRate: int,
                              window: int): (r: map<string, seq<int>>) {
    if Unlimited(key, maxRate) then limits
    else
      var recent := Recent(Lookup(limits, key), now - window);
      limits[key := if |recent| < maxRate then recent + [now] else recent]
  }

  class BridgeRateLimiter {
    var limits: map<string, seq<int>>
    const maxRate: int
    const window: int

    constructor (maxRate: int, window: int)
      ensures limits == map[] && this.maxRate == maxRate && this.window == window
    {
      this.limits := map[];
      this.maxRate := maxRate;
      this.window := window;
    }

    method Allow(key: string, now: int) returns (ok: bool)
      modifies this
      ensures ok <==> Passes(old(limits), key, now, maxRate, window)
      ensures limits == AfterRequest(old(limits), key, now, maxRate, window)
    {
      if key == "" || maxRate <= 0 {
        return true;
      }
      var cutoff := now - window;
      var times := Lookup(limits, key);
      var recent := [];
      var i := 0;
      while i < |times|
        invariant 0 <= i <= |times| && recent == Recent(times[..i], cutoff)
      {
        assert times[..i + 1][..i] == times[..i];
        if times[i] > cutoff {
          recent := recent + [times[i]];
        }
        i := i + 1;
      }
      assert times[..i] == times;
      if |recent| >= maxRate {
        limits := limits[key := recent];
        return false;
      }
      recent := recent + [now];
      limits := limits[key := recent];
      return true;
    }
  }

  datatype Request = Request(key: string, at: int)

  ghost predicate Ordered(run: seq<Request>) {
    forall i, j :: 0 <= i < j < |run| ==> run[i].at <= run[j].at
  }

  ghost function Limits(run: seq<Request>, maxRate: int, window: int): (limits: map<string, seq<int>>) {
    if run == [] then map[]
    else
      var q := run[|run| - 1];
      AfterRequest(Limits(run[..|run| - 1], maxRate, window), q.key, q.at, maxRate, window)
  }

  /** The times of every admitted request of a key, nothing forgotten. */
  ghost function AdmittedTimes(run: seq<Request>, key: string, maxRate: int, window: int): (times: seq<int>) {
    if run == [] then []
    else
      var init, q := run[..|run| - 1], run[|run| - 1];
      if q.key == key && Passes(Limits(init, maxRate, window), key, q.at, maxRate, window)
      then AdmittedTimes(init, key, maxRate, window) + [q.at]
      else AdmittedTimes(init, key, maxRate, window)
  }

  lemma {:induction false} RecentSplits(a: seq<int>, b: seq<int>, cutoff: int)
    ensures Recent(a + b, cutoff) == Recent(a, cutoff) + Recent(b, cutoff)
    decreases |b|
  {
    if b == [] {
      assert a + b == a;
    } else {
      RecentSplits(a, b[..|b| - 1], cutoff);
      assert (a + b)[..|a + b| - 1] == a + b[..|b| - 1];
    }
  }

  lemma RecentOne(t: int, cutoff: int)
    ensures Recent([t], cutoff) == if t > cutoff then [t] else []
  {
    assert [t][..0] == [];
  }

  lemma {:induction false} RecentTwice(times: seq<int>, early: int, late: int)
    requires early <= late
    ensures Recent(Recent(times, early), late) == Recent(times, late)
    ensures |Recent(times, late)| <= |Recent(times, early)|
  {
    if times != [] {
      var init, t := times[..|times| - 1], times[|times| - 1];
      RecentTwice(init, early, late);
      RecentSplits(Recent(init, early), [t], late);
      RecentOne(t, late);
    }
  }

  lemma PruneStep(kept: seq<int>, full: seq<int>, early: int, late: int, at: int)
    requires early <= late && Recent(kept, late) == Recent(full, late)
    ensures Recent(Recent(kept, early) + [at], late) == Recent(full + [at], late)
    ensures Recent(Recent(kept, early), late) == Recent(full, late)
  {
    RecentTwice(kept, early, late);
    RecentSplits(Recent(kept, early), [at], late);
    RecentSplits(full, [at], late);
  }

  lemma LookupAfter(limits: map<string, seq<int>>, q: Request, key: string, maxRate: int, window: int)
    requires !Unlimited(key, maxRate)
    ensures Lookup(AfterRequest(limits, q.key, q.at, maxRate, window), key)
         == if q.key != key then Lookup(limits, key)
            else if Passes(limits, key, q.at, maxRate, window) then Recent(Lookup(limits, key), q.at - window) + [q.at]
            else Recent(Lookup(limits, key), q.at - window)
  {
  }

  /** One request keeps a pruned list as good as the full one, at any later time now. */
  lemma RequestPrunes(limits: map<string, seq<int>>, full: seq<int>, q: Request, key: string, maxRate: int,
                      window: int, now: int)
    requires !Unlimited(key, maxRate) && q.at <= now
    requires Recent(Lookup(limits, key), now - window) == Recent(full, now - window)
    ensures Recent(Lookup(AfterRequest(limits, q.key, q.at, maxRate, window), key), now - window)
         == if q.key == key && Passes(limits, key, q.at, maxRate, window) then Recent(full + [q.at], now - window)
            else Recent(full, now - window)
  {
    LookupAfter(limits, q, key, maxRate, window);
    PruneStep(Lookup(limits, key), full, q.at - window, now - window, q.at);
  }

  /** The pruned list is as good as the full one: for any time not before the last request, both
      hold the same recent admissions. */
  lemma {:induction false} PruningLosesNothing(run: seq<Request>, key: string, maxRate: int, window: int, now: int)
    requires Ordered(run) && !Unlimited(key, maxRate)
    requires run != [] ==> run[|run| - 1].at <= now
    ensures Recent(Lookup(Limits(run, maxRate, window), key), now - window)
         == Recent(AdmittedTimes(run, key, maxRate, window), now - window)
    decreases |run|
  {
    if run != [] {
      var init, q := run[..|run| - 1], run[|run| - 1];
      PruningLosesNothing(init, key, maxRate, window, now);
      RequestPrunes(Limits(init, maxRate, window), AdmittedTimes(init, key, maxRate, window),
          q, key, maxRate, window, now);
    }
  }

  /** The times within (x - window, x]. */
  ghost function InWindow(times: seq<int>, window: int, x: int): (r: seq<int>) {
    if times == [] then []
    else
      var t := times[|times| - 1];
      if x - window < t <= x then InWindow(times[..|times| - 1], window, x) + [t]
          else InWindow(times[..|times| - 1], window, x)
  }

  lemma {:induction false} WindowWithinRecent(times: seq<int>, window: int, x: int)
    ensures |InWindow(times, window, x)| <= |Recent(times, x - window)|
    ensures (forall i :: 0 <= i < |times| ==> times[i] <= x) ==> InWindow(times, window, x) == Recent(times, x - window)
  {
    if times != [] {
      WindowWithinRecent(times[..|times| - 1], window, x);
    }
  }

  lemma {:induction false} AdmittedNotLater(run: seq<Request>, key: string, maxRate: int, window: int, now: int)
    requires Ordered(run) && (run != [] ==> run[|run| - 1].at <= now)
    ensures forall i :: 0 <= i < |AdmittedTimes(run, key, maxRate, window)| ==>
        AdmittedTimes(run, key, maxRate, window)[i] <= now
    decreases |run|
  {
    if run != [] {
      AdmittedNotLater(run[..|run| - 1], key, maxRate, window, now);
    }
  }

  lemma InWindowSnoc(was: seq<int>, at: int, window: int, x: int)
    ensures InWindow(was + [at], window, x)
         == if x - window < at <= x then InWindow(was, window, x) + [at] else InWindow(was, window, x)
  {
    assert (was + [at])[..|was|] == was;
  }

  /** A window that ends at or after a time holds no more of the earlier times than the window at it. */
  lemma WindowIsNoFuller(was: seq<int>, at: int, window: int, x: int)
    requires at <= x
    ensures |InWindow(was, window, x)| <= |Recent(was, at - window)|
  {
    WindowWithinRecent(was, window, x);
    RecentTwice(was, at - window, x - window);
  }

  /** One more admission: the window that it joins was not full. */
  lemma WindowGrows(was: seq<int>, kept: seq<int>, at: int, maxRate: int, window: int, x: int)
    requires |InWindow(was, window, x)| <= maxRate
    requires |Recent(kept, at - window)| < maxRate && Recent(kept, at - window) == Recent(was, at - window)
    ensures |InWindow(was + [at], window, x)| <= maxRate
  {
    InWindowSnoc(was, at, window, x);
    if at <= x {
      WindowIsNoFuller(was, at, window, x);
    }
  }

  /** In every run, for every key and every window (x - w, x], at most maxRate requests are
      admitted, although only a pruned log is kept. */
  lemma {:induction false} WindowBound(run: seq<Request>, key: string, maxRate: int, window: int, x: int)
    requires Ordered(run) && !Unlimited(key, maxRate)
    ensures |InWindow(AdmittedTimes(run, key, maxRate, window), window, x)| <= maxRate
    decreases |run|
  {
    if run != [] {
      var init, q := run[..|run| - 1], run[|run| - 1];
      WindowBound(init, key, maxRate, window, x);
      if q.key == key && Passes(Limits(init, maxRate, window), key, q.at, maxRate, window) {
        PruningLosesNothing(init, key, maxRate, window, q.at);
        WindowGrows(AdmittedTimes(init, key, maxRate, window), Lookup(Limits(init, maxRate, window), key),
                    q.at, maxRate, window, x);
      }
    }
  }

  lemma FullOfRecent(kept: seq<int>, full: seq<int>, now: int, maxRate: int, window: int)
    requires Recent(kept, now - window) == Recent(full, now - window) && |Recent(kept, now - window)| >= maxRate
    requires |InWindow(full, window, now)| <= maxRate && forall i :: 0 <= i < |full| ==> full[i] <= now
    ensures |InWindow(full, window, now)| == maxRate
  {
    WindowWithinRecent(full, window, now);
  }

  /** What is kept and what was admitted before a time that is not before the last request. */
  lemma AdmittedBefore(run: seq<Request>, key: string, maxRate: int, window: int, now: int)
    returns (kept: seq<int>, full: seq<int>)
    requires Ordered(run) && !Unlimited(key, maxRate) && (run != [] ==> run[|run| - 1].at <= now)
    ensures kept == Lookup(Limits(run, maxRate, window), key) && full == AdmittedTimes(run, key, maxRate, window)
    ensures Recent(kept, now - window) == Recent(full, now - window)
    ensures |InWindow(full, window, now)| <= maxRate && forall i :: 0 <= i < |full| ==> full[i] <= now
  {
    PruningLosesNothing(run, key, maxRate, window, now);
    AdmittedNotLater(run, key, maxRate, window, now);
    WindowBound(run, key, maxRate, window, now);
    kept, full := Lookup(Limits(run, maxRate, window), key), AdmittedTimes(run, key, maxRate, window);
  }

  /** A request is rejected only when the window behind it is full. */
  lemma RejectsOnlyWhenFull(run: seq<Request>, q: Request, maxRate: int, window: int)
    requires Ordered(run) && (run != [] ==> run[|run| - 1].at <= q.at)
    requires !Passes(Limits(run, maxRate, window), q.key, q.at, maxRate, window)
    ensures |InWindow(AdmittedTimes(run, q.key, maxRate, window), window, q.at)| == maxRate
  {
    var kept, full := AdmittedBefore(run, q.key, maxRate, window, q.at);
    FullOfRecent(kept, full, q.at, maxRate, window);
  }

  /** The exact behaviour of the window, in every run with a monotone clock: a request of a limited key is
      admitted if and only if fewer than maxRate requests of the key were admitted in the window behind
      it. */
  lemma WindowAdmitsIff(run: seq<Request>, q: Request, maxRate: int, window: int)
    requires Ordered(run) && (run != [] ==> run[|run| - 1].at <= q.at)
    requires q.key != "" && maxRate > 0
    ensures Passes(Limits(run, maxRate, window), q.key, q.at, maxRate, window) <==>
      |InWindow(AdmittedTimes(run, q.key, maxRate, window), window, q.at)| < maxRate
  {
    var limits, full := LogOf(run, q.key, maxRate, window, q.at);
    PassesIffRoom(limits, full, q.key, q.at, maxRate, window);
  }

  lemma LogOf(run: seq<Request>, key: string, maxRate: int, window: int, now: int)
    returns (limits: map<string, seq<int>>, full: seq<int>)
    requires Ordered(run) && (run != [] ==> run[|run| - 1].at <= now) && !Unlimited(key, maxRate)
    ensures limits == Limits(run, maxRate, window) && full == AdmittedTimes(run, key, maxRate, window)
    ensures Recent(Lookup(limits, key), now - window) == Recent(full, now - window)
    ensures forall i :: 0 <= i < |full| ==> full[i] <= now
  {
    PruningLosesNothing(run, key, maxRate, window, now);
    AdmittedNotLater(run, key, maxRate, window, now);
    limits, full := Limits(run, maxRate, window), AdmittedTimes(run, key, maxRate, window);
  }

  lemma PassesIffRoom(limits: map<string, seq<int>>, full: seq<int>, key: string, now: int, maxRate: int, window: int)
    requires key != "" && maxRate > 0 && forall i :: 0 <= i < |full| ==> full[i] <= now
    requires Recent(Lookup(limits, key), now - window) == Recent(full, now - window)
    ensures Passes(limits, key, now, maxRate, window) <==> |InWindow(full, window, now)| < maxRate
  {
    WindowIsKept(Lookup(limits, key), full, now, window);
  }

  lemma WindowIsKept(kept: seq<int>, full: seq<int>, now: int, window: int)
    requires Recent(kept, now - window) == Recent(full, now - window) && forall i :: 0 <= i < |full| ==> full[i] <= now
    ensures |Recent(kept, now - window)| == |InWindow(full, window, now)|
  {
    WindowWithinRecent(full, window, now);
  }

  /** A request without a key, or with no limit configured, always passes and leaves no trace. */
  lemma UnlimitedPasses(limits: map<string, seq<int>>, key: string, now: int, maxRate: int, window: int)
    requires key == "" || maxRate <= 0
    ensures Passes(limits, key, now, maxRate, window) && AfterRequest(limits, key, now, maxRate, window) == limits
  {
  }

  /** Keys do not share a window. */
  lemma KeysAreSeparate(limits: map<string, seq<int>>, key: string, other: string, now: int, maxRate: int, window: int)
    requires key != other
    ensures Lookup(AfterRequest(limits, key, now, maxRate, window), other) == Lookup(limits, other)
  {
  }
}
