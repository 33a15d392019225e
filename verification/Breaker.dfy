/**
The circuit breaker that guards Stellar RPC calls. A call is two atomic steps, one before and one
after it; any number of calls may be in flight between them.
 */
module Breaker {
  import opened Wrappers

  datatype Config = Config(failureThreshold: int, successThreshold: int, openTimeout: int, halfOpenMaxReqs: int)

  datatype Mode = Closed | Open | HalfOpen

  datatype Core = Core(mode: Mode, failures: int, successes: int, halfOpenReqs: int, lastStateChange: int)

  const INITIAL: Core := Core(Closed, 0, 0, 0, 0)

  function Transition(c: Core, to: Mode, now: int): (r: Core) {
    Core(to,
         if to == Closed then 0 else c.failures,
         if to == HalfOpen then 0 else c.successes,
         if to == HalfOpen then 0 else c.halfOpenReqs,
         now)
  }

  /** Whether the next call is let through at time now. */
  predicate Admits(cfg: Config, c: Core, now: int) {
    match c.mode
    case Closed => true
    case Open => now - c.lastStateChange > cfg.openTimeout
    case HalfOpen => c.halfOpenReqs < cfg.halfOpenMaxReqs
  }

  function Before(cfg: Config, c: Core, now: int): (r: Core) {
    if !Admits(cfg, c, now) then c
    else match c.mode
      case Closed => c
      case Open => Transition(c, HalfOpen, now)
      case HalfOpen => c.(halfOpenReqs := c.halfOpenReqs + 1)
  }

  function After(cfg: Config, c: Core, failed: bool, now: int): (r: Core) {
    match c.mode
    case Closed =>
      if !failed then c.(failures := 0)
      else
        var counted := c.(failures := c.failures + 1);
        if counted.failures >= cfg.failureThreshold then Transition(counted, Open, now) else counted
    case HalfOpen =>
      if failed then Transition(c, Open, now)
      else
        var counted := c.(successes := c.successes + 1);
        if counted.successes >= cfg.successThreshold then Transition(counted, Closed, now) else counted
    case Open => c
  }

  function Reset(c: Core): (r: Core) {
    Core(Closed, 0, 0, 0, c.lastStateChange)
  }

  class CircuitBreaker {
    const config: Config
    var mode: Mode
    var failures: int
    var successes: int
    var halfOpenReqs: int
    var lastStateChange: int

    ghost function Contents(): (c: Core)
      reads this
    {
      Core(mode, failures, successes, halfOpenReqs, lastStateChange)
    }

    constructor (config: Config)
      ensures this.config == config && Contents() == INITIAL
    {
      this.config := config;
      mode, failures, successes, halfOpenReqs, lastStateChange := Closed, 0, 0, 0, 0;
    }

    method TransitionTo(to: Mode, now: int)
      modifies this
      ensures Contents() == Transition(old(Contents()), to, now)
    {
      mode := to;
      lastStateChange := now;
      if to == HalfOpen {
        halfOpenReqs := 0;
        successes := 0;
      }
      if to == Closed {
        failures := 0;
      }
    }

    method BeforeRequest(now: int) returns (admitted: bool)
      modifies this
      ensures admitted == Admits(config, old(Contents()), now)
      ensures Contents() == Before(config, old(Contents()), now)
    {
      match mode {
        case Closed =>
          return true;
        case Open =>
          if now - lastStateChange > config.openTimeout {
            TransitionTo(HalfOpen, now);
            return true;
          }
          return false;
        case HalfOpen =>
          if halfOpenReqs >= config.halfOpenMaxReqs {
            return false;
          }
          halfOpenReqs := halfOpenReqs + 1;
          return true;
      }
    }

    method AfterRequest(failed: bool, now: int)
      modifies this
      ensures Contents() == After(config, old(Contents()), failed, now)
    {
      match mode {
        case Closed =>
          if failed {
            failures := failures + 1;
            if failures >= config.failureThreshold {
              TransitionTo(Open, now);
            }
          } else {
            failures := 0;
          }
        case HalfOpen =>
          if failed {
            TransitionTo(Open, now);
          } else {
            successes := successes + 1;
            if successes >= config.successThreshold {
              TransitionTo(Closed, now);
            }
          }
        case Open =>
      }
    }

    method ResetBreaker()
      modifies this
      ensures Contents() == Reset(old(Contents()))
    {
      mode := Closed;
      failures := 0;
      successes := 0;
      halfOpenReqs := 0;
    }
  }

  // ---------------------------------------------------------------------------------------
  // Runs with calls in flight
  // ---------------------------------------------------------------------------------------

  datatype Event = Start(now: int) | Finish(failed: bool, now: int) | ForceReset

  /** The breaker together with the number of admitted calls that have not returned yet. */
  datatype System = System(core: Core, inflight: nat)

  const FRESH: System := System(INITIAL, 0)

  /** A call can only finish if one is in flight; it may have been admitted long ago, in another
      mode of the breaker. */
  function Step(cfg: Config, s: System, e: Event): (r: System) {
    match e
    case Start(now) => System(Before(cfg, s.core, now), s.inflight + if Admits(cfg, s.core, now) then 1 else 0)
    case Finish(failed, now) => if s.inflight == 0 then s else System(After(cfg, s.core, failed, now), s.inflight - 1)
    case ForceReset => s.(core := Reset(s.core))
  }

  function Run(cfg: Config, s: System, events: seq<Event>): (r: System)
    decreases |events|
  {
    if events == [] then s else Step(cfg, Run(cfg, s, events[..|events| - 1]), events[|events| - 1])
  }

  lemma RunSnoc(cfg: Config, s: System, events: seq<Event>, e: Event)
    ensures Run(cfg, s, events + [e]) == Step(cfg, Run(cfg, s, events), e)
  {
    assert (events + [e])[..|events|] == events;
  }

  // ---------------------------------------------------------------------------------------
  // The breaker cannot wedge
  // ---------------------------------------------------------------------------------------

  /** The half-open limit, and every other setting, may be negative. */
  function AtLeastZero(n: int): (r: nat) {
    Max(0, n)
  }

  /** Every half-open state has a call that is still in flight or has succeeded for each call it
      admitted, even when calls admitted earlier come back late. */
  ghost predicate HalfOpenInv(cfg: Config, s: System) {
    s.core.mode == HalfOpen ==>
      && 0 <= s.core.halfOpenReqs <= AtLeastZero(cfg.halfOpenMaxReqs)
      && 0 <= s.core.successes && (s.core.successes == 0 || s.core.successes < cfg.successThreshold)
      && s.core.halfOpenReqs + 1 <= s.core.successes + s.inflight
  }

  lemma {:induction false} HalfOpenInvHolds(cfg: Config, events: seq<Event>)
    ensures HalfOpenInv(cfg, Run(cfg, FRESH, events))
    decreases |events|
  {
    if events != [] {
      HalfOpenInvHolds(cfg, events[..|events| - 1]);
    }
  }

  /** Half open, nothing in flight, and no call is admitted at any time. */
  ghost predicate Wedged(cfg: Config, s: System) {
    s.core.mode == HalfOpen && s.inflight == 0 && forall now :: !Admits(cfg, s.core, now)
  }

  /** Once wedged, nothing but a reset changes the breaker again. */
  lemma {:induction false} WedgedForever(cfg: Config, s: System, events: seq<Event>)
    requires Wedged(cfg, s) && ForceReset !in events
    ensures Run(cfg, s, events) == s
    decreases |events|
  {
    if events != [] {
      var init, e := events[..|events| - 1], events[|events| - 1];
      assert e in events;
      assert forall x :: x in init ==> x in events;
      WedgedForever(cfg, s, init);
    }
  }

  ghost predicate NoLaterThan(events: seq<Event>, t: int) {
    forall i :: 0 <= i < |events| ==> !events[i].ForceReset? && events[i].now <= t
  }

  /** The clock does not run backwards. */
  ghost predicate Ordered(events: seq<Event>) {
    forall i, j :: 0 <= i < j < |events| && !events[i].ForceReset? && !events[j].ForceReset? ==>
      events[i].now <= events[j].now
  }

  /** Some run of the configuration wedges the breaker. */
  ghost predicate CanWedge(cfg: Config) {
    exists events :: Ordered(events) && Wedged(cfg, Run(cfg, FRESH, events))
  }

  /** One more event, at a time that no earlier event exceeds. */
  lemma Later(cfg: Config, events: seq<Event>, e: Event) returns (longer: seq<Event>)
    requires Ordered(events) && !e.ForceReset? && NoLaterThan(events, e.now)
    ensures longer == events + [e] && Ordered(longer) && NoLaterThan(longer, e.now)
    ensures Run(cfg, FRESH, longer) == Step(cfg, Run(cfg, FRESH, events), e)
  {
    longer := events + [e];
    RunSnoc(cfg, FRESH, events, e);
  }

  lemma {:induction false} FailToOpen(cfg: Config, k: nat) returns (events: seq<Event>)
    requires 0 < k <= AtLeastZero(cfg.failureThreshold - 1) + 1
    ensures Ordered(events) && NoLaterThan(events, 0)
    ensures var s := Run(cfg, FRESH, events);
      && s.inflight == 0 && s.core.failures == k && s.core.lastStateChange == 0
      && s.core.mode == if k >= cfg.failureThreshold then Open else Closed
    decreases k
  {
    events := [];
    if k > 1 {
      events := FailToOpen(cfg, k - 1);
    }
    events := Later(cfg, events, Start(0));
    events := Later(cfg, events, Finish(true, 0));
  }

  /** When the breaker that opened at time 0 first admits a call again. */
  function Reopening(cfg: Config): (t: nat) {
    AtLeastZero(cfg.openTimeout) + 1
  }

  lemma {:induction false} Probe(cfg: Config, k: nat) returns (events: seq<Event>)
    requires k <= AtLeastZero(cfg.halfOpenMaxReqs)
    ensures Ordered(events) && NoLaterThan(events, Reopening(cfg))
    ensures var s := Run(cfg, FRESH, events);
      s.core.mode == HalfOpen && s.core.halfOpenReqs == k && s.core.successes == 0 && s.inflight == k + 1
    decreases k
  {
    if k == 0 {
      events := FailToOpen(cfg, AtLeastZero(cfg.failureThreshold - 1) + 1);
    } else {
      events := Probe(cfg, k - 1);
    }
    events := Later(cfg, events, Start(Reopening(cfg)));
  }

  lemma {:induction false} Recover(cfg: Config, j: nat) returns (events: seq<Event>)
    requires j <= AtLeastZero(cfg.halfOpenMaxReqs) + 1 < cfg.successThreshold
    ensures Ordered(events) && NoLaterThan(events, Reopening(cfg))
    ensures var s := Run(cfg, FRESH, events);
      && s.core.mode == HalfOpen && s.core.halfOpenReqs == AtLeastZero(cfg.halfOpenMaxReqs)
      && s.core.successes == j && s.inflight == AtLeastZero(cfg.halfOpenMaxReqs) + 1 - j
    decreases j
  {
    if j == 0 {
      events := Probe(cfg, AtLeastZero(cfg.halfOpenMaxReqs));
    } else {
      events := Recover(cfg, j - 1);
      events := Later(cfg, events, Finish(false, Reopening(cfg)));
    }
  }

  /** The exact condition: the breaker can wedge if and only if it asks for more successes than a
      half-open episode can admit calls. */
  lemma WedgesIffThresholdTooHigh(cfg: Config)
    ensures CanWedge(cfg) <==> cfg.successThreshold > AtLeastZero(cfg.halfOpenMaxReqs) + 1
  {
    if cfg.successThreshold > AtLeastZero(cfg.halfOpenMaxReqs) + 1 {
      var events := Recover(cfg, AtLeastZero(cfg.halfOpenMaxReqs) + 1);
      assert Ordered(events) && Wedged(cfg, Run(cfg, FRESH, events));
    }
    forall events | Ordered(events) && Wedged(cfg, Run(cfg, FRESH, events))
      ensures cfg.successThreshold > AtLeastZero(cfg.halfOpenMaxReqs) + 1
    {
      HalfOpenInvHolds(cfg, events);
      assert !Admits(cfg, Run(cfg, FRESH, events).core, 0);
    }
  }

  // ---------------------------------------------------------------------------------------
  // Half-open episodes
  // ---------------------------------------------------------------------------------------

  /** The calls admitted since the breaker last became half open, the one that opened the episode
      included. */
  function EpisodeAdmissions(cfg: Config, events: seq<Event>): (n: nat)
    decreases |events|
  {
    if events == [] then 0
    else
      var init, e := events[..|events| - 1], events[|events| - 1];
      var s, n := Run(cfg, FRESH, init), EpisodeAdmissions(cfg, init);
      if e.Start? && Admits(cfg, s.core, e.now) then (if s.core.mode == Open then 1 else n + 1) else n
  }

  lemma {:induction false} EpisodeIsCounted(cfg: Config, events: seq<Event>)
    ensures var s := Run(cfg, FRESH, events);
      s.core.mode == HalfOpen ==> EpisodeAdmissions(cfg, events) == s.core.halfOpenReqs + 1
    decreases |events|
  {
    if events != [] {
      EpisodeIsCounted(cfg, events[..|events| - 1]);
    }
  }

  /** A half-open episode admits at most HalfOpenMaxReqs calls beyond the one that started it. */
  lemma EpisodeIsBounded(cfg: Config, events: seq<Event>)
    requires Run(cfg, FRESH, events).core.mode == HalfOpen
    ensures 1 <= EpisodeAdmissions(cfg, events) <= AtLeastZero(cfg.halfOpenMaxReqs) + 1
  {
    EpisodeIsCounted(cfg, events);
    HalfOpenInvHolds(cfg, events);
  }

  // ---------------------------------------------------------------------------------------
  // The breaker opens for cause
  // ---------------------------------------------------------------------------------------

  /** The outcomes of the calls that returned since the breaker was last closed. */
  function SinceClosed(cfg: Config, events: seq<Event>): (outcomes: seq<bool>)
    decreases |events|
  {
    if events == [] then []
    else
      var init, e := events[..|events| - 1], events[|events| - 1];
      var s, log := Run(cfg, FRESH, init), SinceClosed(cfg, init);
      if e.ForceReset? then []
      else if e.Finish? && s.inflight > 0 then
        (if s.core.mode == Closed then log + [e.failed]
         else if s.core.mode == HalfOpen && After(cfg, s.core, e.failed, e.now).mode == Closed then []
         else log)
      else log
  }

  /** The length of the longest failing suffix. */
  function FailingSuffix(outcomes: seq<bool>): (n: nat) {
    if outcomes == [] || !outcomes[|outcomes| - 1] then 0 else FailingSuffix(outcomes[..|outcomes| - 1]) + 1
  }

  lemma SuffixGrows(log: seq<bool>, failed: bool)
    ensures FailingSuffix(log + [failed]) == if failed then FailingSuffix(log) + 1 else 0
  {
    assert (log + [failed])[..|log|] == log;
  }

  /** While closed, the failure counter is the number of failures in a row since the breaker
      closed, and it stays below the threshold. */
  lemma {:induction false} FailuresAreConsecutive(cfg: Config, events: seq<Event>)
    ensures var s := Run(cfg, FRESH, events);
      s.core.mode == Closed ==>
        && s.core.failures == FailingSuffix(SinceClosed(cfg, events))
        && (s.core.failures == 0 || s.core.failures < cfg.failureThreshold)
    decreases |events|
  {
    if events != [] {
      var init, e := events[..|events| - 1], events[|events| - 1];
      FailuresAreConsecutive(cfg, init);
      if e.Finish? {
        SuffixGrows(SinceClosed(cfg, init), e.failed);
      }
    }
  }

  /** A closed breaker opens only on the last of at least FailureThreshold failures in a row. */
  lemma OpensForCause(cfg: Config, events: seq<Event>, e: Event)
    requires Run(cfg, FRESH, events).core.mode == Closed && Run(cfg, FRESH, events + [e]).core.mode == Open
    ensures FailingSuffix(SinceClosed(cfg, events + [e])) >= cfg.failureThreshold
    ensures FailingSuffix(SinceClosed(cfg, events + [e])) >= 1
  {
    RunSnoc(cfg, FRESH, events, e);
    FailuresAreConsecutive(cfg, events);
    assert (events + [e])[..|events|] == events;
    SuffixGrows(SinceClosed(cfg, events), true);
  }

  /** An open breaker stays as it is, and admits nothing, until more than OpenTimeout has passed. */
  lemma {:induction false} OpenFailsFast(cfg: Config, s: System, events: seq<Event>, now: int)
    requires s.core.mode == Open && NoLaterThan(events, s.core.lastStateChange + cfg.openTimeout)
    ensures Run(cfg, s, events).core == s.core && Run(cfg, s, events).inflight <= s.inflight
    ensures Admits(cfg, Run(cfg, s, events).core, now) <==> now > s.core.lastStateChange + cfg.openTimeout
    decreases |events|
  {
    if events != [] {
      OpenFailsFast(cfg, s, events[..|events| - 1], now);
    }
  }

  // ---------------------------------------------------------------------------------------
  // From one mode to the next, by events and their times only
  // ---------------------------------------------------------------------------------------

  lemma {:induction false} RunSplits(cfg: Config, s: System, before: seq<Event>, after: seq<Event>)
    ensures Run(cfg, s, before + after) == Run(cfg, Run(cfg, s, before), after)
    decreases |after|
  {
    if after == [] {
      assert before + after == before;
    } else {
      RunSplits(cfg, s, before, after[..|after| - 1]);
      assert (before + after)[..|before + after| - 1] == before + after[..|after| - 1];
    }
  }

  /** The breaker turns open with an event. */
  ghost predicate OpensOn(cfg: Config, before: seq<Event>, e: Event) {
    !e.ForceReset? && Run(cfg, FRESH, before).core.mode != Open && Run(cfg, FRESH, before + [e]).core.mode == Open
  }

  /** In every run: from the event that opened the breaker on, whatever comes back late, it stays open and
      lets a call through if and only if more than OpenTimeout has passed since that event. */
  lemma ShutForTheTimeout(cfg: Config, before: seq<Event>, e: Event, after: seq<Event>, now: int)
    requires OpensOn(cfg, before, e) && NoLaterThan(after, e.now + cfg.openTimeout)
    ensures var s := Run(cfg, FRESH, before + [e] + after);
      && s.core.mode == Open
      && (Step(cfg, s, Start(now)).inflight == s.inflight + 1 <==> now > e.now + cfg.openTimeout)
      && (Step(cfg, s, Start(now)).inflight == s.inflight <==> now <= e.now + cfg.openTimeout)
      && (now > e.now + cfg.openTimeout ==> Step(cfg, s, Start(now)).core.mode == HalfOpen)
  {
    RunSnoc(cfg, FRESH, before, e);
    RunSplits(cfg, FRESH, before + [e], after);
    OpenFailsFast(cfg, Run(cfg, FRESH, before + [e]), after, now);
  }

  /** A call that fails while the breaker is half open opens it again. */
  lemma FailedProbeReopens(cfg: Config, events: seq<Event>, now: int)
    requires Run(cfg, FRESH, events).core.mode == HalfOpen && Run(cfg, FRESH, events).inflight > 0
    ensures OpensOn(cfg, events, Finish(true, now))
  {
    RunSnoc(cfg, FRESH, events, Finish(true, now));
  }

  /** How many calls have succeeded since the breaker last became half open. */
  function ProbeSuccesses(cfg: Config, events: seq<Event>): (n: nat)
    decreases |events|
  {
    if events == [] then 0
    else
      var init, e := events[..|events| - 1], events[|events| - 1];
      var s, n := Run(cfg, FRESH, init), ProbeSuccesses(cfg, init);
      if s.core.mode != HalfOpen then 0
      else if e.Finish? && !e.failed && s.inflight > 0 then n + 1
      else n
  }

  lemma {:induction false} SuccessesAreCounted(cfg: Config, events: seq<Event>)
    ensures var s := Run(cfg, FRESH, events);
      s.core.mode == HalfOpen ==> s.core.successes == ProbeSuccesses(cfg, events)
    decreases |events|
  {
    if events != [] {
      SuccessesAreCounted(cfg, events[..|events| - 1]);
    }
  }

  /** A half-open breaker closes with a call if and only if the call succeeds and is at least the
      SuccessThreshold-th to do so in the episode; until then it stays half open. */
  lemma ClosesIffEnoughSuccesses(cfg: Config, events: seq<Event>, failed: bool, now: int)
    requires Run(cfg, FRESH, events).core.mode == HalfOpen && Run(cfg, FRESH, events).inflight > 0
    ensures var next := Run(cfg, FRESH, events + [Finish(failed, now)]);
      && (next.core.mode == Closed <==> !failed && ProbeSuccesses(cfg, events) + 1 >= cfg.successThreshold)
      && (next.core.mode == HalfOpen <==> !failed && ProbeSuccesses(cfg, events) + 1 < cfg.successThreshold)
  {
    SuccessesAreCounted(cfg, events);
    RunSnoc(cfg, FRESH, events, Finish(failed, now));
  }

  /** A closed breaker opens with a call if and only if the call fails and is at least the
      FailureThreshold-th in a row to do so. */
  lemma OpensIffEnoughFailures(cfg: Config, events: seq<Event>, failed: bool, now: int)
    requires Run(cfg, FRESH, events).core.mode == Closed && Run(cfg, FRESH, events).inflight > 0
    ensures OpensOn(cfg, events, Finish(failed, now)) <==>
      failed && FailingSuffix(SinceClosed(cfg, events)) + 1 >= cfg.failureThreshold
  {
    FailuresAreConsecutive(cfg, events);
    RunSnoc(cfg, FRESH, events, Finish(failed, now));
  }

  /** A reset closes the breaker from every state: calls are let through at any time, none of the failures
      of before count, and calls in flight stay in flight. */
  lemma ResetCloses(cfg: Config, events: seq<Event>, now: int)
    ensures var s := Run(cfg, FRESH, events + [ForceReset]);
      && s.core.mode == Closed && s.inflight == Run(cfg, FRESH, events).inflight
      && Step(cfg, s, Start(now)).inflight == s.inflight + 1
      && SinceClosed(cfg, events + [ForceReset]) == []
  {
    RunSnoc(cfg, FRESH, events, ForceReset);
    assert (events + [ForceReset])[..|events|] == events;
  }

  /** While closed every call is let through. */
  lemma ClosedAdmits(cfg: Config, events: seq<Event>, now: int)
    requires Run(cfg, FRESH, events).core.mode == Closed
    ensures var s := Run(cfg, FRESH, events); Step(cfg, s, Start(now)) == s.(inflight := s.inflight + 1)
  {
  }
}
