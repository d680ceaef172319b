/** The fixed-window rate limiter kept for each peer (core/src/relay.rs). */
module RateLimiting {
  import opened Bytes

  datatype Config = Config(maxEnvelopes: nat, maxBytes: nat, windowSeconds: nat)

  const DEFAULT_CONFIG: Config := Config(120, 2_000_000, 60)

  datatype RateLimiter = RateLimiter(window: nat, envelopes: nat, bytes: nat)

  const EMPTY: RateLimiter := RateLimiter(0, 0, 0)

  function Width(cfg: Config): (width: nat)
    ensures width >= 1
  {
    if cfg.windowSeconds == 0 then 1 else cfg.windowSeconds
  }

  function Window(cfg: Config, now: nat): nat {
    now / Width(cfg)
  }

  function Allow(limiter: RateLimiter, cfg: Config, now: nat, size: nat): (RateLimiter, bool) {
    var window := Window(cfg, now);
    var current := if window != limiter.window then RateLimiter(window, 0, 0) else limiter;
    if current.envelopes >= cfg.maxEnvelopes || current.bytes + size > cfg.maxBytes then (current, false)
    else (current.(envelopes := current.envelopes + 1, bytes := current.bytes + size), true)
  }

  /** One question put to the limiter, and its answer. */
  datatype Ask = Ask(now: nat, size: nat)

  function LimiterAfter(cfg: Config, asks: seq<Ask>): RateLimiter {
    if asks == [] then EMPTY
    else
      var last := asks[|asks| - 1];
      Allow(LimiterAfter(cfg, asks[..|asks| - 1]), cfg, last.now, last.size).0
  }

  predicate LastAllowed(cfg: Config, asks: seq<Ask>)
    requires asks != []
  {
    var last := asks[|asks| - 1];
    Allow(LimiterAfter(cfg, asks[..|asks| - 1]), cfg, last.now, last.size).1
  }

  /** How many envelopes and how many bytes were allowed at times from `start` up to `end`. */
  function Tally(cfg: Config, asks: seq<Ask>, start: nat, end: nat): (nat, nat) {
    if asks == [] then (0, 0)
    else
      var last := asks[|asks| - 1];
      var before := Tally(cfg, asks[..|asks| - 1], start, end);
      if start <= last.now < end && LastAllowed(cfg, asks) then (before.0 + 1, before.1 + last.size) else before
  }

  ghost predicate Ordered(asks: seq<Ask>) {
    forall i, j | 0 <= i < j < |asks| :: asks[i].now <= asks[j].now
  }

  /** Where a window starts. */
  function StartOf(cfg: Config, window: nat): nat {
    window * Width(cfg)
  }

  lemma WindowBounds(cfg: Config, now: nat, window: nat)
    ensures StartOf(cfg, window) <= now < StartOf(cfg, window + 1) <==> Window(cfg, now) == window
    ensures now < StartOf(cfg, window) <==> Window(cfg, now) < window
  {
    var w := Width(cfg);
    assert now == (now / w) * w + now % w;
    if now / w < window {
      assert (now / w + 1) * w <= window * w;
    } else if now / w > window {
      assert (now / w) * w >= (window + 1) * w;
    }
  }

  function WindowTally(cfg: Config, asks: seq<Ask>, window: nat): (nat, nat) {
    Tally(cfg, asks, StartOf(cfg, window), StartOf(cfg, window + 1))
  }

  lemma TallyStep(cfg: Config, asks: seq<Ask>, window: nat)
    requires asks != []
    ensures var last, before := asks[|asks| - 1], WindowTally(cfg, asks[..|asks| - 1], window);
            var counts := Window(cfg, last.now) == window && LastAllowed(cfg, asks);
            WindowTally(cfg, asks, window) == (if counts then (before.0 + 1, before.1 + last.size) else before)
  {
    WindowBounds(cfg, asks[|asks| - 1].now, window);
  }

  /** The limiter's counters are the true tally of its current window, and later windows are untouched. */
  lemma {:induction false} LimiterCounts(cfg: Config, asks: seq<Ask>, window: nat)
    requires Ordered(asks)
    ensures var limiter := LimiterAfter(cfg, asks);
            && (asks == [] || limiter.window == Window(cfg, asks[|asks| - 1].now))
            && WindowTally(cfg, asks, limiter.window) == (limiter.envelopes, limiter.bytes)
            && (window > limiter.window ==> WindowTally(cfg, asks, window) == (0, 0))
    decreases |asks|
  {
    if asks == [] {
    } else {
      var before, last := asks[..|asks| - 1], asks[|asks| - 1];
      LimiterCounts(cfg, before, window);
      LimiterCounts(cfg, before, Window(cfg, last.now));
      if before != [] { WindowMonotone(cfg, before[|before| - 1].now, last.now); }
      TallyStep(cfg, asks, window);
      TallyStep(cfg, asks, Window(cfg, last.now));
    }
  }

  /** What was allowed since the window last changed, if that left this window. */
  function SinceChange(cfg: Config, asks: seq<Ask>, window: nat): (nat, nat) {
    if asks == [] || Window(cfg, asks[|asks| - 1].now) != window then (0, 0)
    else
      var last := asks[|asks| - 1];
      var before := SinceChange(cfg, asks[..|asks| - 1], window);
      if LastAllowed(cfg, asks) then (before.0 + 1, before.1 + last.size) else before
  }

  lemma {:induction false} CountsSinceChange(cfg: Config, asks: seq<Ask>, window: nat)
    ensures var limiter := LimiterAfter(cfg, asks);
            if limiter.window == window then (limiter.envelopes, limiter.bytes) == SinceChange(cfg, asks, window)
            else SinceChange(cfg, asks, window) == (0, 0)
    decreases |asks|
  {
    if asks == [] {
    } else {
      CountsSinceChange(cfg, asks[..|asks| - 1], window);
    }
  }

  /** The answer to every question, whichever way the clock went: one more envelope and its bytes fit the caps together
      with what was allowed since the window last changed. */
  lemma AllowsIff(cfg: Config, asks: seq<Ask>, ask: Ask)
    ensures var since := SinceChange(cfg, asks, Window(cfg, ask.now));
            LastAllowed(cfg, asks + [ask])
            <==> since.0 + 1 <= cfg.maxEnvelopes && since.1 + ask.size <= cfg.maxBytes
  {
    assert (asks + [ask])[..|asks|] == asks;
    CountsSinceChange(cfg, asks, Window(cfg, ask.now));
  }

  /** If the clock does not go back, that is what was allowed in the window. */
  lemma AllowsInWindowIff(cfg: Config, asks: seq<Ask>, ask: Ask)
    requires Ordered(asks + [ask])
    ensures var allowed := WindowTally(cfg, asks, Window(cfg, ask.now));
            LastAllowed(cfg, asks + [ask])
            <==> allowed.0 + 1 <= cfg.maxEnvelopes && allowed.1 + ask.size <= cfg.maxBytes
  {
    var all, window := asks + [ask], Window(cfg, ask.now);
    assert all[..|asks|] == asks;
    assert forall i | 0 <= i < |asks| :: asks[i] == all[i];
    if asks != [] {
      assert all[|asks| - 1].now <= all[|asks|].now;
      WindowMonotone(cfg, asks[|asks| - 1].now, ask.now);
    }
    LimiterCounts(cfg, asks, window);
  }

  /** A time at which a window of this many seconds starts. */
  predicate Boundary(seconds: nat, t: nat) {
    seconds == 0 || t % seconds == 0
  }

  lemma StartIsBoundary(seconds: nat, window: nat)
    requires seconds >= 1
    ensures Boundary(seconds, window * seconds)
  {
    QuotientIs(window * seconds, seconds, window, 0);
  }

  lemma BetweenStarts(seconds: nat, window: nat, t: nat)
    requires seconds >= 1 && window * seconds < t < (window + 1) * seconds
    ensures !Boundary(seconds, t)
  {
    assert (window + 1) * seconds == window * seconds + seconds;
    QuotientIs(t, seconds, window, t - window * seconds);
  }

  /** Two times fall in one window exactly if no window starts between them. */
  lemma SameWindowIff(cfg: Config, early: nat, late: nat)
    requires early <= late
    ensures Window(cfg, early) == Window(cfg, late)
       <==> forall t | early < t <= late :: !Boundary(cfg.windowSeconds, t)
  {
    var window := Window(cfg, late);
    WindowBounds(cfg, late, window);
    WindowBounds(cfg, early, window);
    WindowMonotone(cfg, early, late);
    if cfg.windowSeconds == 0 {
      assert early < late ==> Boundary(0, late);
    } else if Window(cfg, early) < window {
      StartIsBoundary(cfg.windowSeconds, window);
      assert Boundary(cfg.windowSeconds, StartOf(cfg, window));
    } else {
      forall t | early < t <= late
        ensures !Boundary(cfg.windowSeconds, t)
      {
        BetweenStarts(cfg.windowSeconds, window, t);
      }
    }
  }

  lemma WindowMonotone(cfg: Config, early: nat, late: nat)
    requires early <= late
    ensures Window(cfg, early) <= Window(cfg, late)
  {
    WindowBounds(cfg, early, Window(cfg, early));
    WindowBounds(cfg, late, Window(cfg, early));
  }

  /** Within every window of a peer's contact the allowed envelopes and bytes stay within the caps. */
  lemma {:induction false} WindowCaps(cfg: Config, asks: seq<Ask>, window: nat)
    requires Ordered(asks)
    ensures WindowTally(cfg, asks, window).0 <= cfg.maxEnvelopes
    ensures WindowTally(cfg, asks, window).1 <= cfg.maxBytes
    decreases |asks|
  {
    if asks == [] {
    } else {
      var before, last := asks[..|asks| - 1], asks[|asks| - 1];
      WindowCaps(cfg, before, window);
      TallyStep(cfg, asks, window);
      LimiterCounts(cfg, before, window);
      if before != [] { WindowMonotone(cfg, before[|before| - 1].now, last.now); }
    }
  }

  lemma {:induction false} TallySplits(cfg: Config, asks: seq<Ask>, start: nat, end: nat, low: nat, mid: nat, high: nat)
    requires low <= start && end <= high && low <= mid <= high
    ensures Tally(cfg, asks, start, end).0 <= Tally(cfg, asks, low, mid).0 + Tally(cfg, asks, mid, high).0
    ensures Tally(cfg, asks, start, end).1 <= Tally(cfg, asks, low, mid).1 + Tally(cfg, asks, mid, high).1
    decreases |asks|
  {
    if asks == [] {
    } else {
      TallySplits(cfg, asks[..|asks| - 1], start, end, low, mid, high);
    }
  }

  /** Any stretch as long as a window, wherever it starts, sees at most twice the caps. */
  lemma StretchCaps(cfg: Config, asks: seq<Ask>, start: nat)
    requires Ordered(asks)
    ensures Tally(cfg, asks, start, start + Width(cfg)).0 <= 2 * cfg.maxEnvelopes
    ensures Tally(cfg, asks, start, start + Width(cfg)).1 <= 2 * cfg.maxBytes
  {
    var window := Window(cfg, start);
    WindowBounds(cfg, start, window);
    assert StartOf(cfg, window + 1) == StartOf(cfg, window) + Width(cfg);
    assert StartOf(cfg, window + 2) == StartOf(cfg, window + 1) + Width(cfg);
    TallySplits(cfg, asks, start, start + Width(cfg), StartOf(cfg, window), StartOf(cfg, window + 1),
                StartOf(cfg, window + 2));
    WindowCaps(cfg, asks, window);
    WindowCaps(cfg, asks, window + 1);
  }
}
