/** A peer's rate account over restarts: every connect and every loss starts it afresh (core/src/relay.rs). */
module Accounts {
  import opened RateLimiting

  /** What can happen to one peer's account. */
  datatype Happening = Question(ask: Ask) | Restart | Nothing

  function LimiterStep(cfg: Config, limiter: RateLimiter, h: Happening): RateLimiter {
    match h
    case Question(ask) => Allow(limiter, cfg, ask.now, ask.size).0
    case Restart => EMPTY
    case Nothing => limiter
  }

  function LimiterOver(cfg: Config, hs: seq<Happening>): RateLimiter {
    if hs == [] then EMPTY else LimiterStep(cfg, LimiterOver(cfg, hs[..|hs| - 1]), hs[|hs| - 1])
  }

  function Plus(a: (nat, nat), b: (nat, nat)): (nat, nat) {
    (a.0 + b.0, a.1 + b.1)
  }

  /** One question's envelope and bytes, if it is allowed and falls in the time looked at. */
  function Gain(cfg: Config, limiter: RateLimiter, h: Happening, start: nat, end: nat): (nat, nat) {
    if h.Question? && Allow(limiter, cfg, h.ask.now, h.ask.size).1 && start <= h.ask.now < end then (1, h.ask.size)
    else (0, 0)
  }

  /** How many envelopes and bytes were allowed at times from `start` up to `end`, on all accounts together. */
  function AllowedOver(cfg: Config, hs: seq<Happening>, start: nat, end: nat): (nat, nat) {
    if hs == [] then (0, 0)
    else
      var before, last := hs[..|hs| - 1], hs[|hs| - 1];
      Plus(AllowedOver(cfg, before, start, end), Gain(cfg, LimiterOver(cfg, before), last, start, end))
  }

  function RestartsIn(hs: seq<Happening>): nat {
    if hs == [] then 0 else RestartsIn(hs[..|hs| - 1]) + if hs[|hs| - 1].Restart? then 1 else 0
  }

  /** The time of the last question. */
  function LastAsked(hs: seq<Happening>): nat {
    if hs == [] then 0
    else if hs[|hs| - 1].Question? then hs[|hs| - 1].ask.now
    else LastAsked(hs[..|hs| - 1])
  }

  /** The clock of the questions does not go back. */
  predicate Clocked(hs: seq<Happening>) {
    hs == [] || (
      var before, last := hs[..|hs| - 1], hs[|hs| - 1];
      Clocked(before) && (last.Question? ==> LastAsked(before) <= last.ask.now))
  }

  /** The questions since the last restart. */
  function AsksSince(hs: seq<Happening>): seq<Ask> {
    if hs == [] then []
    else
      match hs[|hs| - 1]
      case Question(ask) => AsksSince(hs[..|hs| - 1]) + [ask]
      case Restart => []
      case Nothing => AsksSince(hs[..|hs| - 1])
  }

  // ----- the bound -----

  lemma AskMore(cfg: Config, asks: seq<Ask>, ask: Ask, start: nat, end: nat)
    ensures LimiterAfter(cfg, asks + [ask]) == Allow(LimiterAfter(cfg, asks), cfg, ask.now, ask.size).0
    ensures Tally(cfg, asks + [ask], start, end)
         == Plus(Tally(cfg, asks, start, end), Gain(cfg, LimiterAfter(cfg, asks), Question(ask), start, end))
  {
    assert (asks + [ask])[..|asks|] == asks;
  }

  lemma {:induction false} Tracks(cfg: Config, hs: seq<Happening>)
    ensures LimiterOver(cfg, hs) == LimiterAfter(cfg, AsksSince(hs))
    decreases |hs|
  {
    if hs == [] {
    } else {
      var before, last := hs[..|hs| - 1], hs[|hs| - 1];
      Tracks(cfg, before);
      if last.Question? { AskMore(cfg, AsksSince(before), last.ask, 0, 0); }
    }
  }

  lemma {:induction false} AsksOrdered(hs: seq<Happening>)
    requires Clocked(hs)
    ensures Ordered(AsksSince(hs)) && forall ask | ask in AsksSince(hs) :: ask.now <= LastAsked(hs)
    decreases |hs|
  {
    if hs == [] {
    } else {
      AsksOrdered(hs[..|hs| - 1]);
    }
  }

  /** No single account, however it is used, is allowed more than this from `start` up to `end`. */
  ghost predicate Capped(cfg: Config, start: nat, end: nat, most: (nat, nat)) {
    forall asks | Ordered(asks) :: AtMost(Tally(cfg, asks, start, end), most)
  }

  predicate AtMost(a: (nat, nat), b: (nat, nat)) {
    a.0 <= b.0 && a.1 <= b.1
  }

  /** So many times an amount. */
  function Times(count: nat, each: (nat, nat)): (nat, nat) {
    if count == 0 then (0, 0) else Plus(Times(count - 1, each), each)
  }

  lemma {:induction false} TimesIsProduct(count: nat, each: (nat, nat))
    ensures Times(count, each) == (count * each.0, count * each.1)
  {
    if count == 0 {
    } else {
      TimesIsProduct(count - 1, each);
      assert count * each.0 == (count - 1) * each.0 + each.0 && count * each.1 == (count - 1) * each.1 + each.1;
    }
  }

  /** What was allowed is what the present account allowed, and at most a full allowance for each earlier one. */
  lemma {:induction false} AllowedSplits(cfg: Config, hs: seq<Happening>, start: nat, end: nat, most: (nat, nat))
    requires Clocked(hs) && Capped(cfg, start, end, most)
    ensures AtMost(AllowedOver(cfg, hs, start, end),
                   Plus(Times(RestartsIn(hs), most), Tally(cfg, AsksSince(hs), start, end)))
    decreases |hs|
  {
    if hs == [] {
    } else {
      var before, last := hs[..|hs| - 1], hs[|hs| - 1];
      AllowedSplits(cfg, before, start, end, most);
      Tracks(cfg, before);
      match last
      case Question(ask) => AskMore(cfg, AsksSince(before), ask, start, end);
      case Restart => AsksOrdered(before);
      case Nothing =>
    }
  }

  /** On all accounts together no more is allowed than one allowance and one more for each restart. */
  lemma AllowedCapped(cfg: Config, hs: seq<Happening>, start: nat, end: nat, most: (nat, nat))
    requires Clocked(hs) && Capped(cfg, start, end, most)
    ensures AtMost(AllowedOver(cfg, hs, start, end), Times(1 + RestartsIn(hs), most))
  {
    AllowedSplits(cfg, hs, start, end, most);
    AsksOrdered(hs);
  }

  lemma CappedInWindow(cfg: Config, window: nat)
    ensures Capped(cfg, StartOf(cfg, window), StartOf(cfg, window + 1), (cfg.maxEnvelopes, cfg.maxBytes))
  {
    forall asks | Ordered(asks)
      ensures AtMost(WindowTally(cfg, asks, window), (cfg.maxEnvelopes, cfg.maxBytes))
    {
      WindowCaps(cfg, asks, window);
    }
  }

  lemma CappedInStretch(cfg: Config, start: nat)
    ensures Capped(cfg, start, start + Width(cfg), (2 * cfg.maxEnvelopes, 2 * cfg.maxBytes))
  {
    forall asks | Ordered(asks)
      ensures AtMost(Tally(cfg, asks, start, start + Width(cfg)), (2 * cfg.maxEnvelopes, 2 * cfg.maxBytes))
    {
      StretchCaps(cfg, asks, start);
    }
  }

  /** Not even an unused account has room for this question. */
  predicate TooLarge(cfg: Config, h: Happening) {
    h.Question? ==> cfg.maxEnvelopes == 0 || h.ask.size > cfg.maxBytes
  }

  lemma GainsNothing(cfg: Config, limiter: RateLimiter, h: Happening, start: nat, end: nat)
    requires TooLarge(cfg, h)
    ensures Gain(cfg, limiter, h, start, end) == (0, 0)
  {
  }

  lemma {:induction false} NoneAllowed(cfg: Config, hs: seq<Happening>, start: nat, end: nat)
    requires forall i | 0 <= i < |hs| :: TooLarge(cfg, hs[i])
    ensures AllowedOver(cfg, hs, start, end) == (0, 0)
    decreases |hs|
  {
    if hs == [] {
    } else {
      var before, last := hs[..|hs| - 1], hs[|hs| - 1];
      NoneAllowed(cfg, before, start, end);
      GainsNothing(cfg, LimiterOver(cfg, before), last, start, end);
    }
  }

  // ----- the bound is reached -----

  /** The same question so many times more. */
  function Burst(hs: seq<Happening>, ask: Ask, count: nat): seq<Happening> {
    if count == 0 then hs else Burst(hs, ask, count - 1) + [Question(ask)]
  }

  /** Such bursts with a restart between each two. */
  function Bursts(ask: Ask, count: nat, restarts: nat): seq<Happening> {
    if restarts == 0 then Burst([], ask, count) else Burst(Bursts(ask, count, restarts - 1) + [Restart], ask, count)
  }

  /** The limiter after so many equal questions in one window. */
  function Spent(cfg: Config, ask: Ask, k: nat): RateLimiter {
    if k == 0 then EMPTY else RateLimiter(Window(cfg, ask.now), k, Times(k, (1, ask.size)).1)
  }

  /** So many equal questions fit one allowance. */
  predicate Fits(cfg: Config, ask: Ask, count: nat) {
    count <= cfg.maxEnvelopes && Times(count, (1, ask.size)).1 <= cfg.maxBytes
  }

  lemma {:induction false} TimesGrows(k: nat, count: nat, each: (nat, nat))
    requires k <= count
    ensures AtMost(Times(k, each), Times(count, each))
    decreases count
  {
    if k == count {
    } else {
      TimesGrows(k, count - 1, each);
    }
  }

  lemma AskAllowed(cfg: Config, ask: Ask, k: nat, count: nat)
    requires k < count && Fits(cfg, ask, count)
    ensures Allow(Spent(cfg, ask, k), cfg, ask.now, ask.size) == (Spent(cfg, ask, k + 1), true)
  {
    TimesGrows(k + 1, count, (1, ask.size));
  }

  /** One happening more. */
  lemma OverMore(cfg: Config, hs: seq<Happening>, h: Happening, start: nat, end: nat)
    ensures LimiterOver(cfg, hs + [h]) == LimiterStep(cfg, LimiterOver(cfg, hs), h)
    ensures AllowedOver(cfg, hs + [h], start, end)
         == Plus(AllowedOver(cfg, hs, start, end), Gain(cfg, LimiterOver(cfg, hs), h, start, end))
  {
    assert (hs + [h])[..|hs|] == hs;
  }

  /** One question more within an allowance is allowed. */
  lemma BurstMore(cfg: Config, hs: seq<Happening>, ask: Ask, k: nat, count: nat, start: nat, end: nat)
    requires LimiterOver(cfg, hs) == Spent(cfg, ask, k) && k < count && Fits(cfg, ask, count) && start <= ask.now < end
    ensures LimiterOver(cfg, hs + [Question(ask)]) == Spent(cfg, ask, k + 1)
    ensures AllowedOver(cfg, hs + [Question(ask)], start, end) == Plus(AllowedOver(cfg, hs, start, end), (1, ask.size))
  {
    AskAllowed(cfg, ask, k, count);
    OverMore(cfg, hs, Question(ask), start, end);
  }

  /** A burst within an allowance is allowed. */
  ghost predicate Passed(cfg: Config, hs: seq<Happening>, ask: Ask, k: nat, start: nat, end: nat) {
    && LimiterOver(cfg, Burst(hs, ask, k)) == Spent(cfg, ask, k)
    && AllowedOver(cfg, Burst(hs, ask, k), start, end)
       == Plus(AllowedOver(cfg, hs, start, end), Times(k, (1, ask.size)))
  }

  lemma {:induction false} BurstAllowed(cfg: Config, hs: seq<Happening>, ask: Ask, k: nat, count: nat, start: nat,
                                        end: nat)
    requires LimiterOver(cfg, hs) == EMPTY && k <= count && Fits(cfg, ask, count) && start <= ask.now < end
    ensures Passed(cfg, hs, ask, k, start, end)
    decreases k
  {
    if k == 0 {
    } else {
      BurstAllowed(cfg, hs, ask, k - 1, count, start, end);
      PassedMore(cfg, hs, ask, k - 1, count, start, end);
    }
  }

  lemma PassedMore(cfg: Config, hs: seq<Happening>, ask: Ask, k: nat, count: nat, start: nat, end: nat)
    requires Passed(cfg, hs, ask, k, start, end) && k < count && Fits(cfg, ask, count) && start <= ask.now < end
    ensures Passed(cfg, hs, ask, k + 1, start, end)
  {
    var shorter := Burst(hs, ask, k);
    BurstMore(cfg, shorter, ask, k, count, start, end);
    PlusMore(AllowedOver(cfg, hs, start, end), k, (1, ask.size));
    assert Burst(hs, ask, k + 1) == shorter + [Question(ask)];
  }

  lemma PlusMore(so: (nat, nat), k: nat, each: (nat, nat))
    ensures Plus(Plus(so, Times(k, each)), each) == Plus(so, Times(k + 1, each))
  {
  }

  /** With restarts between full bursts each burst is allowed in full. */
  lemma {:induction false} BurstsAllowed(cfg: Config, ask: Ask, count: nat, restarts: nat, start: nat, end: nat)
    requires Fits(cfg, ask, count) && start <= ask.now < end
    ensures AllowedOver(cfg, Bursts(ask, count, restarts), start, end)
            == Times(1 + restarts, Times(count, (1, ask.size)))
    decreases restarts
  {
    if restarts == 0 {
      BurstAllowed(cfg, [], ask, count, count, start, end);
    } else {
      var earlier := Bursts(ask, count, restarts - 1);
      BurstsAllowed(cfg, ask, count, restarts - 1, start, end);
      OverMore(cfg, earlier, Restart, start, end);
      BurstAllowed(cfg, earlier + [Restart], ask, count, count, start, end);
    }
  }

  lemma BurstsInWindow(cfg: Config, ask: Ask, count: nat, restarts: nat)
    requires count <= cfg.maxEnvelopes && count * ask.size <= cfg.maxBytes
    ensures var window := Window(cfg, ask.now);
            AllowedOver(cfg, Bursts(ask, count, restarts), StartOf(cfg, window), StartOf(cfg, window + 1))
            == ((1 + restarts) * count, (1 + restarts) * (count * ask.size))
  {
    var window := Window(cfg, ask.now);
    WindowBounds(cfg, ask.now, window);
    TimesIsProduct(count, (1, ask.size));
    TimesIsProduct(1 + restarts, (count, count * ask.size));
    BurstsAllowed(cfg, ask, count, restarts, StartOf(cfg, window), StartOf(cfg, window + 1));
  }

  /** They are made of the question and of so many restarts, in an order the clock allows. */
  ghost predicate MadeOf(hs: seq<Happening>, ask: Ask, restarts: nat) {
    && RestartsIn(hs) == restarts && Clocked(hs) && LastAsked(hs) <= ask.now
    && forall h | h in hs :: h == Question(ask) || h == Restart
  }

  lemma MadeMore(hs: seq<Happening>, ask: Ask, restarts: nat)
    requires MadeOf(hs, ask, restarts)
    ensures MadeOf(hs + [Question(ask)], ask, restarts) && MadeOf(hs + [Restart], ask, restarts + 1)
  {
    assert (hs + [Question(ask)])[..|hs|] == hs && (hs + [Restart])[..|hs|] == hs;
  }

  lemma {:induction false} BurstMade(hs: seq<Happening>, ask: Ask, count: nat, restarts: nat)
    requires MadeOf(hs, ask, restarts)
    ensures MadeOf(Burst(hs, ask, count), ask, restarts)
    decreases count
  {
    if count == 0 {
    } else {
      BurstMade(hs, ask, count - 1, restarts);
      MadeMore(Burst(hs, ask, count - 1), ask, restarts);
    }
  }

  lemma {:induction false} BurstsMade(ask: Ask, count: nat, restarts: nat)
    ensures MadeOf(Bursts(ask, count, restarts), ask, restarts)
    decreases restarts
  {
    if restarts == 0 {
      BurstMade([], ask, count, 0);
    } else {
      BurstsMade(ask, count, restarts - 1);
      MadeMore(Bursts(ask, count, restarts - 1), ask, restarts - 1);
      BurstMade(Bursts(ask, count, restarts - 1) + [Restart], ask, count, restarts);
    }
  }

  /** As many equal questions as fit one allowance exceed a cap when they come once more. */
  lemma FullBurst(cfg: Config, size: nat, restarts: nat) returns (count: nat)
    requires cfg.maxEnvelopes >= 1 && 1 <= size <= cfg.maxBytes && restarts >= 1
    ensures count <= cfg.maxEnvelopes && count * size <= cfg.maxBytes
    ensures (1 + restarts) * count > cfg.maxEnvelopes || (1 + restarts) * (count * size) > cfg.maxBytes
  {
    if cfg.maxEnvelopes * size <= cfg.maxBytes {
      count := cfg.maxEnvelopes;
      MoreThanOnce(count, restarts);
    } else {
      count := cfg.maxBytes / size;
      Quotient(cfg.maxBytes, size, cfg.maxEnvelopes);
      MoreThanOnce(count * size, restarts);
    }
  }

  lemma MoreThanOnce(x: nat, restarts: nat)
    requires restarts >= 1
    ensures (1 + restarts) * x >= x + x
  {
    assert (1 + restarts) * x == x + x + (restarts - 1) * x;
  }

  lemma Quotient(total: nat, size: nat, most: nat)
    requires 1 <= size <= total < most * size
    ensures var count := total / size;
            count * size <= total < count * size + count * size && count < most
  {
    var count := total / size;
    assert total == count * size + total % size;
    assert count * size >= size;
    FewerTimes(count, most, size, total % size);
  }

  lemma FewerTimes(count: nat, most: nat, size: nat, rest: nat)
    requires count * size + rest < most * size
    ensures count < most
  {
    assert (most - count) * size > 0;
  }
}
