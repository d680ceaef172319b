/** What one peer can get past a node's rate limiter over a whole run of the node (core/src/relay.rs). */
module Admission {
  import opened Bytes
  import opened Envelopes
  import opened Engine
  import opened RateLimiting
  import opened Relay
  import opened CM = ContactMessages
  import Accounts
  import Puzzle

  /** What can happen at a node while its rate limits stay as they are. A frame is given as the message it parses
      to and its size; bytes that do not parse change nothing. */
  datatype Event =
    | Heard(from: nat, message: ContactMessage, size: nat, now: nat)
    | Composed(envelope: Envelope, now: nat)
    | Connected(peer: nat)
    | Lost(peer: nat)
    | Purged(now: nat)
    | Tuned(difficulty: byte)

  /** The state a node is left in by one event. */
  ghost function Step(o: Oracles, n: Node, event: Event): Node {
    match event
    case Heard(from, m, size, now) => if m.Valid() then OnMessage(o, n, from, m, size, now).0 else n
    case Composed(e, now) => Compose(o, n, e, now).0
    case Connected(peer) => Connect(n, peer)
    case Lost(peer) => Lose(n, peer)
    case Purged(now) => n.(store := n.store.(entries := Unexpired(n.store.entries, now)))
    case Tuned(difficulty) => n.(difficulty := difficulty)
  }

  ghost function After(o: Oracles, n: Node, events: seq<Event>): Node {
    if events == [] then n else Step(o, After(o, n, events[..|events| - 1]), events[|events| - 1])
  }

  /** A data frame of this peer that passes the puzzle, and so is a question on its account. */
  ghost predicate Asks(o: Oracles, difficulty: byte, event: Event, peer: nat) {
    && event.Heard? && event.from == peer && event.message.Data?
    && Puzzle.Verifies(o.digest, event.message.envelope.Id(), event.message.puzzleNonce, difficulty)
  }

  /** A frame of this peer that gets as far as the store. */
  ghost predicate Admits(o: Oracles, n: Node, event: Event, peer: nat) {
    Asks(o, n.difficulty, event, peer) && Allow(PeerOf(n, peer).rate, n.limits, event.now, event.size).1
  }

  /** What does not get that far has no effect on the store and is not relayed. */
  lemma OnlyAdmittedAct(o: Oracles, n: Node, event: Event)
    requires event.Heard? && event.message.Data? && !Admits(o, n, event, event.from)
    ensures Step(o, n, event).store == n.store
    ensures OnMessage(o, n, event.from, event.message, event.size, event.now).1 == {}
  {
  }

  /** And what does is stored exactly if it is live and the store has room or something less urgent to give up. */
  lemma AdmittedIsStored(o: Oracles, n: Node, event: Event)
    requires event.Heard? && event.message.Data? && Valid(n.store) && event.message.envelope.Id() !in n.store.entries
    ensures event.message.envelope.Id() in Step(o, n, event).store.entries
       <==> Admits(o, n, event, event.from) && event.now < event.message.envelope.expiresAt
            && event.message.envelope.ttlHops >= 1
            && (|n.store.entries| < n.store.capacity || Outranks(event.message.envelope, n.store))
  {
    AcceptAnswers(n.store, event.message.envelope, event.now);
    StoredIff(n.store, event.message.envelope, event.now);
  }

  /** One frame and its bytes, if it is admitted and falls in the time looked at. */
  ghost function Gain(o: Oracles, n: Node, event: Event, peer: nat, start: nat, end: nat): (nat, nat) {
    if Admits(o, n, event, peer) && start <= event.now < end then (1, event.size) else (0, 0)
  }

  /** How many frames of a peer, and how many bytes of them, were admitted at times from `start` up to `end`. */
  ghost function Admitted(o: Oracles, n: Node, events: seq<Event>, peer: nat, start: nat, end: nat): (nat, nat) {
    if events == [] then (0, 0)
    else
      var before, last := events[..|events| - 1], events[|events| - 1];
      Accounts.Plus(Admitted(o, n, before, peer, start, end), Gain(o, After(o, n, before), last, peer, start, end))
  }

  /** A connect starts the peer's account afresh; a loss drops it, and the next frame opens a new one. */
  predicate Restarts(event: Event, peer: nat) {
    event == Connected(peer) || event == Lost(peer)
  }

  function RestartCount(events: seq<Event>, peer: nat): nat {
    if events == [] then 0
    else RestartCount(events[..|events| - 1], peer) + if Restarts(events[|events| - 1], peer) then 1 else 0
  }

  /** When a peer was last heard. */
  function LastHeard(events: seq<Event>, peer: nat): nat {
    if events == [] then 0
    else
      var last := events[|events| - 1];
      if last.Heard? && last.from == peer then last.now else LastHeard(events[..|events| - 1], peer)
  }

  /** The clock by which a peer is heard does not go back. */
  predicate Clocked(events: seq<Event>, peer: nat) {
    events == [] || (
      var before, last := events[..|events| - 1], events[|events| - 1];
      Clocked(before, peer) && (last.Heard? && last.from == peer ==> LastHeard(before, peer) <= last.now))
  }

  // ----- the account behind it -----

  /** What an event is to a peer's account. */
  ghost function Look(o: Oracles, difficulty: byte, event: Event, peer: nat): Accounts.Happening {
    if Restarts(event, peer) then Accounts.Restart
    else if Asks(o, difficulty, event, peer) then Accounts.Question(Ask(event.now, event.size))
    else Accounts.Nothing
  }

  ghost function Happenings(o: Oracles, n: Node, events: seq<Event>, peer: nat): seq<Accounts.Happening> {
    if events == [] then []
    else
      var before, last := events[..|events| - 1], events[|events| - 1];
      Happenings(o, n, before, peer) + [Look(o, After(o, n, before).difficulty, last, peer)]
  }

  /** A connect or a loss starts a peer's account afresh; each data frame of its own that passes the puzzle is one
      question on it; and nothing else that happens at the node touches it. */
  lemma StepAccount(o: Oracles, n: Node, event: Event, peer: nat)
    ensures PeerOf(Step(o, n, event), peer).rate
         == Accounts.LimiterStep(n.limits, PeerOf(n, peer).rate, Look(o, n.difficulty, event, peer))
    ensures Step(o, n, event).limits == n.limits
    ensures !event.Tuned? ==> Step(o, n, event).difficulty == n.difficulty
  {
  }

  /** What is admitted is what the account allows. */
  lemma StepGain(o: Oracles, n: Node, event: Event, peer: nat, start: nat, end: nat)
    ensures Gain(o, n, event, peer, start, end)
         == Accounts.Gain(n.limits, PeerOf(n, peer).rate, Look(o, n.difficulty, event, peer), start, end)
  {
  }

  lemma {:induction false} RunAccount(o: Oracles, n: Node, events: seq<Event>, peer: nat)
    requires PeerOf(n, peer).rate == EMPTY
    ensures After(o, n, events).limits == n.limits
    ensures PeerOf(After(o, n, events), peer).rate == Accounts.LimiterOver(n.limits, Happenings(o, n, events, peer))
    decreases |events|
  {
    if events == [] {
    } else {
      var before, last := events[..|events| - 1], events[|events| - 1];
      RunAccount(o, n, before, peer);
      StepAccount(o, After(o, n, before), last, peer);
      Accounts.OverMore(n.limits, Happenings(o, n, before, peer), Look(o, After(o, n, before).difficulty, last, peer),
                        0, 0);
    }
  }

  lemma {:induction false} RunAllowed(o: Oracles, n: Node, events: seq<Event>, peer: nat, start: nat, end: nat)
    requires PeerOf(n, peer).rate == EMPTY
    ensures Admitted(o, n, events, peer, start, end)
         == Accounts.AllowedOver(n.limits, Happenings(o, n, events, peer), start, end)
    decreases |events|
  {
    if events == [] {
    } else {
      var before, last := events[..|events| - 1], events[|events| - 1];
      RunAllowed(o, n, before, peer, start, end);
      RunAccount(o, n, before, peer);
      StepGain(o, After(o, n, before), last, peer, start, end);
      Accounts.OverMore(n.limits, Happenings(o, n, before, peer), Look(o, After(o, n, before).difficulty, last, peer),
                        start, end);
    }
  }

  lemma {:induction false} RunRestarts(o: Oracles, n: Node, events: seq<Event>, peer: nat)
    ensures Accounts.RestartsIn(Happenings(o, n, events, peer)) == RestartCount(events, peer)
    decreases |events|
  {
    if events == [] {
    } else {
      RunRestarts(o, n, events[..|events| - 1], peer);
    }
  }

  lemma {:induction false} RunClocked(o: Oracles, n: Node, events: seq<Event>, peer: nat)
    requires Clocked(events, peer)
    ensures Accounts.Clocked(Happenings(o, n, events, peer))
    ensures Accounts.LastAsked(Happenings(o, n, events, peer)) <= LastHeard(events, peer)
    decreases |events|
  {
    if events == [] {
    } else {
      RunClocked(o, n, events[..|events| - 1], peer);
    }
  }

  lemma RunCaps(o: Oracles, n: Node, events: seq<Event>, peer: nat, start: nat, end: nat, most: (nat, nat))
    requires PeerOf(n, peer).rate == EMPTY && Clocked(events, peer) && Accounts.Capped(n.limits, start, end, most)
    ensures var (admitted, size) := Admitted(o, n, events, peer, start, end);
            var accounts := 1 + RestartCount(events, peer);
            admitted <= accounts * most.0 && size <= accounts * most.1
  {
    RunAllowed(o, n, events, peer, start, end);
    RunRestarts(o, n, events, peer);
    RunClocked(o, n, events, peer);
    Accounts.AllowedCapped(n.limits, Happenings(o, n, events, peer), start, end, most);
    Accounts.TimesIsProduct(1 + RestartCount(events, peer), most);
  }

  // ----- the caps, and what they depend on -----

  /** Over any run of a node, whoever else it hears, meets, loses or writes for, and from any state in which the
      peer's account is fresh: within every rate window the peer gets no more envelopes and bytes past the limiter
      than the caps, and one more time the caps for each time it is connected or lost meanwhile. */
  lemma PeerWindowCaps(o: Oracles, n: Node, events: seq<Event>, peer: nat, window: nat)
    requires PeerOf(n, peer).rate == EMPTY && Clocked(events, peer)
    ensures var (admitted, size) :=
            Admitted(o, n, events, peer, StartOf(n.limits, window), StartOf(n.limits, window + 1));
            var accounts := 1 + RestartCount(events, peer);
            admitted <= accounts * n.limits.maxEnvelopes && size <= accounts * n.limits.maxBytes
  {
    Accounts.CappedInWindow(n.limits, window);
    RunCaps(o, n, events, peer, StartOf(n.limits, window), StartOf(n.limits, window + 1),
            (n.limits.maxEnvelopes, n.limits.maxBytes));
  }

  /** Any stretch as long as a window, wherever it starts, sees at most twice that. */
  lemma PeerStretchCaps(o: Oracles, n: Node, events: seq<Event>, peer: nat, start: nat)
    requires PeerOf(n, peer).rate == EMPTY && Clocked(events, peer)
    ensures var (admitted, size) := Admitted(o, n, events, peer, start, start + Width(n.limits));
            var accounts := 1 + RestartCount(events, peer);
            admitted <= accounts * (2 * n.limits.maxEnvelopes) && size <= accounts * (2 * n.limits.maxBytes)
  {
    Accounts.CappedInStretch(n.limits, start);
    RunCaps(o, n, events, peer, start, start + Width(n.limits), (2 * n.limits.maxEnvelopes, 2 * n.limits.maxBytes));
  }

  // ----- losing contact renews the allowance -----

  /** No event changes the difficulty. */
  predicate Untuned(events: seq<Event>) {
    forall event | event in events :: !event.Tuned?
  }

  lemma {:induction false} DifficultyStays(o: Oracles, n: Node, events: seq<Event>)
    requires Untuned(events)
    ensures After(o, n, events).difficulty == n.difficulty
    decreases |events|
  {
    if events == [] {
    } else {
      var before, last := events[..|events| - 1], events[|events| - 1];
      assert last in events && forall event | event in before :: event in events;
      DifficultyStays(o, n, before);
      StepAccount(o, After(o, n, before), last, 0);
    }
  }

  /** The same frame again and again, and losses of the peer that sends it. */
  function Replay(hs: seq<Accounts.Happening>, frame: Event, peer: nat): (events: seq<Event>)
    ensures |events| == |hs|
  {
    seq(|hs|, i requires 0 <= i < |hs| => if hs[i].Question? then frame else Lost(peer))
  }

  predicate OnlyReplays(events: seq<Event>, frame: Event, peer: nat) {
    forall event | event in events :: event == frame || event == Lost(peer)
  }

  lemma ReplayMore(hs: seq<Accounts.Happening>, frame: Event, peer: nat)
    requires hs != []
    ensures Replay(hs, frame, peer)[..|hs| - 1] == Replay(hs[..|hs| - 1], frame, peer)
    ensures OnlyReplays(Replay(hs, frame, peer), frame, peer)
  {
  }

  lemma {:induction false} ReplayHappens(o: Oracles, n: Node, hs: seq<Accounts.Happening>, frame: Event, peer: nat,
                                         restarts: nat)
    requires Asks(o, n.difficulty, frame, peer) && Accounts.MadeOf(hs, Ask(frame.now, frame.size), restarts)
    ensures Happenings(o, n, Replay(hs, frame, peer), peer) == hs
    decreases |hs|
  {
    if hs == [] {
    } else {
      var before, last := hs[..|hs| - 1], hs[|hs| - 1];
      assert last in hs && forall h | h in before :: h in hs;
      ReplayMore(hs, frame, peer);
      DifficultyStays(o, n, Replay(before, frame, peer));
      ReplayHappens(o, n, before, frame, peer, Accounts.RestartsIn(before));
      assert hs == before + [last];
    }
  }

  lemma {:induction false} ReplayClocked(events: seq<Event>, frame: Event, peer: nat)
    requires frame.Heard? && OnlyReplays(events, frame, peer)
    ensures Clocked(events, peer) && LastHeard(events, peer) <= frame.now
    decreases |events|
  {
    if events == [] {
    } else {
      var before, last := events[..|events| - 1], events[|events| - 1];
      assert last in events && forall event | event in before :: event in events;
      ReplayClocked(before, frame, peer);
    }
  }

  /** The bound is sharp: with no connect at all and any number of losses, a peer gets whatever fits one allowance
      once more after each loss, within one and the same window. */
  lemma LossRenewsAllowance(o: Oracles, n: Node, peer: nat, frame: Event, count: nat, losses: nat)
    returns (events: seq<Event>)
    requires Asks(o, n.difficulty, frame, peer) && PeerOf(n, peer).rate == EMPTY
    requires count <= n.limits.maxEnvelopes && count * frame.size <= n.limits.maxBytes
    ensures Clocked(events, peer) && RestartCount(events, peer) == losses && OnlyReplays(events, frame, peer)
    ensures var window := Window(n.limits, frame.now);
            Admitted(o, n, events, peer, StartOf(n.limits, window), StartOf(n.limits, window + 1))
            == ((1 + losses) * count, (1 + losses) * (count * frame.size))
  {
    var ask := Ask(frame.now, frame.size);
    var hs := Accounts.Bursts(ask, count, losses);
    Accounts.BurstsMade(ask, count, losses);
    events := Replay(hs, frame, peer);
    ReplayHappens(o, n, hs, frame, peer, losses);
    ReplayClocked(events, frame, peer);
    RunRestarts(o, n, events, peer);
    RunAllowed(o, n, events, peer, StartOf(n.limits, Window(n.limits, frame.now)),
               StartOf(n.limits, Window(n.limits, frame.now) + 1));
    Accounts.BurstsInWindow(n.limits, ask, count, losses);
  }

  // ----- exactly when the caps hold -----

  /** A message that prints as a frame the node can receive and parse. */
  predicate Sendable(m: ContactMessage) {
    m.Valid() && |CM.Payload(m)| < U32_LIMIT
  }

  /** What is heard are frames as they arrive: their size is the number of their bytes. */
  predicate Received(events: seq<Event>) {
    forall event | event in events && event.Heard? ::
        Sendable(event.message) && event.size == |CM.ToBytes(event.message)|
  }

  ghost predicate CapsKept(o: Oracles, n: Node, events: seq<Event>, peer: nat, window: nat) {
    var (admitted, size) := Admitted(o, n, events, peer, StartOf(n.limits, window), StartOf(n.limits, window + 1));
    admitted <= n.limits.maxEnvelopes && size <= n.limits.maxBytes
  }

  /** A run of the node as it is set up, in which a peer's account is restarted so many times. */
  predicate RunWith(events: seq<Event>, peer: nat, restarts: nat) {
    Received(events) && Untuned(events) && Clocked(events, peer) && RestartCount(events, peer) == restarts
  }

  /** Both caps hold in every window of every such run. */
  ghost predicate CapsHold(o: Oracles, n: Node, peer: nat, restarts: nat) {
    forall events, window: nat | RunWith(events, peer, restarts) :: CapsKept(o, n, events, peer, window)
  }

  /** A frame the node can receive that satisfies its puzzle and fits an unused allowance. */
  ghost predicate Passes(o: Oracles, n: Node, m: ContactMessage) {
    && m.Data? && Sendable(m) && Puzzle.Verifies(o.digest, m.envelope.Id(), m.puzzleNonce, n.difficulty)
    && n.limits.maxEnvelopes >= 1 && |CM.ToBytes(m)| <= n.limits.maxBytes
  }

  ghost predicate SomePasses(o: Oracles, n: Node) {
    exists m :: Passes(o, n, m)
  }

  /** The least a data frame takes: its own header, a nonce and the fixed fields of an envelope. */
  const MIN_FRAME: nat := 30

  lemma FrameSize(m: ContactMessage)
    requires m.Data?
    ensures |CM.ToBytes(m)| == MIN_FRAME + |m.envelope.addressing.TargetBytes()| + |m.envelope.sealed|
  {
  }

  /** Without a puzzle the frame is easily found: it is a question of the caps alone. */
  lemma SomePassesWithoutPuzzle(o: Oracles, n: Node)
    requires n.difficulty == 0
    ensures SomePasses(o, n) <==> n.limits.maxEnvelopes >= 1 && n.limits.maxBytes >= MIN_FRAME
  {
    var least := Data(Envelope(Broadcast, Low, 1, 1, []), 0);
    FrameSize(least);
    assert n.limits.maxEnvelopes >= 1 && n.limits.maxBytes >= MIN_FRAME ==> Passes(o, n, least);
    forall m | Passes(o, n, m)
      ensures n.limits.maxBytes >= MIN_FRAME
    {
      FrameSize(m);
    }
  }

  lemma {:induction false} NoQuestionFits(o: Oracles, n: Node, events: seq<Event>, peer: nat)
    requires Received(events) && Untuned(events) && !SomePasses(o, n)
    ensures forall i | 0 <= i < |Happenings(o, n, events, peer)| ::
              Accounts.TooLarge(n.limits, Happenings(o, n, events, peer)[i])
    decreases |events|
  {
    if events == [] {
    } else {
      var before, last := events[..|events| - 1], events[|events| - 1];
      assert last in events && forall event | event in before :: event in events;
      NoQuestionFits(o, n, before, peer);
      DifficultyStays(o, n, before);
      QuestionTooLarge(o, n, last, peer);
    }
  }

  lemma QuestionTooLarge(o: Oracles, n: Node, event: Event, peer: nat)
    requires Asks(o, n.difficulty, event, peer) ==> Sendable(event.message) && event.size == |CM.ToBytes(event.message)|
    requires !SomePasses(o, n)
    ensures Accounts.TooLarge(n.limits, Look(o, n.difficulty, event, peer))
  {
    if Asks(o, n.difficulty, event, peer) {
      assert !Passes(o, n, event.message);
    }
  }

  lemma NothingAdmitted(o: Oracles, n: Node, events: seq<Event>, peer: nat, window: nat)
    requires PeerOf(n, peer).rate == EMPTY && Received(events) && Untuned(events) && !SomePasses(o, n)
    ensures CapsKept(o, n, events, peer, window)
  {
    NoQuestionFits(o, n, events, peer);
    RunAllowed(o, n, events, peer, StartOf(n.limits, window), StartOf(n.limits, window + 1));
    Accounts.NoneAllowed(n.limits, Happenings(o, n, events, peer), StartOf(n.limits, window),
                         StartOf(n.limits, window + 1));
  }

  /** The run that breaks a cap: as many equal frames as fit one allowance, and as many again after each loss. */
  lemma CapsBroken(o: Oracles, n: Node, peer: nat, m: ContactMessage, restarts: nat) returns (events: seq<Event>)
    requires PeerOf(n, peer).rate == EMPTY && Passes(o, n, m) && restarts >= 1
    ensures RunWith(events, peer, restarts) && !CapsKept(o, n, events, peer, Window(n.limits, 0))
  {
    FrameSize(m);
    var frame := Heard(peer, m, |CM.ToBytes(m)|, 0);
    var count := Accounts.FullBurst(n.limits, frame.size, restarts);
    events := LossRenewsAllowance(o, n, peer, frame, count, restarts);
  }

  lemma CapsBreak(o: Oracles, n: Node, peer: nat, restarts: nat)
    requires PeerOf(n, peer).rate == EMPTY && SomePasses(o, n) && restarts >= 1
    ensures !CapsHold(o, n, peer, restarts)
  {
    var m :| Passes(o, n, m);
    var events := CapsBroken(o, n, peer, m, restarts);
    assert !CapsKept(o, n, events, peer, Window(n.limits, 0));
  }

  lemma UndisturbedCaps(o: Oracles, n: Node, events: seq<Event>, peer: nat, window: nat)
    requires PeerOf(n, peer).rate == EMPTY && Clocked(events, peer) && RestartCount(events, peer) == 0
    ensures CapsKept(o, n, events, peer, window)
  {
    PeerWindowCaps(o, n, events, peer, window);
  }

  lemma CapsStay(o: Oracles, n: Node, events: seq<Event>, peer: nat, restarts: nat, window: nat)
    requires PeerOf(n, peer).rate == EMPTY && RunWith(events, peer, restarts)
    requires restarts == 0 || !SomePasses(o, n)
    ensures CapsKept(o, n, events, peer, window)
  {
    if restarts == 0 {
      UndisturbedCaps(o, n, events, peer, window);
    } else {
      NothingAdmitted(o, n, events, peer, window);
    }
  }

  /** The exact condition: from a fresh account both caps hold in every window, whatever happens at the node, if and
      only if the peer is neither connected nor lost meanwhile, or no data frame can pass at all. */
  lemma CapsHoldIff(o: Oracles, n: Node, peer: nat, restarts: nat)
    requires PeerOf(n, peer).rate == EMPTY
    ensures CapsHold(o, n, peer, restarts) <==> restarts == 0 || !SomePasses(o, n)
  {
    if restarts >= 1 && SomePasses(o, n) {
      CapsBreak(o, n, peer, restarts);
    } else {
      forall events, window: nat | RunWith(events, peer, restarts)
        ensures CapsKept(o, n, events, peer, window)
      {
        CapsStay(o, n, events, peer, restarts, window);
      }
    }
  }
}
