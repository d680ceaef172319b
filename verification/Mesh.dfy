/** Many nodes over a network that loses, duplicates and reorders frames: where copies of an envelope can be,
    and why honest frames pass the puzzle check (core/src/relay.rs, core/src/engine.rs, core/src/puzzle.rs). */
module Mesh {
  import opened Bytes
  import opened Collections
  import opened Wrappers
  import opened Envelopes
  import opened Engine
  import opened Durable
  import opened Relay
  import opened CM = ContactMessages
  import Puzzle

  /** One delivery of a data frame: of which envelope, from where, to where. */
  datatype Hop = Hop(id: EnvelopeId, from: nat, to: nat)

  /** Where a copy came from: the envelope as composed, the nodes that have held it since, in order, and for each
      move from one to the next the number of the delivery that made it. The source keeps no such record; the
      model adds it to every stored and every sent copy. */
  datatype Trail = Trail(born: Envelope, path: seq<nat>, steps: seq<nat>)

  datatype Frame = Frame(from: nat, to: nat, message: ContactMessage, trail: Option<Trail>)

  /** `composed` remembers who composed what, and `hops` every delivery of a data frame, in order. */
  datatype Net = Net(
    nodes: map<nat, Node>, flight: seq<Frame>, trails: map<(nat, EnvelopeId), Trail>,
    composed: set<(nat, Envelope)>, hops: seq<Hop>)

  /** A node may restart from any part of its store's image: the whole of it after a clean stop, less after a crash in
      the middle of an offer, a purge or a reload (`Durable.CrashLeavesPart`, `Durable.ReloadCrash`). */
  datatype Event =
    | Connected(at: nat, peer: nat)
    | Lost(at: nat, peer: nat)
    | Composed(at: nat, envelope: Envelope, now: nat, outs: seq<Outbound>)
    | Deliver(i: nat, now: nat, outs: seq<Outbound>)
    | Vanish(i: nat)
    | Duplicate(i: nat)
    | Purge(at: nat, now: nat)
    | Restart(at: nat, key: MasterKey, disk: Disk, ids: seq<EnvelopeId>, capacity: nat, now: nat)

  /** Whether a message survives being printed and parsed: only one too long for its length field does not. */
  predicate Carries(m: ContactMessage) {
    |Payload(m)| < U32_LIMIT
  }

  function Without(flight: seq<Frame>, i: nat): seq<Frame>
    requires i < |flight|
  {
    flight[..i] + flight[i + 1..]
  }

  function SentFrame(net: Net, at: nat, out: Outbound): Frame {
    Frame(at, out.to, out.message,
          if out.message.Data? && (at, out.message.envelope.Id()) in net.trails
          then Some(net.trails[(at, out.message.envelope.Id())]) else None)
  }

  function Send(net: Net, at: nat, outs: seq<Outbound>): Net {
    net.(flight := net.flight + seq(|outs|, k requires 0 <= k < |outs| => SentFrame(net, at, outs[k])))
  }

  /** What a node makes of a frame: the bytes are parsed first, and an unparsable frame changes nothing. */
  ghost function Handle(o: Oracles, n: Node, f: Frame, now: nat): (Node, set<Outbound>)
    requires f.message.Valid()
  {
    if Carries(f.message) then OnMessage(o, n, f.from, f.message, |CM.ToBytes(f.message)|, now) else (n, {})
  }

  /** `Handle` on messages is what the engine does with the printed bytes. */
  lemma HandleIsOnFrame(o: Oracles, n: Node, f: Frame, now: nat)
    requires f.message.Valid()
    ensures match CM.FromBytes(CM.ToBytes(f.message))
            case Success(m) =>
              m == f.message && Handle(o, n, f, now) == OnMessage(o, n, f.from, m, |CM.ToBytes(f.message)|, now)
            case Failure(_) => Handle(o, n, f, now) == (n, {})
  {
    CM.ParsePrint(f.message);
  }

  ghost predicate Possible(o: Oracles, net: Net, event: Event) {
    match event
    case Connected(at, peer) => at in net.nodes && peer in net.nodes
    case Lost(at, peer) => at in net.nodes
    case Composed(at, e, now, outs) =>
      && at in net.nodes && Puzzle.Solvable(o.digest, e.Id(), net.nodes[at].difficulty)
      && Enumerates(outs, Compose(o, net.nodes[at], e, now).2)
    case Deliver(i, now, outs) =>
      && i < |net.flight| && net.flight[i].to in net.nodes && net.flight[i].message.Valid()
      && Enumerates(outs, Handle(o, net.nodes[net.flight[i].to], net.flight[i], now).1)
    case Vanish(i) => i < |net.flight|
    case Duplicate(i) => i < |net.flight|
    case Purge(at, now) => at in net.nodes
    case Restart(at, key, disk, ids, _, _) =>
      at in net.nodes && Part(disk, Mirror(net.nodes[at].store, key)) && Lists(ids, disk)
  }

  function Moved(trail: Trail, to: nat, step: nat): Trail {
    Trail(trail.born, trail.path + [to], trail.steps + [step])
  }

  /** The net once a frame has been taken out of it and handled, leaving its target as `n'`. */
  function Landed(net: Net, i: nat, n': Node): Net
    requires i < |net.flight| && net.flight[i].to in net.nodes
  {
    var f := net.flight[i];
    net.(nodes := net.nodes[f.to := n'],
         flight := Without(net.flight, i),
         hops := net.hops + if f.message.Data? then [Hop(f.message.envelope.Id(), f.from, f.to)] else [],
         trails :=
           if f.trail.Some? && f.message.Data?
              && f.message.envelope.Id() !in net.nodes[f.to].store.entries
              && f.message.envelope.Id() in n'.store.entries
           then net.trails[(f.to, f.message.envelope.Id()) := Moved(f.trail.value, f.to, |net.hops|)]
           else net.trails)
  }

  ghost function Arrived(o: Oracles, net: Net, i: nat, now: nat): Net
    requires i < |net.flight| && net.flight[i].to in net.nodes && net.flight[i].message.Valid()
  {
    Landed(net, i, Handle(o, net.nodes[net.flight[i].to], net.flight[i], now).0)
  }

  /** The net once somebody has composed an envelope, leaving its node as `n'`. */
  function Added(net: Net, at: nat, e: Envelope, n': Node, stored: bool): Net
    requires at in net.nodes
  {
    net.(nodes := net.nodes[at := n'],
         composed := net.composed + {(at, e)},
         trails := if stored then net.trails[(at, e.Id()) := Trail(e, [at], [])] else net.trails)
  }

  ghost function ComposedAt(o: Oracles, net: Net, at: nat, e: Envelope, now: nat): Net
    requires at in net.nodes
  {
    Added(net, at, e, Compose(o, net.nodes[at], e, now).0, Compose(o, net.nodes[at], e, now).1.New?)
  }

  ghost function Step(o: Oracles, net: Net, event: Event): Net
    requires Possible(o, net, event)
  {
    match event
    case Connected(at, peer) =>
      var n' := Connect(net.nodes[at], peer);
      Send(net.(nodes := net.nodes[at := n']), at, [Outbound(peer, Hello(o, n'))])
    case Lost(at, peer) => net.(nodes := net.nodes[at := Lose(net.nodes[at], peer)])
    case Composed(at, e, now, outs) => Send(ComposedAt(o, net, at, e, now), at, outs)
    case Deliver(i, now, outs) => Send(Arrived(o, net, i, now), net.flight[i].to, outs)
    case Vanish(i) => net.(flight := Without(net.flight, i))
    case Duplicate(i) => net.(flight := net.flight + [net.flight[i]])
    case Purge(at, now) =>
      var n := net.nodes[at];
      net.(nodes := net.nodes[at := n.(store := n.store.(entries := Unexpired(n.store.entries, now)))])
    case Restart(at, key, disk, ids, capacity, now) =>
      var n := net.nodes[at];
      var store := OpenAll(capacity, disk, key, ids, now).0;
      net.(nodes := net.nodes[at := Node(store, map[], n.difficulty, n.limits)])
  }

  // ----- the invariant -----

  /** Step `k` of a trail is a delivery of a frame with that very envelope. */
  ghost predicate Delivered(hops: seq<Hop>, trail: Trail, k: nat) {
    && k < |trail.steps| && k + 1 < |trail.path| && trail.steps[k] < |hops|
    && hops[trail.steps[k]] == Hop(trail.born.Id(), trail.path[k], trail.path[k + 1])
  }

  /** A trail that starts where its envelope was composed, ends at `at`, and whose every step was a delivery of
      that envelope, each later than the one before. */
  ghost predicate Leads(net: Net, trail: Trail, at: nat) {
    && trail.path != [] && trail.path[|trail.path| - 1] == at && |trail.path| == |trail.steps| + 1
    && (trail.path[0], trail.born) in net.composed
    && (forall k: nat | k < |trail.steps| :: Delivered(net.hops, trail, k))
    && (forall j, k | 0 <= j < k < |trail.steps| :: trail.steps[j] < trail.steps[k])
  }

  /** A copy with `hops` of its envelope's lifetime behind it, and at least one left. */
  ghost predicate CopyOk(net: Net, trail: Trail, at: nat, e: Envelope, hops: nat) {
    && Leads(net, trail, at)
    && e == trail.born.(ttlHops := e.ttlHops)
    && e.ttlHops + hops == trail.born.ttlHops && e.ttlHops >= 1
  }

  ghost predicate HeldOk(o: Oracles, difficulty: byte, net: Net, at: nat, e: Envelope) {
    && (at, e.Id()) in net.trails
    && net.trails[(at, e.Id())].path != []
    && CopyOk(net, net.trails[(at, e.Id())], at, e, |net.trails[(at, e.Id())].path| - 1)
    && Puzzle.Solvable(o.digest, e.Id(), difficulty)
  }

  ghost predicate NodeOk(o: Oracles, difficulty: byte, net: Net, at: nat) {
    && at in net.nodes
    && net.nodes[at].difficulty == difficulty && Valid(net.nodes[at].store)
    && net.nodes[at].peers.Keys <= net.nodes.Keys
    && forall id | id in net.nodes[at].store.entries ::
       HeldOk(o, difficulty, net, at, net.nodes[at].store.entries[id].envelope)
  }

  ghost predicate FrameOk(o: Oracles, difficulty: byte, net: Net, f: Frame) {
    && f.from in net.nodes && f.to in net.nodes && f.message.Valid()
    && (f.message.Data? ==>
          && f.trail.Some?
          && CopyOk(net, f.trail.value, f.from, f.message.envelope, |f.trail.value.path|)
          && Puzzle.Verifies(o.digest, f.message.envelope.Id(), f.message.puzzleNonce, difficulty))
  }

  ghost predicate NetOk(o: Oracles, difficulty: byte, net: Net) {
    && (forall at | at in net.nodes :: NodeOk(o, difficulty, net, at))
    && (forall f | f in net.flight :: FrameOk(o, difficulty, net, f))
  }

  /** Nodes come and go by no step here, and what is remembered only grows. */
  ghost predicate Grows(net: Net, net': Net) {
    net.nodes.Keys == net'.nodes.Keys && net.composed <= net'.composed && net.hops <= net'.hops
  }

  lemma CopyGrows(net: Net, net': Net, trail: Trail, at: nat, e: Envelope, hops: nat)
    requires CopyOk(net, trail, at, e, hops) && net.composed <= net'.composed && net.hops <= net'.hops
    ensures CopyOk(net', trail, at, e, hops)
  {
    forall k: nat | k < |trail.steps|
      ensures Delivered(net'.hops, trail, k)
    {
      assert Delivered(net.hops, trail, k);
    }
  }

  /** A stored copy stays in order as long as its trail is not overwritten. */
  lemma HeldGrows(o: Oracles, difficulty: byte, net: Net, net': Net, at: nat, e: Envelope)
    requires HeldOk(o, difficulty, net, at, e) && net.composed <= net'.composed && net.hops <= net'.hops
    requires (at, e.Id()) in net'.trails && net'.trails[(at, e.Id())] == net.trails[(at, e.Id())]
    ensures HeldOk(o, difficulty, net', at, e)
  {
    CopyGrows(net, net', net.trails[(at, e.Id())], at, e, |net.trails[(at, e.Id())].path| - 1);
  }

  lemma NodeGrows(o: Oracles, difficulty: byte, net: Net, net': Net, at: nat)
    requires NodeOk(o, difficulty, net, at) && Grows(net, net') && net'.nodes[at] == net.nodes[at]
    requires forall id | (at, id) in net.trails ::
             (at, id) in net'.trails && net'.trails[(at, id)] == net.trails[(at, id)]
    ensures NodeOk(o, difficulty, net', at)
  {
    forall id | id in net.nodes[at].store.entries
      ensures HeldOk(o, difficulty, net', at, net.nodes[at].store.entries[id].envelope)
    {
      HeldGrows(o, difficulty, net, net', at, net.nodes[at].store.entries[id].envelope);
    }
  }

  lemma FrameGrows(o: Oracles, difficulty: byte, net: Net, net': Net, f: Frame)
    requires FrameOk(o, difficulty, net, f) && Grows(net, net')
    ensures FrameOk(o, difficulty, net', f)
  {
    if f.message.Data? { CopyGrows(net, net', f.trail.value, f.from, f.message.envelope, |f.trail.value.path|); }
  }

  ghost predicate HoldsForRelay(n: Node, e: Envelope) {
    exists id :: id in n.store.entries && DecrementTtl(n.store.entries[id].envelope) == Some(e)
  }

  /** What a node may send: summaries, and copies of what it holds, one hop shorter and with a valid nonce. */
  ghost predicate OutOk(o: Oracles, difficulty: byte, net: Net, at: nat, out: Outbound) {
    && at in net.nodes && out.to in net.nodes && out.message.Valid()
    && (out.message.Data? ==>
          && Puzzle.Verifies(o.digest, out.message.envelope.Id(), out.message.puzzleNonce, difficulty)
          && HoldsForRelay(net.nodes[at], out.message.envelope))
  }

  lemma SentOk(o: Oracles, difficulty: byte, net: Net, at: nat, out: Outbound)
    requires at in net.nodes && NodeOk(o, difficulty, net, at) && OutOk(o, difficulty, net, at, out)
    ensures FrameOk(o, difficulty, net, SentFrame(net, at, out))
  {
    if out.message.Data? {
      var id :| id in net.nodes[at].store.entries
          && DecrementTtl(net.nodes[at].store.entries[id].envelope) == Some(out.message.envelope);
      var e := net.nodes[at].store.entries[id].envelope;
      assert HeldOk(o, difficulty, net, at, e);
      IdIgnoresOnlyHops(e, out.message.envelope);
    }
  }

  lemma SendOk(o: Oracles, difficulty: byte, net: Net, at: nat, outs: seq<Outbound>)
    requires NetOk(o, difficulty, net) && at in net.nodes
    requires forall out | out in outs :: OutOk(o, difficulty, net, at, out)
    ensures NetOk(o, difficulty, Send(net, at, outs))
  {
    var net' := Send(net, at, outs);
    forall v | v in net.nodes
      ensures NodeOk(o, difficulty, net', v)
    {
      NodeGrows(o, difficulty, net, net', v);
    }
    forall f | f in net'.flight
      ensures FrameOk(o, difficulty, net', f)
    {
      if f !in net.flight {
        var k :| 0 <= k < |outs| && f == SentFrame(net, at, outs[k]);
        SentOk(o, difficulty, net, at, outs[k]);
      }
      FrameGrows(o, difficulty, net, net', f);
    }
  }

  // ----- steps keep it -----

  /** What one message does to a node: its store keeps what it had or takes the message's envelope. */
  ghost predicate StateEffect(o: Oracles, n: Node, from: nat, m: ContactMessage, n': Node) {
    && Valid(n'.store) && n'.store.capacity == n.store.capacity && n'.difficulty == n.difficulty
    && n'.peers.Keys <= n.peers.Keys + {from}
    && (forall id | id in n'.store.entries && id in n.store.entries :: n'.store.entries[id] == n.store.entries[id])
    && (forall id | id in n'.store.entries && id !in n.store.entries ::
          && m.Data? && n'.store.entries[id].envelope == m.envelope
          && Puzzle.Verifies(o.digest, m.envelope.Id(), m.puzzleNonce, n.difficulty))
  }

  /** What it sends is summaries and copies of what it then holds. */
  ghost predicate OutEffect(o: Oracles, n: Node, from: nat, n': Node, out: Outbound) {
    && out.to in n.peers.Keys + {from} && out.message.Valid()
    && (out.message.Data? ==>
          && Puzzle.Verifies(o.digest, out.message.envelope.Id(), out.message.puzzleNonce, n.difficulty)
          && HoldsForRelay(n', out.message.envelope))
  }

  ghost predicate MessageEffect(o: Oracles, n: Node, from: nat, m: ContactMessage, n': Node, outs: set<Outbound>) {
    StateEffect(o, n, from, m, n') && forall out | out in outs :: OutEffect(o, n, from, n', out)
  }

  lemma RelayHolds(n: Node, peers: set<nat>, e: Envelope, nonce: u64, out: Outbound)
    requires out in RelayTo(peers, e, nonce)
    requires e.Id() in n.store.entries && n.store.entries[e.Id()].envelope == e
    ensures out.to in peers && out.message.Data? && out.message.puzzleNonce == nonce
    ensures out.message.envelope.Id() == e.Id() && HoldsForRelay(n, out.message.envelope)
  {
    IdIgnoresOnlyHops(e, DecrementTtl(e).value);
  }

  lemma AcceptKeeps(s: StoreState, e: Envelope, now: nat)
    requires Valid(s)
    ensures var (s', outcome, _) := AcceptStep(s, e, now);
            && Valid(s') && s'.capacity == s.capacity
            && (forall id | id in s'.entries && id in s.entries :: s'.entries[id] == s.entries[id])
            && (forall id | id in s'.entries && id !in s.entries :: id == e.Id() && outcome.New?)
            && (outcome.New? ==> e.Id() in s'.entries && s'.entries[e.Id()].envelope == e)
  {
    AcceptValid(s, e, now);
    AcceptOutcome(s, e, now);
    OutcomeKeeps(s, e, AcceptStep(s, e, now).0, AcceptStep(s, e, now).1, AcceptStep(s, e, now).2);
  }

  lemma OutcomeKeeps(s: StoreState, e: Envelope, s': StoreState, outcome: Accept, evicted: Option<EnvelopeId>)
    requires Outcome(s, e, s', outcome, evicted)
    ensures s'.capacity == s.capacity
    ensures forall id | id in s'.entries && id in s.entries :: s'.entries[id] == s.entries[id]
    ensures forall id | id in s'.entries && id !in s.entries :: id == e.Id() && outcome.New?
    ensures outcome.New? ==> e.Id() in s'.entries && s'.entries[e.Id()].envelope == e
  {
  }

  lemma DataState(o: Oracles, n: Node, from: nat, e: Envelope, nonce: u64, size: nat, now: nat)
    requires Valid(n.store)
    ensures StateEffect(o, n, from, Data(e, nonce), OnData(o, n, from, e, nonce, size, now).0)
  {
    AcceptKeeps(n.store, e, now);
  }

  lemma DataOut(o: Oracles, n: Node, from: nat, e: Envelope, nonce: u64, size: nat, now: nat, out: Outbound)
    requires Valid(n.store) && out in OnData(o, n, from, e, nonce, size, now).1
    ensures OutEffect(o, n, from, OnData(o, n, from, e, nonce, size, now).0, out)
  {
    AcceptKeeps(n.store, e, now);
    var n' := OnData(o, n, from, e, nonce, size, now).0;
    RelayHolds(n', n'.peers.Keys - {from}, e, nonce, out);
  }

  lemma SummaryState(o: Oracles, n: Node, from: nat, m: ContactMessage)
    requires Valid(n.store) && m.Summary? && m.Valid()
    ensures StateEffect(o, n, from, m, OnSummary(o, n, from, m.filter).0)
  {
  }

  lemma SummaryOut(o: Oracles, n: Node, from: nat, m: ContactMessage, out: Outbound)
    requires Valid(n.store) && m.Summary? && m.Valid() && out in OnSummary(o, n, from, m.filter).1
    requires forall id | id in n.store.entries :: Puzzle.Solvable(o.digest, id, n.difficulty)
    ensures OutEffect(o, n, from, OnSummary(o, n, from, m.filter).0, out)
  {
    HelloValid(o, n);
    if out.message.Data? {
      var e :| e in MissingByFilter(n.store, o.hash, m.filter) && DecrementTtl(e).Some?
          && out == Push(o, n.difficulty, from, e);
      IdIgnoresOnlyHops(e, DecrementTtl(e).value);
    }
  }

  lemma HelloValid(o: Oracles, n: Node)
    requires Valid(n.store)
    ensures Hello(o, n).Valid()
  {
    BloomRefinesExact(n.store, n.store, o.hash, o.sizing);
  }

  lemma HandleState(o: Oracles, n: Node, f: Frame, now: nat)
    requires Valid(n.store) && f.message.Valid()
    ensures StateEffect(o, n, f.from, f.message, Handle(o, n, f, now).0)
  {
    if Carries(f.message) {
      match f.message
      case Summary(_) => SummaryState(o, n, f.from, f.message);
      case Data(e, nonce) => DataState(o, n, f.from, e, nonce, |CM.ToBytes(f.message)|, now);
    }
  }

  lemma HandleOut(o: Oracles, n: Node, f: Frame, now: nat, out: Outbound)
    requires Valid(n.store) && f.message.Valid() && out in Handle(o, n, f, now).1
    requires forall id | id in n.store.entries :: Puzzle.Solvable(o.digest, id, n.difficulty)
    ensures OutEffect(o, n, f.from, Handle(o, n, f, now).0, out)
  {
    match f.message
    case Summary(_) => SummaryOut(o, n, f.from, f.message, out);
    case Data(e, nonce) => DataOut(o, n, f.from, e, nonce, |CM.ToBytes(f.message)|, now, out);
  }

  /** A delivered copy's trail, lengthened by the node it reached. */
  lemma TrailGrows(net: Net, net': Net, trail: Trail, from: nat, to: nat, e: Envelope)
    requires CopyOk(net, trail, from, e, |trail.path|)
    requires net.composed <= net'.composed && net'.hops == net.hops + [Hop(e.Id(), from, to)]
    ensures CopyOk(net', Moved(trail, to, |net.hops|), to, e, |trail.path|)
  {
    var longer := Moved(trail, to, |net.hops|);
    IdIgnoresOnlyHops(e, trail.born);
    forall k: nat | k < |longer.steps|
      ensures Delivered(net'.hops, longer, k)
    {
      assert k < |trail.steps| ==> Delivered(net.hops, trail, k);
    }
    forall j, k | 0 <= j < k < |longer.steps|
      ensures longer.steps[j] < longer.steps[k]
    {
      assert Delivered(net.hops, trail, j);
    }
  }

  lemma SolvableStore(o: Oracles, difficulty: byte, net: Net, at: nat)
    requires NodeOk(o, difficulty, net, at)
    ensures forall id | id in net.nodes[at].store.entries :: Puzzle.Solvable(o.digest, id, difficulty)
  {
    forall id | id in net.nodes[at].store.entries
      ensures Puzzle.Solvable(o.digest, id, difficulty)
    {
      assert HeldOk(o, difficulty, net, at, net.nodes[at].store.entries[id].envelope);
    }
  }

  /** One entry of the receiving node after a delivery: an old one, or the delivered copy with its longer trail. */
  lemma LandedHeld(o: Oracles, difficulty: byte, net: Net, i: nat, f: Frame, n': Node, id: EnvelopeId)
    requires i < |net.flight| && f == net.flight[i] && FrameOk(o, difficulty, net, f)
    requires NodeOk(o, difficulty, net, f.to)
    requires StateEffect(o, net.nodes[f.to], f.from, f.message, n') && id in n'.store.entries
    ensures HeldOk(o, difficulty, Landed(net, i, n'), f.to, n'.store.entries[id].envelope)
  {
    if id in net.nodes[f.to].store.entries {
      LandedKept(o, difficulty, net, i, f, n', id);
    } else {
      LandedNew(o, difficulty, net, i, f, n', id);
    }
  }

  lemma LandedKept(o: Oracles, difficulty: byte, net: Net, i: nat, f: Frame, n': Node, id: EnvelopeId)
    requires i < |net.flight| && f == net.flight[i] && NodeOk(o, difficulty, net, f.to)
    requires StateEffect(o, net.nodes[f.to], f.from, f.message, n')
    requires id in n'.store.entries && id in net.nodes[f.to].store.entries
    ensures HeldOk(o, difficulty, Landed(net, i, n'), f.to, n'.store.entries[id].envelope)
  {
    var e := net.nodes[f.to].store.entries[id].envelope;
    assert HeldOk(o, difficulty, net, f.to, e) && e.Id() == id;
    LandedTrail(net, i, f, n', id);
    HeldGrows(o, difficulty, net, Landed(net, i, n'), f.to, e);
  }

  lemma LandedTrail(net: Net, i: nat, f: Frame, n': Node, id: EnvelopeId)
    requires i < |net.flight| && f == net.flight[i] && f.to in net.nodes
    requires id in net.nodes[f.to].store.entries && (f.to, id) in net.trails
    ensures var net' := Landed(net, i, n');
            && (f.to, id) in net'.trails && net'.trails[(f.to, id)] == net.trails[(f.to, id)]
            && net'.composed == net.composed && net.hops <= net'.hops
  {
  }

  lemma LandedNew(o: Oracles, difficulty: byte, net: Net, i: nat, f: Frame, n': Node, id: EnvelopeId)
    requires i < |net.flight| && f == net.flight[i] && FrameOk(o, difficulty, net, f)
    requires net.nodes[f.to].difficulty == difficulty && StateEffect(o, net.nodes[f.to], f.from, f.message, n')
    requires id in n'.store.entries && id !in net.nodes[f.to].store.entries
    ensures HeldOk(o, difficulty, Landed(net, i, n'), f.to, n'.store.entries[id].envelope)
  {
    var e, net' := f.message.envelope, Landed(net, i, n');
    assert n'.store.entries[id].envelope == e && id == e.Id();
    TrailGrows(net, net', f.trail.value, f.from, f.to, e);
    assert net'.trails[(f.to, e.Id())] == Moved(f.trail.value, f.to, |net.hops|);
  }

  lemma LandedNode(o: Oracles, difficulty: byte, net: Net, i: nat, f: Frame, n': Node)
    requires i < |net.flight| && f == net.flight[i] && FrameOk(o, difficulty, net, f)
    requires NodeOk(o, difficulty, net, f.to)
    requires StateEffect(o, net.nodes[f.to], f.from, f.message, n')
    ensures NodeOk(o, difficulty, Landed(net, i, n'), f.to)
  {
    forall id | id in n'.store.entries
      ensures HeldOk(o, difficulty, Landed(net, i, n'), f.to, n'.store.entries[id].envelope)
    {
      LandedHeld(o, difficulty, net, i, f, n', id);
    }
  }

  lemma FrameEffect(o: Oracles, difficulty: byte, net: Net, f: Frame, now: nat)
    requires FrameOk(o, difficulty, net, f) && NodeOk(o, difficulty, net, f.to)
    ensures var (n', outs) := Handle(o, net.nodes[f.to], f, now);
            MessageEffect(o, net.nodes[f.to], f.from, f.message, n', outs)
  {
    SolvableStore(o, difficulty, net, f.to);
    HandleState(o, net.nodes[f.to], f, now);
    forall out | out in Handle(o, net.nodes[f.to], f, now).1
      ensures OutEffect(o, net.nodes[f.to], f.from, Handle(o, net.nodes[f.to], f, now).0, out)
    {
      HandleOut(o, net.nodes[f.to], f, now, out);
    }
  }

  ghost predicate OnlyAt(net: Net, net': Net, at: nat) {
    && Grows(net, net') && at in net.nodes
    && (forall v | v in net.nodes && v != at :: net'.nodes[v] == net.nodes[v])
    && (forall v, id | v != at && (v, id) in net.trails ::
        (v, id) in net'.trails && net'.trails[(v, id)] == net.trails[(v, id)])
    && (forall f | f in net'.flight :: f in net.flight)
  }

  /** A step at one node that sends nothing keeps the invariant if that node is left in order. */
  lemma LocalOk(o: Oracles, difficulty: byte, net: Net, net': Net, at: nat)
    requires NetOk(o, difficulty, net) && OnlyAt(net, net', at) && NodeOk(o, difficulty, net', at)
    ensures NetOk(o, difficulty, net')
  {
    forall v | v in net.nodes && v != at
      ensures NodeOk(o, difficulty, net', v)
    {
      NodeGrows(o, difficulty, net, net', v);
    }
    forall f | f in net'.flight
      ensures FrameOk(o, difficulty, net', f)
    {
      FrameGrows(o, difficulty, net, net', f);
    }
  }

  lemma ArrivedOk(o: Oracles, difficulty: byte, net: Net, i: nat, now: nat, f: Frame)
    requires NetOk(o, difficulty, net) && i < |net.flight| && f == net.flight[i]
    requires FrameOk(o, difficulty, net, f) && NodeOk(o, difficulty, net, f.to)
    ensures NetOk(o, difficulty, Arrived(o, net, i, now))
  {
    FrameEffect(o, difficulty, net, f, now);
    LandedNode(o, difficulty, net, i, f, Handle(o, net.nodes[f.to], f, now).0);
    LandedOnlyAt(net, i, Handle(o, net.nodes[f.to], f, now).0);
    LocalOk(o, difficulty, net, Arrived(o, net, i, now), f.to);
  }

  lemma LandedOnlyAt(net: Net, i: nat, n': Node)
    requires i < |net.flight| && net.flight[i].to in net.nodes
    ensures OnlyAt(net, Landed(net, i, n'), net.flight[i].to)
  {
  }

  lemma DeliverOk(o: Oracles, difficulty: byte, net: Net, event: Event)
    requires NetOk(o, difficulty, net) && event.Deliver? && Possible(o, net, event)
    ensures NetOk(o, difficulty, Step(o, net, event))
  {
    var Deliver(i, now, outs) := event;
    var f, net' := net.flight[i], Arrived(o, net, i, now);
    assert f in net.flight && NodeOk(o, difficulty, net, f.to);
    ArrivedOk(o, difficulty, net, i, now, f);
    FrameEffect(o, difficulty, net, f, now);
    forall out | out in outs
      ensures OutOk(o, difficulty, net', f.to, out)
    {
      assert out in Elements(outs);
    }
    SendOk(o, difficulty, net', f.to, outs);
  }

  /** A node that took one envelope, if it was stored, and perhaps let another go. */
  ghost predicate Stored(n: Node, e: Envelope, n': Node, stored: bool) {
    && Valid(n'.store) && n'.peers == n.peers && n'.difficulty == n.difficulty
    && (stored ==> e.Id() !in n.store.entries)
    && (forall id | id in n'.store.entries && id in n.store.entries :: n'.store.entries[id] == n.store.entries[id])
    && (forall id | id in n'.store.entries && id !in n.store.entries ::
        id == e.Id() && stored && n'.store.entries[id].envelope == e)
  }

  lemma ComposeStored(o: Oracles, n: Node, e: Envelope, now: nat)
    requires Valid(n.store)
    ensures Stored(n, e, Compose(o, n, e, now).0, Compose(o, n, e, now).1.New?)
  {
    AcceptOutcome(n.store, e, now);
    AcceptKeeps(n.store, e, now);
  }

  lemma AddedHeld(o: Oracles, difficulty: byte, net: Net, at: nat, e: Envelope, n': Node, stored: bool, id: EnvelopeId)
    requires NodeOk(o, difficulty, net, at) && Puzzle.Solvable(o.digest, e.Id(), difficulty)
    requires Stored(net.nodes[at], e, n', stored) && id in n'.store.entries
    ensures HeldOk(o, difficulty, Added(net, at, e, n', stored), at, n'.store.entries[id].envelope)
  {
    if id in net.nodes[at].store.entries {
      var held := net.nodes[at].store.entries[id].envelope;
      assert HeldOk(o, difficulty, net, at, held) && held.Id() == id;
      HeldGrows(o, difficulty, net, Added(net, at, e, n', stored), at, held);
    }
  }

  lemma AddedNode(o: Oracles, difficulty: byte, net: Net, at: nat, e: Envelope, n': Node, stored: bool)
    requires NodeOk(o, difficulty, net, at) && Puzzle.Solvable(o.digest, e.Id(), difficulty)
    requires Stored(net.nodes[at], e, n', stored)
    ensures NodeOk(o, difficulty, Added(net, at, e, n', stored), at)
  {
    forall id | id in n'.store.entries
      ensures HeldOk(o, difficulty, Added(net, at, e, n', stored), at, n'.store.entries[id].envelope)
    {
      AddedHeld(o, difficulty, net, at, e, n', stored, id);
    }
  }

  lemma AddedOnlyAt(net: Net, at: nat, e: Envelope, n': Node, stored: bool)
    requires at in net.nodes
    ensures OnlyAt(net, Added(net, at, e, n', stored), at)
  {
  }

  lemma ComposedOk(o: Oracles, difficulty: byte, net: Net, at: nat, e: Envelope, now: nat)
    requires NetOk(o, difficulty, net) && at in net.nodes && Puzzle.Solvable(o.digest, e.Id(), difficulty)
    ensures NetOk(o, difficulty, ComposedAt(o, net, at, e, now))
  {
    var n', stored := Compose(o, net.nodes[at], e, now).0, Compose(o, net.nodes[at], e, now).1.New?;
    assert NodeOk(o, difficulty, net, at);
    ComposeStored(o, net.nodes[at], e, now);
    AddedNode(o, difficulty, net, at, e, n', stored);
    AddedOnlyAt(net, at, e, n', stored);
    LocalOk(o, difficulty, net, ComposedAt(o, net, at, e, now), at);
  }

  lemma ComposeOk(o: Oracles, difficulty: byte, net: Net, event: Event)
    requires NetOk(o, difficulty, net) && event.Composed? && Possible(o, net, event)
    ensures NetOk(o, difficulty, Step(o, net, event))
  {
    var Composed(at, e, now, outs) := event;
    var net' := ComposedAt(o, net, at, e, now);
    assert NodeOk(o, difficulty, net, at);
    ComposedOk(o, difficulty, net, at, e, now);
    AcceptKeeps(net.nodes[at].store, e, now);
    forall out | out in outs
      ensures OutOk(o, difficulty, net', at, out)
    {
      assert out in Elements(outs);
      RelayHolds(net'.nodes[at], net.nodes[at].peers.Keys, e, Puzzle.Solution(o.digest, e.Id(), difficulty), out);
    }
    SendOk(o, difficulty, net', at, outs);
  }

  lemma ConnectOk(o: Oracles, difficulty: byte, net: Net, event: Event)
    requires NetOk(o, difficulty, net) && event.Connected? && Possible(o, net, event)
    ensures NetOk(o, difficulty, Step(o, net, event))
  {
    GreetOk(o, difficulty, net, event.at, event.peer, Connect(net.nodes[event.at], event.peer));
  }

  lemma GreetOk(o: Oracles, difficulty: byte, net: Net, at: nat, peer: nat, n': Node)
    requires NetOk(o, difficulty, net) && at in net.nodes && peer in net.nodes
    requires n'.store == net.nodes[at].store && n'.difficulty == net.nodes[at].difficulty
    requires n'.peers.Keys == net.nodes[at].peers.Keys + {peer}
    ensures NetOk(o, difficulty, Send(net.(nodes := net.nodes[at := n']), at, [Outbound(peer, Hello(o, n'))]))
  {
    var net' := net.(nodes := net.nodes[at := n']);
    assert NodeOk(o, difficulty, net, at);
    SameStoreOk(o, difficulty, net, at, n');
    HelloOk(o, difficulty, net', at, peer, n');
    SendOneOk(o, difficulty, net', at, Outbound(peer, Hello(o, n')));
  }

  lemma SendOneOk(o: Oracles, difficulty: byte, net: Net, at: nat, out: Outbound)
    requires NetOk(o, difficulty, net) && at in net.nodes && OutOk(o, difficulty, net, at, out)
    ensures NetOk(o, difficulty, Send(net, at, [out]))
  {
    SendOk(o, difficulty, net, at, [out]);
  }

  lemma HelloOk(o: Oracles, difficulty: byte, net: Net, at: nat, peer: nat, n: Node)
    requires at in net.nodes && peer in net.nodes && Valid(n.store)
    ensures OutOk(o, difficulty, net, at, Outbound(peer, Hello(o, n)))
  {
    HelloValid(o, n);
  }

  /** A node whose store only loses entries, or keeps their envelopes under other sequence numbers. */
  lemma SameStoreOk(o: Oracles, difficulty: byte, net: Net, at: nat, n': Node)
    requires NetOk(o, difficulty, net) && at in net.nodes
    requires Valid(n'.store) && n'.difficulty == difficulty && n'.peers.Keys <= net.nodes.Keys
    requires forall id | id in n'.store.entries ::
               && id in net.nodes[at].store.entries
               && n'.store.entries[id].envelope == net.nodes[at].store.entries[id].envelope
    ensures NetOk(o, difficulty, net.(nodes := net.nodes[at := n']))
  {
    assert NodeOk(o, difficulty, net, at);
    SameStoreNode(o, difficulty, net, at, n');
    SameStoreOnlyAt(net, at, n');
    LocalOk(o, difficulty, net, net.(nodes := net.nodes[at := n']), at);
  }

  lemma SameStoreOnlyAt(net: Net, at: nat, n': Node)
    requires at in net.nodes
    ensures OnlyAt(net, net.(nodes := net.nodes[at := n']), at)
  {
  }

  lemma SameStoreNode(o: Oracles, difficulty: byte, net: Net, at: nat, n': Node)
    requires NodeOk(o, difficulty, net, at)
    requires Valid(n'.store) && n'.difficulty == difficulty && n'.peers.Keys <= net.nodes.Keys
    requires forall id | id in n'.store.entries ::
               && id in net.nodes[at].store.entries
               && n'.store.entries[id].envelope == net.nodes[at].store.entries[id].envelope
    ensures NodeOk(o, difficulty, net.(nodes := net.nodes[at := n']), at)
  {
    var net' := net.(nodes := net.nodes[at := n']);
    forall id | id in n'.store.entries
      ensures HeldOk(o, difficulty, net', at, n'.store.entries[id].envelope)
    {
      var e := net.nodes[at].store.entries[id].envelope;
      assert HeldOk(o, difficulty, net, at, e);
      HeldGrows(o, difficulty, net, net', at, e);
    }
  }

  /** A reload from any part of a store's image brings back no envelope that was not there, and none with another hop
      count. */
  lemma ReloadSame(s: StoreState, key: MasterKey, disk: Disk, ids: seq<EnvelopeId>, capacity: nat, now: nat)
    requires Valid(s) && Part(disk, Mirror(s, key)) && Lists(ids, disk)
    ensures var store := OpenAll(capacity, disk, key, ids, now).0;
            && Valid(store)
            && forall id | id in store.entries ::
               id in s.entries && store.entries[id].envelope == s.entries[id].envelope
  {
    var store := OpenAll(capacity, disk, key, ids, now).0;
    MirrorLabelled(s, key);
    OpenReloads(capacity, disk, key, ids, now);
    forall id | id in store.entries
      ensures id in s.entries && store.entries[id].envelope == s.entries[id].envelope
    {
      SealInjective(key, store.entries[id].envelope, s.entries[id].envelope);
    }
  }

  lemma StepOk(o: Oracles, difficulty: byte, net: Net, event: Event)
    requires NetOk(o, difficulty, net) && Possible(o, net, event)
    ensures NetOk(o, difficulty, Step(o, net, event))
  {
    match event
    case Connected(_, _) => ConnectOk(o, difficulty, net, event);
    case Lost(at, peer) =>
      assert NodeOk(o, difficulty, net, at);
      SameStoreOk(o, difficulty, net, at, Lose(net.nodes[at], peer));
    case Composed(at, _, _, _) =>
      assert NodeOk(o, difficulty, net, at);
      ComposeOk(o, difficulty, net, event);
    case Deliver(_, _, _) => DeliverOk(o, difficulty, net, event);
    case Vanish(i) => FlightOk(o, difficulty, net, Without(net.flight, i));
    case Duplicate(i) => FlightOk(o, difficulty, net, net.flight + [net.flight[i]]);
    case Purge(at, now) =>
      assert NodeOk(o, difficulty, net, at);
      var n := net.nodes[at];
      PurgeKeepsValid(n.store, now);
      SameStoreOk(o, difficulty, net, at, n.(store := n.store.(entries := Unexpired(n.store.entries, now))));
    case Restart(at, key, disk, ids, capacity, now) =>
      assert NodeOk(o, difficulty, net, at);
      var n := net.nodes[at];
      ReloadSame(n.store, key, disk, ids, capacity, now);
      SameStoreOk(o, difficulty, net, at,
                  Node(OpenAll(capacity, disk, key, ids, now).0, map[], n.difficulty, n.limits));
  }

  lemma FlightOk(o: Oracles, difficulty: byte, net: Net, flight: seq<Frame>)
    requires NetOk(o, difficulty, net) && forall f | f in flight :: f in net.flight
    ensures NetOk(o, difficulty, net.(flight := flight))
  {
    forall v | v in net.nodes
      ensures NodeOk(o, difficulty, net.(flight := flight), v)
    {
      NodeGrows(o, difficulty, net, net.(flight := flight), v);
    }
    forall f | f in flight
      ensures FrameOk(o, difficulty, net.(flight := flight), f)
    {
      FrameGrows(o, difficulty, net, net.(flight := flight), f);
    }
  }

  // ----- whole runs -----

  /** Nodes with empty stores and no contacts, all asking for the same puzzle difficulty; limits and capacities
      may differ. */
  ghost predicate Initial(net: Net, difficulty: byte) {
    && net.flight == [] && net.composed == {} && net.hops == [] && net.trails == map[]
    && forall at | at in net.nodes ::
         net.nodes[at].store.entries == map[] && net.nodes[at].peers == map[] && net.nodes[at].difficulty == difficulty
  }

  ghost predicate PossibleRun(o: Oracles, net: Net, events: seq<Event>)
    decreases |events|
  {
    events != [] ==> Possible(o, net, events[0]) && PossibleRun(o, Step(o, net, events[0]), events[1..])
  }

  ghost function After(o: Oracles, net: Net, events: seq<Event>): Net
    requires PossibleRun(o, net, events)
    decreases |events|
  {
    if events == [] then net else After(o, Step(o, net, events[0]), events[1..])
  }

  lemma {:induction false} RunOk(o: Oracles, difficulty: byte, net: Net, events: seq<Event>)
    requires NetOk(o, difficulty, net) && PossibleRun(o, net, events)
    ensures NetOk(o, difficulty, After(o, net, events))
    decreases |events|
  {
    if events == [] {
    } else {
      StepOk(o, difficulty, net, events[0]);
      RunOk(o, difficulty, Step(o, net, events[0]), events[1..]);
    }
  }

  /** A stored copy is the envelope as composed, at the end of its own trail, with one hop of its lifetime spent
      on each step of that trail and at least one left. */
  ghost predicate HeldCopy(net: Net, at: nat, e: Envelope) {
    && (at, e.Id()) in net.trails
    && var trail := net.trails[(at, e.Id())];
       && Leads(net, trail, at)
       && e.Id() == trail.born.Id() && e == trail.born.(ttlHops := e.ttlHops)
       && e.ttlHops + |trail.steps| == trail.born.ttlHops && e.ttlHops >= 1
  }

  /** A sent copy is on the step after the last of the trail of the copy it was made from. */
  ghost predicate SentCopy(net: Net, f: Frame)
    requires f.message.Data?
  {
    && f.trail.Some?
    && var e, trail := f.message.envelope, f.trail.value;
       && Leads(net, trail, f.from)
       && e.Id() == trail.born.Id() && e == trail.born.(ttlHops := e.ttlHops)
       && e.ttlHops + |trail.steps| + 1 == trail.born.ttlHops && e.ttlHops >= 1
  }

  /** Hop budget: after any run, with loss, duplication, reordering, eviction, purges and restarts, every stored
      copy of an envelope is the envelope somebody composed, and its own journey from there is a chain of
      deliveries of that envelope, each later than the one before, with exactly one hop of its lifetime spent on
      each, and at least one left; the same holds of every copy in flight, which is on its next hop. */
  lemma HopsAreSpent(o: Oracles, difficulty: byte, start: Net, events: seq<Event>)
    requires Initial(start, difficulty) && PossibleRun(o, start, events)
    ensures var net := After(o, start, events);
            && (forall at, id | at in net.nodes && id in net.nodes[at].store.entries ::
                  HeldCopy(net, at, net.nodes[at].store.entries[id].envelope))
            && (forall f | f in net.flight && f.message.Data? :: SentCopy(net, f))
  {
    var net := After(o, start, events);
    InitialOk(o, difficulty, start);
    RunOk(o, difficulty, start, events);
    forall at, id | at in net.nodes && id in net.nodes[at].store.entries
      ensures HeldCopy(net, at, net.nodes[at].store.entries[id].envelope)
    {
      assert NodeOk(o, difficulty, net, at);
      HeldIsCopy(o, difficulty, net, at, net.nodes[at].store.entries[id].envelope);
    }
    forall f | f in net.flight && f.message.Data?
      ensures SentCopy(net, f)
    {
      assert FrameOk(o, difficulty, net, f);
      IdIgnoresOnlyHops(f.message.envelope, f.trail.value.born);
    }
  }

  lemma HeldIsCopy(o: Oracles, difficulty: byte, net: Net, at: nat, e: Envelope)
    requires HeldOk(o, difficulty, net, at, e)
    ensures HeldCopy(net, at, e)
  {
    IdIgnoresOnlyHops(e, net.trails[(at, e.Id())].born);
  }

  lemma InitialOk(o: Oracles, difficulty: byte, net: Net)
    requires Initial(net, difficulty)
    ensures NetOk(o, difficulty, net)
  {
  }

  ghost predicate ComposedOnce(net: Net, origin: nat, born: Envelope) {
    forall who, what | (who, what) in net.composed && what.Id() == born.Id() :: who == origin && what == born
  }

  /** The copy of an envelope composed only once is found at the end of a journey from its composer that took
      fewer steps than its lifetime has hops, and left it exactly the hops it did not use. */
  ghost predicate Within(net: Net, origin: nat, born: Envelope, at: nat, e: Envelope) {
    && (at, born.Id()) in net.trails
    && var trail := net.trails[(at, born.Id())];
       && Leads(net, trail, at) && trail.path[0] == origin && |trail.steps| < born.ttlHops
       && e == born.(ttlHops := born.ttlHops - |trail.steps|)
  }

  lemma CopyReach(o: Oracles, difficulty: byte, net: Net, origin: nat, born: Envelope, at: nat)
    requires NetOk(o, difficulty, net) && ComposedOnce(net, origin, born)
    requires at in net.nodes && born.Id() in net.nodes[at].store.entries
    ensures Within(net, origin, born, at, net.nodes[at].store.entries[born.Id()].envelope)
  {
    var e := net.nodes[at].store.entries[born.Id()].envelope;
    assert NodeOk(o, difficulty, net, at);
    HeldIsCopy(o, difficulty, net, at, e);
    assert net.trails[(at, e.Id())].born == born;
  }

  /** An envelope composed only once, with lifetime T, is never found more than T - 1 relays from its composer:
      the journey of the copy found has at most T - 1 steps, starts at the composer, and left it exactly the hops
      it did not use. */
  lemma ReachIsBounded(o: Oracles, difficulty: byte, start: Net, events: seq<Event>, origin: nat, born: Envelope,
                       at: nat)
    requires Initial(start, difficulty) && PossibleRun(o, start, events)
    requires ComposedOnce(After(o, start, events), origin, born)
    requires at in After(o, start, events).nodes && born.Id() in After(o, start, events).nodes[at].store.entries
    ensures var net := After(o, start, events);
            Within(net, origin, born, at, net.nodes[at].store.entries[born.Id()].envelope)
  {
    InitialOk(o, difficulty, start);
    RunOk(o, difficulty, start, events);
    CopyReach(o, difficulty, After(o, start, events), origin, born, at);
  }

  /** With one difficulty everywhere no honest frame fails the puzzle check, however far it travelled: not the
      one composed, not one relayed with its first nonce, not one pushed with a new one. And no node is ever
      asked to solve a puzzle that has no solution. */
  lemma NoFrameFailsPuzzle(o: Oracles, difficulty: byte, start: Net, events: seq<Event>)
    requires Initial(start, difficulty) && PossibleRun(o, start, events)
    ensures var net := After(o, start, events);
            && (forall f | f in net.flight && f.message.Data? && f.to in net.nodes ::
                  Puzzle.Verifies(o.digest, f.message.envelope.Id(), f.message.puzzleNonce, net.nodes[f.to].difficulty))
            && (forall at, id | at in net.nodes && id in net.nodes[at].store.entries ::
                  Puzzle.Solvable(o.digest, id, net.nodes[at].difficulty))
  {
    var net := After(o, start, events);
    InitialOk(o, difficulty, start);
    RunOk(o, difficulty, start, events);
    forall f | f in net.flight && f.message.Data? && f.to in net.nodes
      ensures Puzzle.Verifies(o.digest, f.message.envelope.Id(), f.message.puzzleNonce, net.nodes[f.to].difficulty)
    {
      assert FrameOk(o, difficulty, net, f) && NodeOk(o, difficulty, net, f.to);
    }
    forall at, id | at in net.nodes && id in net.nodes[at].store.entries
      ensures Puzzle.Solvable(o.digest, id, net.nodes[at].difficulty)
    {
      assert NodeOk(o, difficulty, net, at);
      SolvableStore(o, difficulty, net, at);
    }
  }
}
