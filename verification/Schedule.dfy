/** Delivery over a schedule of pairwise contacts (core/src/dtn_sim.rs). */
module Schedule {
  import opened Bytes
  import opened Collections
  import opened Envelopes
  import opened Engine
  import opened Durable
  import opened Relay
  import opened Contact
  import Bloom

  datatype Meeting = Meeting(tick: nat, a: nat, b: nat)

  type World = seq<Node>

  ghost predicate AllIdle(w: World) {
    forall v | 0 <= v < |w| :: Idle(w[v])
  }

  ghost predicate InContact(o: Oracles, x: Node, y: Node, m: Meeting, x': Node, y': Node) {
    exists toY, toX :: Contacted(o, x, y, m.a, m.b, m.tick, toY, toX, x', y')
  }

  /** One scripted contact, in some order of its deliveries. */
  ghost predicate Meets(o: Oracles, w: World, w': World, m: Meeting) {
    && |w'| == |w| && m.a < |w| && m.b < |w| && m.a != m.b
    && InContact(o, w[m.a], w[m.b], m, w'[m.a], w'[m.b])
    && forall v | 0 <= v < |w| && v != m.a && v != m.b :: w'[v] == w[v]
  }

  ghost predicate Run(o: Oracles, ws: seq<World>, meetings: seq<Meeting>) {
    |ws| == |meetings| + 1 && forall k: nat | k < |meetings| :: MeetsAt(o, ws, meetings, k)
  }

  ghost predicate MeetsAt(o: Oracles, ws: seq<World>, meetings: seq<Meeting>, k: nat) {
    k < |meetings| && k + 1 < |ws| && Meets(o, ws[k], ws[k + 1], meetings[k])
  }

  lemma RunExtends(o: Oracles, ws: seq<World>, meetings: seq<Meeting>, w: World, m: Meeting)
    requires Run(o, ws, meetings) && Meets(o, ws[|meetings|], w, m)
    ensures Run(o, ws + [w], meetings + [m])
  {
    forall k: nat | k < |meetings + [m]|
      ensures MeetsAt(o, ws + [w], meetings + [m], k)
    {
      assert k < |meetings| ==> MeetsAt(o, ws, meetings, k);
    }
  }

  ghost predicate Holds(n: Node, id: EnvelopeId) {
    id in n.store.entries
  }

  // ----- who can have been reached -----

  ghost function Extended(reached: set<nat>, m: Meeting): set<nat> {
    if m.a in reached || m.b in reached then reached + {m.a, m.b} else reached
  }

  /** The nodes a message starting at one node may have reached after so many contacts: each contact with one of
      them adds the other. */
  ghost function Reached(meetings: seq<Meeting>, origin: nat, k: nat): set<nat>
    requires k <= |meetings|
  {
    if k == 0 then {origin} else Extended(Reached(meetings, origin, k - 1), meetings[k - 1])
  }

  ghost predicate Links(m: Meeting, u: nat, v: nat) {
    (m.a == u && m.b == v) || (m.a == v && m.b == u)
  }

  ghost predicate LinkAt(meetings: seq<Meeting>, k: nat, path: seq<nat>, times: seq<nat>, i: nat) {
    i < |times| && i + 1 < |path| && times[i] < k <= |meetings| && Links(meetings[times[i]], path[i], path[i + 1])
  }

  /** A time-respecting chain among the first `k` contacts: a path of nodes, each pair linked by a contact
      strictly later than the one before. */
  ghost predicate Chain(meetings: seq<Meeting>, k: nat, path: seq<nat>, times: seq<nat>) {
    && |path| == |times| + 1
    && (forall i: nat | i < |times| :: LinkAt(meetings, k, path, times, i))
    && (forall i, j | 0 <= i < j < |times| :: times[i] < times[j])
  }

  ghost predicate ChainTo(meetings: seq<Meeting>, k: nat, origin: nat, v: nat, path: seq<nat>, times: seq<nat>) {
    Chain(meetings, k, path, times) && path[0] == origin && path[|path| - 1] == v
  }

  ghost predicate Chained(meetings: seq<Meeting>, k: nat, origin: nat, v: nat) {
    exists path, times :: ChainTo(meetings, k, origin, v, path, times)
  }

  lemma ChainExtends(meetings: seq<Meeting>, k: nat, origin: nat, u: nat, v: nat, path: seq<nat>, times: seq<nat>)
    requires k < |meetings| && ChainTo(meetings, k, origin, u, path, times) && Links(meetings[k], u, v)
    ensures ChainTo(meetings, k + 1, origin, v, path + [v], times + [k])
  {
    var longer, later := path + [v], times + [k];
    var n := k + 1;
    forall i: nat | i < |later|
      ensures LinkAt(meetings, n, longer, later, i)
    {
      assert i < |times| ==> LinkAt(meetings, k, path, times, i);
    }
    assert times != [] ==> LinkAt(meetings, k, path, times, |times| - 1);
    ChainBelow(meetings, k, path, times);
  }

  lemma ChainBelow(meetings: seq<Meeting>, k: nat, path: seq<nat>, times: seq<nat>)
    requires Chain(meetings, k, path, times)
    ensures forall i: nat | i < |times| :: times[i] < k
  {
    forall i: nat | i < |times|
      ensures times[i] < k
    {
      assert LinkAt(meetings, k, path, times, i);
    }
  }

  lemma ChainWithin(meetings: seq<Meeting>, k: nat, k': nat, path: seq<nat>, times: seq<nat>)
    requires Chain(meetings, k, path, times) && k' <= |meetings| && forall i: nat | i < |times| :: times[i] < k'
    ensures Chain(meetings, k', path, times)
  {
    forall i: nat | i < |times|
      ensures LinkAt(meetings, k', path, times, i)
    {
      assert LinkAt(meetings, k, path, times, i);
    }
  }

  /** Either a chain ends before the last contact or it is a shorter chain and that contact. */
  lemma ChainSplits(meetings: seq<Meeting>, k: nat, origin: nat, v: nat, path: seq<nat>, times: seq<nat>)
    requires k < |meetings| && ChainTo(meetings, k + 1, origin, v, path, times)
    ensures ChainTo(meetings, k, origin, v, path, times)
         || (|path| >= 2 && Links(meetings[k], path[|path| - 2], v)
             && ChainTo(meetings, k, origin, path[|path| - 2], path[..|path| - 1], times[..|times| - 1]))
  {
    ChainBelow(meetings, k + 1, path, times);
    if times != [] && times[|times| - 1] == k {
      var front, early := path[..|path| - 1], times[..|times| - 1];
      forall i: nat | i < |early|
        ensures LinkAt(meetings, k, front, early, i)
      {
        assert LinkAt(meetings, k + 1, path, times, i) && times[i] < times[|times| - 1];
      }
      assert LinkAt(meetings, k + 1, path, times, |times| - 1);
    } else {
      forall i: nat | i < |times|
        ensures times[i] < k
      {
        assert i < |times| - 1 ==> times[i] < times[|times| - 1];
      }
      ChainWithin(meetings, k + 1, k, path, times);
    }
  }

  lemma EmptyChain(meetings: seq<Meeting>, origin: nat, v: nat)
    ensures Chained(meetings, 0, origin, v) <==> v == origin
  {
    assert ChainTo(meetings, 0, origin, origin, [origin], []);
    forall path, times | ChainTo(meetings, 0, origin, v, path, times)
      ensures v == origin
    {
      assert |times| > 0 ==> LinkAt(meetings, 0, path, times, 0);
    }
  }

  /** Being reached is being linked to the origin by a time-respecting chain of contacts. */
  lemma {:induction false} ReachedIsChained(meetings: seq<Meeting>, k: nat, origin: nat, v: nat)
    requires k <= |meetings|
    ensures v in Reached(meetings, origin, k) <==> Chained(meetings, k, origin, v)
    decreases k, 0
  {
    if k == 0 {
      EmptyChain(meetings, origin, v);
    } else {
      if v in Reached(meetings, origin, k) { ReachedHasChain(meetings, k - 1, origin, v); }
      forall path, times | ChainTo(meetings, k, origin, v, path, times)
        ensures v in Reached(meetings, origin, k)
      {
        ChainReaches(meetings, k - 1, origin, v, path, times);
      }
    }
  }

  lemma ReachedHasChain(meetings: seq<Meeting>, k: nat, origin: nat, v: nat)
    requires k < |meetings| && v in Extended(Reached(meetings, origin, k), meetings[k])
    ensures Chained(meetings, k + 1, origin, v)
    decreases k, 1
  {
    if v in Reached(meetings, origin, k) {
      ReachedIsChained(meetings, k, origin, v);
      var path, times :| ChainTo(meetings, k, origin, v, path, times);
      ChainBelow(meetings, k, path, times);
      ChainWithin(meetings, k, k + 1, path, times);
      assert ChainTo(meetings, k + 1, origin, v, path, times);
    } else {
      var u := if v == meetings[k].a then meetings[k].b else meetings[k].a;
      ReachedIsChained(meetings, k, origin, u);
      var path, times :| ChainTo(meetings, k, origin, u, path, times);
      ChainExtends(meetings, k, origin, u, v, path, times);
    }
  }

  lemma ChainReaches(meetings: seq<Meeting>, k: nat, origin: nat, v: nat, path: seq<nat>, times: seq<nat>)
    requires k < |meetings| && ChainTo(meetings, k + 1, origin, v, path, times)
    ensures v in Extended(Reached(meetings, origin, k), meetings[k])
    decreases k, 1
  {
    ChainSplits(meetings, k, origin, v, path, times);
    ReachedIsChained(meetings, k, origin, v);
    if |path| >= 2 { ReachedIsChained(meetings, k, origin, path[|path| - 2]); }
  }

  // ----- the "only if" half: for every lifetime and whatever the conditions -----

  lemma MeetsIdle(o: Oracles, w: World, w': World, m: Meeting)
    requires AllIdle(w) && Meets(o, w, w', m)
    ensures AllIdle(w')
  {
    assert Idle(w[m.a]) && Idle(w[m.b]);
    InContactIdle(o, w[m.a], w[m.b], m, w'[m.a], w'[m.b]);
  }

  lemma InContactIdle(o: Oracles, x: Node, y: Node, m: Meeting, x': Node, y': Node)
    requires Idle(x) && Idle(y) && InContact(o, x, y, m, x', y')
    ensures Idle(x') && Idle(y')
    ensures forall id | Holds(x', id) || Holds(y', id) :: Holds(x, id) || Holds(y, id)
  {
    var toY, toX :| Contacted(o, x, y, m.a, m.b, m.tick, toY, toX, x', y');
    NothingElse(o, x, y, m.a, m.b, m.tick, toY, toX, x', y');
    forall id | Holds(x', id) || Holds(y', id)
      ensures Holds(x, id) || Holds(y, id)
    {
      assert id in x'.store.entries.Keys + y'.store.entries.Keys;
    }
  }

  lemma {:induction false} RunIdle(o: Oracles, ws: seq<World>, meetings: seq<Meeting>, k: nat)
    requires Run(o, ws, meetings) && AllIdle(ws[0]) && k <= |meetings|
    ensures AllIdle(ws[k]) && |ws[k]| == |ws[0]|
  {
    if k == 0 {
    } else {
      RunIdle(o, ws, meetings, k - 1);
      StepIdle(o, ws, meetings, k);
    }
  }

  lemma RunStep(o: Oracles, ws: seq<World>, meetings: seq<Meeting>, k: nat)
    requires Run(o, ws, meetings) && 0 < k <= |meetings|
    ensures Meets(o, ws[k - 1], ws[k], meetings[k - 1])
  {
    assert MeetsAt(o, ws, meetings, k - 1);
  }

  lemma StepIdle(o: Oracles, ws: seq<World>, meetings: seq<Meeting>, k: nat)
    requires Run(o, ws, meetings) && 0 < k <= |meetings| && AllIdle(ws[k - 1])
    ensures AllIdle(ws[k]) && |ws[k]| == |ws[k - 1]|
  {
    RunStep(o, ws, meetings, k);
    MeetsIdle(o, ws[k - 1], ws[k], meetings[k - 1]);
  }

  ghost function Holders(w: World, id: EnvelopeId): set<nat> {
    set v: nat | v < |w| && Holds(w[v], id)
  }

  /** A node that holds an identity after a contact had it before, or met a node that did. */
  lemma MeetsHolder(o: Oracles, w: World, w': World, m: Meeting, id: EnvelopeId, v: nat)
    requires AllIdle(w) && Meets(o, w, w', m) && v < |w'| && Holds(w'[v], id)
    ensures |w'| == |w| && m.a < |w| && m.b < |w|
    ensures if v == m.a || v == m.b then Holds(w[m.a], id) || Holds(w[m.b], id) else Holds(w[v], id)
  {
    if v == m.a || v == m.b {
      assert Idle(w[m.a]) && Idle(w[m.b]);
      InContactIdle(o, w[m.a], w[m.b], m, w'[m.a], w'[m.b]);
    }
  }

  lemma HolderExtends(w: World, m: Meeting, id: EnvelopeId, v: nat)
    requires v < |w| && m.a < |w| && m.b < |w|
    requires if v == m.a || v == m.b then Holds(w[m.a], id) || Holds(w[m.b], id) else Holds(w[v], id)
    ensures v in Extended(Holders(w, id), m)
  {
  }

  lemma StepHolder(o: Oracles, ws: seq<World>, meetings: seq<Meeting>, k: nat, id: EnvelopeId, v: nat)
    requires Run(o, ws, meetings) && AllIdle(ws[0]) && k < |meetings| && v < |ws[k + 1]| && Holds(ws[k + 1][v], id)
    ensures v in Extended(Holders(ws[k], id), meetings[k])
  {
    RunIdle(o, ws, meetings, k);
    assert MeetsAt(o, ws, meetings, k);
    MeetsAtHolder(o, ws, meetings, k, id, v);
  }

  lemma MeetsAtHolder(o: Oracles, ws: seq<World>, meetings: seq<Meeting>, k: nat, id: EnvelopeId, v: nat)
    requires MeetsAt(o, ws, meetings, k) && AllIdle(ws[k]) && v < |ws[k + 1]| && Holds(ws[k + 1][v], id)
    ensures v in Extended(Holders(ws[k], id), meetings[k])
  {
    MeetsHolder(o, ws[k], ws[k + 1], meetings[k], id, v);
    HolderExtends(ws[k], meetings[k], id, v);
  }

  ghost predicate HolderStep(holders: set<nat>, holders': set<nat>, m: Meeting) {
    holders' <= Extended(holders, m)
  }

  lemma StepHolders(o: Oracles, ws: seq<World>, meetings: seq<Meeting>, k: nat, id: EnvelopeId)
    requires Run(o, ws, meetings) && AllIdle(ws[0]) && 0 < k <= |meetings|
    ensures HolderStep(Holders(ws[k - 1], id), Holders(ws[k], id), meetings[k - 1])
  {
    forall v | v in Holders(ws[k], id)
      ensures v in Extended(Holders(ws[k - 1], id), meetings[k - 1])
    {
      StepHolder(o, ws, meetings, k - 1, id, v);
    }
  }

  /** Holders that only ever spread by contact stay within reach. */
  lemma {:induction false} TraceReached(holders: seq<set<nat>>, meetings: seq<Meeting>, origin: nat, k: nat)
    requires k <= |meetings| < |holders| && holders[0] <= {origin}
    requires forall j | 0 < j <= |meetings| :: HolderStep(holders[j - 1], holders[j], meetings[j - 1])
    ensures holders[k] <= Reached(meetings, origin, k)
    decreases k
  {
    if k == 0 {
    } else {
      TraceReached(holders, meetings, origin, k - 1);
    }
  }

  ghost function HolderTrace(ws: seq<World>, id: EnvelopeId): (trace: seq<set<nat>>)
    ensures |trace| == |ws| && forall k | 0 <= k < |ws| :: trace[k] == Holders(ws[k], id)
  {
    seq(|ws|, k requires 0 <= k < |ws| => Holders(ws[k], id))
  }

  lemma RunReached(o: Oracles, ws: seq<World>, meetings: seq<Meeting>, origin: nat, id: EnvelopeId,
                   trace: seq<set<nat>>)
    requires Run(o, ws, meetings) && AllIdle(ws[0])
    requires trace == HolderTrace(ws, id) && trace[0] <= {origin}
    ensures trace[|meetings|] <= Reached(meetings, origin, |meetings|)
  {
    forall j | 0 < j <= |meetings|
      ensures HolderStep(trace[j - 1], trace[j], meetings[j - 1])
    {
      StepHolders(o, ws, meetings, j, id);
    }
    TraceReached(trace, meetings, origin, |meetings|);
  }

  /** Whatever the lifetime, capacities, limits, expiry and false positives: a node that holds the envelope is
      linked to its origin by a time-respecting chain of contacts. */
  lemma OnlyAlongChains(o: Oracles, ws: seq<World>, meetings: seq<Meeting>, origin: nat, id: EnvelopeId, v: nat)
    requires Run(o, ws, meetings) && AllIdle(ws[0]) && Holders(ws[0], id) <= {origin}
    requires v in Holders(ws[|meetings|], id)
    ensures Chained(meetings, |meetings|, origin, v)
  {
    RunReached(o, ws, meetings, origin, id, HolderTrace(ws, id));
    ReachedIsChained(meetings, |meetings|, origin, v);
  }

  // ----- the "if" half -----

  /** The conditions of one contact: room and rate budget, no false positive on the identity, and not expired. */
  ghost predicate Favourable(o: Oracles, w: World, m: Meeting, born: Envelope) {
    && m.a < |w| && m.b < |w| && m.tick < born.expiresAt
    && forall u: nat, v: nat | Links(m, u, v) :: FavourableTo(o, w[u], w[v], v, m.tick, born.Id())
  }

  /** Towards one of the two nodes. */
  ghost predicate FavourableTo(o: Oracles, x: Node, y: Node, yId: nat, now: nat, id: EnvelopeId) {
    && FilterFor(o, y).Valid()
    && |Contents(y.store.entries) + Gain(o, x, FilterFor(o, y), now)| <= y.store.capacity
    && Budgeted(y.limits, Pushed(o, x, yId, FilterFor(o, y)))
    && (Bloom.Contains(FilterFor(o, y), o.hash, id) ==> Holds(y, id))
  }

  /** The hops a node's copy has left; zero if it has none. */
  ghost function HopsAt(n: Node, id: EnvelopeId): nat {
    if Holds(n, id) then n.store.entries[id].envelope.ttlHops else 0
  }

  /** What a favourable contact does to one envelope. */
  ghost function HopsAfter(mine: nat, theirs: nat): nat {
    if mine == 0 && theirs >= 2 then theirs - 1 else mine
  }

  lemma GainHops(o: Oracles, x: Node, theirs: Bloom.BloomFilter, now: nat, born: Envelope)
    requires Idle(x) && theirs.Valid() && now < born.expiresAt
    ensures var id, gain := born.Id(), Gain(o, x, theirs, now);
            && (id in gain <==> !Bloom.Contains(theirs, o.hash, id) && HopsAt(x, id) >= 2)
            && (id in gain ==> gain[id].ttlHops == HopsAt(x, id) - 1)
  {
    if Holds(x, born.Id()) { IdIgnoresOnlyHops(born, x.store.entries[born.Id()].envelope); }
  }

  lemma SideHops(o: Oracles, x: Node, y: Node, y': Node, now: nat, born: Envelope)
    requires Idle(x) && Idle(y) && FilterFor(o, y).Valid() && now < born.expiresAt
    requires Bloom.Contains(FilterFor(o, y), o.hash, born.Id()) ==> Holds(y, born.Id())
    requires Contents(y'.store.entries) == Contents(y.store.entries) + Gain(o, x, FilterFor(o, y), now)
    requires Engine.Valid(y'.store)
    ensures HopsAt(y', born.Id()) == HopsAfter(HopsAt(y, born.Id()), HopsAt(x, born.Id()))
  {
    var id, gain := born.Id(), Gain(o, x, FilterFor(o, y), now);
    NoFalseNegative(o, y, id);
    GainHops(o, x, FilterFor(o, y), now, born);
    assert id in Contents(y'.store.entries) <==> Holds(y', id);
    assert id in Contents(y'.store.entries) <==> Holds(y, id) || id in gain;
  }

  lemma ContactHops(o: Oracles, w: World, w': World, m: Meeting, born: Envelope)
    requires AllIdle(w) && Meets(o, w, w', m) && Favourable(o, w, m, born)
    ensures HopsAt(w'[m.a], born.Id()) == HopsAfter(HopsAt(w[m.a], born.Id()), HopsAt(w[m.b], born.Id()))
    ensures HopsAt(w'[m.b], born.Id()) == HopsAfter(HopsAt(w[m.b], born.Id()), HopsAt(w[m.a], born.Id()))
  {
    var x, y, x', y' := w[m.a], w[m.b], w'[m.a], w'[m.b];
    assert Links(m, m.a, m.b) && Links(m, m.b, m.a);
    var toY, toX :| Contacted(o, x, y, m.a, m.b, m.tick, toY, toX, x', y');
    NothingElse(o, x, y, m.a, m.b, m.tick, toY, toX, x', y');
    ExactExchange(o, x, y, m.a, m.b, m.tick, toY, toX, x', y');
    SideHops(o, x, y, y', m.tick, born);
    SideHops(o, y, x, x', m.tick, born);
  }

  /** What it does to the copies of that envelope all nodes hold. */
  ghost function Exchanged(hops: seq<nat>, m: Meeting): (hops': seq<nat>)
    requires m.a < |hops| && m.b < |hops|
    ensures |hops'| == |hops|
  {
    hops[m.a := HopsAfter(hops[m.a], hops[m.b])][m.b := HopsAfter(hops[m.b], hops[m.a])]
  }

  ghost function Hops(w: World, id: EnvelopeId): (hops: seq<nat>)
    ensures |hops| == |w|
  {
    seq(|w|, v requires 0 <= v < |w| => HopsAt(w[v], id))
  }

  lemma MeetsHops(o: Oracles, w: World, w': World, m: Meeting, born: Envelope)
    requires AllIdle(w) && Meets(o, w, w', m) && Favourable(o, w, m, born)
    ensures Hops(w', born.Id()) == Exchanged(Hops(w, born.Id()), m)
  {
    ContactHops(o, w, w', m, born);
    OthersHops(w, w', m, born.Id());
  }

  lemma OthersHops(w: World, w': World, m: Meeting, id: EnvelopeId)
    requires |w'| == |w| && m.a < |w| && m.b < |w| && m.a != m.b
    requires forall v | 0 <= v < |w| && v != m.a && v != m.b :: w'[v] == w[v]
    ensures Hops(w', id) == Hops(w, id)[m.a := HopsAt(w'[m.a], id)][m.b := HopsAt(w'[m.b], id)]
  {
  }

  /** The nodes reached are exactly those with a copy, and none has spent more hops than there are others. */
  ghost predicate Spread(hops: seq<nat>, reached: set<nat>, lifetime: nat) {
    && (forall v | v in reached :: v < |hops|)
    && forall v: nat | v < |hops| :: if v in reached then hops[v] + |reached| >= lifetime + 1 else hops[v] == 0
  }

  lemma {:induction false} BoundedSet(s: set<nat>, n: nat)
    requires forall x | x in s :: x < n
    ensures |s| <= n
    decreases n
  {
    if n > 0 {
      BoundedSet(s - {n - 1}, n - 1);
      SubsetSize(s, s - {n - 1} + {n - 1});
    } else {
      assert s == {};
    }
  }

  lemma SpreadMore(hops: seq<nat>, m: Meeting, reached: set<nat>, lifetime: nat)
    requires Spread(hops, reached, lifetime) && lifetime >= |hops|
    requires m.a < |hops| && m.b < |hops| && m.a != m.b
    ensures Spread(Exchanged(hops, m), Extended(reached, m), lifetime)
  {
    if m.a in reached && m.b in reached {
      assert Extended(reached, m) == reached;
      BoundedSet(reached, |hops|);
    } else if m.a in reached {
      SpreadTo(hops, m.a, m.b, reached, lifetime);
      assert Extended(reached, m) == reached + {m.b};
    } else if m.b in reached {
      SpreadTo(hops, m.b, m.a, reached, lifetime);
      assert Extended(reached, m) == reached + {m.a};
    }
  }

  /** One more node gets a copy. */
  lemma SpreadTo(hops: seq<nat>, from: nat, to: nat, reached: set<nat>, lifetime: nat)
    requires Spread(hops, reached, lifetime) && lifetime >= |hops|
    requires from < |hops| && to < |hops| && from in reached && to !in reached
    ensures hops[from] >= 2 && hops[to] == 0
    ensures Spread(hops[to := hops[from] - 1], reached + {to}, lifetime)
  {
    BoundedSet(reached + {to}, |hops|);
  }

  ghost predicate AllFavourable(o: Oracles, ws: seq<World>, meetings: seq<Meeting>, born: Envelope) {
    |ws| == |meetings| + 1 && forall k: nat | k < |meetings| :: FavourableAt(o, ws, meetings, born, k)
  }

  ghost predicate FavourableAt(o: Oracles, ws: seq<World>, meetings: seq<Meeting>, born: Envelope, k: nat) {
    k < |meetings| && k < |ws| && Favourable(o, ws[k], meetings[k], born)
  }

  ghost predicate HopStep(hops: seq<nat>, hops': seq<nat>, m: Meeting) {
    m.a < |hops| && m.b < |hops| && m.a != m.b && hops' == Exchanged(hops, m)
  }

  lemma MeetsAtHops(o: Oracles, ws: seq<World>, meetings: seq<Meeting>, born: Envelope, k: nat)
    requires MeetsAt(o, ws, meetings, k) && FavourableAt(o, ws, meetings, born, k) && AllIdle(ws[k])
    ensures HopStep(Hops(ws[k], born.Id()), Hops(ws[k + 1], born.Id()), meetings[k])
  {
    MeetsHops(o, ws[k], ws[k + 1], meetings[k], born);
  }

  lemma StepHops(o: Oracles, ws: seq<World>, meetings: seq<Meeting>, born: Envelope, k: nat)
    requires Run(o, ws, meetings) && AllIdle(ws[0]) && AllFavourable(o, ws, meetings, born) && k < |meetings|
    ensures HopStep(Hops(ws[k], born.Id()), Hops(ws[k + 1], born.Id()), meetings[k])
  {
    RunIdle(o, ws, meetings, k);
    assert MeetsAt(o, ws, meetings, k) && FavourableAt(o, ws, meetings, born, k);
    MeetsAtHops(o, ws, meetings, born, k);
  }

  lemma {:induction false} TraceSpreads(hops: seq<seq<nat>>, meetings: seq<Meeting>, origin: nat, lifetime: nat, k: nat)
    requires k <= |meetings| < |hops| && lifetime >= |hops[0]| && Spread(hops[0], {origin}, lifetime)
    requires forall j | 0 < j <= |meetings| :: HopStep(hops[j - 1], hops[j], meetings[j - 1])
    ensures |hops[k]| == |hops[0]| && Spread(hops[k], Reached(meetings, origin, k), lifetime)
    decreases k
  {
    if k == 0 {
    } else {
      TraceSpreads(hops, meetings, origin, lifetime, k - 1);
      assert HopStep(hops[k - 1], hops[k], meetings[k - 1]);
      SpreadMore(hops[k - 1], meetings[k - 1], Reached(meetings, origin, k - 1), lifetime);
    }
  }

  lemma SpreadHolds(w: World, reached: set<nat>, born: Envelope, v: nat)
    requires AllIdle(w) && v < |w| <= born.ttlHops && Spread(Hops(w, born.Id()), reached, born.ttlHops)
    ensures Holds(w[v], born.Id()) <==> v in reached
  {
    BoundedSet(reached, |w|);
    assert Hops(w, born.Id())[v] == HopsAt(w[v], born.Id());
    assert Idle(w[v]);
  }

  lemma StartSpread(w: World, origin: nat, born: Envelope)
    requires origin < |w| && Holders(w, born.Id()) <= {origin}
    requires Holds(w[origin], born.Id()) && w[origin].store.entries[born.Id()].envelope == born
    ensures Spread(Hops(w, born.Id()), {origin}, born.ttlHops)
  {
    forall v: nat | v < |w| && v != origin
      ensures HopsAt(w[v], born.Id()) == 0
    {
      assert v !in Holders(w, born.Id());
    }
  }

  ghost function HopTrace(ws: seq<World>, id: EnvelopeId): (trace: seq<seq<nat>>)
    ensures |trace| == |ws| && forall k | 0 <= k < |ws| :: trace[k] == Hops(ws[k], id)
  {
    seq(|ws|, k requires 0 <= k < |ws| => Hops(ws[k], id))
  }

  lemma RunHops(o: Oracles, ws: seq<World>, meetings: seq<Meeting>, born: Envelope, trace: seq<seq<nat>>)
    requires Run(o, ws, meetings) && AllIdle(ws[0]) && AllFavourable(o, ws, meetings, born)
    requires trace == HopTrace(ws, born.Id())
    ensures forall j | 0 < j <= |meetings| :: HopStep(trace[j - 1], trace[j], meetings[j - 1])
  {
    forall j | 0 < j <= |meetings|
      ensures HopStep(trace[j - 1], trace[j], meetings[j - 1])
    {
      StepHops(o, ws, meetings, born, j - 1);
    }
  }

  lemma RunSpreads(o: Oracles, ws: seq<World>, meetings: seq<Meeting>, origin: nat, born: Envelope,
                   trace: seq<seq<nat>>)
    requires Run(o, ws, meetings) && AllIdle(ws[0]) && AllFavourable(o, ws, meetings, born)
    requires trace == HopTrace(ws, born.Id())
    requires Spread(trace[0], {origin}, born.ttlHops) && born.ttlHops >= |trace[0]|
    ensures Spread(trace[|meetings|], Reached(meetings, origin, |meetings|), born.ttlHops)
  {
    RunHops(o, ws, meetings, born, trace);
    TraceSpreads(trace, meetings, origin, born.ttlHops, |meetings|);
  }

  /** A run of contacts favourable to an envelope that only its composer holds at first. */
  ghost predicate FavourableRun(o: Oracles, ws: seq<World>, meetings: seq<Meeting>, origin: nat, born: Envelope) {
    && Run(o, ws, meetings) && AllIdle(ws[0]) && AllFavourable(o, ws, meetings, born)
    && origin < |ws[0]| && Holders(ws[0], born.Id()) <= {origin}
    && Holds(ws[0][origin], born.Id()) && ws[0][origin].store.entries[born.Id()].envelope == born
  }

  /** Delivery: composed at one node with a lifetime of at least the number of nodes, and given at every contact
      room, rate budget, no expiry and no false positive on it, an envelope ends up exactly at the nodes that a
      time-respecting chain of contacts links to its origin. */
  lemma DeliveredAlongChains(o: Oracles, ws: seq<World>, meetings: seq<Meeting>, origin: nat, born: Envelope, v: nat)
    requires FavourableRun(o, ws, meetings, origin, born) && v < |ws[0]| <= born.ttlHops
    ensures |ws[|meetings|]| == |ws[0]|
    ensures Holds(ws[|meetings|][v], born.Id()) <==> Chained(meetings, |meetings|, origin, v)
  {
    StartSpread(ws[0], origin, born);
    RunSpreads(o, ws, meetings, origin, born, HopTrace(ws, born.Id()));
    RunIdle(o, ws, meetings, |meetings|);
    SpreadHolds(ws[|meetings|], Reached(meetings, origin, |meetings|), born, v);
    ReachedIsChained(meetings, |meetings|, origin, v);
  }
}
