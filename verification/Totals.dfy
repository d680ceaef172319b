/** When a run of contacts is favourable: the conditions of each contact follow from totals that can be checked before
    the first one (core/src/dtn_sim.rs). */
module Totals {
  import opened Bytes
  import opened Collections
  import opened Envelopes
  import opened Engine
  import opened Durable
  import opened RateLimiting
  import opened Relay
  import opened Contact
  import opened Schedule
  import opened CM = ContactMessages
  import Bloom
  import Drain

  /** Contacts among so many nodes, none with itself. */
  ghost predicate Script(meetings: seq<Meeting>, n: nat) {
    forall i | 0 <= i < |meetings| :: meetings[i].a < n && meetings[i].b < n && meetings[i].a != meetings[i].b
  }

  // ----- all that is about, and room for all of it everywhere -----

  /** One frame for each envelope, whatever its hop count and nonce will be. */
  ghost function Frames(all: map<EnvelopeId, Envelope>): set<Outbound> {
    set id | id in all :: Outbound(0, Data(all[id], 0))
  }

  /** The bytes that all envelopes together take. */
  ghost function TotalBytes(all: map<EnvelopeId, Envelope>): nat {
    SizeOfSet(Frames(all))
  }

  ghost predicate Named(all: map<EnvelopeId, Envelope>) {
    forall id | id in all :: all[id].Id() == id
  }

  /** An idle node that holds copies of these envelopes only, with room for all of them, and whose rate limits one
      frame of each of them fits. */
  ghost predicate Ample(n: Node, all: map<EnvelopeId, Envelope>) {
    && Idle(n) && Named(all) && n.store.entries.Keys <= all.Keys
    && |all| <= n.store.capacity && |all| <= n.limits.maxEnvelopes && TotalBytes(all) <= n.limits.maxBytes
  }

  ghost predicate AllAmple(w: World, all: map<EnvelopeId, Envelope>) {
    forall v | 0 <= v < |w| :: Ample(w[v], all)
  }

  ghost function FilterOver(o: Oracles, ids: set<EnvelopeId>): Bloom.BloomFilter {
    Bloom.FilterOf(o.hash, o.sizing(|ids|).0, o.sizing(|ids|).1, ids)
  }

  /** No filter over others of these identities contains this one. */
  ghost predicate Distinguished(o: Oracles, ids: set<EnvelopeId>, id: EnvelopeId) {
    forall others | others <= ids && id !in others ::
      FilterOver(o, others).Valid() && !Bloom.Contains(FilterOver(o, others), o.hash, id)
  }

  /** Alone, an identity is mistaken for nothing: an empty filter contains nothing. */
  lemma AloneIsDistinguished(o: Oracles, id: EnvelopeId)
    ensures Distinguished(o, {id}, id)
  {
    forall others: set<EnvelopeId> | others <= {id} && id !in others
      ensures FilterOver(o, others).Valid() && !Bloom.Contains(FilterOver(o, others), o.hash, id)
    {
      var (numBits, numHashes) := o.sizing(|others|);
      assert others == {};
      Bloom.FilterMembership(o.hash, numBits, numHashes, others, id);
      assert Bloom.Index(o.hash, numBits, id, 0) in Bloom.IndicesOf(o.hash, numBits, numHashes, id);
    }
  }

  // ----- the conditions of one contact -----

  lemma SameSize(e: Envelope, f: Envelope, nonce: u64)
    requires f == e.(ttlHops := f.ttlHops)
    ensures |CM.ToBytes(Data(f, nonce))| == |CM.ToBytes(Data(e, 0))|
  {
    assert Front(f) == Front(e);
  }

  lemma OneTotal(e: Envelope)
    ensures TotalBytes(map[e.Id() := e]) == |CM.ToBytes(Data(e, 0))|
  {
    var m, all := Outbound(0, Data(e, 0)), map[e.Id() := e];
    assert Frames(all) == {m} by {
      assert e.Id() in all && all[e.Id()] == e;
      forall id | id in all
        ensures Outbound(0, Data(all[id], 0)) == m
      {
      }
    }
    assert SizeOfSet({m}) == SizeOf(m) by { SizeOfMore({}, m); assert {} + {m} == {m}; }
  }

  lemma SizeWithout(s: set<Outbound>, m: Outbound)
    requires m in s
    ensures SizeOfSet(s) == SizeOfSet(s - {m}) + SizeOf(m)
  {
    SizeOfMore(s - {m}, m);
    assert s - {m} + {m} == s;
  }

  /** Messages matched one by one with frames of the same size. */
  ghost predicate Matched(messages: set<Outbound>, frames: set<Outbound>, twin: Outbound -> Outbound) {
    && (forall m | m in messages :: twin(m) in frames && SizeOf(twin(m)) == SizeOf(m))
    && (forall m, m' | m in messages && m' in messages && twin(m) == twin(m') :: m == m')
  }

  lemma MatchedRest(messages: set<Outbound>, frames: set<Outbound>, twin: Outbound -> Outbound, m: Outbound)
    requires Matched(messages, frames, twin) && m in messages
    ensures twin(m) in frames && SizeOf(twin(m)) == SizeOf(m) && Matched(messages - {m}, frames - {twin(m)}, twin)
  {
  }

  /** They take no more bytes than the frames. */
  lemma {:induction false} SizesWithin(messages: set<Outbound>, frames: set<Outbound>, twin: Outbound -> Outbound)
    requires Matched(messages, frames, twin)
    ensures SizeOfSet(messages) <= SizeOfSet(frames)
    decreases messages
  {
    if m :| m in messages {
      MatchedRest(messages, frames, twin, m);
      SizesWithin(messages - {m}, frames - {twin(m)}, twin);
      SizeWithout(messages, m);
      SizeWithout(frames, twin(m));
    } else {
      assert messages == {};
    }
  }

  /** The frame counted for a message. */
  ghost function Counted(m: Outbound, all: map<EnvelopeId, Envelope>): Outbound {
    if m.message.Data? && m.message.envelope.Id() in all then Outbound(0, Data(all[m.message.envelope.Id()], 0)) else m
  }

  lemma PushCounted(o: Oracles, n: Node, to: nat, theirs: Bloom.BloomFilter, all: map<EnvelopeId, Envelope>,
                    m: Outbound)
    requires Ample(n, all) && theirs.Valid() && m in Pushed(o, n, to, theirs)
    ensures Counted(m, all) in Frames(all) && SizeOf(Counted(m, all)) == SizeOf(m)
    ensures m.message.Data? && Counted(m, all) == Outbound(0, Data(all[m.message.envelope.Id()], 0))
    ensures all[m.message.envelope.Id()].Id() == m.message.envelope.Id()
  {
    PushedData(o, n, to, theirs, m);
    var id := m.message.envelope.Id();
    IdIgnoresOnlyHops(all[id], m.message.envelope);
    SameSize(all[id], m.message.envelope, m.message.puzzleNonce);
  }

  /** Two pushes counted alike are one. */
  lemma PushOnce(o: Oracles, n: Node, to: nat, theirs: Bloom.BloomFilter, all: map<EnvelopeId, Envelope>, m: Outbound,
                 m': Outbound)
    requires Ample(n, all) && theirs.Valid() && m in Pushed(o, n, to, theirs) && m' in Pushed(o, n, to, theirs)
    requires Counted(m, all) == Counted(m', all)
    ensures m == m'
  {
    PushCounted(o, n, to, theirs, all, m);
    PushCounted(o, n, to, theirs, all, m');
    PushedData(o, n, to, theirs, m);
    PushedData(o, n, to, theirs, m');
    var e :| e in MissingByFilter(n.store, o.hash, theirs) && DecrementTtl(e).Some?
        && m == Push(o, n.difficulty, to, e);
    var e' :| e' in MissingByFilter(n.store, o.hash, theirs) && DecrementTtl(e').Some?
        && m' == Push(o, n.difficulty, to, e');
  }

  /** What is pushed is within the totals. */
  lemma AmpleBudget(o: Oracles, n: Node, limits: Config, to: nat, theirs: Bloom.BloomFilter, all: map<EnvelopeId,
                    Envelope>)
    requires Ample(n, all) && theirs.Valid() && |all| <= limits.maxEnvelopes && TotalBytes(all) <= limits.maxBytes
    ensures Budgeted(limits, Pushed(o, n, to, theirs))
  {
    var pushed := Pushed(o, n, to, theirs);
    FewerKeys(n.store.entries, all);
    Drain.MissingSize(n.store, o.hash, theirs);
    Drain.PushSize(o, n.difficulty, to, MissingByFilter(n.store, o.hash, theirs));
    forall m | m in pushed
      ensures Counted(m, all) in Frames(all) && SizeOf(Counted(m, all)) == SizeOf(m)
    {
      PushCounted(o, n, to, theirs, all, m);
    }
    forall m, m' | m in pushed && m' in pushed && Counted(m, all) == Counted(m', all)
      ensures m == m'
    {
      PushOnce(o, n, to, theirs, all, m, m');
    }
    SizesWithin(pushed, Frames(all), m => Counted(m, all));
  }

  lemma FewerKeys<V, W>(m: map<EnvelopeId, V>, all: map<EnvelopeId, W>)
    requires m.Keys <= all.Keys
    ensures |m| <= |all|
  {
    SubsetSize(m.Keys, all.Keys);
    assert |m.Keys| == |m| && |all.Keys| == |all|;
  }

  lemma AmpleRoom(o: Oracles, x: Node, y: Node, theirs: Bloom.BloomFilter, now: nat, all: map<EnvelopeId, Envelope>)
    requires Ample(x, all) && Ample(y, all) && theirs.Valid()
    ensures |Contents(y.store.entries) + Gain(o, x, theirs, now)| <= y.store.capacity
  {
    FewerKeys(Contents(y.store.entries) + Gain(o, x, theirs, now), all);
  }

  lemma AmpleFavourableTo(o: Oracles, x: Node, y: Node, yId: nat, now: nat, id: EnvelopeId, all: map<EnvelopeId,
                          Envelope>)
    requires Ample(x, all) && Ample(y, all) && Distinguished(o, all.Keys, id)
    ensures FavourableTo(o, x, y, yId, now, id)
  {
    NoFalseNegative(o, y, id);
    assert FilterFor(o, y) == FilterOver(o, y.store.entries.Keys) by {
      assert |y.store.entries.Keys| == |y.store.entries|;
    }
    AmpleRoom(o, x, y, FilterFor(o, y), now, all);
    AmpleBudget(o, x, y.limits, yId, FilterFor(o, y), all);
  }

  lemma AmpleFavourable(o: Oracles, w: World, m: Meeting, born: Envelope, all: map<EnvelopeId, Envelope>)
    requires AllAmple(w, all) && Distinguished(o, all.Keys, born.Id())
    requires m.a < |w| && m.b < |w| && m.tick < born.expiresAt
    ensures Favourable(o, w, m, born)
  {
    forall u: nat, v: nat | Links(m, u, v)
      ensures FavourableTo(o, w[u], w[v], v, m.tick, born.Id())
    {
      AmpleFavourableTo(o, w[u], w[v], v, m.tick, born.Id(), all);
    }
  }

  // ----- they hold all along -----

  lemma AmpleContact(o: Oracles, x: Node, y: Node, m: Meeting, x': Node, y': Node, all: map<EnvelopeId, Envelope>)
    requires Ample(x, all) && Ample(y, all) && InContact(o, x, y, m, x', y')
    ensures Ample(x', all) && Ample(y', all)
  {
    var toY, toX :| Contacted(o, x, y, m.a, m.b, m.tick, toY, toX, x', y');
    NothingElse(o, x, y, m.a, m.b, m.tick, toY, toX, x', y');
  }

  lemma AmpleMeets(o: Oracles, w: World, w': World, m: Meeting, all: map<EnvelopeId, Envelope>)
    requires AllAmple(w, all) && Meets(o, w, w', m)
    ensures AllAmple(w', all)
  {
    AmpleContact(o, w[m.a], w[m.b], m, w'[m.a], w'[m.b], all);
  }

  lemma {:induction false} RunAmple(o: Oracles, ws: seq<World>, meetings: seq<Meeting>, all: map<EnvelopeId, Envelope>,
                                    k: nat)
    requires Run(o, ws, meetings) && AllAmple(ws[0], all) && k <= |meetings|
    ensures AllAmple(ws[k], all)
  {
    if k == 0 {
    } else {
      RunAmple(o, ws, meetings, all, k - 1);
      RunStep(o, ws, meetings, k);
      AmpleMeets(o, ws[k - 1], ws[k], meetings[k - 1], all);
    }
  }

  lemma AmpleAt(o: Oracles, ws: seq<World>, meetings: seq<Meeting>, born: Envelope, all: map<EnvelopeId, Envelope>,
                k: nat)
    requires Run(o, ws, meetings) && AllAmple(ws[0], all) && Distinguished(o, all.Keys, born.Id())
    requires k < |meetings| && meetings[k].tick < born.expiresAt
    ensures FavourableAt(o, ws, meetings, born, k)
  {
    RunAmple(o, ws, meetings, all, k);
    RunStep(o, ws, meetings, k + 1);
    AmpleFavourable(o, ws[k], meetings[k], born, all);
  }

  /** A run is favourable if, before it starts, every node has room and rate budget for every envelope there is, no
      filter over the others contains the one in question, and that one outlives the script. */
  lemma AmpleRunFavourable(o: Oracles, ws: seq<World>, meetings: seq<Meeting>, origin: nat, born: Envelope,
                           all: map<EnvelopeId, Envelope>)
    requires Run(o, ws, meetings) && AllAmple(ws[0], all) && Distinguished(o, all.Keys, born.Id())
    requires forall i | 0 <= i < |meetings| :: meetings[i].tick < born.expiresAt
    requires origin < |ws[0]| && Holders(ws[0], born.Id()) <= {origin}
    requires Holds(ws[0][origin], born.Id()) && ws[0][origin].store.entries[born.Id()].envelope == born
    ensures FavourableRun(o, ws, meetings, origin, born)
  {
    forall k: nat | k < |meetings|
      ensures FavourableAt(o, ws, meetings, born, k)
    {
      AmpleAt(o, ws, meetings, born, all, k);
    }
    assert AllIdle(ws[0]);
  }

  /** Delivery from totals: so an envelope whose lifetime is at least the number of nodes ends up exactly at the nodes
      that a time-respecting chain of contacts links to its origin. */
  lemma DeliveredGivenTotals(o: Oracles, ws: seq<World>, meetings: seq<Meeting>, origin: nat, born: Envelope,
                             all: map<EnvelopeId, Envelope>, v: nat)
    requires Run(o, ws, meetings) && AllAmple(ws[0], all) && Distinguished(o, all.Keys, born.Id())
    requires forall i | 0 <= i < |meetings| :: meetings[i].tick < born.expiresAt
    requires origin < |ws[0]| && Holders(ws[0], born.Id()) <= {origin}
    requires Holds(ws[0][origin], born.Id()) && ws[0][origin].store.entries[born.Id()].envelope == born
    requires v < |ws[0]| <= born.ttlHops
    ensures |ws[|meetings|]| == |ws[0]|
    ensures Holds(ws[|meetings|][v], born.Id()) <==> Chained(meetings, |meetings|, origin, v)
  {
    AmpleRunFavourable(o, ws, meetings, origin, born, all);
    DeliveredAlongChains(o, ws, meetings, origin, born, v);
  }

  // ----- such runs exist -----

  /** Two idle nodes can always go through with a contact. */
  lemma ContactHappens(o: Oracles, x: Node, y: Node, m: Meeting) returns (x': Node, y': Node)
    requires Idle(x) && Idle(y)
    ensures InContact(o, x, y, m, x', y')
  {
    NoFalseNegative(o, x, Digest([]));
    NoFalseNegative(o, y, Digest([]));
    var toY := EnumerationExists(Pushed(o, x, m.b, FilterFor(o, y)));
    AllPushed(o, x, m.b, FilterFor(o, y), toY);
    Filled(o, x, y, m.a, m.b, m.tick, toY);
    var filled := Receive(o, Connect(y, m.a), m.a, toY, m.tick);
    var toX := EnumerationExists(Pushed(o, filled, m.a, FilterFor(o, x)));
    AllPushed(o, filled, m.a, FilterFor(o, x), toX);
    x', y' := Lose(Receive(o, Connect(x, m.b), m.b, toX, m.tick), m.b), Lose(filled, m.a);
    assert Contacted(o, x, y, m.a, m.b, m.tick, toY, toX, x', y');
  }

  lemma AllPushed(o: Oracles, n: Node, to: nat, theirs: Bloom.BloomFilter, messages: seq<Outbound>)
    requires theirs.Valid() && Valid(n.store) && Enumerates(messages, Pushed(o, n, to, theirs))
    ensures AllData(messages)
  {
    forall m | m in messages
      ensures m.message.Data?
    {
      assert m in Elements(messages);
      PushedData(o, n, to, theirs, m);
    }
  }

  lemma MeetingHappens(o: Oracles, w: World, m: Meeting, all: map<EnvelopeId, Envelope>) returns (w': World)
    requires AllAmple(w, all) && m.a < |w| && m.b < |w| && m.a != m.b
    ensures Meets(o, w, w', m) && AllAmple(w', all) && |w'| == |w|
  {
    var x', y' := ContactHappens(o, w[m.a], w[m.b], m);
    w' := w[m.a := x'][m.b := y'];
    AmpleMeets(o, w, w', m, all);
  }

  ghost predicate Steady(ws: seq<World>, n: nat, all: map<EnvelopeId, Envelope>) {
    forall i | 0 <= i < |ws| :: |ws[i]| == n && AllAmple(ws[i], all)
  }

  lemma RunContinues(o: Oracles, front: seq<World>, before: seq<Meeting>, last: Meeting, n: nat, all: map<EnvelopeId,
                     Envelope>)
    returns (w: World)
    requires Run(o, front, before) && Steady(front, n, all) && last.a < n && last.b < n && last.a != last.b
    ensures Run(o, front + [w], before + [last]) && |w| == n && AllAmple(w, all)
  {
    assert |front[|before|]| == n && AllAmple(front[|before|], all);
    w := MeetingHappens(o, front[|before|], last, all);
    RunExtends(o, front, before, w, last);
  }

  /** Every script can be run from such a start. */
  lemma {:induction false} RunHappens(o: Oracles, start: World, meetings: seq<Meeting>, all: map<EnvelopeId, Envelope>)
    returns (ws: seq<World>)
    requires AllAmple(start, all) && Script(meetings, |start|)
    ensures Run(o, ws, meetings) && Steady(ws, |start|, all) && ws[0] == start
    decreases |meetings|
  {
    if meetings == [] {
      ws := [start];
    } else {
      var before, last := meetings[..|meetings| - 1], meetings[|meetings| - 1];
      var front := RunHappens(o, start, before, all);
      var w := RunContinues(o, front, before, last, |start|, all);
      ws := front + [w];
      assert meetings == before + [last];
    }
  }
}
