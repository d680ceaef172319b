/** One contact window of the simulator: connect, gossip until nothing is queued, disconnect
    (core/src/dtn_sim.rs, core/src/relay.rs). */
module Contact {
  import opened Bytes
  import opened Collections
  import opened Wrappers
  import opened Envelopes
  import opened Engine
  import opened Durable
  import opened RateLimiting
  import opened Relay
  import opened CM = ContactMessages
  import Bloom
  import Drain
  import Mesh

  /** A simulated node between contacts: no peers, and the simulator never turns the puzzle on. */
  ghost predicate Idle(n: Node) {
    Valid(n.store) && n.peers == map[] && n.difficulty == 0
  }

  ghost function FilterFor(o: Oracles, n: Node): Bloom.BloomFilter {
    SummaryFilter(n.store, o.hash, o.sizing)
  }

  /** What one side sends in answer to the other's summary. */
  ghost function Pushed(o: Oracles, n: Node, to: nat, theirs: Bloom.BloomFilter): set<Outbound>
    requires theirs.Valid()
  {
    PushAll(o, n.difficulty, to, MissingByFilter(n.store, o.hash, theirs))
  }

  /** A node after these data messages from one peer, in order. */
  ghost function Receive(o: Oracles, n: Node, from: nat, messages: seq<Outbound>, now: nat): Node
    requires forall m | m in messages :: m.message.Data?
  {
    if messages == [] then n
    else ReceiveOne(o, Receive(o, n, from, messages[..|messages| - 1], now), from, messages[|messages| - 1], now)
  }

  ghost function ReceiveOne(o: Oracles, n: Node, from: nat, m: Outbound, now: nat): Node
    requires m.message.Data?
  {
    OnData(o, n, from, m.message.envelope, m.message.puzzleNonce, |CM.ToBytes(m.message)|, now).0
  }

  ghost predicate AllData(messages: seq<Outbound>) {
    forall m | m in messages :: m.message.Data?
  }

  /** The whole window, as the order of its deliveries leaves it: the second node takes what the first pushes,
      then answers the first node's opening summary with what it holds by then. */
  ghost predicate Contacted(o: Oracles, x: Node, y: Node, xId: nat, yId: nat, now: nat, toY: seq<Outbound>,
                            toX: seq<Outbound>, x': Node, y': Node) {
    && FilterFor(o, x).Valid() && FilterFor(o, y).Valid()
    && AllData(toY) && AllData(toX)
    && Enumerates(toY, Pushed(o, x, yId, FilterFor(o, y)))
    && var filled := Receive(o, Connect(y, xId), xId, toY, now);
    && Enumerates(toX, Pushed(o, filled, xId, FilterFor(o, x)))
    && y' == Lose(filled, xId)
    && x' == Lose(Receive(o, Connect(x, yId), yId, toX, now), yId)
  }

  // ----- what receiving data can do -----

  /** Data from a node's only peer is stored or dropped, and sent to nobody. */
  lemma DataQuiet(o: Oracles, n: Node, from: nat, e: Envelope, nonce: u64, size: nat, now: nat)
    requires n.peers.Keys == {from}
    ensures var (n', outs) := OnData(o, n, from, e, nonce, size, now);
            outs == {} && n'.peers.Keys == {from} && n'.difficulty == n.difficulty && n'.limits == n.limits
  {
    var limiter := Allow(PeerOf(n, from).rate, n.limits, now, size).0;
    assert n.peers[from := PeerOf(n, from).(rate := limiter)].Keys - {from} == {};
    Drain.RelaySize({}, e, nonce);
  }

  ghost function IdsOf(messages: seq<Outbound>): set<EnvelopeId>
    requires AllData(messages)
  {
    set m | m in messages :: m.message.envelope.Id()
  }

  /** A node that has only taken some of these identities, from its one peer. */
  ghost predicate Grown(n: Node, n': Node, from: nat, ids: set<EnvelopeId>) {
    && Valid(n'.store) && n'.store.capacity == n.store.capacity
    && n'.peers.Keys == {from} && n'.peers[from].summarySent
    && n'.difficulty == n.difficulty && n'.limits == n.limits
    && n'.store.entries.Keys <= n.store.entries.Keys + ids
  }

  lemma DataGrows(o: Oracles, n: Node, from: nat, e: Envelope, nonce: u64, size: nat, now: nat)
    requires Valid(n.store) && n.peers.Keys == {from} && n.peers[from].summarySent
    ensures Grown(n, OnData(o, n, from, e, nonce, size, now).0, from, {e.Id()})
  {
    DataQuiet(o, n, from, e, nonce, size, now);
    Mesh.AcceptKeeps(n.store, e, now);
  }

  lemma {:induction false} ReceiveGrows(o: Oracles, n: Node, from: nat, messages: seq<Outbound>, now: nat)
    requires AllData(messages) && Valid(n.store) && n.peers.Keys == {from} && n.peers[from].summarySent
    ensures Grown(n, Receive(o, n, from, messages, now), from, IdsOf(messages))
    decreases |messages|
  {
    if messages == [] {
    } else {
      var before, last := messages[..|messages| - 1], messages[|messages| - 1];
      assert messages == before + [last];
      IdsAppend(before, last);
      ReceiveGrows(o, n, from, before, now);
      var mid := Receive(o, n, from, before, now);
      var n' := ReceiveOne(o, mid, from, last, now);
      DataGrows(o, mid, from, last.message.envelope, last.message.puzzleNonce, |CM.ToBytes(last.message)|, now);
      GrownMore(n, mid, n', from, IdsOf(before), last.message.envelope.Id());
    }
  }

  lemma GrownMore(n: Node, mid: Node, n': Node, from: nat, ids: set<EnvelopeId>, id: EnvelopeId)
    requires Grown(n, mid, from, ids) && Grown(mid, n', from, {id})
    ensures Grown(n, n', from, ids + {id})
  {
  }

  lemma IdsAppend(messages: seq<Outbound>, last: Outbound)
    requires AllData(messages) && last.message.Data?
    ensures AllData(messages + [last]) && IdsOf(messages + [last]) == IdsOf(messages) + {last.message.envelope.Id()}
  {
    assert forall m :: m in messages + [last] <==> m in messages || m == last;
  }

  lemma PushedData(o: Oracles, n: Node, to: nat, theirs: Bloom.BloomFilter, m: Outbound)
    requires theirs.Valid() && Valid(n.store) && m in Pushed(o, n, to, theirs)
    ensures m.message.Data? && m.to == to
    ensures var id := m.message.envelope.Id();
            id in n.store.entries && !Bloom.Contains(theirs, o.hash, id)
            && DecrementTtl(n.store.entries[id].envelope) == Some(m.message.envelope)
  {
    var e :| e in MissingByFilter(n.store, o.hash, theirs) && DecrementTtl(e).Some?
        && m == Push(o, n.difficulty, to, e);
    IdIgnoresOnlyHops(e, DecrementTtl(e).value);
  }

  /** A filter never denies an identity it was built from. */
  lemma NoFalseNegative(o: Oracles, n: Node, id: EnvelopeId)
    ensures FilterFor(o, n).Valid()
    ensures id in n.store.entries ==> Bloom.Contains(FilterFor(o, n), o.hash, id)
  {
    var (numBits, numHashes) := o.sizing(|n.store.entries|);
    Bloom.FilterMembership(o.hash, numBits, numHashes, n.store.entries.Keys, id);
  }

  // ----- in general: how much is exchanged, and what -----

  lemma ConnectIdle(n: Node, peer: nat)
    requires Idle(n)
    ensures var n' := Connect(n, peer);
            && n'.peers.Keys == {peer} && n'.peers[peer] == Peer(true, EMPTY)
            && n'.store == n.store && n'.difficulty == 0 && n'.limits == n.limits
  {
  }

  lemma PushedIds(o: Oracles, n: Node, to: nat, theirs: Bloom.BloomFilter, messages: seq<Outbound>)
    requires theirs.Valid() && Valid(n.store) && AllData(messages) && Enumerates(messages, Pushed(o, n, to, theirs))
    ensures forall id | id in IdsOf(messages) :: id in n.store.entries && !Bloom.Contains(theirs, o.hash, id)
  {
    forall m | m in messages
      ensures m.message.envelope.Id() in n.store.entries && !Bloom.Contains(theirs, o.hash, m.message.envelope.Id())
    {
      assert m in Elements(messages);
      PushedData(o, n, to, theirs, m);
    }
  }

  lemma PushedCount(o: Oracles, n: Node, to: nat, theirs: Bloom.BloomFilter, messages: seq<Outbound>)
    requires theirs.Valid() && Enumerates(messages, Pushed(o, n, to, theirs))
    ensures |messages| <= |MissingByFilter(n.store, o.hash, theirs)|
  {
    EnumerateSize(messages, Pushed(o, n, to, theirs));
    Drain.PushSize(o, n.difficulty, to, MissingByFilter(n.store, o.hash, theirs));
  }

  /** A store that grew only by identities the filter contains misses no more than before. */
  lemma {:induction false} MissingOf(s: StoreState, o: Oracles, theirs: Bloom.BloomFilter, ids: set<EnvelopeId>)
    requires theirs.Valid()
    requires forall id | id in s.entries && !Bloom.Contains(theirs, o.hash, id) :: id in ids
    ensures |MissingByFilter(s, o.hash, theirs)| <= |ids|
    decreases ids
  {
    if id :| id in ids && id in s.entries {
      var rest := s.(entries := s.entries - {id});
      MissingOf(rest, o, theirs, ids - {id});
      SubsetSize(MissingByFilter(s, o.hash, theirs), MissingByFilter(rest, o.hash, theirs) + {s.entries[id].envelope});
    } else {
      assert MissingByFilter(s, o.hash, theirs) == {};
    }
  }

  /** Where the second node stands once it has taken everything pushed at it. */
  lemma Filled(o: Oracles, x: Node, y: Node, xId: nat, yId: nat, now: nat, toY: seq<Outbound>)
    requires Idle(x) && Idle(y) && AllData(toY) && FilterFor(o, y).Valid()
    requires Enumerates(toY, Pushed(o, x, yId, FilterFor(o, y)))
    ensures Grown(Connect(y, xId), Receive(o, Connect(y, xId), xId, toY, now), xId, IdsOf(toY))
    ensures forall id | id in IdsOf(toY) :: id in x.store.entries
  {
    ConnectIdle(y, xId);
    ReceiveGrows(o, Connect(y, xId), xId, toY, now);
    PushedIds(o, x, yId, FilterFor(o, y), toY);
  }

  lemma FewPushed(o: Oracles, x: Node, yId: nat, theirs: Bloom.BloomFilter, messages: seq<Outbound>)
    requires theirs.Valid() && Enumerates(messages, Pushed(o, x, yId, theirs))
    ensures |messages| <= |x.store.entries|
  {
    PushedCount(o, x, yId, theirs, messages);
    Drain.MissingSize(x.store, o.hash, theirs);
  }

  /** What came from the first node is never pushed back, because its filter contains it. */
  lemma FewPushedBack(o: Oracles, x: Node, y: Node, filled: Node, xId: nat, ids: set<EnvelopeId>,
                      messages: seq<Outbound>)
    requires Idle(y) && Grown(Connect(y, xId), filled, xId, ids) && (forall id | id in ids :: id in x.store.entries)
    requires FilterFor(o, x).Valid() && Enumerates(messages, Pushed(o, filled, xId, FilterFor(o, x)))
    ensures |messages| <= |y.store.entries|
  {
    forall id | id in filled.store.entries && !Bloom.Contains(FilterFor(o, x), o.hash, id)
      ensures id in y.store.entries.Keys
    {
      NoFalseNegative(o, x, id);
    }
    PushedCount(o, filled, xId, FilterFor(o, x), messages);
    MissingOf(filled.store, o, FilterFor(o, x), y.store.entries.Keys);
    assert |y.store.entries.Keys| == |y.store.entries|;
  }

  /** The window handles two summaries and at most one data frame for each envelope either side held. */
  lemma FewFrames(o: Oracles, x: Node, y: Node, xId: nat, yId: nat, now: nat, toY: seq<Outbound>, toX: seq<Outbound>,
                  x': Node, y': Node)
    requires Idle(x) && Idle(y) && Contacted(o, x, y, xId, yId, now, toY, toX, x', y')
    ensures |toY| <= |x.store.entries| && |toX| <= |y.store.entries|
  {
    FewPushed(o, x, yId, FilterFor(o, y), toY);
    Filled(o, x, y, xId, yId, now, toY);
    FewPushedBack(o, x, y, Receive(o, Connect(y, xId), xId, toY, now), xId, IdsOf(toY), toX);
  }

  /** Whatever the capacities, limits and false positives, nothing comes from elsewhere, and both nodes end the
      window idle again. */
  lemma NothingElse(o: Oracles, x: Node, y: Node, xId: nat, yId: nat, now: nat, toY: seq<Outbound>, toX: seq<Outbound>,
                    x': Node, y': Node)
    requires Idle(x) && Idle(y) && Contacted(o, x, y, xId, yId, now, toY, toX, x', y')
    ensures Idle(x') && Idle(y')
    ensures x'.store.capacity == x.store.capacity && y'.store.capacity == y.store.capacity
    ensures x'.limits == x.limits && y'.limits == y.limits
    ensures x'.store.entries.Keys + y'.store.entries.Keys <= x.store.entries.Keys + y.store.entries.Keys
  {
    var filled := Receive(o, Connect(y, xId), xId, toY, now);
    Filled(o, x, y, xId, yId, now, toY);
    ConnectIdle(x, yId);
    ReceiveGrows(o, Connect(x, yId), yId, toX, now);
    PushedIds(o, filled, xId, FilterFor(o, x), toX);
    assert filled.peers - {xId} == map[];
    assert Receive(o, Connect(x, yId), yId, toX, now).peers - {yId} == map[];
  }

  // ----- with room and rate budget: exactly what -----

  function SizeOf(m: Outbound): nat {
    |CM.ToBytes(m.message)|
  }

  function SizeOfAll(messages: seq<Outbound>): nat {
    if messages == [] then 0 else SizeOfAll(messages[..|messages| - 1]) + SizeOf(messages[|messages| - 1])
  }

  ghost function Pick<T>(s: set<T>): T
    requires s != {}
  {
    var x :| x in s; x
  }

  /** The bytes a set of messages takes, in whatever order it is sent. */
  ghost function SizeOfSet(s: set<Outbound>): nat {
    if s == {} then 0 else SizeOf(Pick(s)) + SizeOfSet(s - {Pick(s)})
  }

  lemma {:induction false} SizeOfMore(s: set<Outbound>, m: Outbound)
    requires m !in s
    ensures SizeOfSet(s + {m}) == SizeOfSet(s) + SizeOf(m)
    decreases s
  {
    var x := Pick(s + {m});
    if x == m {
      assert s + {m} - {x} == s;
    } else {
      assert s + {m} - {x} == s - {x} + {m};
      SizeOfMore(s - {x}, m);
      SizeOfMore(s - {x}, x);
      assert s - {x} + {x} == s;
    }
  }

  lemma {:induction false} SizeOfEnumeration(messages: seq<Outbound>, s: set<Outbound>)
    requires Enumerates(messages, s)
    ensures SizeOfAll(messages) == SizeOfSet(s)
    decreases |messages|
  {
    if messages == [] {
      assert s == {};
    } else {
      var before, last := messages[..|messages| - 1], messages[|messages| - 1];
      assert messages == before + [last];
      assert last !in Elements(before);
      SizeOfEnumeration(before, Elements(before));
      SizeOfMore(Elements(before), last);
      assert s == Elements(before) + {last};
    }
  }

  /** The messages fit the allowance of one rate window. */
  ghost predicate Budgeted(limits: Config, messages: set<Outbound>) {
    |messages| <= limits.maxEnvelopes && SizeOfSet(messages) <= limits.maxBytes
  }

  /** What a node passes on to a peer that showed this filter: its unexpired envelopes the filter lacks that
      have a hop to spare, each one hop lower. */
  ghost function Gain(o: Oracles, n: Node, theirs: Bloom.BloomFilter, now: nat): map<EnvelopeId, Envelope>
    requires theirs.Valid()
  {
    map id | id in n.store.entries && !Bloom.Contains(theirs, o.hash, id)
             && n.store.entries[id].envelope.ttlHops >= 2 && now < n.store.entries[id].envelope.expiresAt
      :: n.store.entries[id].envelope.(ttlHops := n.store.entries[id].envelope.ttlHops - 1)
  }

  /** The live ones among these messages. */
  ghost function Taken(messages: seq<Outbound>, now: nat): map<EnvelopeId, Envelope>
    requires AllData(messages)
  {
    if messages == [] then map[]
    else
      var before, e := Taken(messages[..|messages| - 1], now), messages[|messages| - 1].message.envelope;
      if now >= e.expiresAt then before else before[e.Id() := e]
  }

  lemma {:induction false} TakenKeys(messages: seq<Outbound>, now: nat)
    requires AllData(messages)
    ensures Taken(messages, now).Keys <= IdsOf(messages)
  {
    if messages == [] {
    } else {
      var before, last := messages[..|messages| - 1], messages[|messages| - 1];
      assert messages == before + [last];
      TakenKeys(before, now);
      IdsAppend(before, last);
    }
  }

  /** Messages a node has not seen, no two of the same envelope, none exhausted. */
  ghost predicate News(held: set<EnvelopeId>, messages: seq<Outbound>) {
    && AllData(messages)
    && (forall m | m in messages :: m.message.envelope.Id() !in held && m.message.envelope.ttlHops >= 1)
    && (forall i, j | 0 <= i < j < |messages| :: messages[i].message.envelope.Id() != messages[j].message.envelope.Id())
  }

  /** How a node stands part way through data it has room and budget for. */
  ghost predicate TakenSoFar(n: Node, n': Node, from: nat, messages: seq<Outbound>, now: nat)
    requires AllData(messages)
  {
    && Valid(n'.store) && n'.store.capacity == n.store.capacity && n'.difficulty == 0 && n'.limits == n.limits
    && n'.peers.Keys == {from} && n'.peers[from].summarySent
    && n'.peers[from].rate == Charged(n.limits, now, |messages|, SizeOfAll(messages))
    && Contents(n'.store.entries) == Contents(n.store.entries) + Taken(messages, now)
  }

  lemma ContentsInsert(s: StoreState, e: Envelope)
    ensures Contents(Insert(s, e).entries) == Contents(s.entries)[e.Id() := e]
  {
  }

  lemma AcceptFresh(s: StoreState, e: Envelope, now: nat)
    requires Valid(s) && e.Id() !in s.entries && e.ttlHops >= 1 && (now < e.expiresAt ==> |s.entries| < s.capacity)
    ensures var s' := AcceptStep(s, e, now).0;
            && Valid(s') && s'.capacity == s.capacity
            && Contents(s'.entries) == if now >= e.expiresAt then Contents(s.entries)
                                       else Contents(s.entries)[e.Id() := e]
  {
    AcceptEffect(s, e, now);
    ContentsInsert(s, e);
  }

  /** The limiter of a contact that has allowed so many envelopes and bytes so far, all in one window. */
  function Charged(limits: Config, now: nat, count: nat, bytes: nat): RateLimiter {
    if count == 0 then EMPTY else RateLimiter(Window(limits, now), count, bytes)
  }

  lemma AllowNext(limits: Config, now: nat, count: nat, bytes: nat, size: nat)
    requires count < limits.maxEnvelopes && bytes + size <= limits.maxBytes && (count == 0 ==> bytes == 0)
    ensures Allow(Charged(limits, now, count, bytes), limits, now, size)
            == (Charged(limits, now, count + 1, bytes + size), true)
  {
  }

  lemma TakeOne(o: Oracles, n: Node, from: nat, m: Outbound, now: nat, count: nat, bytes: nat)
    requires m.message.Data? && n.difficulty == 0 && from in n.peers
    requires n.peers[from].rate == Charged(n.limits, now, count, bytes) && (count == 0 ==> bytes == 0)
    requires count < n.limits.maxEnvelopes && bytes + SizeOf(m) <= n.limits.maxBytes
    ensures var n' := ReceiveOne(o, n, from, m, now);
            && n'.store == AcceptStep(n.store, m.message.envelope, now).0
            && n'.difficulty == 0 && n'.limits == n.limits
            && n'.peers.Keys == n.peers.Keys
            && n'.peers[from] == Peer(n.peers[from].summarySent, Charged(n.limits, now, count + 1, bytes + SizeOf(m)))
  {
    AllowNext(n.limits, now, count, bytes, SizeOf(m));
  }

  lemma ContentsSize(entries: Entries)
    ensures |Contents(entries)| == |entries| && Contents(entries).Keys == entries.Keys
  {
    assert Contents(entries).Keys == entries.Keys;
    assert |Contents(entries).Keys| == |Contents(entries)| && |entries.Keys| == |entries|;
  }

  lemma TakesNone(n: Node, from: nat, now: nat)
    requires Valid(n.store) && n.difficulty == 0 && n.peers.Keys == {from} && n.peers[from] == Peer(true, EMPTY)
    ensures TakenSoFar(n, n, from, [], now)
  {
    assert Contents(n.store.entries) + map[] == Contents(n.store.entries);
  }

  /** News is taken in full by a node with room and budget for it. */
  lemma {:induction false} TakesAll(o: Oracles, n: Node, from: nat, messages: seq<Outbound>, now: nat)
    requires Valid(n.store) && n.difficulty == 0 && n.peers.Keys == {from} && n.peers[from] == Peer(true, EMPTY)
    requires News(n.store.entries.Keys, messages)
    requires |messages| <= n.limits.maxEnvelopes && SizeOfAll(messages) <= n.limits.maxBytes
    requires |Contents(n.store.entries) + Taken(messages, now)| <= n.store.capacity
    ensures TakenSoFar(n, Receive(o, n, from, messages, now), from, messages, now)
    decreases |messages|
  {
    if messages == [] {
      TakesNone(n, from, now);
    } else {
      var before, last := messages[..|messages| - 1], messages[|messages| - 1];
      NewsBefore(n.store.entries.Keys, messages, now);
      TakenGrows(Contents(n.store.entries), messages, now);
      TakesAll(o, n, from, before, now);
      TakesLast(o, n, Receive(o, n, from, before, now), from, before, last, messages, now);
    }
  }

  lemma NewsBefore(held: set<EnvelopeId>, messages: seq<Outbound>, now: nat)
    requires messages != [] && News(held, messages)
    ensures var before, last := messages[..|messages| - 1], messages[|messages| - 1];
            && messages == before + [last] && News(held, before)
            && last.message.envelope.Id() !in held + Taken(before, now).Keys
  {
    var before := messages[..|messages| - 1];
    TakenKeys(before, now);
  }

  lemma MergeInsert<K, V>(a: map<K, V>, b: map<K, V>, k: K, v: V)
    ensures a + b[k := v] == (a + b)[k := v]
  {
  }

  lemma TakenGrows(held: map<EnvelopeId, Envelope>, messages: seq<Outbound>, now: nat)
    requires messages != [] && News(held.Keys, messages)
    ensures var before, e := messages[..|messages| - 1], messages[|messages| - 1].message.envelope;
            && e.Id() !in held + Taken(before, now)
            && held + Taken(messages, now)
               == (if now >= e.expiresAt then held + Taken(before, now) else (held + Taken(before, now))[e.Id() := e])
            && |held + Taken(messages, now)| == |held + Taken(before, now)| + (if now >= e.expiresAt then 0 else 1)
  {
    var before, e := messages[..|messages| - 1], messages[|messages| - 1].message.envelope;
    NewsBefore(held.Keys, messages, now);
    MergeInsert(held, Taken(before, now), e.Id(), e);
    InsertCount(held + Taken(before, now), e.Id(), e);
  }

  /** The store's side of one more message. */
  lemma StoresLast(s: StoreState, mid: StoreState, messages: seq<Outbound>, now: nat)
    requires Valid(mid) && mid.capacity == s.capacity && messages != [] && News(s.entries.Keys, messages)
    requires Contents(mid.entries) == Contents(s.entries) + Taken(messages[..|messages| - 1], now)
    requires |Contents(s.entries) + Taken(messages, now)| <= s.capacity
    ensures var s' := AcceptStep(mid, messages[|messages| - 1].message.envelope, now).0;
            && Valid(s') && s'.capacity == s.capacity
            && Contents(s'.entries) == Contents(s.entries) + Taken(messages, now)
  {
    var last := messages[|messages| - 1];
    ContentsSize(mid.entries);
    ContentsSize(s.entries);
    TakenGrows(Contents(s.entries), messages, now);
    assert last in messages;
    AcceptFresh(mid, last.message.envelope, now);
  }

  lemma TakesLast(o: Oracles, n: Node, mid: Node, from: nat, before: seq<Outbound>, last: Outbound,
                  messages: seq<Outbound>, now: nat)
    requires AllData(before) && News(n.store.entries.Keys, messages)
    requires messages != [] && messages[..|messages| - 1] == before && messages[|messages| - 1] == last
    requires TakenSoFar(n, mid, from, before, now)
    requires |messages| <= n.limits.maxEnvelopes && SizeOfAll(messages) <= n.limits.maxBytes
    requires |Contents(n.store.entries) + Taken(messages, now)| <= n.store.capacity
    ensures TakenSoFar(n, ReceiveOne(o, mid, from, last, now), from, messages, now)
  {
    assert SizeOfAll(messages) == SizeOfAll(before) + SizeOf(last);
    StoresLast(n.store, mid.store, messages, now);
    TakeOne(o, mid, from, last, now, |before|, SizeOfAll(before));
  }

  lemma {:induction false} TakenFrom(held: set<EnvelopeId>, messages: seq<Outbound>, now: nat, id: EnvelopeId)
    requires News(held, messages)
    ensures id in Taken(messages, now) ==>
              exists m :: m in messages && m.message.envelope == Taken(messages, now)[id]
                  && m.message.envelope.Id() == id
                          && now < m.message.envelope.expiresAt
    decreases |messages|
  {
    if messages == [] {
    } else {
      var before, last := messages[..|messages| - 1], messages[|messages| - 1];
      NewsBefore(held, messages, now);
      TakenFrom(held, before, now, id);
      if id in Taken(messages, now) && id == last.message.envelope.Id() { assert last in messages; }
    }
  }

  lemma {:induction false} TakenHas(held: set<EnvelopeId>, messages: seq<Outbound>, now: nat, m: Outbound)
    requires News(held, messages) && m in messages && now < m.message.envelope.expiresAt
    ensures m.message.envelope.Id() in Taken(messages, now)
    ensures Taken(messages, now)[m.message.envelope.Id()] == m.message.envelope
    decreases |messages|
  {
    var before, last := messages[..|messages| - 1], messages[|messages| - 1];
    NewsBefore(held, messages, now);
    if m != last { TakenHas(held, before, now, m); }
  }

  /** What one side pushes is news to a side whose filter contains all it holds. */
  lemma PushedNews(o: Oracles, n: Node, to: nat, theirs: Bloom.BloomFilter, held: set<EnvelopeId>,
                   messages: seq<Outbound>)
    requires theirs.Valid() && Valid(n.store) && AllData(messages) && Enumerates(messages, Pushed(o, n, to, theirs))
    requires forall id | id in held :: Bloom.Contains(theirs, o.hash, id)
    ensures News(held, messages)
  {
    forall m | m in messages
      ensures m.message.envelope.Id() !in held && m.message.envelope.ttlHops >= 1
    {
      assert m in Elements(messages);
      PushedData(o, n, to, theirs, m);
    }
    forall i, j | 0 <= i < j < |messages|
      ensures messages[i].message.envelope.Id() != messages[j].message.envelope.Id()
    {
      assert messages[i] in Elements(messages) && messages[j] in Elements(messages);
      SamePush(o, n, to, theirs, messages[i], messages[j]);
    }
  }

  lemma SamePush(o: Oracles, n: Node, to: nat, theirs: Bloom.BloomFilter, a: Outbound, b: Outbound)
    requires theirs.Valid() && Valid(n.store) && a in Pushed(o, n, to, theirs) && b in Pushed(o, n, to, theirs)
    ensures a.message.Data? && b.message.Data? && (a.message.envelope.Id() == b.message.envelope.Id() ==> a == b)
  {
    PushedData(o, n, to, theirs, a);
    PushedData(o, n, to, theirs, b);
    var e :| e in MissingByFilter(n.store, o.hash, theirs) && DecrementTtl(e).Some?
        && a == Push(o, n.difficulty, to, e);
    var f :| f in MissingByFilter(n.store, o.hash, theirs) && DecrementTtl(f).Some?
        && b == Push(o, n.difficulty, to, f);
  }

  lemma TakenIsGain(o: Oracles, n: Node, to: nat, theirs: Bloom.BloomFilter, held: set<EnvelopeId>,
                    messages: seq<Outbound>, now: nat)
    requires theirs.Valid() && Valid(n.store) && AllData(messages) && Enumerates(messages, Pushed(o, n, to, theirs))
    requires News(held, messages)
    ensures Taken(messages, now) == Gain(o, n, theirs, now)
  {
    var taken, gain := Taken(messages, now), Gain(o, n, theirs, now);
    forall id | id in taken
      ensures id in gain && gain[id] == taken[id]
    {
      TakenGained(o, n, to, theirs, held, messages, now, id);
    }
    forall id | id in gain
      ensures id in taken
    {
      GainTaken(o, n, to, theirs, held, messages, now, id);
    }
  }

  lemma TakenGained(o: Oracles, n: Node, to: nat, theirs: Bloom.BloomFilter, held: set<EnvelopeId>,
                    messages: seq<Outbound>, now: nat, id: EnvelopeId)
    requires theirs.Valid() && Valid(n.store) && AllData(messages) && Enumerates(messages, Pushed(o, n, to, theirs))
    requires News(held, messages) && id in Taken(messages, now)
    ensures id in Gain(o, n, theirs, now) && Gain(o, n, theirs, now)[id] == Taken(messages, now)[id]
  {
    TakenFrom(held, messages, now, id);
    var m :| m in messages && m.message.envelope == Taken(messages, now)[id] && m.message.envelope.Id() == id
             && now < m.message.envelope.expiresAt;
    assert m in Elements(messages);
    PushedData(o, n, to, theirs, m);
  }

  lemma GainTaken(o: Oracles, n: Node, to: nat, theirs: Bloom.BloomFilter, held: set<EnvelopeId>,
                  messages: seq<Outbound>, now: nat, id: EnvelopeId)
    requires theirs.Valid() && Valid(n.store) && AllData(messages) && Enumerates(messages, Pushed(o, n, to, theirs))
    requires News(held, messages) && id in Gain(o, n, theirs, now)
    ensures id in Taken(messages, now)
  {
    var e := n.store.entries[id].envelope;
    var m := Push(o, n.difficulty, to, e);
    assert e in MissingByFilter(n.store, o.hash, theirs);
    assert m in Elements(messages);
    IdIgnoresOnlyHops(e, m.message.envelope);
    TakenHas(held, messages, now, m);
  }

  /** One direction of the exchange. */
  lemma TakesGain(o: Oracles, from: Node, fromId: nat, n: Node, nId: nat, filter: Bloom.BloomFilter,
                  messages: seq<Outbound>, now: nat)
    requires Valid(from.store) && Idle(n) && filter.Valid() && filter == FilterFor(o, n)
    requires AllData(messages) && Enumerates(messages, Pushed(o, from, nId, filter))
    requires Budgeted(n.limits, Pushed(o, from, nId, filter))
    requires |Contents(n.store.entries) + Gain(o, from, filter, now)| <= n.store.capacity
    ensures TakenSoFar(Connect(n, fromId), Receive(o, Connect(n, fromId), fromId, messages, now), fromId, messages, now)
    ensures Taken(messages, now) == Gain(o, from, filter, now)
  {
    ConnectIdle(n, fromId);
    forall id | id in n.store.entries.Keys
      ensures Bloom.Contains(filter, o.hash, id)
    {
      NoFalseNegative(o, n, id);
    }
    PushedNews(o, from, nId, filter, n.store.entries.Keys, messages);
    TakenIsGain(o, from, nId, filter, n.store.entries.Keys, messages, now);
    EnumerateSize(messages, Pushed(o, from, nId, filter));
    SizeOfEnumeration(messages, Pushed(o, from, nId, filter));
    TakesAll(o, Connect(n, fromId), fromId, messages, now);
  }

  /** Room and rate budget on both sides for all the other has to give. */
  ghost predicate Roomy(o: Oracles, x: Node, y: Node, xId: nat, yId: nat, now: nat)
    requires FilterFor(o, x).Valid() && FilterFor(o, y).Valid()
  {
    && |Contents(y.store.entries) + Gain(o, x, FilterFor(o, y), now)| <= y.store.capacity
    && |Contents(x.store.entries) + Gain(o, y, FilterFor(o, x), now)| <= x.store.capacity
    && Budgeted(y.limits, Pushed(o, x, yId, FilterFor(o, y)))
    && Budgeted(x.limits, Pushed(o, y, xId, FilterFor(o, x)))
  }

  /** What came from the owner of a filter is never pushed back, and hides nothing else. */
  lemma SameMissing(o: Oracles, y: StoreState, filled: StoreState, gain: map<EnvelopeId, Envelope>,
                    filter: Bloom.BloomFilter)
    requires filter.Valid() && Contents(filled.entries) == Contents(y.entries) + gain
    requires forall id | id in gain :: Bloom.Contains(filter, o.hash, id)
    ensures MissingByFilter(filled, o.hash, filter) == MissingByFilter(y, o.hash, filter)
    ensures forall id | id in filled.entries && !Bloom.Contains(filter, o.hash, id) ::
              id in y.entries && filled.entries[id].envelope == y.entries[id].envelope
    ensures forall id | id in y.entries && !Bloom.Contains(filter, o.hash, id) ::
              id in filled.entries && filled.entries[id].envelope == y.entries[id].envelope
  {
    forall id | !Bloom.Contains(filter, o.hash, id)
      ensures id in filled.entries <==> id in y.entries
      ensures id in y.entries && id in filled.entries ==> filled.entries[id].envelope == y.entries[id].envelope
    {
      assert id in Contents(filled.entries) <==> id in Contents(y.entries) || id in gain;
      assert id in Contents(filled.entries) && id !in gain ==> Contents(filled.entries)[id] == Contents(y.entries)[id];
    }
  }

  lemma SameGain(o: Oracles, y: Node, filled: Node, gain: map<EnvelopeId, Envelope>, filter: Bloom.BloomFilter,
                 now: nat)
    requires filter.Valid() && Contents(filled.store.entries) == Contents(y.store.entries) + gain
    requires forall id | id in gain :: Bloom.Contains(filter, o.hash, id)
    ensures Gain(o, filled, filter, now) == Gain(o, y, filter, now)
  {
    SameMissing(o, y.store, filled.store, gain, filter);
  }

  lemma GainContained(o: Oracles, x: Node, theirs: Bloom.BloomFilter, now: nat)
    requires theirs.Valid()
    ensures FilterFor(o, x).Valid() && forall id | id in Gain(o, x, theirs, now) ::
            Bloom.Contains(FilterFor(o, x), o.hash, id)
  {
    forall id
      ensures FilterFor(o, x).Valid() && (id in x.store.entries ==> Bloom.Contains(FilterFor(o, x), o.hash, id))
    {
      NoFalseNegative(o, x, id);
    }
  }

  /** The exact effect of a window with room and rate budget on both sides: each side ends up with what it had
      and what the other side had to give, one hop lower, and nothing else changes. */
  lemma ExactExchange(o: Oracles, x: Node, y: Node, xId: nat, yId: nat, now: nat, toY: seq<Outbound>,
                      toX: seq<Outbound>, x': Node, y': Node)
    requires Idle(x) && Idle(y) && Contacted(o, x, y, xId, yId, now, toY, toX, x', y') && Roomy(o, x, y, xId, yId, now)
    ensures Contents(y'.store.entries) == Contents(y.store.entries) + Gain(o, x, FilterFor(o, y), now)
    ensures Contents(x'.store.entries) == Contents(x.store.entries) + Gain(o, y, FilterFor(o, x), now)
  {
    var filled, gain := Receive(o, Connect(y, xId), xId, toY, now), Gain(o, x, FilterFor(o, y), now);
    TakesGain(o, x, xId, y, yId, FilterFor(o, y), toY, now);
    GainContained(o, x, FilterFor(o, y), now);
    SameMissing(o, y.store, filled.store, gain, FilterFor(o, x));
    SameGain(o, y, filled, gain, FilterFor(o, x), now);
    TakesGain(o, filled, yId, x, xId, FilterFor(o, x), toX, now);
  }

  /** No identity either side holds reads as present in the other's filter without being there. */
  ghost predicate Exact(o: Oracles, x: Node, y: Node)
    requires FilterFor(o, y).Valid()
  {
    forall id | id in x.store.entries && Bloom.Contains(FilterFor(o, y), o.hash, id) :: id in y.store.entries
  }

  /** Without false positives what one side has to give is exactly what the other lacks. */
  lemma GainIsDifference(o: Oracles, x: Node, y: Node, now: nat, id: EnvelopeId)
    requires FilterFor(o, y).Valid() && Exact(o, x, y)
    ensures id in Gain(o, x, FilterFor(o, y), now)
       <==> && id in x.store.entries && id !in y.store.entries
            && x.store.entries[id].envelope.ttlHops >= 2 && now < x.store.entries[id].envelope.expiresAt
  {
    NoFalseNegative(o, y, id);
  }
}
