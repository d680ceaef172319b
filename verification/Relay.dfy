/** One node's mesh engine: gossip on contact and epidemic relay (core/src/relay.rs). */
module Relay {
  import opened Bytes
  import opened Collections
  import opened Wrappers
  import opened Envelopes
  import opened Engine
  import opened Durable
  import opened RateLimiting
  import opened CM = ContactMessages
  import Bloom
  import Puzzle

  /** The hash functions and the filter sizing all nodes share. */
  datatype Oracles = Oracles(digest: Puzzle.Digest, hash: Bloom.Hash, sizing: Sizing)

  datatype Peer = Peer(summarySent: bool, rate: RateLimiter)

  datatype Node = Node(store: StoreState, peers: map<nat, Peer>, difficulty: byte, limits: Config)

  /** A message a node asks its transport to send. */
  datatype Outbound = Outbound(to: nat, message: ContactMessage)

  function PeerOf(n: Node, peer: nat): Peer {
    if peer in n.peers then n.peers[peer] else Peer(false, EMPTY)
  }

  function Connect(n: Node, peer: nat): Node {
    n.(peers := n.peers[peer := Peer(true, EMPTY)])
  }

  function Lose(n: Node, peer: nat): Node {
    n.(peers := n.peers - {peer})
  }

  ghost function Hello(o: Oracles, n: Node): ContactMessage {
    Summary(SummaryFilter(n.store, o.hash, o.sizing))
  }

  /** What a push of one envelope sends: one hop fewer, with a nonce solved afresh. */
  ghost function Push(o: Oracles, difficulty: byte, to: nat, e: Envelope): Outbound
    requires DecrementTtl(e).Some?
  {
    Outbound(to, Data(DecrementTtl(e).value, Puzzle.Solution(o.digest, DecrementTtl(e).value.Id(), difficulty)))
  }

  ghost function PushAll(o: Oracles, difficulty: byte, to: nat, es: set<Envelope>): set<Outbound> {
    set e | e in es && DecrementTtl(e).Some? :: Push(o, difficulty, to, e)
  }

  function RelayTo(peers: set<nat>, e: Envelope, nonce: u64): set<Outbound> {
    if DecrementTtl(e).None? then {} else set peer | peer in peers :: Outbound(peer, Data(DecrementTtl(e).value, nonce))
  }

  ghost function OnSummary(o: Oracles, n: Node, from: nat, filter: Bloom.BloomFilter): (Node, set<Outbound>)
    requires filter.Valid()
  {
    var pushes := PushAll(o, n.difficulty, from, MissingByFilter(n.store, o.hash, filter));
    if PeerOf(n, from).summarySent then (n, pushes)
    else (n.(peers := n.peers[from := PeerOf(n, from).(summarySent := true)]), {Outbound(from, Hello(o, n))} + pushes)
  }

  ghost function OnData(o: Oracles, n: Node, from: nat, e: Envelope, nonce: u64, size: nat, now: nat): (Node,
                        set<Outbound>) {
    if !Puzzle.Verifies(o.digest, e.Id(), nonce, n.difficulty) then (n, {})
    else
      var (limiter, allowed) := Allow(PeerOf(n, from).rate, n.limits, now, size);
      var charged := n.(peers := n.peers[from := PeerOf(n, from).(rate := limiter)]);
      if !allowed then (charged, {})
      else
        var (store, outcome, _) := AcceptStep(n.store, e, now);
        (charged.(store := store), if outcome.New? then RelayTo(charged.peers.Keys - {from}, e, nonce) else {})
  }

  ghost function OnMessage(o: Oracles, n: Node, from: nat, m: ContactMessage, size: nat, now: nat): (Node,
                           set<Outbound>)
    requires m.Valid()
  {
    match m
    case Summary(filter) => OnSummary(o, n, from, filter)
    case Data(e, nonce) => OnData(o, n, from, e, nonce, size, now)
  }

  /** One frame for each of these peers, with the envelope one hop lower. */
  ghost predicate OneEach(sent: set<Outbound>, peers: set<nat>, e: Envelope, nonce: u64) {
    && e.ttlHops >= 2
    && sent == set peer | peer in peers :: Outbound(peer, Data(e.(ttlHops := e.ttlHops - 1), nonce))
  }

  /** What comes of an envelope that a node heard or was given, seen from its store before and after: if it was not
      there and is now, and has a hop to spare, one frame to each of these peers; otherwise nothing at all. */
  ghost predicate Flooded(before: Entries, after: Entries, sent: set<Outbound>, peers: set<nat>, e: Envelope,
                          nonce: u64) {
    if e.Id() !in before && e.Id() in after && e.ttlHops >= 2 then OneEach(sent, peers, e, nonce) else sent == {}
  }

  /** Live relay: whatever the urgency, what a node takes from one peer it passes on, at once and once, to every other,
      with the nonce it came with; and nothing else. */
  lemma DataFloods(o: Oracles, n: Node, from: nat, e: Envelope, nonce: u64, size: nat, now: nat)
    requires Valid(n.store)
    ensures var (n', sent) := OnData(o, n, from, e, nonce, size, now);
            Flooded(n.store.entries, n'.store.entries, sent, n.peers.Keys - {from}, e, nonce)
  {
    var limiter := Allow(PeerOf(n, from).rate, n.limits, now, size).0;
    assert n.peers[from := PeerOf(n, from).(rate := limiter)].Keys - {from} == n.peers.Keys - {from};
    StoredIff(n.store, e, now);
  }

  lemma StoredIff(s: StoreState, e: Envelope, now: nat)
    requires Valid(s)
    ensures AcceptStep(s, e, now).1.New? <==> e.Id() !in s.entries && e.Id() in AcceptStep(s, e, now).0.entries
  {
    AcceptEffect(s, e, now);
  }

  ghost function Compose(o: Oracles, n: Node, e: Envelope, now: nat): (Node, Accept, set<Outbound>) {
    var (store, outcome, _) := AcceptStep(n.store, e, now);
    (n.(store := store), outcome,
     if outcome.New? then RelayTo(n.peers.Keys, e, Puzzle.Solution(o.digest, e.Id(), n.difficulty)) else {})
  }

  /** A node's own envelope: if its store took it, it goes once to every peer, under one nonce, which verifies wherever
      one does. */
  lemma ComposeFloods(o: Oracles, n: Node, e: Envelope, now: nat)
    requires Valid(n.store) && Puzzle.Solvable(o.digest, e.Id(), n.difficulty)
    ensures var (n', outcome, sent) := Compose(o, n, e, now);
            && (outcome.New? <==> e.Id() !in n.store.entries && e.Id() in n'.store.entries)
            && exists nonce: u64 :: Puzzle.Verifies(o.digest, e.Id(), nonce, n.difficulty)
                 && Flooded(n.store.entries, n'.store.entries, sent, n.peers.Keys, e, nonce)
  {
    StoredIff(n.store, e, now);
    var nonce := Puzzle.Solution(o.digest, e.Id(), n.difficulty);
    assert Puzzle.Verifies(o.digest, e.Id(), nonce, n.difficulty);
  }

  /** Some frame carries a held envelope to this peer, one hop lower, under a nonce that verifies. */
  ghost predicate Carried(o: Oracles, sent: set<Outbound>, to: nat, e: Envelope, difficulty: byte) {
    e.ttlHops >= 1
    && exists nonce: u64 :: Outbound(to, Data(e.(ttlHops := e.ttlHops - 1), nonce)) in sent
         && Puzzle.Verifies(o.digest, e.Id(), nonce, difficulty)
  }

  lemma PushCarried(o: Oracles, n: Node, from: nat, filter: Bloom.BloomFilter, sent: set<Outbound>, id: EnvelopeId)
    requires filter.Valid() && Valid(n.store) && id in n.store.entries && n.store.entries[id].envelope.ttlHops >= 2
    requires !Bloom.Contains(filter, o.hash, id) && Puzzle.Solvable(o.digest, id, n.difficulty)
    requires PushAll(o, n.difficulty, from, MissingByFilter(n.store, o.hash, filter)) <= sent
    ensures Carried(o, sent, from, n.store.entries[id].envelope, n.difficulty)
  {
    var e := n.store.entries[id].envelope;
    IdIgnoresOnlyHops(e, DecrementTtl(e).value);
    assert e in MissingByFilter(n.store, o.hash, filter);
    assert Push(o, n.difficulty, from, e) in sent;
  }

  /** The one data frame of an envelope a summary may be answered with. */
  ghost predicate Answers(o: Oracles, n: Node, from: nat, filter: Bloom.BloomFilter, out: Outbound)
    requires filter.Valid()
  {
    out.message.Data? && out.to == from
    && var e := out.message.envelope;
       && e.Id() in n.store.entries && !Bloom.Contains(filter, o.hash, e.Id())
       && n.store.entries[e.Id()].envelope == e.(ttlHops := n.store.entries[e.Id()].envelope.ttlHops)
       && n.store.entries[e.Id()].envelope.ttlHops == e.ttlHops + 1 >= 2
  }

  lemma PushAnswers(o: Oracles, n: Node, from: nat, filter: Bloom.BloomFilter, out: Outbound)
    requires filter.Valid() && Valid(n.store)
    requires out in PushAll(o, n.difficulty, from, MissingByFilter(n.store, o.hash, filter))
    ensures Answers(o, n, from, filter, out)
  {
    var e :| e in MissingByFilter(n.store, o.hash, filter) && DecrementTtl(e).Some?
             && out == Push(o, n.difficulty, from, e);
    IdIgnoresOnlyHops(e, DecrementTtl(e).value);
  }

  /** A summary, whoever sends it: the peer is greeted with the node's own summary if it was not yet, and from then on
      counts as greeted; each envelope held that its filter lacks and that has a hop to spare goes to it once more, one
      hop lower; nothing else is sent, and nothing goes to anybody else. */
  lemma SummaryAnswered(o: Oracles, n: Node, from: nat, filter: Bloom.BloomFilter)
    requires filter.Valid() && Valid(n.store)
    requires forall id | id in n.store.entries :: Puzzle.Solvable(o.digest, id, n.difficulty)
    ensures var (n', sent) := OnSummary(o, n, from, filter);
            var greeted := from in n.peers && n.peers[from].summarySent;
            && n' == n.(peers := n.peers[from := Peer(true, PeerOf(n, from).rate)])
            && (forall out | out in sent ::
                  (out == Outbound(from, Hello(o, n)) && !greeted) || Answers(o, n, from, filter, out))
            && (!greeted ==> Outbound(from, Hello(o, n)) in sent)
            && (forall id | id in n.store.entries && n.store.entries[id].envelope.ttlHops >= 2
                            && !Bloom.Contains(filter, o.hash, id) ::
                  Carried(o, sent, from, n.store.entries[id].envelope, n.difficulty))
            && (forall a, b | a in sent && b in sent && a.message.Data? && b.message.Data?
                              && a.message.envelope.Id() == b.message.envelope.Id() :: a == b)
  {
    var sent := OnSummary(o, n, from, filter).1;
    var pushes := PushAll(o, n.difficulty, from, MissingByFilter(n.store, o.hash, filter));
    if from in n.peers && n.peers[from].summarySent { assert n.peers[from := n.peers[from]] == n.peers; }
    forall out | out in pushes
      ensures Answers(o, n, from, filter, out)
    {
      PushAnswers(o, n, from, filter, out);
    }
    forall id | id in n.store.entries && n.store.entries[id].envelope.ttlHops >= 2
                && !Bloom.Contains(filter, o.hash, id)
      ensures Carried(o, sent, from, n.store.entries[id].envelope, n.difficulty)
    {
      PushCarried(o, n, from, filter, sent, id);
    }
    forall a, b | a in sent && b in sent && a.message.Data? && b.message.Data?
                  && a.message.envelope.Id() == b.message.envelope.Id()
      ensures a == b
    {
      PushOnce(o, n, from, filter, a, b);
    }
  }

  /** Two data frames of one envelope in answer to one summary are one frame. */
  lemma PushOnce(o: Oracles, n: Node, from: nat, filter: Bloom.BloomFilter, a: Outbound, b: Outbound)
    requires filter.Valid() && Valid(n.store) && a.message.Data? && b.message.Data?
    requires a in PushAll(o, n.difficulty, from, MissingByFilter(n.store, o.hash, filter))
    requires b in PushAll(o, n.difficulty, from, MissingByFilter(n.store, o.hash, filter))
    requires a.message.envelope.Id() == b.message.envelope.Id()
    ensures a == b
  {
    var e :| e in MissingByFilter(n.store, o.hash, filter) && DecrementTtl(e).Some?
             && a == Push(o, n.difficulty, from, e);
    var f :| f in MissingByFilter(n.store, o.hash, filter) && DecrementTtl(f).Some?
             && b == Push(o, n.difficulty, from, f);
    IdIgnoresOnlyHops(e, DecrementTtl(e).value);
    IdIgnoresOnlyHops(f, DecrementTtl(f).value);
  }

  lemma PushInjective(o: Oracles, difficulty: byte, to: nat, e: Envelope, f: Envelope)
    requires DecrementTtl(e).Some? && DecrementTtl(f).Some? && Push(o, difficulty, to, e) == Push(o, difficulty, to, f)
    ensures e == f
  {
    assert DecrementTtl(e).value.ttlHops + 1 == e.ttlHops && DecrementTtl(f).value.ttlHops + 1 == f.ttlHops;
    assert e == DecrementTtl(e).value.(ttlHops := e.ttlHops) && f == DecrementTtl(f).value.(ttlHops := f.ttlHops);
  }

  // ----- the engine object -----

  datatype Wire = Wire(to: nat, bytes: seq<byte>)

  function Print(sent: seq<Outbound>): seq<Wire> {
    seq(|sent|, i requires 0 <= i < |sent| => Wire(sent[i].to, CM.ToBytes(sent[i].message)))
  }

  lemma PrintAppend(sent: seq<Outbound>, last: Outbound)
    ensures Print(sent + [last]) == Print(sent) + [Wire(last.to, CM.ToBytes(last.message))]
  {
  }

  class RelayEngine {
    const store: DurableStore
    var peers: map<nat, Peer>
    var difficulty: byte
    var limits: Config

    ghost function View(): Node
      reads this, store.memory
    {
      Node(store.memory.View(), peers, difficulty, limits)
    }

    ghost predicate Valid()
      reads this, store, store.memory
    {
      Mirrored(store.View())
    }

    /** The source's search for a nonce returns only if there is one: whatever a peer that showed this filter is
        to be sent must have one. */
    ghost predicate CanAnswer(o: Oracles, filter: Bloom.BloomFilter)
      requires filter.Valid()
      reads this, store.memory
    {
      forall e | e in MissingByFilter(store.memory.View(), o.hash, filter) && DecrementTtl(e).Some? ::
        Puzzle.Solvable(o.digest, e.Id(), difficulty)
    }

    constructor (store: DurableStore)
      requires Mirrored(store.View())
      ensures this.store == store && Valid()
      ensures View() == Node(store.memory.View(), map[], 0, Config(120, 2_000_000, 60))
    {
      this.store, peers, difficulty, limits := store, map[], 0, DEFAULT_CONFIG;
    }

    method SetPuzzleDifficulty(bits: byte)
      requires Valid()
      modifies `difficulty
      ensures Valid() && View() == old(View()).(difficulty := bits)
    {
      difficulty := bits;
    }

    method SetRateLimits(config: Config)
      requires Valid()
      modifies `limits
      ensures Valid() && View() == old(View()).(limits := config)
    {
      limits := config;
    }

    method SummaryMessage(o: Oracles) returns (m: ContactMessage)
      ensures m == Hello(o, View())
    {
      var filter := store.memory.SummaryBloom(o.hash, o.sizing);
      m := Summary(filter.View());
    }

    method OnPeerConnected(o: Oracles, peer: nat) returns (hello: seq<byte>)
      requires Valid()
      modifies `peers
      ensures Valid() && View() == Connect(old(View()), peer)
      ensures hello == CM.ToBytes(Hello(o, View()))
    {
      peers := peers[peer := Peer(true, EMPTY)];
      var m := SummaryMessage(o);
      hello := CM.ToBytes(m);
    }

    method OnPeerLost(peer: nat)
      requires Valid()
      modifies `peers
      ensures Valid() && View() == Lose(old(View()), peer)
    {
      peers := peers - {peer};
    }

    /** `sent` is what the outbound frames print, in the order the maps happened to be walked in. Only answering a
        summary searches for nonces. */
    method OnFrame(o: Oracles, from: nat, bytes: seq<byte>, now: nat)
      returns (result: Result<seq<Wire>>, ghost sent: seq<Outbound>)
      requires Valid()
      requires var parsed := CM.FromBytes(bytes);
               parsed.Success? && parsed.value.Summary? && parsed.value.Valid() ==> CanAnswer(o, parsed.value.filter)
      modifies this, store, store.memory
      ensures Valid()
      ensures result.Success? <==> CM.FromBytes(bytes).Success?
      ensures result.Failure? ==> View() == old(View())
      ensures result.Success? ==>
                && CM.FromBytes(bytes).value.Valid()
                && View() == OnMessage(o, old(View()), from, CM.FromBytes(bytes).value, |bytes|, now).0
                && Enumerates(sent, OnMessage(o, old(View()), from, CM.FromBytes(bytes).value, |bytes|, now).1)
                && result.value == Print(sent)
      ensures result.Success? && CM.FromBytes(bytes).value.Data? ==>
                var m := CM.FromBytes(bytes).value;
                Flooded(old(store.memory.entries), store.memory.entries, Elements(sent), old(peers).Keys - {from},
                        m.envelope, m.puzzleNonce)
    {
      sent := [];
      var message := CM.FromBytes(bytes);
      if message.Failure? { return Failure(message.error), []; }
      CM.PrintParse(bytes);
      match message.value
      case Summary(filter) =>
        var outbound;
        outbound, sent := HandleSummary(o, from, filter);
        result := Success(outbound);
      case Data(e, nonce) =>
        var outbound;
        outbound, sent := HandleData(o, from, e, nonce, |bytes|, now);
        result := Success(outbound);
    }

    method HandleSummary(o: Oracles, from: nat, filter: Bloom.BloomFilter)
      returns (outbound: seq<Wire>, ghost sent: seq<Outbound>)
      requires Valid() && filter.Valid() && CanAnswer(o, filter)
      modifies `peers
      ensures View() == OnSummary(o, old(View()), from, filter).0
      ensures Enumerates(sent, OnSummary(o, old(View()), from, filter).1) && outbound == Print(sent)
    {
      var m: Option<ContactMessage> := None;
      if !(from in peers && peers[from].summarySent) {
        var rate := if from in peers then peers[from].rate else EMPTY;
        var summary := SummaryMessage(o);
        m := Some(summary);
        peers := peers[from := Peer(true, rate)];
      }
      var missing := store.memory.MissingFromBloom(o.hash, filter);
      assert forall e | e in missing :: e in Elements(missing);
      outbound, sent := PushEach(o, from, missing);
      if m.Some? {
        HelloFirst(o, difficulty, from, m.value, Elements(missing), sent);
        outbound, sent := [Wire(from, CM.ToBytes(m.value))] + outbound, [Outbound(from, m.value)] + sent;
      }
    }

    method PushEach(o: Oracles, from: nat, missing: seq<Envelope>)
      returns (outbound: seq<Wire>, ghost sent: seq<Outbound>)
      requires Distinct(missing)
      requires forall e | e in missing && DecrementTtl(e).Some? :: Puzzle.Solvable(o.digest, e.Id(), difficulty)
      ensures Enumerates(sent, PushAll(o, difficulty, from, Elements(missing))) && outbound == Print(sent)
    {
      outbound, sent := [], [];
      for i := 0 to |missing|
        invariant Enumerates(sent, PushAll(o, difficulty, from, Elements(missing[..i])))
        invariant outbound == Print(sent)
      {
        var relayed := DecrementTtl(missing[i]);
        if relayed.None? {
          PushSkipped(o, difficulty, from, missing, i);
          continue;
        }
        IdIgnoresOnlyHops(missing[i], relayed.value);
        var nonce := Puzzle.Solve(o.digest, relayed.value.Id(), difficulty);
        ghost var push := Outbound(from, Data(relayed.value, nonce));
        PushOne(o, difficulty, from, missing, i, sent);
        PrintAppend(sent, push);
        outbound, sent := outbound + [Wire(from, CM.ToBytes(Data(relayed.value, nonce)))], sent + [push];
      }
      assert missing[..|missing|] == missing;
    }

    method HandleData(o: Oracles, from: nat, e: Envelope, nonce: u64, size: nat, now: nat)
      returns (outbound: seq<Wire>, ghost sent: seq<Outbound>)
      requires Valid()
      modifies this, store, store.memory
      ensures Valid() && View() == OnData(o, old(View()), from, e, nonce, size, now).0
      ensures Enumerates(sent, OnData(o, old(View()), from, e, nonce, size, now).1) && outbound == Print(sent)
      ensures Flooded(old(store.memory.entries), store.memory.entries, Elements(sent), old(peers).Keys - {from}, e,
                      nonce)
    {
      DataFloods(o, View(), from, e, nonce, size, now);
      outbound, sent := [], [];
      if !Puzzle.Verifies(o.digest, e.Id(), nonce, difficulty) { return; }
      var peer := if from in peers then peers[from] else Peer(false, EMPTY);
      var (limiter, allowed) := Allow(peer.rate, limits, now, size);
      peers := peers[from := peer.(rate := limiter)];
      if !allowed { return; }
      var outcome := store.Accept(e, now);
      if outcome.New? { outbound, sent := RelayToPeers(peers.Keys - {from}, e, nonce); }
    }

    method ComposeLocal(o: Oracles, e: Envelope, now: nat)
      returns (outcome: Accept, outbound: seq<Wire>, ghost sent: seq<Outbound>)
      requires Valid() && Puzzle.Solvable(o.digest, e.Id(), difficulty)
      modifies store, store.memory
      ensures Valid()
      ensures View() == Compose(o, old(View()), e, now).0 && outcome == Compose(o, old(View()), e, now).1
      ensures Enumerates(sent, Compose(o, old(View()), e, now).2) && outbound == Print(sent)
      ensures outcome.New? <==> e.Id() !in old(store.memory.entries) && e.Id() in store.memory.entries
      ensures exists nonce: u64 :: Puzzle.Verifies(o.digest, e.Id(), nonce, difficulty)
                && Flooded(old(store.memory.entries), store.memory.entries, Elements(sent), peers.Keys, e, nonce)
    {
      ComposeFloods(o, View(), e, now);
      outbound, sent := [], [];
      var nonce := Puzzle.Solve(o.digest, e.Id(), difficulty);
      outcome := store.Accept(e, now);
      if outcome.New? { outbound, sent := RelayToPeers(peers.Keys, e, nonce); }
    }

    method RelayToPeers(peers: set<nat>, e: Envelope, nonce: u64)
      returns (outbound: seq<Wire>, ghost sent: seq<Outbound>)
      ensures Enumerates(sent, RelayTo(peers, e, nonce)) && outbound == Print(sent)
    {
      outbound, sent := [], [];
      var relayed := DecrementTtl(e);
      if relayed.None? { return; }
      var m := Data(relayed.value, nonce);
      var rest := peers;
      while rest != {}
        invariant rest <= peers && outbound == Print(sent)
        invariant Enumerates(sent, RelayTo(peers - rest, e, nonce))
        decreases rest
      {
        var peer :| peer in rest;
        RelayOne(peers - rest, peer, e, nonce, sent);
        assert peers - (rest - {peer}) == peers - rest + {peer};
        PrintAppend(sent, Outbound(peer, m));
        outbound, sent := outbound + [Wire(peer, CM.ToBytes(m))], sent + [Outbound(peer, m)];
        rest := rest - {peer};
      }
      assert peers - rest == peers;
    }
  }

  lemma PushSkipped(o: Oracles, difficulty: byte, to: nat, missing: seq<Envelope>, i: nat)
    requires i < |missing| && DecrementTtl(missing[i]).None?
    ensures PushAll(o, difficulty, to, Elements(missing[..i + 1])) == PushAll(o, difficulty, to, Elements(missing[..i]))
  {
    assert missing[..i + 1] == missing[..i] + [missing[i]];
  }

  lemma PushOne(o: Oracles, difficulty: byte, to: nat, missing: seq<Envelope>, i: nat, sent: seq<Outbound>)
    requires i < |missing| && Distinct(missing) && DecrementTtl(missing[i]).Some?
    requires Enumerates(sent, PushAll(o, difficulty, to, Elements(missing[..i])))
    ensures Enumerates(sent + [Push(o, difficulty, to, missing[i])],
                       PushAll(o, difficulty, to, Elements(missing[..i + 1])))
  {
    var push := Push(o, difficulty, to, missing[i]);
    assert missing[..i + 1] == missing[..i] + [missing[i]];
    assert push !in PushAll(o, difficulty, to, Elements(missing[..i])) by {
      if e :| e in missing[..i] && DecrementTtl(e).Some? && Push(o, difficulty, to, e) == push {
        PushInjective(o, difficulty, to, e, missing[i]);
      }
    }
    EnumerateMore(sent, PushAll(o, difficulty, to, Elements(missing[..i])), push);
    assert PushAll(o, difficulty, to, Elements(missing[..i + 1]))
        == PushAll(o, difficulty, to, Elements(missing[..i])) + {push};
  }

  lemma RelayOne(done: set<nat>, peer: nat, e: Envelope, nonce: u64, sent: seq<Outbound>)
    requires peer !in done && DecrementTtl(e).Some? && Enumerates(sent, RelayTo(done, e, nonce))
    ensures Enumerates(sent + [Outbound(peer, Data(DecrementTtl(e).value, nonce))], RelayTo(done + {peer}, e, nonce))
  {
    var more := Outbound(peer, Data(DecrementTtl(e).value, nonce));
    EnumerateMore(sent, RelayTo(done, e, nonce), more);
    assert RelayTo(done + {peer}, e, nonce) == RelayTo(done, e, nonce) + {more};
  }

  lemma PrintFirst(first: Outbound, sent: seq<Outbound>)
    ensures Print([first] + sent) == [Wire(first.to, CM.ToBytes(first.message))] + Print(sent)
  {
    forall i | 0 <= i < |sent|
      ensures Print([first] + sent)[i + 1] == Print(sent)[i]
    {
      assert ([first] + sent)[i + 1] == sent[i];
    }
  }

  lemma HelloFirst(o: Oracles, difficulty: byte, to: nat, m: ContactMessage, missing: set<Envelope>,
                   sent: seq<Outbound>)
    requires m.Summary? && Enumerates(sent, PushAll(o, difficulty, to, missing))
    ensures Enumerates([Outbound(to, m)] + sent, {Outbound(to, m)} + PushAll(o, difficulty, to, missing))
    ensures Print([Outbound(to, m)] + sent) == [Wire(to, CM.ToBytes(m))] + Print(sent)
  {
    assert forall out | out in PushAll(o, difficulty, to, missing) :: out.message.Data?;
    EnumerateFirst(Outbound(to, m), sent, PushAll(o, difficulty, to, missing));
    PrintFirst(Outbound(to, m), sent);
  }
}
