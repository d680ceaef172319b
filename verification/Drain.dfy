/** Gossip settles: however frames are scheduled, only so many deliveries can follow from what is in flight
    (core/src/relay.rs). */
module Drain {
  import opened Bytes
  import opened Collections
  import opened Wrappers
  import opened Envelopes
  import opened Engine
  import opened RateLimiting
  import opened Relay
  import opened Mesh
  import opened CM = ContactMessages
  import Bloom

  function Pow(b: nat, e: nat): (p: nat)
    ensures b >= 1 ==> p >= 1
  {
    if e == 0 then 1 else b * Pow(b, e - 1)
  }

  lemma Scaled(a: nat, b: nat, w: nat)
    requires a <= b
    ensures a * w <= b * w
  {
  }

  lemma {:induction false} PowGrows(b: nat, d: nat, e: nat)
    requires b >= 1 && d <= e
    ensures Pow(b, d) <= Pow(b, e)
  {
    if d >= e {
    } else {
      PowGrows(b, d, e - 1);
      assert Pow(b, e - 1) <= b * Pow(b, e - 1);
    }
  }

  /** How many deliveries a copy can still cause: at each of its remaining hops it can reach every node. */
  function Weight(n: nat, m: ContactMessage): nat {
    if m.Data? then Pow(n, m.envelope.ttlHops) else 0
  }

  function Total(n: nat, flight: seq<Frame>): nat {
    if flight == [] then 0 else Weight(n, flight[0].message) + Total(n, flight[1..])
  }

  function Summaries(flight: seq<Frame>): nat {
    if flight == [] then 0 else (if flight[0].message.Summary? then 1 else 0) + Summaries(flight[1..])
  }

  lemma {:induction false} SumsAppend(n: nat, a: seq<Frame>, b: seq<Frame>)
    ensures Total(n, a + b) == Total(n, a) + Total(n, b) && Summaries(a + b) == Summaries(a) + Summaries(b)
  {
    if a == [] {
      assert a + b == b;
    } else {
      assert (a + b)[1..] == a[1..] + b;
      SumsAppend(n, a[1..], b);
    }
  }

  lemma SumsWithout(n: nat, flight: seq<Frame>, i: nat)
    requires i < |flight|
    ensures Total(n, flight) == Total(n, Without(flight, i)) + Weight(n, flight[i].message)
    ensures Summaries(flight) == Summaries(Without(flight, i)) + if flight[i].message.Summary? then 1 else 0
  {
    SumsAppend(n, flight[..i], flight[i + 1..]);
    SumsAppend(n, flight[..i], [flight[i]] + flight[i + 1..]);
    assert flight == flight[..i] + ([flight[i]] + flight[i + 1..]);
    assert ([flight[i]] + flight[i + 1..])[1..] == flight[i + 1..];
  }

  lemma {:induction false} TotalBound(n: nat, flight: seq<Frame>, w: nat)
    requires forall f | f in flight :: Weight(n, f.message) <= w
    ensures Total(n, flight) <= |flight| * w
  {
    if flight == [] {
    } else {
      TotalBound(n, flight[1..], w);
      assert |flight| * w == w + (|flight| - 1) * w;
    }
  }

  lemma {:induction false} NoSummaries(flight: seq<Frame>)
    requires forall f | f in flight :: f.message.Data?
    ensures Summaries(flight) == 0
  {
    if flight == [] {
    } else {
      NoSummaries(flight[1..]);
    }
  }

  lemma {:induction false} OneSummary(flight: seq<Frame>, i: nat)
    requires forall k | 0 <= k < |flight| && k != i :: flight[k].message.Data?
    ensures Summaries(flight) <= 1
  {
    if flight == [] {
    } else {
      if i == 0 {
        NoSummaries(flight[1..]);
      } else {
        OneSummary(flight[1..], i - 1);
      }
    }
  }

  // ----- what one message sends -----

  lemma {:induction false} RelaySize(peers: set<nat>, e: Envelope, nonce: u64)
    ensures |RelayTo(peers, e, nonce)| <= |peers|
  {
    if peers == {} || DecrementTtl(e).None? {
    } else {
      var peer :| peer in peers;
      RelaySize(peers - {peer}, e, nonce);
      assert RelayTo(peers, e, nonce)
          == RelayTo(peers - {peer}, e, nonce) + {Outbound(peer, Data(DecrementTtl(e).value, nonce))};
    }
  }

  lemma {:induction false} PushSize(o: Oracles, difficulty: byte, to: nat, es: set<Envelope>)
    ensures |PushAll(o, difficulty, to, es)| <= |es|
  {
    if es == {} {
    } else {
      var e :| e in es;
      PushSize(o, difficulty, to, es - {e});
      assert PushAll(o, difficulty, to, es)
          == PushAll(o, difficulty, to, es - {e}) + if DecrementTtl(e).Some? then {Push(o, difficulty, to, e)} else {};
    }
  }

  lemma {:induction false} MissingSize(s: StoreState, hash: Bloom.Hash, filter: Bloom.BloomFilter)
    requires filter.Valid()
    ensures |MissingByFilter(s, hash, filter)| <= |s.entries|
    decreases |s.entries|
  {
    if s.entries.Keys == {} {
    } else {
      var id :| id in s.entries;
      var rest := s.(entries := s.entries - {id});
      RemoveCount(s.entries, id);
      MissingSize(rest, hash, filter);
      SubsetSize(MissingByFilter(s, hash, filter), MissingByFilter(rest, hash, filter) + {s.entries[id].envelope});
    }
  }

  // ----- the measure -----

  /** Frames between nodes of the net, stores within a common capacity. */
  ghost predicate Closed(net: Net, capacity: nat) {
    && (forall at | at in net.nodes ::
          Valid(net.nodes[at].store) && net.nodes[at].store.capacity <= capacity
              && net.nodes[at].peers.Keys <= net.nodes.Keys)
    && (forall f | f in net.flight :: f.from in net.nodes && f.to in net.nodes && f.message.Valid())
  }

  /** Pairs of nodes of which the first still owes the second its summary. */
  ghost function Owed(net: Net): set<(nat, nat)> {
    set at, peer | at in net.nodes && peer in net.nodes && !PeerOf(net.nodes[at], peer).summarySent :: (at, peer)
  }

  ghost function SummaryRank(net: Net): nat {
    2 * |Owed(net)| + Summaries(net.flight)
  }

  ghost function DataRank(net: Net): nat {
    Total(|net.nodes|, net.flight)
  }

  /** More than one summary's pushes can weigh. */
  function Burst(nodes: nat, capacity: nat): (burst: nat)
    ensures burst >= 1
  {
    Scaled(0, capacity + 1, Pow(nodes, 255));
    (capacity + 1) * Pow(nodes, 255) + 1
  }

  ghost function Rank(net: Net, capacity: nat): nat {
    SummaryRank(net) * Burst(|net.nodes|, capacity) + DataRank(net)
  }

  lemma RankDrops(s: nat, s': nat, d: nat, d': nat, burst: nat)
    requires (s' < s && d' < d + burst) || (s' == s && d' < d)
    ensures s' * burst + d' < s * burst + d
  {
    if s' < s { assert s * burst >= (s' + 1) * burst; }
  }

  function SentFrames(net: Net, at: nat, outs: seq<Outbound>): seq<Frame> {
    seq(|outs|, k requires 0 <= k < |outs| => SentFrame(net, at, outs[k]))
  }

  lemma SentFrom(net: Net, at: nat, outs: seq<Outbound>, f: Frame) returns (k: nat)
    requires f in SentFrames(net, at, outs)
    ensures k < |outs| && f == SentFrame(net, at, outs[k])
  {
    k :| 0 <= k < |outs| && f == SentFrames(net, at, outs)[k];
  }

  /** Frames that carry only data, few and light enough. */
  lemma SentData(net: Net, at: nat, outs: seq<Outbound>, all: set<Outbound>, n: nat, count: nat, w: nat)
    requires Enumerates(outs, all) && |all| <= count
    requires forall out | out in all :: out.message.Data? && Weight(n, out.message) <= w
    ensures Total(n, SentFrames(net, at, outs)) <= count * w && Summaries(SentFrames(net, at, outs)) == 0
  {
    var sent := SentFrames(net, at, outs);
    forall f | f in sent
      ensures f.message.Data? && Weight(n, f.message) <= w
    {
      var k := SentFrom(net, at, outs, f);
      assert outs[k] in Elements(outs);
    }
    EnumerateSize(outs, all);
    TotalBound(n, sent, w);
    NoSummaries(sent);
    Scaled(|sent|, count, w);
  }

  lemma DataRelays(o: Oracles, n: Node, from: nat, e: Envelope, nonce: u64, size: nat, now: nat)
    ensures var outs := OnData(o, n, from, e, nonce, size, now).1;
            outs == {} || outs == RelayTo(n.peers.Keys - {from}, e, nonce)
  {
    var limiter := Allow(PeerOf(n, from).rate, n.limits, now, size).0;
    assert n.peers[from := PeerOf(n, from).(rate := limiter)].Keys - {from} == n.peers.Keys - {from};
  }

  lemma OthersFewer(peers: set<nat>, from: nat, nodes: set<nat>)
    requires peers <= nodes && from in nodes
    ensures |peers - {from}| <= |nodes| - 1
  {
    SubsetSize(peers - {from}, nodes - {from});
    assert nodes == nodes - {from} + {from};
  }

  lemma DataOuts(o: Oracles, n: Node, from: nat, e: Envelope, nonce: u64, size: nat, now: nat, nodes: set<nat>)
    requires n.peers.Keys <= nodes && from in nodes
    ensures var outs := OnData(o, n, from, e, nonce, size, now).1;
            && |outs| <= |nodes| - 1 && (e.ttlHops <= 1 ==> outs == {})
            && forall out | out in outs :: out.message.Data? && out.message.envelope.ttlHops == e.ttlHops - 1
  {
    var peers := n.peers.Keys - {from};
    DataRelays(o, n, from, e, nonce, size, now);
    OthersFewer(n.peers.Keys, from, nodes);
    RelaySize(peers, e, nonce);
    RelayHopLess(peers, e, nonce);
  }

  lemma RelayHopLess(peers: set<nat>, e: Envelope, nonce: u64)
    ensures e.ttlHops <= 1 ==> RelayTo(peers, e, nonce) == {}
    ensures forall out | out in RelayTo(peers, e, nonce) ::
            out.message.Data? && out.message.envelope.ttlHops == e.ttlHops - 1
  {
  }

  lemma RelayWeight(n: nat, ttl: nat)
    requires n >= 1 && ttl >= 1
    ensures (n - 1) * Pow(n, ttl - 1) < Pow(n, ttl)
  {
    assert n * Pow(n, ttl - 1) == (n - 1) * Pow(n, ttl - 1) + Pow(n, ttl - 1);
  }

  /** Copies one hop shorter, to fewer nodes than there are, weigh less than the copy relayed. */
  lemma RelayLighter(net: Net, at: nat, outs: seq<Outbound>, all: set<Outbound>, n: nat, e: Envelope, nonce: u64)
    requires n >= 1 && Enumerates(outs, all) && |all| <= n - 1 && (e.ttlHops <= 1 ==> all == {})
    requires forall out | out in all :: out.message.Data? && out.message.envelope.ttlHops == e.ttlHops - 1
    ensures Total(n, SentFrames(net, at, outs)) < Weight(n, Data(e, nonce))
    ensures Summaries(SentFrames(net, at, outs)) == 0
  {
    if e.ttlHops <= 1 {
      SentData(net, at, outs, all, n, 0, 0);
    } else {
      SentData(net, at, outs, all, n, n - 1, Pow(n, e.ttlHops - 1));
      RelayWeight(n, e.ttlHops);
    }
  }

  /** A delivered copy weighs more than everything it makes the receiver send. */
  lemma DataLighter(o: Oracles, net: Net, f: Frame, now: nat, sender: Net, outs: seq<Outbound>)
    requires f.message.Data? && f.from in net.nodes && f.to in net.nodes && net.nodes[f.to].peers.Keys <= net.nodes.Keys
    requires Enumerates(outs, Handle(o, net.nodes[f.to], f, now).1)
    ensures Total(|net.nodes|, SentFrames(sender, f.to, outs)) < Weight(|net.nodes|, f.message)
    ensures Summaries(SentFrames(sender, f.to, outs)) == 0
  {
    var n, e := |net.nodes|, f.message.envelope;
    NodeCount(net, f.to);
    var all := Handle(o, net.nodes[f.to], f, now).1;
    DataOuts(o, net.nodes[f.to], f.from, e, f.message.puzzleNonce, |CM.ToBytes(f.message)|, now, net.nodes.Keys);
    RelayLighter(sender, f.to, outs, all, n, e, f.message.puzzleNonce);
  }

  lemma NodeCount(net: Net, at: nat)
    requires at in net.nodes
    ensures |net.nodes.Keys| == |net.nodes| >= 1
  {
    assert |net.nodes.Keys| == |net.nodes|;
  }

  lemma SummaryOuts(o: Oracles, n: Node, from: nat, filter: Bloom.BloomFilter)
    requires filter.Valid()
    ensures forall out | out in OnSummary(o, n, from, filter).1 && out.message.Summary? ::
              !PeerOf(n, from).summarySent && out == Outbound(from, Hello(o, n))
  {
    assert forall out | out in PushAll(o, n.difficulty, from, MissingByFilter(n.store, o.hash, filter)) ::
        out.message.Data?;
  }

  lemma SummaryOutsCount(o: Oracles, n: Node, from: nat, filter: Bloom.BloomFilter)
    requires filter.Valid() && |n.store.entries| <= n.store.capacity
    ensures |OnSummary(o, n, from, filter).1| <= n.store.capacity + 1
  {
    var missing := MissingByFilter(n.store, o.hash, filter);
    MissingSize(n.store, o.hash, filter);
    PushSize(o, n.difficulty, from, missing);
    HelloCount(Outbound(from, Hello(o, n)), PushAll(o, n.difficulty, from, missing));
  }

  lemma HelloCount(hello: Outbound, pushes: set<Outbound>)
    ensures |{hello} + pushes| <= 1 + |pushes|
  {
    assert {hello} + pushes == pushes + {hello};
  }

  lemma WeightBound(n: nat, m: ContactMessage)
    requires n >= 1
    ensures Weight(n, m) <= Pow(n, 255)
  {
    if m.Data? { PowGrows(n, m.envelope.ttlHops, 255); }
  }

  lemma SentTotal(net: Net, at: nat, outs: seq<Outbound>, n: nat)
    requires n >= 1
    ensures Total(n, SentFrames(net, at, outs)) <= |outs| * Pow(n, 255)
  {
    forall f | f in SentFrames(net, at, outs)
      ensures Weight(n, f.message) <= Pow(n, 255)
    {
      WeightBound(n, f.message);
    }
    TotalBound(n, SentFrames(net, at, outs), Pow(n, 255));
  }

  /** Among distinct messages of which only one particular one may be a summary, at most one is. */
  lemma SentSummaries(net: Net, at: nat, outs: seq<Outbound>, hello: Outbound, owed: bool)
    requires Distinct(outs) && forall out | out in outs && out.message.Summary? :: owed && out == hello
    ensures Summaries(SentFrames(net, at, outs)) <= if owed then 1 else 0
  {
    var sent := SentFrames(net, at, outs);
    if owed && hello in outs {
      var i :| 0 <= i < |outs| && outs[i] == hello;
      forall k | 0 <= k < |sent| && k != i
        ensures sent[k].message.Data?
      {
        assert outs[k] in outs;
      }
      OneSummary(sent, i);
    } else {
      forall f | f in sent
        ensures f.message.Data?
      {
        var k := SentFrom(net, at, outs, f);
        assert outs[k] in outs;
      }
      NoSummaries(sent);
    }
  }

  lemma BurstBound(net: Net, at: nat, outs: seq<Outbound>, n: nat, capacity: nat)
    requires n >= 1 && |outs| <= capacity + 1
    ensures Total(n, SentFrames(net, at, outs)) < Burst(n, capacity)
  {
    SentTotal(net, at, outs, n);
    Scaled(|outs|, capacity + 1, Pow(n, 255));
  }

  /** Answering a summary, or failing to parse it, sends few messages. */
  lemma SummaryFew(o: Oracles, n: Node, f: Frame, now: nat, outs: seq<Outbound>)
    requires f.message.Summary? && f.message.Valid() && Valid(n.store)
    requires Enumerates(outs, Handle(o, n, f, now).1)
    ensures |outs| <= n.store.capacity + 1
  {
    SummaryOutsCount(o, n, f.from, f.message.filter);
    EnumerateSize(outs, Handle(o, n, f, now).1);
  }

  ghost predicate Owes(n: Node, f: Frame) {
    Carries(f.message) && !PeerOf(n, f.from).summarySent
  }

  /** It settles one debt, or sends no summary at all. */
  lemma SummarySettles(o: Oracles, n: Node, f: Frame, now: nat, sender: Net, outs: seq<Outbound>)
    requires f.message.Summary? && f.message.Valid() && Valid(n.store)
    requires Enumerates(outs, Handle(o, n, f, now).1)
    ensures Summaries(SentFrames(sender, f.to, outs)) <= if Owes(n, f) then 1 else 0
  {
    SummaryOuts(o, n, f.from, f.message.filter);
    forall out | out in outs && out.message.Summary?
      ensures Owes(n, f) && out == Outbound(f.from, Hello(o, n))
    {
      assert out in Elements(outs);
    }
    SentSummaries(sender, f.to, outs, Outbound(f.from, Hello(o, n)), Owes(n, f));
  }

  // ----- one delivery -----

  /** Data never changes who has sent a summary to whom; a summary received does so for its sender alone. */
  lemma OwedAfter(o: Oracles, net: Net, f: Frame, now: nat, net': Net)
    requires f.message.Valid() && f.from in net.nodes && f.to in net.nodes
    requires net'.nodes == net.nodes[f.to := Handle(o, net.nodes[f.to], f, now).0]
    ensures Owed(net')
         == if f.message.Summary? && Carries(f.message) then Owed(net) - {(f.to, f.from)} else Owed(net)
  {
    var n, n' := net.nodes[f.to], Handle(o, net.nodes[f.to], f, now).0;
    forall peer
      ensures PeerOf(n', peer).summarySent
         <==> PeerOf(n, peer).summarySent || (f.message.Summary? && Carries(f.message) && peer == f.from)
    {
    }
  }

  lemma OwedShrinks(net: Net, at: nat, peer: nat)
    requires at in net.nodes && peer in net.nodes && !PeerOf(net.nodes[at], peer).summarySent
    ensures |Owed(net) - {(at, peer)}| == |Owed(net)| - 1
  {
    assert (at, peer) in Owed(net);
  }

  lemma OwedSame(net: Net, at: nat, peer: nat)
    requires at in net.nodes && PeerOf(net.nodes[at], peer).summarySent
    ensures Owed(net) - {(at, peer)} == Owed(net)
  {
  }

  /** What is in flight after a delivery, counted. */
  lemma FlightAfter(net: Net, i: nat, sender: Net, outs: seq<Outbound>, n: nat)
    requires i < |net.flight|
    ensures var flight := Without(net.flight, i) + SentFrames(sender, net.flight[i].to, outs);
            var sent := SentFrames(sender, net.flight[i].to, outs);
            && Total(n, flight) + Weight(n, net.flight[i].message) == Total(n, net.flight) + Total(n, sent)
            && Summaries(flight) + (if net.flight[i].message.Summary? then 1 else 0)
               == Summaries(net.flight) + Summaries(sent)
  {
    SumsWithout(n, net.flight, i);
    SumsAppend(n, Without(net.flight, i), SentFrames(sender, net.flight[i].to, outs));
  }

  lemma DeliverNet(o: Oracles, net: Net, i: nat, now: nat, outs: seq<Outbound>)
    requires Possible(o, net, Deliver(i, now, outs))
    ensures var f, net' := net.flight[i], Step(o, net, Deliver(i, now, outs));
            && net'.nodes == net.nodes[f.to := Handle(o, net.nodes[f.to], f, now).0]
            && net'.flight == Without(net.flight, i) + SentFrames(Arrived(o, net, i, now), f.to, outs)
  {
  }

  lemma DeliverCounts(o: Oracles, net: Net, f: Frame, now: nat, sender: Net, outs: seq<Outbound>, net': Net,
                      capacity: nat)
    requires Closed(net, capacity) && f in net.flight && Enumerates(outs, Handle(o, net.nodes[f.to], f, now).1)
    requires net'.nodes == net.nodes[f.to := Handle(o, net.nodes[f.to], f, now).0]
    ensures var sent := SentFrames(sender, f.to, outs);
            if f.message.Summary? then
              && Total(|net.nodes|, sent) < Burst(|net.nodes|, capacity)
              && 2 * |Owed(net')| + Summaries(sent) < 2 * |Owed(net)| + 1
            else
              && Total(|net.nodes|, sent) < Weight(|net.nodes|, f.message)
              && 2 * |Owed(net')| + Summaries(sent) == 2 * |Owed(net)|
  {
    OwedAfter(o, net, f, now, net');
    if f.message.Summary? {
      NodeCount(net, f.to);
      SummaryFew(o, net.nodes[f.to], f, now, outs);
      BurstBound(sender, f.to, outs, |net.nodes|, capacity);
      SummarySettles(o, net.nodes[f.to], f, now, sender, outs);
      if PeerOf(net.nodes[f.to], f.from).summarySent {
        OwedSame(net, f.to, f.from);
      } else {
        OwedShrinks(net, f.to, f.from);
      }
    } else {
      DataLighter(o, net, f, now, sender, outs);
    }
  }

  lemma DeliverDrops(o: Oracles, net: Net, i: nat, now: nat, outs: seq<Outbound>, capacity: nat)
    requires Closed(net, capacity) && Possible(o, net, Deliver(i, now, outs))
    ensures Rank(Step(o, net, Deliver(i, now, outs)), capacity) < Rank(net, capacity)
  {
    var f, net', sender := net.flight[i], Step(o, net, Deliver(i, now, outs)), Arrived(o, net, i, now);
    DeliverNet(o, net, i, now, outs);
    SameCount(net, net', f.to);
    FlightAfter(net, i, sender, outs, |net.nodes|);
    DeliverCounts(o, net, f, now, sender, outs, net', capacity);
    var burst := Burst(|net.nodes|, capacity);
    RankDrops(SummaryRank(net), SummaryRank(net'), DataRank(net), DataRank(net'), burst);
  }

  lemma SameCount(net: Net, net': Net, at: nat)
    requires at in net.nodes && net'.nodes.Keys == net.nodes.Keys
    ensures |net'.nodes| == |net.nodes|
  {
    NodeCount(net, at);
    NodeCount(net', at);
  }

  lemma OwedByNodes(net: Net, net': Net)
    requires net'.nodes == net.nodes
    ensures Owed(net') == Owed(net)
  {
  }

  lemma VanishDrops(net: Net, i: nat, capacity: nat)
    requires Closed(net, capacity) && i < |net.flight|
    ensures Rank(net.(flight := Without(net.flight, i)), capacity) < Rank(net, capacity)
  {
    var f, net' := net.flight[i], net.(flight := Without(net.flight, i));
    assert f in net.flight;
    NodeCount(net, f.to);
    SumsWithout(|net.nodes|, net.flight, i);
    OwedByNodes(net, net');
    var burst := Burst(|net.nodes|, capacity);
    RankDrops(SummaryRank(net), SummaryRank(net'), DataRank(net), DataRank(net'), burst);
  }

  // ----- nothing leaves the net -----

  lemma OutsClosed(o: Oracles, n: Node, f: Frame, now: nat)
    requires Valid(n.store) && f.message.Valid()
    ensures forall out | out in Handle(o, n, f, now).1 :: out.to in n.peers.Keys + {f.from} && out.message.Valid()
  {
    HelloValid(o, n);
  }

  lemma SentClosed(o: Oracles, n: Node, f: Frame, now: nat, sender: Net, outs: seq<Outbound>, g: Frame)
    requires Valid(n.store) && f.message.Valid() && Enumerates(outs, Handle(o, n, f, now).1)
    requires g in SentFrames(sender, f.to, outs)
    ensures g.from == f.to && g.to in n.peers.Keys + {f.from} && g.message.Valid()
  {
    var k := SentFrom(sender, f.to, outs, g);
    assert outs[k] in Elements(outs);
    OutsClosed(o, n, f, now);
  }

  lemma NodesClosed(net: Net, net': Net, at: nat, n': Node, capacity: nat)
    requires Closed(net, capacity) && at in net.nodes && net'.nodes == net.nodes[at := n']
    requires Valid(n'.store) && n'.store.capacity <= capacity && n'.peers.Keys <= net.nodes.Keys
    requires forall f | f in net'.flight :: f.from in net.nodes && f.to in net.nodes && f.message.Valid()
    ensures Closed(net', capacity)
  {
  }

  lemma FlightClosed(o: Oracles, net: Net, f: Frame, now: nat, sender: Net, outs: seq<Outbound>, flight: seq<Frame>,
                     capacity: nat)
    requires Closed(net, capacity) && f in net.flight && Enumerates(outs, Handle(o, net.nodes[f.to], f, now).1)
    requires forall g | g in flight :: g in net.flight || g in SentFrames(sender, f.to, outs)
    ensures forall g | g in flight :: g.from in net.nodes && g.to in net.nodes && g.message.Valid()
  {
    forall g | g in flight
      ensures g.from in net.nodes && g.to in net.nodes && g.message.Valid()
    {
      if g !in net.flight { SentClosed(o, net.nodes[f.to], f, now, sender, outs, g); }
    }
  }

  lemma HandledClosed(o: Oracles, net: Net, f: Frame, now: nat, capacity: nat)
    requires Closed(net, capacity) && f in net.flight
    ensures var n' := Handle(o, net.nodes[f.to], f, now).0;
            Valid(n'.store) && n'.store.capacity <= capacity && n'.peers.Keys <= net.nodes.Keys
  {
    HandleState(o, net.nodes[f.to], f, now);
  }

  lemma DeliverClosed(o: Oracles, net: Net, f: Frame, now: nat, sender: Net, outs: seq<Outbound>, net': Net,
                      capacity: nat)
    requires Closed(net, capacity) && f in net.flight && Enumerates(outs, Handle(o, net.nodes[f.to], f, now).1)
    requires net'.nodes == net.nodes[f.to := Handle(o, net.nodes[f.to], f, now).0]
    requires forall g | g in net'.flight :: g in net.flight || g in SentFrames(sender, f.to, outs)
    ensures Closed(net', capacity)
  {
    FlightClosed(o, net, f, now, sender, outs, net'.flight, capacity);
    HandledClosed(o, net, f, now, capacity);
    NodesClosed(net, net', f.to, Handle(o, net.nodes[f.to], f, now).0, capacity);
  }

  // ----- the bound -----

  ghost predicate OnlyDrains(events: seq<Event>) {
    forall event | event in events :: event.Deliver? || event.Vanish?
  }

  lemma DeliverStep(o: Oracles, net: Net, event: Event, capacity: nat)
    requires Closed(net, capacity) && Possible(o, net, event) && event.Deliver?
    ensures Closed(Step(o, net, event), capacity)
  {
    var i := event.i;
    DeliverNet(o, net, i, event.now, event.outs);
    DeliverClosed(o, net, net.flight[i], event.now, Arrived(o, net, i, event.now), event.outs, Step(o, net, event),
                  capacity);
  }

  lemma VanishStep(o: Oracles, net: Net, event: Event, capacity: nat)
    requires Closed(net, capacity) && Possible(o, net, event) && event.Vanish?
    ensures Closed(Step(o, net, event), capacity)
  {
    var flight := Without(net.flight, event.i);
    assert forall f | f in flight :: f in net.flight;
  }

  lemma DrainDrops(o: Oracles, net: Net, event: Event, net': Net, capacity: nat)
    requires Closed(net, capacity) && Possible(o, net, event) && (event.Deliver? || event.Vanish?)
    requires net' == Step(o, net, event)
    ensures Closed(net', capacity) && Rank(net', capacity) < Rank(net, capacity)
  {
    match event
    case Deliver(i, now, outs) =>
      DeliverStep(o, net, event, capacity);
      DeliverDrops(o, net, i, now, outs, capacity);
    case Vanish(i) =>
      VanishStep(o, net, event, capacity);
      VanishDrops(net, i, capacity);
  }

  /** From any state whatever, with any stores, contacts and frames (also ones no honest node sent), the network
      settles: every schedule that only delivers or loses frames is over after at most `Rank` steps, evictions
      and re-acceptances included. */
  lemma {:induction false} GossipSettles(o: Oracles, net: Net, events: seq<Event>, capacity: nat)
    requires Closed(net, capacity) && PossibleRun(o, net, events) && OnlyDrains(events)
    ensures |events| <= Rank(net, capacity)
    decreases |events|
  {
    if events == [] {
    } else {
      assert events[0] in events;
      DrainDrops(o, net, events[0], Step(o, net, events[0]), capacity);
      GossipSettles(o, Step(o, net, events[0]), events[1..], capacity);
    }
  }
}
