/** What flooding is for: without loss, an envelope composed in a quiet net reaches every node that contacts link to its
    composer (core/src/relay.rs). */
module Flood {
  import opened Bytes
  import opened Collections
  import opened Wrappers
  import opened Envelopes
  import opened Engine
  import opened RateLimiting
  import opened Relay
  import opened Mesh
  import opened Drain
  import opened CM = ContactMessages
  import Puzzle

  // ----- who can be reached -----

  ghost predicate Meets(net: Net, u: nat, v: nat) {
    u in net.nodes && v in net.nodes && v in net.nodes[u].peers
  }

  ghost predicate Walk(net: Net, u: nat, v: nat, path: seq<nat>) {
    && path != [] && path[0] == u && path[|path| - 1] == v
    && forall i: nat | i + 1 < |path| :: Meets(net, path[i], path[i + 1])
  }

  /** A chain of present contacts leads from one node to the other. */
  ghost predicate Linked(net: Net, u: nat, v: nat) {
    exists path :: Walk(net, u, v, path)
  }

  lemma LinkedMore(net: Net, origin: nat, u: nat, v: nat)
    requires Linked(net, origin, u) && Meets(net, u, v)
    ensures Linked(net, origin, v)
  {
    var path :| Walk(net, origin, u, path);
    assert Walk(net, origin, v, path + [v]);
  }

  lemma {:induction false} LinkedWithin(net: Net, origin: nat, v: nat, path: seq<nat>, closed: set<nat>)
    requires Walk(net, origin, v, path) && origin in closed
    requires forall a, b | a in closed && Meets(net, a, b) :: b in closed
    ensures v in closed
    decreases |path|
  {
    if |path| == 1 {
    } else {
      var front := path[..|path| - 1];
      var last := |path| - 2;
      assert forall i: nat | i + 1 < |front| :: Meets(net, path[i], path[i + 1]);
      LinkedWithin(net, origin, path[last], front, closed);
      assert Meets(net, path[last], path[last + 1]);
    }
  }

  // ----- a quiet net in which one envelope is composed -----

  function FrameBytes(e: Envelope): nat {
    |CM.ToBytes(Data(e, 0))|
  }

  /** A node with a free slot that does not hold the envelope, and whose accounts of its contacts each have one more
      frame of it left. */
  ghost predicate Roomy(n: Node, e: Envelope) {
    && Valid(n.store) && e.Id() !in n.store.entries && |n.store.entries| < n.store.capacity
    && forall u | u in n.peers ::
         && n.peers[u].rate.envelopes + 1 <= n.limits.maxEnvelopes
         && n.peers[u].rate.bytes + FrameBytes(e) <= n.limits.maxBytes
  }

  /** Nothing is in flight, contacts are mutual, one puzzle is asked for everywhere, and every node has room. */
  ghost predicate Quiet(o: Oracles, net: Net, origin: nat, e: Envelope) {
    && net.flight == [] && origin in net.nodes && Carries(Data(e, 0))
    && Puzzle.Solvable(o.digest, e.Id(), net.nodes[origin].difficulty)
    && (forall v | v in net.nodes ::
          && Roomy(net.nodes[v], e) && net.nodes[v].peers.Keys <= net.nodes.Keys
          && net.nodes[v].difficulty == net.nodes[origin].difficulty)
    && forall u, v | Meets(net, u, v) :: Meets(net, v, u)
  }

  /** The envelope on its way: the net it started from, its identity, and the nonce it travels with. */
  datatype Wave = Wave(start: Net, origin: nat, e: Envelope, id: EnvelopeId, nonce: u64)

  ghost predicate Starts(o: Oracles, w: Wave) {
    Quiet(o, w.start, w.origin, w.e) && |w.start.nodes| <= w.e.ttlHops && w.id == w.e.Id()
    && Puzzle.Verifies(o.digest, w.id, w.nonce, w.start.nodes[w.origin].difficulty)
  }

  ghost predicate Has(w: Wave, net: Net, v: nat) {
    v in net.nodes && w.id in net.nodes[v].store.entries
  }

  ghost function Holders(w: Wave, net: Net): set<nat> {
    set v | v in net.nodes && w.id in net.nodes[v].store.entries
  }

  /** What a node keeps, and what it has of the envelope when so many nodes hold it. */
  ghost predicate NodeOn(w: Wave, n: Node, start: Node, held: nat) {
    && Valid(n.store) && n.peers.Keys == start.peers.Keys && n.difficulty == start.difficulty
    && n.limits == start.limits
    && if w.id in n.store.entries then n.store.entries[w.id].envelope.ttlHops + held >= w.e.ttlHops + 1
       else n.store == start.store
  }

  /** A copy on its way between two nodes in contact, the first of which holds the envelope, and none of which the
      second has charged to the first. */
  ghost predicate FrameOn(w: Wave, net: Net, f: Frame, held: nat) {
    && Meets(w.start, f.from, f.to) && Has(w, net, f.from) && f.to in net.nodes
    && f.message.Data? && f.message.puzzleNonce == w.nonce
    && f.message.envelope == w.e.(ttlHops := f.message.envelope.ttlHops)
    && f.message.envelope.ttlHops >= 1 && f.message.envelope.ttlHops + held >= w.e.ttlHops
    && SameAccount(w, net, f.to, f.from)
  }

  ghost predicate SameAccount(w: Wave, net: Net, v: nat, u: nat) {
    v in net.nodes && v in w.start.nodes && PeerOf(net.nodes[v], u).rate == PeerOf(w.start.nodes[v], u).rate
  }

  /** No two frames go the same way. */
  ghost predicate OneWay(flight: seq<Frame>) {
    forall j, k | 0 <= j < k < |flight| :: flight[j].from != flight[k].from || flight[j].to != flight[k].to
  }

  ghost predicate Coming(flight: seq<Frame>, u: nat, v: nat) {
    exists f :: f in flight && f.from == u && f.to == v
  }

  ghost predicate NodesOn(w: Wave, net: Net) {
    && net.nodes.Keys == w.start.nodes.Keys
    && (forall v | v in w.start.nodes :: w.start.nodes[v].peers.Keys <= w.start.nodes.Keys)
    && forall v | v in net.nodes :: NodeOn(w, net.nodes[v], w.start.nodes[v], |Holders(w, net)|)
  }

  ghost predicate FramesOn(w: Wave, net: Net) {
    forall f | f in net.flight :: FrameOn(w, net, f, |Holders(w, net)|)
  }

  /** Nobody has been charged for a frame of a node that sent none. */
  ghost predicate Uncharged(w: Wave, net: Net) {
    forall u, v | !Has(w, net, u) && v in net.nodes :: SameAccount(w, net, v, u)
  }

  /** Every holder has served each of its contacts, or is about to. */
  ghost predicate Served(w: Wave, net: Net) {
    forall u, v | Has(w, net, u) && Meets(w.start, u, v) :: Has(w, net, v) || Coming(net.flight, u, v)
  }

  ghost predicate FromComposer(w: Wave, net: Net) {
    Has(w, net, w.origin) && forall v | Has(w, net, v) :: Linked(w.start, w.origin, v)
  }

  ghost predicate Spreading(w: Wave, net: Net) {
    && NodesOn(w, net) && FramesOn(w, net) && OneWay(net.flight) && Uncharged(w, net) && Served(w, net)
    && FromComposer(w, net)
  }

  // ----- one delivery, at its node -----

  lemma SameFrameBytes(e: Envelope, f: Envelope, nonce: u64)
    requires f == e.(ttlHops := f.ttlHops)
    ensures |CM.ToBytes(Data(f, nonce))| == FrameBytes(e) && |Payload(Data(f, nonce))| == |Payload(Data(e, 0))|
    ensures f.Id() == e.Id()
  {
    IdIgnoresOnlyHops(e, f);
    assert Front(f) == Front(e);
  }

  lemma Allowed(limiter: RateLimiter, cfg: Config, now: nat, size: nat)
    requires limiter.envelopes + 1 <= cfg.maxEnvelopes && limiter.bytes + size <= cfg.maxBytes
    ensures Allow(limiter, cfg, now, size).1
  {
  }

  /** What a node makes of a copy for which it has room, budget and the right nonce. */
  ghost predicate Taken(w: Wave, n: Node, from: nat, m: ContactMessage, n': Node, sent: set<Outbound>)
    requires m.Data?
  {
    && Valid(n'.store) && n'.peers.Keys == n.peers.Keys && n'.difficulty == n.difficulty && n'.limits == n.limits
    && (forall u | u != from :: PeerOf(n', u) == PeerOf(n, u))
    && if w.id in n.store.entries then n'.store == n.store && sent == {}
       else
         && w.id in n'.store.entries && n'.store.entries[w.id].envelope == m.envelope
         && (if m.envelope.ttlHops >= 2 then OneEach(sent, n.peers.Keys - {from}, m.envelope, w.nonce) else sent == {})
  }

  lemma StoreTakes(s: StoreState, e: Envelope, now: nat)
    requires Valid(s) && now < e.expiresAt && e.ttlHops >= 1
    requires e.Id() in s.entries || |s.entries| < s.capacity
    ensures var s' := AcceptStep(s, e, now).0;
            && Valid(s') && e.Id() in s'.entries
            && (if e.Id() in s.entries then s' == s else s'.entries[e.Id()].envelope == e)
  {
    AcceptAnswers(s, e, now);
    AcceptEffect(s, e, now);
    if e.Id() !in s.entries { AcceptTakes(s, e, now); }
  }

  /** Data that passes the puzzle and the limiter is offered to the store. */
  lemma DataOffered(o: Oracles, n: Node, from: nat, e: Envelope, nonce: u64, size: nat, now: nat)
    requires Puzzle.Verifies(o.digest, e.Id(), nonce, n.difficulty)
    requires Allow(PeerOf(n, from).rate, n.limits, now, size).1 && from in n.peers
    ensures var n' := OnData(o, n, from, e, nonce, size, now).0;
            && n'.store == AcceptStep(n.store, e, now).0
            && n'.peers.Keys == n.peers.Keys && n'.difficulty == n.difficulty && n'.limits == n.limits
            && forall u | u != from :: PeerOf(n', u) == PeerOf(n, u)
  {
  }

  lemma TakesCopy(o: Oracles, w: Wave, n: Node, start: Node, f: Frame, now: nat, held: nat)
    requires NodeOn(w, n, start, held) && Roomy(start, w.e) && f.from in start.peers && now < w.e.expiresAt
    requires f.message.Data? && f.message.puzzleNonce == w.nonce && f.message.envelope.ttlHops >= 1
    requires f.message.envelope == w.e.(ttlHops := f.message.envelope.ttlHops) && Carries(Data(w.e, 0))
    requires PeerOf(n, f.from).rate == PeerOf(start, f.from).rate
    requires Puzzle.Verifies(o.digest, w.id, w.nonce, n.difficulty) && w.id == w.e.Id()
    ensures var (n', sent) := Handle(o, n, f, now); Taken(w, n, f.from, f.message, n', sent)
  {
    var e, size := f.message.envelope, |CM.ToBytes(f.message)|;
    SameFrameBytes(w.e, e, w.nonce);
    Allowed(PeerOf(n, f.from).rate, n.limits, now, size);
    StoreTakes(n.store, e, now);
    DataOffered(o, n, f.from, e, w.nonce, size, now);
    DataFloods(o, n, f.from, e, w.nonce, size, now);
  }

  // ----- one delivery, in the net -----

  lemma RestFrames(flight: seq<Frame>, i: nat)
    requires i < |flight| && OneWay(flight)
    ensures OneWay(Without(flight, i))
    ensures forall g | g in Without(flight, i) ::
              g in flight && (g.from != flight[i].from || g.to != flight[i].to)
    ensures forall g | g in flight && (g.from != flight[i].from || g.to != flight[i].to) :: g in Without(flight, i)
  {
    var rest := Without(flight, i);
    assert forall k | 0 <= k < |rest| :: rest[k] == flight[if k < i then k else k + 1];
    forall g | g in flight && (g.from != flight[i].from || g.to != flight[i].to)
      ensures g in rest
    {
      var k :| 0 <= k < |flight| && flight[k] == g;
      assert rest[if k < i then k else k - 1] == g;
    }
  }

  /** The frames one node sends at once go different ways, and each carries what was to be sent. */
  lemma SentOneWay(sender: Net, at: nat, outs: seq<Outbound>, sent: set<Outbound>, peers: set<nat>, e: Envelope,
                   nonce: u64)
    requires Enumerates(outs, sent) && OneEach(sent, peers, e, nonce)
    ensures OneWay(SentFrames(sender, at, outs))
    ensures forall f | f in SentFrames(sender, at, outs) ::
              f.from == at && f.to in peers && f.message == Data(e.(ttlHops := e.ttlHops - 1), nonce)
    ensures forall peer | peer in peers :: Coming(SentFrames(sender, at, outs), at, peer)
  {
    var frames := SentFrames(sender, at, outs);
    forall k | 0 <= k < |outs|
      ensures outs[k].to in peers && outs[k].message == Data(e.(ttlHops := e.ttlHops - 1), nonce)
    {
      assert outs[k] in Elements(outs);
    }
    forall j, k | 0 <= j < k < |frames|
      ensures frames[j].to != frames[k].to
    {
      assert outs[j] != outs[k];
    }
    forall peer | peer in peers
      ensures Coming(frames, at, peer)
    {
      var out := Outbound(peer, Data(e.(ttlHops := e.ttlHops - 1), nonce));
      assert out in Elements(outs);
      var k :| 0 <= k < |outs| && outs[k] == out;
      assert frames[k] in frames;
    }
  }

  /** A copy has been delivered: the frames left, and those its receiver sent. */
  ghost predicate Delivery(w: Wave, net: Net, net': Net, i: nat, news: seq<Frame>) {
    && i < |net.flight| && net.flight[i].to in net.nodes && net.flight[i].message.Data?
    && net'.nodes.Keys == net.nodes.Keys && net'.flight == Without(net.flight, i) + news
    && var f := net.flight[i];
       && (forall v | v in net.nodes && v != f.to :: net'.nodes[v] == net.nodes[v])
       && NodeTakes(w, net.nodes[f.to], f.from, f.message, net'.nodes[f.to])
       && Sends(w, net, f, news)
  }

  ghost predicate NodeTakes(w: Wave, n: Node, from: nat, m: ContactMessage, n': Node)
    requires m.Data?
  {
    && Valid(n'.store) && n'.peers.Keys == n.peers.Keys && n'.difficulty == n.difficulty && n'.limits == n.limits
    && (forall u | u != from :: PeerOf(n', u) == PeerOf(n, u))
    && w.id in n'.store.entries
    && if w.id in n.store.entries then n'.store == n.store
       else n'.store.entries[w.id].envelope == m.envelope
  }

  /** A first copy with a hop to spare is sent on to every other contact, and nothing else is. */
  ghost predicate Sends(w: Wave, net: Net, f: Frame, news: seq<Frame>)
    requires f.to in net.nodes && f.message.Data?
  {
    if !Has(w, net, f.to) && f.message.envelope.ttlHops >= 2 then
      && OneWay(news)
      && (forall g | g in news ::
            && g.from == f.to && g.to in net.nodes[f.to].peers && g.to != f.from
            && g.message == Data(f.message.envelope.(ttlHops := f.message.envelope.ttlHops - 1), w.nonce))
      && (forall v | v in net.nodes[f.to].peers && v != f.from :: Coming(news, f.to, v))
    else news == []
  }

  /** One more holder, or none. */
  lemma HoldersAfter(w: Wave, net: Net, net': Net, i: nat, news: seq<Frame>)
    requires Delivery(w, net, net', i, news)
    ensures var v := net.flight[i].to;
            && Holders(w, net') == Holders(w, net) + {v}
            && |Holders(w, net')| == |Holders(w, net)| + (if Has(w, net, v) then 0 else 1)
    ensures forall u :: Has(w, net', u) <==> Has(w, net, u) || u == net.flight[i].to
  {
    var v := net.flight[i].to;
    assert Holders(w, net') == Holders(w, net) + {v};
    if Has(w, net, v) { assert Holders(w, net) + {v} == Holders(w, net); }
  }

  lemma NodeAfter(w: Wave, net: Net, net': Net, i: nat, news: seq<Frame>, v: nat)
    requires Delivery(w, net, net', i, news) && FrameOn(w, net, net.flight[i], |Holders(w, net)|)
    requires v in net.nodes && v in w.start.nodes && NodeOn(w, net.nodes[v], w.start.nodes[v], |Holders(w, net)|)
    ensures NodeOn(w, net'.nodes[v], w.start.nodes[v], |Holders(w, net')|)
  {
    HoldersAfter(w, net, net', i, news);
  }

  lemma NodesAfter(w: Wave, net: Net, net': Net, i: nat, news: seq<Frame>)
    requires NodesOn(w, net) && Delivery(w, net, net', i, news)
    requires FrameOn(w, net, net.flight[i], |Holders(w, net)|)
    ensures NodesOn(w, net')
  {
    forall v | v in net'.nodes
      ensures NodeOn(w, net'.nodes[v], w.start.nodes[v], |Holders(w, net')|)
    {
      NodeAfter(w, net, net', i, news, v);
    }
  }

  lemma AccountAfter(w: Wave, net: Net, net': Net, i: nat, news: seq<Frame>, v: nat, u: nat)
    requires Delivery(w, net, net', i, news) && SameAccount(w, net, v, u)
    requires v != net.flight[i].to || u != net.flight[i].from
    ensures SameAccount(w, net', v, u)
  {
    if v == net.flight[i].to { assert PeerOf(net'.nodes[v], u) == PeerOf(net.nodes[v], u); }
  }

  lemma UnchargedAfter(w: Wave, net: Net, net': Net, i: nat, news: seq<Frame>)
    requires Uncharged(w, net) && Delivery(w, net, net', i, news) && Has(w, net, net.flight[i].from)
    ensures Uncharged(w, net')
  {
    HoldersAfter(w, net, net', i, news);
    forall u, v | !Has(w, net', u) && v in net'.nodes
      ensures SameAccount(w, net', v, u)
    {
      AccountAfter(w, net, net', i, news, v, u);
    }
  }

  lemma OldFrameAfter(w: Wave, net: Net, net': Net, i: nat, news: seq<Frame>, g: Frame)
    requires Delivery(w, net, net', i, news) && FrameOn(w, net, g, |Holders(w, net)|)
    requires g.from != net.flight[i].from || g.to != net.flight[i].to
    ensures FrameOn(w, net', g, |Holders(w, net')|)
  {
    HoldersAfter(w, net, net', i, news);
    AccountAfter(w, net, net', i, news, g.to, g.from);
  }

  /** A node's contacts are those it started with. */
  lemma SameContacts(w: Wave, net: Net, u: nat)
    requires NodesOn(w, net) && u in net.nodes
    ensures u in w.start.nodes && net.nodes[u].peers.Keys == w.start.nodes[u].peers.Keys <= net.nodes.Keys
    ensures forall v | v in net.nodes[u].peers :: Meets(w.start, u, v)
  {
    assert NodeOn(w, net.nodes[u], w.start.nodes[u], |Holders(w, net)|);
  }

  lemma NewFrameAfter(w: Wave, net: Net, net': Net, i: nat, news: seq<Frame>, g: Frame)
    requires NodesOn(w, net) && Uncharged(w, net) && Delivery(w, net, net', i, news) && g in news
    requires FrameOn(w, net, net.flight[i], |Holders(w, net)|)
    ensures FrameOn(w, net', g, |Holders(w, net')|)
  {
    HoldersAfter(w, net, net', i, news);
    SameContacts(w, net, net.flight[i].to);
    NewFrameWay(w, net, net.flight[i], news, g);
    assert SameAccount(w, net, g.to, g.from);
    AccountAfter(w, net, net', i, news, g.to, g.from);
  }

  lemma NewFrameWay(w: Wave, net: Net, f: Frame, news: seq<Frame>, g: Frame)
    requires f.to in net.nodes && f.message.Data? && Sends(w, net, f, news) && g in news && Has(w, net, f.from)
    requires forall v | v in net.nodes[f.to].peers :: v in net.nodes && Meets(w.start, f.to, v)
    ensures !Has(w, net, f.to) && g.from == f.to && f.from != f.to && Meets(w.start, g.from, g.to)
    ensures g.to in net.nodes && f.message.envelope.ttlHops >= 2
    ensures g.message == Data(f.message.envelope.(ttlHops := f.message.envelope.ttlHops - 1), w.nonce)
  {
  }

  lemma FramesAfter(w: Wave, net: Net, net': Net, i: nat, news: seq<Frame>)
    requires NodesOn(w, net) && FramesOn(w, net) && Uncharged(w, net) && OneWay(net.flight)
    requires Delivery(w, net, net', i, news)
    ensures FramesOn(w, net')
  {
    RestFrames(net.flight, i);
    assert FrameOn(w, net, net.flight[i], |Holders(w, net)|);
    forall g | g in net'.flight
      ensures FrameOn(w, net', g, |Holders(w, net')|)
    {
      if g in news {
        NewFrameAfter(w, net, net', i, news, g);
      } else {
        assert g in net.flight;
        OldFrameAfter(w, net, net', i, news, g);
      }
    }
  }

  /** No frame of the receiver was on its way, as it held nothing. */
  lemma OneWayAfter(w: Wave, net: Net, net': Net, i: nat, news: seq<Frame>)
    requires FramesOn(w, net) && OneWay(net.flight) && Delivery(w, net, net', i, news)
    ensures OneWay(net'.flight)
  {
    var rest := Without(net.flight, i);
    RestFrames(net.flight, i);
    if news != [] {
      forall j, k | 0 <= j < |rest| && 0 <= k < |news|
        ensures rest[j].from != news[k].from
      {
        assert rest[j] in rest && news[k] in news;
        assert FrameOn(w, net, rest[j], |Holders(w, net)|);
      }
      OneWayJoined(rest, news);
    } else {
      assert net'.flight == rest;
    }
  }

  lemma OneWayJoined(rest: seq<Frame>, news: seq<Frame>)
    requires OneWay(rest) && OneWay(news)
    requires forall j, k | 0 <= j < |rest| && 0 <= k < |news| :: rest[j].from != news[k].from
    ensures OneWay(rest + news)
  {
  }

  lemma ComingStill(flight: seq<Frame>, rest: seq<Frame>, news: seq<Frame>, u: nat, v: nat)
    requires Coming(rest, u, v) || Coming(news, u, v)
    requires flight == rest + news
    ensures Coming(flight, u, v)
  {
    if Coming(rest, u, v) {
      var f :| f in rest && f.from == u && f.to == v;
      assert f in flight;
    } else {
      var f :| f in news && f.from == u && f.to == v;
      assert f in flight;
    }
  }

  lemma ComingApart(flight: seq<Frame>, i: nat, u: nat, v: nat)
    requires i < |flight| && OneWay(flight) && Coming(flight, u, v) && (u != flight[i].from || v != flight[i].to)
    ensures Coming(Without(flight, i), u, v)
  {
    RestFrames(flight, i);
    var g :| g in flight && g.from == u && g.to == v;
    assert g in Without(flight, i);
  }

  /** With as many hops spent as there are holders, the last hop is needed for the last node only. */
  lemma LastHop(w: Wave, net': Net, v: nat)
    requires net'.nodes.Keys == w.start.nodes.Keys && |w.start.nodes| <= |Holders(w, net')| && v in net'.nodes
    ensures Has(w, net', v)
  {
    var all := w.start.nodes.Keys;
    assert |all| == |w.start.nodes| && Holders(w, net') <= all;
    SubsetSize(Holders(w, net'), all);
    assert v in Holders(w, net');
  }

  lemma NewcomerServes(w: Wave, net: Net, net': Net, i: nat, news: seq<Frame>, v: nat)
    requires NodesOn(w, net) && Delivery(w, net, net', i, news) && |w.start.nodes| <= w.e.ttlHops
    requires FrameOn(w, net, net.flight[i], |Holders(w, net)|) && !Has(w, net, net.flight[i].to)
    requires Meets(w.start, net.flight[i].to, v)
    ensures Has(w, net', v) || Coming(news, net.flight[i].to, v)
  {
    HoldersAfter(w, net, net', i, news);
    SameContacts(w, net, net.flight[i].to);
    if net.flight[i].message.envelope.ttlHops == 1 {
      LastHop(w, net', v);
    } else if v == net.flight[i].from {
      assert Has(w, net, v);
    } else {
      SentOn(w, net, net.flight[i], news, v);
    }
  }

  lemma SentOn(w: Wave, net: Net, f: Frame, news: seq<Frame>, v: nat)
    requires f.to in net.nodes && f.message.Data? && Sends(w, net, f, news) && !Has(w, net, f.to)
    requires f.message.envelope.ttlHops >= 2 && v in net.nodes[f.to].peers && v != f.from
    ensures Coming(news, f.to, v)
  {
  }

  lemma ServedAfter(w: Wave, net: Net, net': Net, i: nat, news: seq<Frame>)
    requires NodesOn(w, net) && Served(w, net) && OneWay(net.flight) && Delivery(w, net, net', i, news)
    requires FrameOn(w, net, net.flight[i], |Holders(w, net)|) && |w.start.nodes| <= w.e.ttlHops
    ensures Served(w, net')
  {
    HoldersAfter(w, net, net', i, news);
    forall u, v | Has(w, net', u) && Meets(w.start, u, v)
      ensures Has(w, net', v) || Coming(net'.flight, u, v)
    {
      if !Has(w, net', v) {
        if Has(w, net, u) {
          ComingApart(net.flight, i, u, v);
        } else {
          NewcomerServes(w, net, net', i, news, v);
        }
        ComingStill(net'.flight, Without(net.flight, i), news, u, v);
      }
    }
  }

  lemma FromComposerAfter(w: Wave, net: Net, net': Net, i: nat, news: seq<Frame>)
    requires FromComposer(w, net) && Delivery(w, net, net', i, news)
    requires FrameOn(w, net, net.flight[i], |Holders(w, net)|)
    ensures FromComposer(w, net')
  {
    HoldersAfter(w, net, net', i, news);
    LinkedMore(w.start, w.origin, net.flight[i].from, net.flight[i].to);
  }

  lemma DeliverySpreads(w: Wave, net: Net, net': Net, i: nat, news: seq<Frame>)
    requires |w.start.nodes| <= w.e.ttlHops && Spreading(w, net) && Delivery(w, net, net', i, news)
    ensures Spreading(w, net')
  {
    assert FrameOn(w, net, net.flight[i], |Holders(w, net)|);
    NodesAfter(w, net, net', i, news);
    FramesAfter(w, net, net', i, news);
    OneWayAfter(w, net, net', i, news);
    UnchargedAfter(w, net, net', i, news);
    ServedAfter(w, net, net', i, news);
    FromComposerAfter(w, net, net', i, news);
  }

  // ----- the steps of a run -----

  /** What the start says of one node. */
  lemma StartNode(o: Oracles, w: Wave, v: nat)
    requires Starts(o, w) && v in w.start.nodes
    ensures Roomy(w.start.nodes[v], w.e) && Puzzle.Verifies(o.digest, w.id, w.nonce, w.start.nodes[v].difficulty)
    ensures forall u | Meets(w.start, u, v) :: u in w.start.nodes[v].peers
    ensures w.id == w.e.Id() && Carries(Data(w.e, 0))
  {
    assert forall u | Meets(w.start, u, v) :: Meets(w.start, v, u);
  }

  lemma CopyTaken(o: Oracles, w: Wave, net: Net, f: Frame, now: nat)
    requires Starts(o, w) && NodesOn(w, net) && FrameOn(w, net, f, |Holders(w, net)|) && now < w.e.expiresAt
    ensures var (n', sent) := Handle(o, net.nodes[f.to], f, now);
            Taken(w, net.nodes[f.to], f.from, f.message, n', sent)
  {
    StartNode(o, w, f.to);
    assert NodeOn(w, net.nodes[f.to], w.start.nodes[f.to], |Holders(w, net)|);
    TakesCopy(o, w, net.nodes[f.to], w.start.nodes[f.to], f, now, |Holders(w, net)|);
  }

  lemma FramesSent(w: Wave, net: Net, f: Frame, sender: Net, outs: seq<Outbound>, sent: set<Outbound>, n': Node)
    requires f.to in net.nodes && f.message.Data? && Taken(w, net.nodes[f.to], f.from, f.message, n', sent)
    requires Enumerates(outs, sent)
    ensures NodeTakes(w, net.nodes[f.to], f.from, f.message, n')
    ensures Sends(w, net, f, SentFrames(sender, f.to, outs))
  {
    if Has(w, net, f.to) || f.message.envelope.ttlHops < 2 {
      assert outs == [] by { EnumerateSize(outs, sent); }
    } else {
      SentOneWay(sender, f.to, outs, sent, net.nodes[f.to].peers.Keys - {f.from}, f.message.envelope, w.nonce);
    }
  }

  lemma StepIsDelivery(w: Wave, net: Net, i: nat, outs: seq<Outbound>, sent: set<Outbound>, n': Node, net': Net,
                       sender: Net)
    requires i < |net.flight| && net.flight[i].to in net.nodes && net.flight[i].message.Data?
    requires Taken(w, net.nodes[net.flight[i].to], net.flight[i].from, net.flight[i].message, n', sent)
    requires Enumerates(outs, sent) && net'.nodes == net.nodes[net.flight[i].to := n']
    requires net'.flight == Without(net.flight, i) + SentFrames(sender, net.flight[i].to, outs)
    ensures Delivery(w, net, net', i, SentFrames(sender, net.flight[i].to, outs))
  {
    FramesSent(w, net, net.flight[i], sender, outs, sent, n');
  }

  lemma DeliverSpreads(o: Oracles, w: Wave, net: Net, event: Event)
    requires Starts(o, w) && Spreading(w, net) && event.Deliver? && event.now < w.e.expiresAt && Possible(o, net, event)
    ensures Spreading(w, Step(o, net, event))
  {
    var i, sender := event.i, Arrived(o, net, event.i, event.now);
    assert FrameOn(w, net, net.flight[i], |Holders(w, net)|);
    DeliverNet(o, net, i, event.now, event.outs);
    CopyTaken(o, w, net, net.flight[i], event.now);
    var (n', sent) := Handle(o, net.nodes[net.flight[i].to], net.flight[i], event.now);
    StepIsDelivery(w, net, i, event.outs, sent, n', Step(o, net, event), sender);
    DeliverySpreads(w, net, Step(o, net, event), i, SentFrames(sender, net.flight[i].to, event.outs));
  }

  // ----- the start -----

  lemma StoreInserts(n: Node, e: Envelope, now: nat)
    requires Roomy(n, e) && now < e.expiresAt && e.ttlHops >= 1
    ensures var s' := AcceptStep(n.store, e, now).0;
            Valid(s') && e.Id() in s'.entries && s'.entries[e.Id()].envelope == e
  {
    StoreTakes(n.store, e, now);
  }

  /** The net once the envelope has been composed, whatever the order its copies are sent in. */
  ghost predicate Composing(w: Wave, net': Net, frames: seq<Frame>) {
    && w.origin in w.start.nodes && net'.nodes.Keys == w.start.nodes.Keys && net'.flight == frames
    && (forall v | v in w.start.nodes && v != w.origin :: net'.nodes[v] == w.start.nodes[v])
    && var n, n' := w.start.nodes[w.origin], net'.nodes[w.origin];
       && Valid(n'.store) && n'.peers == n.peers && n'.difficulty == n.difficulty && n'.limits == n.limits
       && w.id in n'.store.entries && n'.store.entries[w.id].envelope == w.e
       && OneWay(frames)
       && (forall f | f in frames ::
             && f.from == w.origin && f.to in n.peers && w.e.ttlHops >= 2
             && f.message == Data(w.e.(ttlHops := w.e.ttlHops - 1), w.nonce))
       && (w.e.ttlHops >= 2 ==> forall v | v in n.peers :: Coming(frames, w.origin, v))
  }

  lemma OneHolder(o: Oracles, w: Wave, net': Net, frames: seq<Frame>)
    requires Starts(o, w) && Composing(w, net', frames)
    ensures Holders(w, net') == {w.origin} && |Holders(w, net')| == 1
    ensures forall v :: Has(w, net', v) <==> v == w.origin
  {
    forall v | v in w.start.nodes
      ensures w.id !in w.start.nodes[v].store.entries
    {
      StartNode(o, w, v);
    }
    assert Holders(w, net') == {w.origin};
  }

  lemma ComposedFrame(o: Oracles, w: Wave, net': Net, frames: seq<Frame>, f: Frame)
    requires Starts(o, w) && Composing(w, net', frames) && f in frames
    ensures FrameOn(w, net', f, |Holders(w, net')|)
  {
    OneHolder(o, w, net', frames);
    assert w.start.nodes[w.origin].peers.Keys <= w.start.nodes.Keys;
  }

  lemma ComposedServes(o: Oracles, w: Wave, net': Net, frames: seq<Frame>)
    requires Starts(o, w) && Composing(w, net', frames)
    ensures Served(w, net')
  {
    OneHolder(o, w, net', frames);
    forall u, v | Has(w, net', u) && Meets(w.start, u, v)
      ensures Has(w, net', v) || Coming(net'.flight, u, v)
    {
      if w.e.ttlHops < 2 { LastHop(w, net', v); }
    }
  }

  lemma ComposedNode(w: Wave, net': Net, frames: seq<Frame>, v: nat)
    requires Composing(w, net', frames) && v in w.start.nodes && Valid(w.start.nodes[v].store)
    requires w.id !in w.start.nodes[v].store.entries
    ensures NodeOn(w, net'.nodes[v], w.start.nodes[v], 1)
  {
  }

  lemma ComposedNodes(o: Oracles, w: Wave, net': Net, frames: seq<Frame>)
    requires Starts(o, w) && Composing(w, net', frames)
    ensures NodesOn(w, net')
  {
    OneHolder(o, w, net', frames);
    forall v | v in net'.nodes
      ensures NodeOn(w, net'.nodes[v], w.start.nodes[v], |Holders(w, net')|)
    {
      StartNode(o, w, v);
      ComposedNode(w, net', frames, v);
    }
  }

  lemma ComposedUncharged(w: Wave, net': Net, frames: seq<Frame>)
    requires Composing(w, net', frames)
    ensures Uncharged(w, net')
  {
    forall u, v | v in net'.nodes
      ensures SameAccount(w, net', v, u)
    {
    }
  }

  lemma ComposedFrames(o: Oracles, w: Wave, net': Net, frames: seq<Frame>)
    requires Starts(o, w) && Composing(w, net', frames)
    ensures FramesOn(w, net')
  {
    forall f | f in net'.flight
      ensures FrameOn(w, net', f, |Holders(w, net')|)
    {
      ComposedFrame(o, w, net', frames, f);
    }
  }

  lemma ComposingSpreads(o: Oracles, w: Wave, net': Net, frames: seq<Frame>)
    requires Starts(o, w) && Composing(w, net', frames)
    ensures Spreading(w, net')
  {
    OneHolder(o, w, net', frames);
    ComposedNodes(o, w, net', frames);
    ComposedFrames(o, w, net', frames);
    ComposedUncharged(w, net', frames);
    ComposedServes(o, w, net', frames);
    assert Walk(w.start, w.origin, w.origin, [w.origin]);
  }

  lemma ComposeTakes(o: Oracles, n: Node, e: Envelope, now: nat) returns (nonce: u64)
    requires Roomy(n, e) && now < e.expiresAt && e.ttlHops >= 1 && Puzzle.Solvable(o.digest, e.Id(), n.difficulty)
    ensures Puzzle.Verifies(o.digest, e.Id(), nonce, n.difficulty)
    ensures var (n', _, sent) := Compose(o, n, e, now);
            && Valid(n'.store) && e.Id() in n'.store.entries && n'.store.entries[e.Id()].envelope == e
            && n'.peers == n.peers && n'.difficulty == n.difficulty && n'.limits == n.limits
            && (if e.ttlHops >= 2 then OneEach(sent, n.peers.Keys, e, nonce) else sent == {})
  {
    StoreInserts(n, e, now);
    ComposeFloods(o, n, e, now);
    var (n', _, sent) := Compose(o, n, e, now);
    nonce :| Puzzle.Verifies(o.digest, e.Id(), nonce, n.difficulty)
             && Flooded(n.store.entries, n'.store.entries, sent, n.peers.Keys, e, nonce);
  }

  lemma ComposeNet(o: Oracles, net: Net, origin: nat, e: Envelope, now: nat, outs: seq<Outbound>)
    requires Possible(o, net, Composed(origin, e, now, outs)) && net.flight == []
    ensures var net' := Step(o, net, Composed(origin, e, now, outs));
            && net'.nodes == net.nodes[origin := Compose(o, net.nodes[origin], e, now).0]
            && net'.flight == SentFrames(ComposedAt(o, net, origin, e, now), origin, outs)
  {
  }

  lemma StepIsComposing(w: Wave, net': Net, sender: Net, outs: seq<Outbound>, sent: set<Outbound>, n': Node)
    requires w.origin in w.start.nodes && w.id == w.e.Id() && net'.nodes == w.start.nodes[w.origin := n']
    requires net'.flight == SentFrames(sender, w.origin, outs) && Enumerates(outs, sent)
    requires var n := w.start.nodes[w.origin];
             && Valid(n'.store) && w.id in n'.store.entries && n'.store.entries[w.id].envelope == w.e
             && n'.peers == n.peers && n'.difficulty == n.difficulty && n'.limits == n.limits
             && (if w.e.ttlHops >= 2 then OneEach(sent, n.peers.Keys, w.e, w.nonce) else sent == {})
    ensures Composing(w, net', net'.flight)
  {
    if w.e.ttlHops >= 2 {
      SentOneWay(sender, w.origin, outs, sent, w.start.nodes[w.origin].peers.Keys, w.e, w.nonce);
    } else {
      assert outs == [] by { EnumerateSize(outs, sent); }
    }
  }

  lemma NodesCount(net: Net, v: nat)
    requires v in net.nodes
    ensures |net.nodes| >= 1
  {
    assert v in net.nodes.Keys && |net.nodes.Keys| == |net.nodes|;
  }

  lemma ComposeIsComposing(o: Oracles, net: Net, origin: nat, e: Envelope, now: nat, outs: seq<Outbound>)
    returns (w: Wave)
    requires Quiet(o, net, origin, e) && |net.nodes| <= e.ttlHops && now < e.expiresAt
    requires Possible(o, net, Composed(origin, e, now, outs))
    ensures w.start == net && w.origin == origin && w.e == e && Starts(o, w)
    ensures var net' := Step(o, net, Composed(origin, e, now, outs)); Composing(w, net', net'.flight)
  {
    NodesCount(net, origin);
    var nonce := ComposeTakes(o, net.nodes[origin], e, now);
    w := Wave(net, origin, e, e.Id(), nonce);
    ComposeNet(o, net, origin, e, now, outs);
    var (n', _, sent) := Compose(o, net.nodes[origin], e, now);
    var net' := Step(o, net, Composed(origin, e, now, outs));
    StepIsComposing(w, net', ComposedAt(o, net, origin, e, now), outs, sent, n');
  }

  // ----- the whole run -----

  /** Only deliveries, each before the envelope expires. */
  ghost predicate OnlyDelivers(events: seq<Event>, deadline: nat) {
    forall event | event in events :: event.Deliver? && event.now < deadline
  }

  lemma {:induction false} RunSpreads(o: Oracles, w: Wave, net: Net, events: seq<Event>)
    requires Starts(o, w) && Spreading(w, net) && PossibleRun(o, net, events) && OnlyDelivers(events, w.e.expiresAt)
    ensures Spreading(w, After(o, net, events))
    decreases |events|
  {
    if events == [] {
    } else {
      assert events[0] in events && forall event | event in events[1..] :: event in events;
      DeliverSpreads(o, w, net, events[0]);
      RunSpreads(o, w, Step(o, net, events[0]), events[1..]);
    }
  }

  /** When nothing is in flight any more every node the composer is linked to has been served. */
  lemma SettledIff(w: Wave, net: Net, v: nat)
    requires Spreading(w, net) && net.flight == [] && v in net.nodes
    ensures Has(w, net, v) <==> Linked(w.start, w.origin, v)
  {
    if Linked(w.start, w.origin, v) {
      var path :| Walk(w.start, w.origin, v, path);
      forall a, b | a in Holders(w, net) && Meets(w.start, a, b)
        ensures b in Holders(w, net)
      {
        assert Has(w, net, a) && !Coming(net.flight, a, b);
      }
      LinkedWithin(w.start, w.origin, v, path, Holders(w, net));
    }
  }

  /** Flooding: composed in a quiet net of at most as many nodes as it has hops, with room and budget for it at each
      node and without loss, an envelope is held, once all frames have been delivered, in whatever order, by exactly
      the nodes that contacts link to its composer; so by all of them if the net is connected. */
  lemma ReachesAllLinked(o: Oracles, net: Net, origin: nat, e: Envelope, now: nat, outs: seq<Outbound>,
                         events: seq<Event>, v: nat)
    requires Quiet(o, net, origin, e) && |net.nodes| <= e.ttlHops && now < e.expiresAt && v in net.nodes
    requires Possible(o, net, Composed(origin, e, now, outs))
    requires PossibleRun(o, Step(o, net, Composed(origin, e, now, outs)), events) && OnlyDelivers(events, e.expiresAt)
    requires After(o, Step(o, net, Composed(origin, e, now, outs)), events).flight == []
    ensures var net' := After(o, Step(o, net, Composed(origin, e, now, outs)), events);
            v in net'.nodes && (e.Id() in net'.nodes[v].store.entries <==> Linked(net, origin, v))
  {
    var start := Step(o, net, Composed(origin, e, now, outs));
    var w := ComposeIsComposing(o, net, origin, e, now, outs);
    ComposingSpreads(o, w, start, start.flight);
    RunSpreads(o, w, start, events);
    SettledIff(w, After(o, start, events), v);
  }

  /** Such a run there always is: what is in flight can be delivered until nothing is. */
  lemma {:induction false} Drained(o: Oracles, net: Net, capacity: nat, now: nat) returns (events: seq<Event>)
    requires Closed(net, capacity)
    ensures PossibleRun(o, net, events) && OnlyDelivers(events, now + 1) && After(o, net, events).flight == []
    decreases Rank(net, capacity)
  {
    if net.flight == [] {
      events := [];
    } else {
      var first := NextDelivery(o, net, capacity, now);
      DrainDrops(o, net, first, Step(o, net, first), capacity);
      var rest := Drained(o, Step(o, net, first), capacity, now);
      events := [first] + rest;
      assert events[1..] == rest;
    }
  }

  lemma NextDelivery(o: Oracles, net: Net, capacity: nat, now: nat) returns (event: Event)
    requires Closed(net, capacity) && net.flight != []
    ensures Possible(o, net, event) && event.Deliver? && event.now == now
  {
    var f := net.flight[0];
    assert f in net.flight;
    var outs := EnumerationExists(Handle(o, net.nodes[f.to], f, now).1);
    event := Deliver(0, now, outs);
  }

  lemma ClosedWith(w: Wave, net: Net, capacity: nat)
    requires NodesOn(w, net) && FramesOn(w, net)
    requires forall v | v in net.nodes :: net.nodes[v].store.capacity <= capacity
    ensures Closed(net, capacity)
  {
    forall v | v in net.nodes
      ensures Valid(net.nodes[v].store) && net.nodes[v].peers.Keys <= net.nodes.Keys
    {
      SameContacts(w, net, v);
      assert NodeOn(w, net.nodes[v], w.start.nodes[v], |Holders(w, net)|);
    }
    forall f | f in net.flight
      ensures f.from in net.nodes && f.to in net.nodes && f.message.Valid()
    {
      assert FrameOn(w, net, f, |Holders(w, net)|);
    }
  }

  lemma ComposingClosed(o: Oracles, w: Wave, net': Net, n': Node, capacity: nat)
    requires Starts(o, w) && Composing(w, net', net'.flight) && net'.nodes == w.start.nodes[w.origin := n']
    requires forall v | v in w.start.nodes :: w.start.nodes[v].store.capacity <= capacity
    requires n'.store.capacity <= capacity
    ensures Closed(net', capacity)
  {
    ComposedNodes(o, w, net', net'.flight);
    ComposedFrames(o, w, net', net'.flight);
    ClosedWith(w, net', capacity);
  }

  lemma ComposedCapacity(o: Oracles, n: Node, e: Envelope, now: nat)
    requires Roomy(n, e)
    ensures Compose(o, n, e, now).0.store.capacity == n.store.capacity
  {
    SameCapacity(n.store, e, now);
  }

  lemma ComposedClosed(o: Oracles, net: Net, origin: nat, e: Envelope, now: nat, outs: seq<Outbound>, capacity: nat)
    requires Quiet(o, net, origin, e) && |net.nodes| <= e.ttlHops && now < e.expiresAt
    requires Possible(o, net, Composed(origin, e, now, outs))
    requires forall v | v in net.nodes :: net.nodes[v].store.capacity <= capacity
    ensures Closed(Step(o, net, Composed(origin, e, now, outs)), capacity)
  {
    var w := ComposeIsComposing(o, net, origin, e, now, outs);
    ComposeNet(o, net, origin, e, now, outs);
    ComposedCapacity(o, net.nodes[origin], e, now);
    var n' := Compose(o, net.nodes[origin], e, now).0;
    ComposingClosed(o, w, Step(o, net, Composed(origin, e, now, outs)), n', capacity);
  }

  lemma SameCapacity(s: StoreState, e: Envelope, now: nat)
    requires Valid(s)
    ensures AcceptStep(s, e, now).0.capacity == s.capacity
  {
    AcceptEffect(s, e, now);
  }

  lemma SoonerDelivers(events: seq<Event>, sooner: nat, later: nat)
    requires OnlyDelivers(events, sooner) && sooner <= later
    ensures OnlyDelivers(events, later)
  {
  }

  /** Such a run exists from every such net, for every urgency, payload and difficulty: the flood always completes. */
  lemma FloodCompletes(o: Oracles, net: Net, origin: nat, e: Envelope, now: nat, capacity: nat)
    returns (outs: seq<Outbound>, events: seq<Event>)
    requires Quiet(o, net, origin, e) && |net.nodes| <= e.ttlHops && now < e.expiresAt
    requires forall v | v in net.nodes :: net.nodes[v].store.capacity <= capacity
    ensures Possible(o, net, Composed(origin, e, now, outs))
    ensures var start := Step(o, net, Composed(origin, e, now, outs));
            && PossibleRun(o, start, events) && OnlyDelivers(events, e.expiresAt)
            && var net' := After(o, start, events);
               && net'.flight == []
               && forall v | v in net.nodes ::
                    v in net'.nodes && (e.Id() in net'.nodes[v].store.entries <==> Linked(net, origin, v))
  {
    outs := EnumerationExists(Compose(o, net.nodes[origin], e, now).2);
    var start := Step(o, net, Composed(origin, e, now, outs));
    ComposedClosed(o, net, origin, e, now, outs, capacity);
    events := Drained(o, start, capacity, now);
    SoonerDelivers(events, now + 1, e.expiresAt);
    forall v | v in net.nodes
      ensures var net' := After(o, start, events);
              v in net'.nodes && (e.Id() in net'.nodes[v].store.entries <==> Linked(net, origin, v))
    {
      ReachesAllLinked(o, net, origin, e, now, outs, events, v);
    }
  }
}
